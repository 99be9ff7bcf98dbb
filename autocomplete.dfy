/**
 * The address-autocomplete state machine of `populateAddressControl`
 * (index.ts), stripped of the DOM and the network: one transition function per
 * event handler over a `State` value, and the laws those handlers keep.
 * The class in control.dfy is proved to follow these functions step by step.
 */
module Autocomplete {
  import opened Wrappers
  import Navigation

  /** Queries shorter than this, in UTF-16 code units, are never sent. */
  const MinQueryLength: nat := 3
  /** The number of results every request asks the geocoding service for. */
  const ResultLimit: nat := 5
  /** The country filter used when the host leaves the country parameter empty. */
  const DefaultCountry: string := "ae"

  /**
   * The `display` style of the suggestion panel: the empty string it starts
   * with (the browser's default, so the empty panel is rendered), `"none"`,
   * or `"block"`.
   */
  datatype Display = Unstyled | Hidden | Shown

  /** The keys the keydown handler distinguishes. */
  datatype Key = ArrowDown | ArrowUp | Enter | OtherKey

  /**
   * How a geocoding request ends: rejected (network error, non-2xx status,
   * malformed JSON) or with a parsed body, whose `display_name`s are listed in
   * response order; `None` is a JSON `null` body.
   */
  datatype Response = Failed | Received(results: Option<seq<string>>)

  /** An outbound lookup: the free-text query, the country filter and the result cap. */
  datatype Request = Request(query: string, countryCode: string, limit: nat)

  /**
   * The fields the handlers read and write: the committed value (`None` until
   * the host first calls updateView), the text in the input box, the labels of
   * the suggestion entries in order, the highlighted index (-1 for none), the
   * panel's visibility, whether a debounce timer is pending, and how many times
   * the host has been notified of a new output.
   */
  datatype State = State(
    value: Option<string>,
    inputText: string,
    entries: seq<string>,
    active: int,
    display: Display,
    timerArmed: bool,
    notifications: nat)

  /** Everything that can happen to the control, one handler invocation each. */
  datatype Event =
    | Keystroke(text: string)
    | Timeout
    | Arrival(response: Response)
    | KeyPress(key: Key)
    | EntryHover(index: int)
    | EntryClick(index: int)
    | DocumentClick(inside: bool)
    | HostUpdate(raw: Option<string>)

  /**
   * The invariant the handlers keep: the highlight names an entry or is -1, and
   * the panel is only shown with something in it.
   */
  predicate Consistent(s: State) {
    -1 <= s.active < |s.entries| && (s.display == Shown ==> s.entries != [])
  }

  /** The state right after construction and `init`. */
  function Initial(): (s: State)
    ensures Consistent(s)
    ensures s.value.None? && s.entries == [] && !s.timerArmed && s.notifications == 0
  {
    State(None, "", [], -1, Unstyled, false, 0)
  }

  /**
   * JavaScript's `raw || fallback` on a `string | null` parameter: both `null`
   * and the empty string give way to the fallback.
   */
  function OrDefault(raw: Option<string>, fallback: string): (r: string)
    ensures r == fallback || raw == Some(r)
    ensures r == "" ==> fallback == ""
    ensures raw.Some? && raw.value != "" ==> r == raw.value
  {
    if raw.Some? && raw.value != "" then raw.value else fallback
  }

  /**
   * JavaScript's `length` of a string: the number of UTF-16 code units, so a
   * character outside the Basic Multilingual Plane (a surrogate pair) counts twice.
   */
  function Utf16Length(text: string): (n: nat)
    ensures |text| <= n <= 2 * |text|
    decreases |text|
  {
    if text == [] then 0
    else (if text[0] as int >= 0x1_0000 then 2 else 1) + Utf16Length(text[1..])
  }

  /** On text made only of Basic Multilingual Plane characters, `length` counts characters. */
  lemma {:induction false} Utf16LengthOfBmp(text: string)
    requires forall i :: 0 <= i < |text| ==> text[i] as int < 0x1_0000
    ensures Utf16Length(text) == |text|
    decreases |text|
  {
    if text != [] {
      Utf16LengthOfBmp(text[1..]);
    }
  }

  /** Each character outside the Basic Multilingual Plane adds one code unit to `length`. */
  lemma AstralCharacterCountsTwice()
    ensures Utf16Length("\U{1F3E0}A") == 3 && |"\U{1F3E0}A"| == 2
  {
    var text := "\U{1F3E0}A";
    assert text[1..] == "A";
    assert "A"[1..] == "";
  }

  /** The gate of fetchSuggestions: which request, if any, a query leads to. */
  function PlanFetch(query: string, countryCode: string): (r: Option<Request>)
    ensures r.Some? <==> Utf16Length(query) >= MinQueryLength
    ensures r.Some? ==> r.value.query == query && r.value.countryCode == countryCode
                        && r.value.limit == ResultLimit
  {
    if query == "" || Utf16Length(query) < MinQueryLength then None
    else Some(Request(query, countryCode, ResultLimit))
  }

  /** The `input` listener: the text changes and the one debounce slot is (re)armed. */
  function OnInput(s: State, text: string): (r: State)
    ensures r.inputText == text && r.timerArmed
    ensures r.(inputText := s.inputText, timerArmed := s.timerArmed) == s
    ensures Consistent(s) ==> Consistent(r)
  {
    s.(inputText := text, timerArmed := true)
  }

  /**
   * fetchSuggestions: a query that fails the gate only hides the panel;
   * one that passes issues a request and changes nothing yet.
   */
  function FetchSuggestions(s: State, query: string, countryCode: string): (r: (State, Option<Request>))
    ensures r.1 == PlanFetch(query, countryCode)
    ensures r.0.(display := s.display) == s
    ensures r.0.display == if r.1.None? then Hidden else s.display
    ensures Consistent(s) ==> Consistent(r.0)
  {
    var plan := PlanFetch(query, countryCode);
    if plan.None? then (s.(display := Hidden), None) else (s, plan)
  }

  /**
   * The debounce timer firing: it disarms, and hands the input text of the
   * moment it fires to fetchSuggestions. Without a pending timer nothing fires.
   */
  function OnTimer(s: State, countryCode: string): (r: (State, Option<Request>))
    ensures !r.0.timerArmed
    ensures r.1.Some? <==> s.timerArmed && Utf16Length(s.inputText) >= MinQueryLength
    ensures r.1.Some? ==> r.1.value == Request(s.inputText, countryCode, ResultLimit)
    ensures r.0.(display := s.display, timerArmed := s.timerArmed) == s
    ensures r.0.display == if s.timerArmed && Utf16Length(s.inputText) < MinQueryLength then Hidden else s.display
    ensures Consistent(s) ==> Consistent(r.0)
  {
    if !s.timerArmed then (s, None)
    else FetchSuggestions(s.(timerArmed := false), s.inputText, countryCode)
  }

  /**
   * A request settling. A failure is only logged. A parsed body replaces every
   * entry with its labels in order, drops the highlight, and shows the panel
   * exactly when there is at least one entry.
   */
  function OnResponse(s: State, resp: Response): (r: State)
    ensures resp.Failed? ==> r == s
    ensures resp.Received? ==> r.entries == resp.results.GetOr([]) && r.active == -1
    ensures resp.Received? ==> r.display != Unstyled && (r.display == Shown <==> r.entries != [])
    ensures r.(entries := s.entries, active := s.active, display := s.display) == s
    ensures Consistent(s) ==> Consistent(r)
  {
    match resp
    case Failed => s
    case Received(results) =>
      var labels := results.GetOr([]);
      s.(entries := labels, active := -1, display := if labels == [] then Hidden else Shown)
  }

  /**
   * selectSuggestion: the label becomes both the committed value and the input
   * text, the panel hides, and the host is notified exactly once.
   */
  function SelectSuggestion(s: State, choice: string): (r: State)
    ensures r.value == Some(choice) && r.inputText == choice && r.display == Hidden
    ensures r.notifications == s.notifications + 1
    ensures r.entries == s.entries && r.active == s.active && r.timerArmed == s.timerArmed
    ensures Consistent(s) ==> Consistent(r)
  {
    s.(value := Some(choice), inputText := choice, display := Hidden,
       notifications := s.notifications + 1)
  }

  /** highlightSuggestion: only the highlighted index changes. */
  function HighlightSuggestion(s: State, index: int): (r: State)
    requires 0 <= index < |s.entries|
    ensures r.active == index && r.(active := s.active) == s
    ensures Consistent(s) ==> Consistent(r)
  {
    s.(active := index)
  }

  /**
   * The keydown handler. With no entries, or for any other key, nothing
   * happens. The arrows move only the highlight, circularly; Enter commits the
   * highlighted label, and with no highlight does nothing.
   */
  function OnKeyDown(s: State, key: Key): (r: State)
    requires Consistent(s)
    ensures Consistent(r)
    ensures s.entries == [] || key == OtherKey || (key == Enter && s.active == -1) ==> r == s
    ensures key == ArrowDown || key == ArrowUp ==> r.(active := s.active) == s
    ensures s.entries != [] && key == ArrowDown ==> r.active == Navigation.NextIndex(s.active, |s.entries|)
    ensures s.entries != [] && key == ArrowUp ==> r.active == Navigation.PrevIndex(s.active, |s.entries|)
    ensures key == Enter && s.active >= 0 ==> r == SelectSuggestion(s, s.entries[s.active])
  {
    if s.entries == [] then s
    else
      match key
      case ArrowDown => HighlightSuggestion(s, Navigation.NextIndex(s.active, |s.entries|))
      case ArrowUp => HighlightSuggestion(s, Navigation.PrevIndex(s.active, |s.entries|))
      case Enter => if s.active >= 0 then SelectSuggestion(s, s.entries[s.active]) else s
      case OtherKey => s
  }

  /** The document-level click listener: a click outside the control only hides the panel. */
  function OnDocumentClick(s: State, inside: bool): (r: State)
    ensures r.(display := s.display) == s
    ensures r.display == if inside then s.display else Hidden
    ensures Consistent(s) ==> Consistent(r)
  {
    if inside then s else s.(display := Hidden)
  }

  /**
   * updateView: the host's value, with `null` and the empty string read as "",
   * becomes the committed value; value and input text are overwritten only when
   * it differs from the committed one, and the suggestion list is left alone.
   */
  function UpdateView(s: State, raw: Option<string>): (r: State)
    ensures r.value == Some(OrDefault(raw, ""))
    ensures s.value == r.value ==> r == s
    ensures s.value != r.value ==> r == s.(value := r.value, inputText := OrDefault(raw, ""))
    ensures Consistent(s) ==> Consistent(r)
  {
    var newValue := OrDefault(raw, "");
    if Some(newValue) != s.value then s.(value := Some(newValue), inputText := newValue) else s
  }

  /** Whether an event commits a suggestion: Enter on a highlight, or a click on an entry. */
  predicate Commits(s: State, e: Event) {
    match e
    case KeyPress(k) => k == Enter && s.entries != [] && s.active >= 0
    case EntryClick(i) => 0 <= i < |s.entries|
    case _ => false
  }

  /**
   * One event, with the request it issues, if any. A pointer event on an index
   * that has no entry names no element, so nothing happens.
   */
  function Step(s: State, e: Event, countryCode: string): (r: (State, Option<Request>))
    requires Consistent(s)
    ensures Consistent(r.0)
    ensures r.1.Some? ==> e == Timeout && r.1.value.query == s.inputText
    ensures r.0.notifications == s.notifications + (if Commits(s, e) then 1 else 0)
    ensures r.0.value != s.value ==> Commits(s, e) || e.HostUpdate?
    ensures r.0.entries != s.entries || (r.0.active == -1 && s.active != -1) ==> e.Arrival?
    ensures s.display != Shown && r.0.display == Shown ==> e.Arrival? && r.0.entries != []
    ensures s.display == Shown && r.0.display != Shown ==>
              r.0.display == Hidden
              && (Commits(s, e) || e == DocumentClick(false)
                  || (e == Timeout && Utf16Length(s.inputText) < MinQueryLength)
                  || (e.Arrival? && r.0.entries == []))
  {
    match e
    case Keystroke(text) => (OnInput(s, text), None)
    case Timeout => OnTimer(s, countryCode)
    case Arrival(resp) => (OnResponse(s, resp), None)
    case KeyPress(key) => (OnKeyDown(s, key), None)
    case EntryHover(i) =>
      if 0 <= i < |s.entries| then (HighlightSuggestion(s, i), None) else (s, None)
    case EntryClick(i) =>
      if 0 <= i < |s.entries| then (SelectSuggestion(s, s.entries[i]), None) else (s, None)
    case DocumentClick(inside) => (OnDocumentClick(s, inside), None)
    case HostUpdate(raw) => (UpdateView(s, raw), None)
  }

  /** The requests an optional request contributes to a trace. */
  function Issued(req: Option<Request>): seq<Request> {
    if req.Some? then [req.value] else []
  }

  /**
   * A sequence of events applied in arrival order, with every request issued
   * along the way; the invariant holds after every event.
   */
  function Run(s: State, es: seq<Event>, countryCode: string): (r: (State, seq<Request>))
    requires Consistent(s)
    ensures Consistent(r.0)
    ensures r.0.notifications >= s.notifications
    decreases |es|
  {
    if es == [] then (s, [])
    else
      var first := Step(s, es[0], countryCode);
      var rest := Run(first.0, es[1..], countryCode);
      (rest.0, Issued(first.1) + rest.1)
  }

  /** Running two sequences one after the other is running their concatenation. */
  lemma {:induction false} RunAppend(s: State, xs: seq<Event>, ys: seq<Event>, countryCode: string)
    requires Consistent(s)
    ensures var mid := Run(s, xs, countryCode);
            var end := Run(mid.0, ys, countryCode);
            Run(s, xs + ys, countryCode) == (end.0, mid.1 + end.1)
    decreases |xs|
  {
    if xs == [] {
      assert xs + ys == ys;
      assert Run(s, xs, countryCode) == (s, []);
      assert [] + Run(s, ys, countryCode).1 == Run(s, ys, countryCode).1;
    } else {
      var first := Step(s, xs[0], countryCode);
      assert (xs + ys)[0] == xs[0];
      assert (xs + ys)[1..] == xs[1..] + ys;
      RunAppend(first.0, xs[1..], ys, countryCode);
      var mid := Run(first.0, xs[1..], countryCode);
      var end := Run(mid.0, ys, countryCode);
      calc {
        Run(s, xs + ys, countryCode);
        (Run(first.0, xs[1..] + ys, countryCode).0, Issued(first.1) + Run(first.0, xs[1..] + ys, countryCode).1);
        (end.0, Issued(first.1) + (mid.1 + end.1));
        { assert Issued(first.1) + (mid.1 + end.1) == (Issued(first.1) + mid.1) + end.1; }
        (end.0, Run(s, xs, countryCode).1 + end.1);
      }
    }
  }

  /** One keystroke event per text, in order. */
  function Keystrokes(texts: seq<string>): (es: seq<Event>)
    ensures |es| == |texts|
  {
    if texts == [] then [] else [Keystroke(texts[0])] + Keystrokes(texts[1..])
  }

  /** A burst of keystrokes leaves the last text in the box and one pending timer, and issues nothing. */
  lemma {:induction false} KeystrokesOnly(s: State, texts: seq<string>, countryCode: string)
    requires Consistent(s) && texts != []
    ensures Run(s, Keystrokes(texts), countryCode)
            == (s.(inputText := texts[|texts| - 1], timerArmed := true), [])
    decreases |texts|
  {
    var es := Keystrokes(texts);
    var t := OnInput(s, texts[0]);
    assert es[0] == Keystroke(texts[0]) && es[1..] == Keystrokes(texts[1..]);
    assert Step(s, es[0], countryCode) == (t, None);
    if |texts| == 1 {
      assert es[1..] == [];
      assert Run(t, es[1..], countryCode) == (t, []);
    } else {
      KeystrokesOnly(t, texts[1..], countryCode);
      assert texts[1..][|texts[1..]| - 1] == texts[|texts| - 1];
    }
    assert t.(inputText := texts[|texts| - 1], timerArmed := true)
        == s.(inputText := texts[|texts| - 1], timerArmed := true);
    assert Run(s, es, countryCode) == (Run(t, es[1..], countryCode).0, [] + Run(t, es[1..], countryCode).1);
  }

  /**
   * Debounce: however many keystrokes precede it, the timer firing issues at
   * most one request, for the text typed last; a text shorter than three
   * characters issues none and hides the panel. Entries, highlight and value
   * are untouched.
   */
  lemma BurstIssuesOneRequest(s: State, texts: seq<string>, countryCode: string)
    requires Consistent(s) && texts != []
    ensures var last := texts[|texts| - 1];
            var r := Run(s, Keystrokes(texts) + [Timeout], countryCode);
            r.1 == (if Utf16Length(last) >= MinQueryLength then [Request(last, countryCode, ResultLimit)] else [])
            && r.0 == s.(inputText := last, timerArmed := false,
                         display := if Utf16Length(last) >= MinQueryLength then s.display else Hidden)
  {
    RunAppend(s, Keystrokes(texts), [Timeout], countryCode);
    KeystrokesOnly(s, texts, countryCode);
  }

  /** `k` copies of one event. */
  function Repeat(e: Event, k: nat): (es: seq<Event>)
    ensures |es| == k
  {
    if k == 0 then [] else [e] + Repeat(e, k - 1)
  }

  /** Repeated ArrowDown moves only the highlight, as Navigation.DownPresses says. */
  lemma {:induction false} ArrowDownPresses(s: State, k: nat, countryCode: string)
    requires Consistent(s) && s.entries != []
    ensures Run(s, Repeat(KeyPress(ArrowDown), k), countryCode)
            == (s.(active := Navigation.DownPresses(s.active, |s.entries|, k)), [])
    decreases k
  {
    if k > 0 {
      var es := Repeat(KeyPress(ArrowDown), k);
      assert es[0] == KeyPress(ArrowDown) && es[1..] == Repeat(KeyPress(ArrowDown), k - 1);
      var t := OnKeyDown(s, ArrowDown);
      assert Step(s, es[0], countryCode) == (t, None);
      ArrowDownPresses(t, k - 1, countryCode);
      var n := |s.entries|;
      assert t == s.(active := Navigation.NextIndex(s.active, n));
      var target := Navigation.DownPresses(s.active, n, k);
      assert target == Navigation.DownPresses(t.active, n, k - 1);
      assert t.(active := target) == s.(active := target);
      var noRequests: seq<Request> := [];
      assert [] + Run(t, es[1..], countryCode).1 == noRequests;
      assert Run(s, es, countryCode) == (s.(active := target), noRequests);
    } else {
      assert s.(active := s.active) == s;
    }
  }

  /** With an entry highlighted, pressing ArrowDown once per entry restores the state. */
  lemma ArrowDownCycle(s: State, countryCode: string)
    requires Consistent(s) && s.active >= 0
    ensures Run(s, Repeat(KeyPress(ArrowDown), |s.entries|), countryCode) == (s, [])
  {
    ArrowDownPresses(s, |s.entries|, countryCode);
    Navigation.DownCycle(s.active, |s.entries|);
  }

  /** With no highlight, pressing ArrowDown once per entry ends on the last entry, not on -1. */
  lemma ArrowDownFromNone(s: State, countryCode: string)
    requires Consistent(s) && s.entries != [] && s.active == -1
    ensures Run(s, Repeat(KeyPress(ArrowDown), |s.entries|), countryCode).0
            == s.(active := |s.entries| - 1)
  {
    ArrowDownPresses(s, |s.entries|, countryCode);
    Navigation.DownFromNone(|s.entries|);
  }

  /**
   * Hiding the panel does not stop the keyboard: after an outside click the
   * keys act on the hidden entries exactly as on shown ones.
   */
  lemma HiddenEntriesStayNavigable(s: State, key: Key)
    requires Consistent(s)
    ensures OnKeyDown(OnDocumentClick(s, false), key).(display := Hidden)
            == OnKeyDown(s, key).(display := Hidden)
  {
  }

  /**
   * Hiding the panel on a short query keeps entries and highlight, so the keys
   * act on the hidden entries exactly as they did before the timer fired.
   */
  lemma ShortQueryKeepsEntriesNavigable(s: State, key: Key, countryCode: string)
    requires Consistent(s) && s.timerArmed && Utf16Length(s.inputText) < MinQueryLength
    ensures var hidden := OnTimer(s, countryCode);
            hidden.1.None? && hidden.0.display == Hidden
            && hidden.0.entries == s.entries && hidden.0.active == s.active
            && OnKeyDown(hidden.0, key).(display := Hidden, timerArmed := false)
               == OnKeyDown(s, key).(display := Hidden, timerArmed := false)
  {
  }

  /**
   * Committing the same label twice leaves the same value and input text as
   * committing it once, and notifies the host twice.
   */
  lemma CommitTwice(s: State, choice: string)
    ensures SelectSuggestion(SelectSuggestion(s, choice), choice)
            == SelectSuggestion(s, choice).(notifications := s.notifications + 2)
  {
  }

  /** The number of events of a run that commit a suggestion. */
  function CommitCount(s: State, es: seq<Event>, countryCode: string): nat
    requires Consistent(s)
    decreases |es|
  {
    if es == [] then 0
    else
      (if Commits(s, es[0]) then 1 else 0)
      + CommitCount(Step(s, es[0], countryCode).0, es[1..], countryCode)
  }

  /** The host is notified exactly once per commit, and at no other time. */
  lemma {:induction false} NotificationsCountCommits(s: State, es: seq<Event>, countryCode: string)
    requires Consistent(s)
    ensures Run(s, es, countryCode).0.notifications == s.notifications + CommitCount(s, es, countryCode)
    decreases |es|
  {
    if es != [] {
      NotificationsCountCommits(Step(s, es[0], countryCode).0, es[1..], countryCode);
    }
  }
}
