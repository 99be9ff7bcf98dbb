# Address autocomplete control — a Dafny model

`populateAddressControl` (index.ts) is a Power Apps component that turns a
text box into an address picker. It waits for the user to pause typing, asks
a geocoding service for up to five matching addresses, filtered by the
configured country code, and lists them under the box. The user picks one with the mouse or with the arrow
keys and Enter. The chosen address becomes the control's output, and the host
is notified that the output changed.

This project models the control's state machine with the DOM and the network
taken away. The state is:

- the committed value;
- the text in the box;
- the ordered entry labels;
- the highlighted index (-1 for none);
- the panel's `display` style;
- the single debounce slot;
- the country filter;
- a count of host notifications.

Each event handler is one step over that state. Keystrokes, a firing timer
and a settled request are discrete input events.

- `wrappers.dfy` — `Option`. `None` stands for JavaScript's `null` and `undefined`.
- `navigation.dfy` — module `Navigation`. This holds JavaScript's
  truncating `%` (`JsRem`) and the two wrap-around index formulas of the
  keydown handler. It proves their range, their inverse relation and what
  repeated ArrowDown presses do.
- `autocomplete.dfy` — module `Autocomplete`, the specification. It has a
  `State` value and one transition function per handler. Each handler's
  contract says what it changes and what it keeps. It also has the invariant
  `Consistent` (`-1 <= active < |entries|`, and a shown panel is never
  empty). `Step` and `Run` apply events in arrival order and collect the
  requests they issue. The lemmas over runs cover debouncing, the ArrowDown
  cycle and notification counting.
- `control.dfy` — module `Control`, class `PopulateAddressControl`. It has
  the fields of the TypeScript class and one method per handler. The methods
  update the fields in place; the rebuild of the entry list is a loop.
  Every method is proved to move the fields exactly as the matching
  `Autocomplete` transition says, and to keep `Valid()`.
- `scenarios.dfy` — client proofs. Each drives a control object through an
  event sequence and states what the method contracts guarantee after each
  step.

Modelling choices:

- `_value` is `Option<string>`: `None` until the host's first `updateView`.
  The first `updateView` always writes, even `""`, because `undefined`
  differs from every string.
- `style.display` has three values. `Unstyled` is the empty style the panel
  starts with, which the browser renders. `Hidden` is `"none"` and `Shown` is
  `"block"`.
- The debounce timer is a boolean slot. A keystroke arms it, which covers
  both cancelling and rescheduling. Firing disarms it and reads the box's
  text at that moment.
- A response is `Failed` or `Received(results)`. `Failed` covers a network
  error, a non-2xx status and malformed JSON. `results` holds the
  `display_name`s in response order; `None` is a JSON `null` body, which the
  code treats like an empty array.
- The gate's "at least three characters" is JavaScript's `length`, which
  counts UTF-16 code units. `Autocomplete.Utf16Length` counts a character
  outside the Basic Multilingual Plane twice, so "🏠A" passes the gate
  (`Autocomplete.AstralCharacterCountsTwice`, `Scenarios.AstralQueryIsSent`).
- JavaScript's `%` is written out. `Navigation.JsRemAgreesOnHandlerOperands`
  shows it equals Dafny's `%` on every dividend the handler can form. The
  `-0` from `(-1 - 1 + 1) % 1` is index `0`.

Behaviour of the code that is easy to miss:

- A query shorter than three code units only hides the panel. It does not
  clear the entries or the highlight, so the keyboard still navigates and
  commits over the hidden entries
  (`Autocomplete.ShortQueryKeepsEntriesNavigable`).
- The panel closes on a commit, on an outside click, on a response with no
  results, and also when a timer fires on a short query.
  `Autocomplete.Step` lists every way the panel closes.
- Pressing ArrowDown once per entry returns to the highlighted entry it
  started from. From "no highlight" it ends on the last entry
  (`Autocomplete.ArrowDownFromNone`). The index never returns to -1.
- A commit does not cancel a pending debounce timer. If the user types and
  then commits before the timer fires, the committed label is sent as a
  query, and the answer can show the list again
  (`Scenarios.CommitLeavesTimerPending`).

## Model

| member | source | states |
|---|---|---|
| Navigation.JsRem | index.ts:170-174 | JavaScript's `%`: the remainder has the dividend's sign, is smaller than the divisor in magnitude, and satisfies `a == n * q + r` for the truncated quotient `q` |
| Navigation.JsRemAgreesOnHandlerOperands | index.ts:170-174 | for every highlight in [-1, n), the handler's two dividends give the same remainder under JavaScript's and Dafny's `%` |
| Navigation.NextIndex | index.ts:170 | ArrowDown's `(i + 1) % n` lies in [0, n); it is `i + 1` below the last entry and `0` from the last entry |
| Navigation.PrevIndex | index.ts:174 | ArrowUp's `(i - 1 + n) % n` lies in [0, n); it is `i - 1` above the first entry and `n - 1` from the first; from -1 it is `n - 2` when n ≥ 2, else `0` |
| Navigation.UpUndoesDown | index.ts:168-175 | on a highlighted entry, ArrowUp after ArrowDown, and ArrowDown after ArrowUp, return to the same index |
| Navigation.DownPresses | index.ts:168-171 | after k ArrowDown presses the index is in [-1, n), and after at least one press it is a real entry |
| Navigation.DownPressesClimb | index.ts:170 | below the last entry, k presses move the index exactly k places |
| Navigation.DownPressesCompose | index.ts:170 | a presses followed by b presses equal a + b presses |
| Navigation.DownCycle | index.ts:170 | from any highlighted entry, n ArrowDown presses come back to it |
| Navigation.DownFromNone | index.ts:170 | from -1, n ArrowDown presses end on the last entry `n - 1` |
| Autocomplete.Initial | index.ts:31-85 | the state after init: nothing committed, no entries, highlight -1, no pending timer, no notifications, invariant holds |
| Autocomplete.OrDefault | index.ts:38 | `raw \|\| fallback`: a non-empty raw string is kept; null or "" gives the fallback; a non-empty fallback never yields "" |
| Autocomplete.Utf16Length | index.ts:88 | JavaScript's `length`: between the number of characters and twice that |
| Autocomplete.Utf16LengthOfBmp | index.ts:88 | on text with no character outside the Basic Multilingual Plane, `length` is the character count |
| Autocomplete.AstralCharacterCountsTwice | index.ts:88 | "🏠A" has two characters but `length` 3, so it passes the gate |
| Autocomplete.PlanFetch | index.ts:88-93 | a request is issued exactly when the query's UTF-16 `length` is at least 3; it carries that query, the country filter and the limit 5 |
| Autocomplete.OnInput | index.ts:72-76 | a keystroke sets the input text and arms the one debounce slot; nothing else changes |
| Autocomplete.FetchSuggestions | index.ts:87-93 | a rejected query only hides the panel; an accepted one issues its request and leaves the state alone |
| Autocomplete.OnTimer | index.ts:75 | firing disarms the slot and issues a request for the text current at fire time exactly when a timer was pending and the text's UTF-16 `length` is ≥ 3; a short text hides the panel; entries, highlight and value are kept |
| Autocomplete.OnResponse | index.ts:102-139 | a failure changes nothing; a body replaces all entries with its labels in order, resets the highlight to -1, and shows the panel exactly when there is an entry; value, text, timer and count are kept |
| Autocomplete.SelectSuggestion | index.ts:146-151 | a commit sets value and input text to the label, hides the panel, adds exactly one notification, and keeps entries and highlight |
| Autocomplete.HighlightSuggestion | index.ts:154-160 | only the highlighted index changes, to the given entry |
| Autocomplete.OnKeyDown | index.ts:164-183 | with no entries or another key nothing changes; Enter with -1 changes nothing; arrows change only the index, to `NextIndex`/`PrevIndex`; Enter on an entry commits its label; the invariant holds |
| Autocomplete.OnDocumentClick | index.ts:79-83 | an outside click only hides the panel; a click inside changes nothing |
| Autocomplete.UpdateView | index.ts:190-196 | the committed value becomes the raw value with null/"" read as ""; an equal value leaves the state untouched, including an edited text; a different one overwrites value and text only |
| Autocomplete.Step | index.ts:72-196 | every event keeps the invariant; only the timer issues requests, for the current text; the count rises by one exactly on a commit; the value changes only by commit or host update; the entries change only on arrival; the panel opens only on a non-empty arrival and closes only by commit, outside click, short query or empty arrival |
| Autocomplete.Run | index.ts:72-196 | `-1 <= active < \|entries\|` holds after any sequence of events, and the notification count never decreases |
| Autocomplete.KeystrokesOnly | index.ts:72-76 | a burst of keystrokes leaves the last text and one armed slot, and issues nothing |
| Autocomplete.BurstIssuesOneRequest | index.ts:72-91 | keystrokes followed by the timer issue exactly one request, for the last text, when its UTF-16 `length` is ≥ 3; otherwise none, and the panel is hidden; entries, highlight and value are untouched |
| Autocomplete.ArrowDownPresses | index.ts:164-171 | k ArrowDown presses change only the highlight, to `DownPresses(i, n, k)`, and issue nothing |
| Autocomplete.ArrowDownCycle | index.ts:164-171 | with an entry highlighted, n ArrowDown presses restore the whole state |
| Autocomplete.ArrowDownFromNone | index.ts:164-171 | with no highlight, n ArrowDown presses leave the highlight on the last entry |
| Autocomplete.HiddenEntriesStayNavigable | index.ts:164-183 | apart from visibility, every key acts the same after an outside click as before it |
| Autocomplete.ShortQueryKeepsEntriesNavigable | index.ts:88-90 | a timer firing on a short text issues nothing and hides the panel but keeps entries and highlight, and every key then acts as it did before, apart from visibility and the timer slot |
| Autocomplete.CommitTwice | index.ts:146-151 | committing a label twice gives the state of committing it once, with two notifications instead of one |
| Autocomplete.NotificationsCountCommits | index.ts:146-151 | over any run, notifications grow by exactly the number of commits |
| Control.PopulateAddressControl.constructor | index.ts:31-85 | fields start as `Autocomplete.Initial()`; the country filter is the host's value or "ae" |
| Control.PopulateAddressControl.OnInput | index.ts:72-76 | fields move as `Autocomplete.OnInput`; invariant kept |
| Control.PopulateAddressControl.OnTimer | index.ts:75 | fields and the issued request are those of `Autocomplete.OnTimer` |
| Control.PopulateAddressControl.FetchSuggestions | index.ts:87-93 | fields and the issued request are those of `Autocomplete.FetchSuggestions` |
| Control.PopulateAddressControl.OnResponse | index.ts:102-139 | the child-building loop leaves the fields as `Autocomplete.OnResponse` says |
| Control.PopulateAddressControl.SelectSuggestion | index.ts:146-151 | fields move as `Autocomplete.SelectSuggestion` |
| Control.PopulateAddressControl.HighlightSuggestion | index.ts:154-160 | fields move as `Autocomplete.HighlightSuggestion` |
| Control.PopulateAddressControl.OnKeyDown | index.ts:164-183 | fields move as `Autocomplete.OnKeyDown` |
| Control.PopulateAddressControl.OnEntryClick | index.ts:124-126 | clicking entry i commits that entry's label |
| Control.PopulateAddressControl.OnEntryHover | index.ts:128-130 | hovering entry i highlights it |
| Control.PopulateAddressControl.OnDocumentClick | index.ts:79-83 | fields move as `Autocomplete.OnDocumentClick` |
| Control.PopulateAddressControl.UpdateView | index.ts:190-196 | fields move as `Autocomplete.UpdateView` |
| Control.PopulateAddressControl.GetOutputs | index.ts:202-206 | returns the committed value and changes nothing |

## Left out

- Styling and element creation (index.ts:41-69, 117-122, 157) are presentation only. The highlight is modelled as the index; the `forEach` that repaints backgrounds is not modelled.
- `fetch`, Promises, `res.json()` and the URL with `encodeURIComponent` are network and library calls. A request is the value `Request(query, countryCode, 5)`, and its outcome is a later `Response` event. Only the query is encoded; the country code goes into `countrycodes=` as configured (index.ts:93), and the model keeps it as that raw string.
- The 500 ms delay, `setTimeout` and `clearTimeout` are wall-clock timing. Only the single pending slot and an explicit firing event are modelled.
- Several requests can be in flight at once. This race is not modelled: each arrival is an independent event applied in arrival order, and nothing records which request it answers.
- `addEventListener` wiring and `contains` on the click target are left out. An outside click is an event, and the `contains` result is its `inside` parameter.
- `e.preventDefault()` on ArrowDown, ArrowUp and Enter (index.ts:169, 173, 177) only stops the browser's default caret movement and form submission. It changes no field of the control.
- `console.error` on failure is not modelled. The empty `destroy` and the unused module-level `typingTimer` (index.ts:7) have no effect to model.
- `lat` and `lon` are never read, and would need floating point. Results are their `display_name` strings only.
- Result items whose `display_name` is missing or not a string, a body that is not an array, and an exception inside the rendering callback are not modelled.
- Control.PopulateAddressControl.OnEntryClick: does not require the panel to be shown. The browser only delivers clicks and hovers to displayed entries, and the model allows them on a hidden list too. `OnEntryHover` and the pointer events of `Autocomplete.Step` are the same.
- Control.PopulateAddressControl.HighlightSuggestion: requires the index of an existing entry. The TypeScript method does not check this, but every caller passes such an index.
