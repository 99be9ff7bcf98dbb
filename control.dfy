/**
 * The control object itself (index.ts, class populateAddressControl): its
 * fields are updated in place by the event handlers, and every method is
 * proved to move the fields exactly as the matching transition of
 * module Autocomplete says.
 */
module Control {
  import opened Wrappers
  import A = Autocomplete
  import Navigation

  class PopulateAddressControl {
    /** `_value`: the committed address; `None` until the host first calls updateView. */
    var value: Option<string>
    /** `_input.value`: the text shown in the input box. */
    var inputText: string
    /** The `textContent`s of the children of `_suggestions`, in order. */
    var entries: seq<string>
    /** `activeSuggestionIndex`: the highlighted entry, or -1. */
    var activeSuggestionIndex: int
    /** `_suggestions.style.display`. */
    var display: A.Display
    /** The single debounce slot: whether a timer is pending. */
    var timerArmed: bool
    /** How many times `_notifyOutputChanged` has been called. */
    var notifications: nat
    /** `_countryCode`: fixed by init. */
    const countryCode: string

    /** The fields as one value of the specification's state. */
    ghost function Current(): A.State
      reads this
    {
      A.State(value, inputText, entries, activeSuggestionIndex, display, timerArmed, notifications)
    }

    ghost predicate Valid()
      reads this
    {
      A.Consistent(Current())
    }

    /**
     * The constructor followed by `init`: the country filter comes from the
     * host's parameter, falling back to "ae"; nothing is committed, listed or
     * pending yet.
     */
    constructor (countryRaw: Option<string>)
      ensures Valid()
      ensures Current() == A.Initial()
      ensures countryCode == A.OrDefault(countryRaw, A.DefaultCountry)
    {
      countryCode := A.OrDefault(countryRaw, A.DefaultCountry);
      value := None;
      inputText := "";
      entries := [];
      activeSuggestionIndex := -1;
      display := A.Unstyled;
      timerArmed := false;
      notifications := 0;
    }

    /** The `input` listener: cancel any pending timer and schedule a new one. */
    method OnInput(text: string)
      requires Valid()
      modifies this
      ensures Valid()
      ensures Current() == A.OnInput(old(Current()), text)
    {
      inputText := text;
      timerArmed := true;
    }

    /** The pending timer firing: it fetches for the input text of this moment. */
    method OnTimer() returns (request: Option<A.Request>)
      requires Valid()
      modifies this
      ensures Valid()
      ensures (Current(), request) == A.OnTimer(old(Current()), countryCode)
    {
      if timerArmed {
        timerArmed := false;
        request := FetchSuggestions(inputText);
      } else {
        request := None;
      }
    }

    /** fetchSuggestions up to the point where the request leaves. */
    method FetchSuggestions(query: string) returns (request: Option<A.Request>)
      requires Valid()
      modifies this
      ensures Valid()
      ensures (Current(), request) == A.FetchSuggestions(old(Current()), query, countryCode)
    {
      if query == "" || A.Utf16Length(query) < A.MinQueryLength {
        display := A.Hidden;
        return None;
      }
      request := Some(A.Request(query, countryCode, A.ResultLimit));
    }

    /**
     * The promise chain of fetchSuggestions settling: clear the children and
     * the highlight, then append one child per result, in order.
     */
    method OnResponse(resp: A.Response)
      requires Valid()
      modifies this
      ensures Valid()
      ensures Current() == A.OnResponse(old(Current()), resp)
    {
      match resp
      case Failed =>
      case Received(results) =>
        entries := [];
        activeSuggestionIndex := -1;
        if results.None? || |results.value| == 0 {
          display := A.Hidden;
          return;
        }
        var labels := results.value;
        var i := 0;
        while i < |labels|
          invariant 0 <= i <= |labels|
          invariant entries == labels[..i]
          invariant activeSuggestionIndex == -1 && display == old(display)
          invariant value == old(value) && inputText == old(inputText)
          invariant timerArmed == old(timerArmed) && notifications == old(notifications)
        {
          entries := entries + [labels[i]];
          i := i + 1;
        }
        display := A.Shown;
    }

    /** selectSuggestion: commit a label and notify the host. */
    method SelectSuggestion(choice: string)
      requires Valid()
      modifies this
      ensures Valid()
      ensures Current() == A.SelectSuggestion(old(Current()), choice)
    {
      value := Some(choice);
      inputText := choice;
      display := A.Hidden;
      notifications := notifications + 1;
    }

    /** highlightSuggestion, with the repainting left out. */
    method HighlightSuggestion(index: int)
      requires Valid() && 0 <= index < |entries|
      modifies this
      ensures Valid()
      ensures Current() == A.HighlightSuggestion(old(Current()), index)
    {
      activeSuggestionIndex := index;
    }

    /** The keydown listener of setupKeyboardNavigation. */
    method OnKeyDown(key: A.Key)
      requires Valid()
      modifies this
      ensures Valid()
      ensures Current() == A.OnKeyDown(old(Current()), key)
    {
      if |entries| == 0 {
        return;
      }
      match key
      case ArrowDown =>
        var nextIndex := Navigation.NextIndex(activeSuggestionIndex, |entries|);
        HighlightSuggestion(nextIndex);
      case ArrowUp =>
        var prevIndex := Navigation.PrevIndex(activeSuggestionIndex, |entries|);
        HighlightSuggestion(prevIndex);
      case Enter =>
        if activeSuggestionIndex >= 0 {
          SelectSuggestion(entries[activeSuggestionIndex]);
        }
      case OtherKey =>
    }

    /** The click listener of the entry at `index`. */
    method OnEntryClick(index: int)
      requires Valid() && 0 <= index < |entries|
      modifies this
      ensures Valid()
      ensures Current() == A.SelectSuggestion(old(Current()), old(entries)[index])
    {
      SelectSuggestion(entries[index]);
    }

    /** The mouseover listener of the entry at `index`. */
    method OnEntryHover(index: int)
      requires Valid() && 0 <= index < |entries|
      modifies this
      ensures Valid()
      ensures Current() == A.HighlightSuggestion(old(Current()), index)
    {
      HighlightSuggestion(index);
    }

    /** The document-level click listener; `inside` is the container's `contains` test. */
    method OnDocumentClick(inside: bool)
      requires Valid()
      modifies this
      ensures Valid()
      ensures Current() == A.OnDocumentClick(old(Current()), inside)
    {
      if !inside {
        display := A.Hidden;
      }
    }

    /** updateView, reading the bound address parameter. */
    method UpdateView(raw: Option<string>)
      requires Valid()
      modifies this
      ensures Valid()
      ensures Current() == A.UpdateView(old(Current()), raw)
    {
      var newValue := A.OrDefault(raw, "");
      if Some(newValue) != value {
        value := Some(newValue);
        inputText := newValue;
      }
    }

    /** getOutputs: the committed value, read without changing anything. */
    method GetOutputs() returns (addressField: Option<string>)
      ensures addressField == value
    {
      addressField := value;
    }
  }
}
