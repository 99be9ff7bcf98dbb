/**
 * Client proofs: event sequences driven through PopulateAddressControl, with
 * what the method contracts alone let a caller conclude after each step.
 */
module Scenarios {
  import opened Wrappers
  import opened Autocomplete
  import Control

  /** Typing "Dub", one result, Enter without a highlight, then ArrowDown and Enter. */
  method DubaiIsCommittedByArrowDownThenEnter() {
    var c := new Control.PopulateAddressControl(None);
    assert c.countryCode == "ae";
    c.UpdateView(None);
    assert c.value == Some("") && c.inputText == "";

    c.OnInput("Dub");
    var request := c.OnTimer();
    assert request == Some(Request("Dub", "ae", 5));

    c.OnResponse(Received(Some(["Dubai, UAE"])));
    assert c.entries == ["Dubai, UAE"] && c.display == Shown && c.activeSuggestionIndex == -1;

    c.OnKeyDown(Enter);
    assert c.value == Some("") && c.display == Shown && c.notifications == 0;

    c.OnKeyDown(ArrowDown);
    assert c.activeSuggestionIndex == 0;
    c.OnKeyDown(Enter);
    assert c.value == Some("Dubai, UAE") && c.inputText == "Dubai, UAE";
    assert c.display == Hidden && c.notifications == 1;

    var out := c.GetOutputs();
    assert out == Some("Dubai, UAE");
  }

  /** A two-character query issues nothing and the panel is hidden. */
  method ShortQueryIsNotSent() {
    var c := new Control.PopulateAddressControl(Some("de"));
    c.OnInput("Du");
    var request := c.OnTimer();
    assert request == None && c.display == Hidden;
  }

  /**
   * An emoji outside the Basic Multilingual Plane and one letter make a
   * three-unit `length`, so the query is sent.
   */
  method AstralQueryIsSent() {
    var c := new Control.PopulateAddressControl(None);
    c.OnInput("\U{1F3E0}A");
    AstralCharacterCountsTwice();
    var request := c.OnTimer();
    assert request == Some(Request("\U{1F3E0}A", "ae", 5));
  }

  /** Several keystrokes before the timer fires give one request, for the last text. */
  method BurstOfKeystrokes() {
    var c := new Control.PopulateAddressControl(Some(""));
    assert c.countryCode == "ae";
    c.OnInput("A");
    c.OnInput("Ab");
    c.OnInput("Abu");
    c.OnInput("Abu D");
    var first := c.OnTimer();
    assert first == Some(Request("Abu D", "ae", 5));
    var second := c.OnTimer();
    assert second == None;
  }

  /** An empty result hides the panel and leaves the value alone; a failure changes nothing. */
  method EmptyAndFailedResponses() {
    var c := new Control.PopulateAddressControl(None);
    c.UpdateView(Some("Old Town"));
    c.OnResponse(Received(Some(["Marina", "Old Town Road"])));
    c.OnKeyDown(ArrowUp);
    assert c.activeSuggestionIndex == 0;

    c.OnResponse(Failed);
    assert c.entries == ["Marina", "Old Town Road"] && c.activeSuggestionIndex == 0;
    assert c.display == Shown;

    c.OnResponse(Received(Some([])));
    assert c.entries == [] && c.activeSuggestionIndex == -1 && c.display == Hidden;
    assert c.value == Some("Old Town");
  }

  /**
   * The host pushes a value while the list is open: the text follows it and
   * the list stays open.
   */
  method ExternalValueKeepsListOpen() {
    var c := new Control.PopulateAddressControl(None);
    c.OnResponse(Received(Some(["Sharjah", "Ajman"])));
    c.UpdateView(Some("Abu Dhabi"));
    assert c.inputText == "Abu Dhabi" && c.value == Some("Abu Dhabi");
    assert c.display == Shown && c.entries == ["Sharjah", "Ajman"];
  }

  /** After an outside click the hidden entries can still be chosen from the keyboard. */
  method HiddenListStillCommits() {
    var c := new Control.PopulateAddressControl(None);
    c.OnResponse(Received(Some(["Sharjah", "Ajman", "Fujairah"])));
    c.OnDocumentClick(false);
    assert c.display == Hidden;
    c.OnKeyDown(ArrowUp);
    assert c.activeSuggestionIndex == 1;
    c.OnKeyDown(Enter);
    assert c.value == Some("Ajman") && c.notifications == 1;
  }

  /** Clicking the same entry twice commits the same value and notifies twice. */
  method CommittingTwiceNotifiesTwice() {
    var c := new Control.PopulateAddressControl(None);
    c.OnResponse(Received(Some(["Sharjah"])));
    c.OnEntryClick(0);
    c.OnEntryClick(0);
    assert c.value == Some("Sharjah") && c.notifications == 2;
  }

  /**
   * A commit does not cancel a pending debounce timer: when it fires it sends
   * the committed label as a query, and a non-empty answer shows the list again.
   */
  method CommitLeavesTimerPending() {
    var c := new Control.PopulateAddressControl(None);
    c.OnResponse(Received(Some(["Dubai, UAE"])));
    c.OnInput("Duba");
    c.OnKeyDown(ArrowDown);
    c.OnKeyDown(Enter);
    assert c.display == Hidden && c.value == Some("Dubai, UAE");
    var request := c.OnTimer();
    assert request == Some(Request("Dubai, UAE", "ae", 5));
    c.OnResponse(Received(Some(["Dubai, UAE"])));
    assert c.display == Shown;
  }
}
