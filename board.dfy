/** The state of the listing page (src/App.jsx): the collection, the category
    and search criteria, the visible list, the per-snippet "copied" flags, the
    message slot, and the timers that reset flags and clear messages. */
module Board {
  import opened Wrappers
  import opened Snippets
  import opened Timers
  import opened Notification

  /** The callbacks the listing page schedules. */
  datatype Event = ResetCopy(id: SnippetId) | ClearMessage

  /** Milliseconds after which a "copied" flag is reset. */
  const CopyResetDelay: nat := 2000

  const CopyErrorText := "Erreur lors de la copie"

  class SnippetBoard {
    var snippets: seq<Snippet>
    var filteredSnippets: seq<Snippet>
    var filter: string
    var searchTerm: string
    var copyStates: map<SnippetId, bool>
    var message: Message
    var timers: TimerQueue<Event>

    ghost predicate Valid()
      reads this
    {
      Wellformed(timers)
    }

    /** The initial state of the page's hooks. */
    constructor ()
      ensures Valid()
      ensures snippets == [] && filteredSnippets == [] && filter == "" && searchTerm == ""
      ensures copyStates == map[] && message == NoMessage && timers == TimerQueue(0, [])
    {
      snippets := [];
      filteredSnippets := [];
      filter := "";
      searchTerm := "";
      copyStates := map[];
      message := NoMessage;
      timers := Empty();
    }

    /** `filterAndSearch`: filter by category when one is chosen, then by the
        search term when it is not empty, and store the result. */
    method FilterAndSearch()
      modifies this`filteredSnippets
      ensures filteredSnippets == Visible(snippets, filter, searchTerm)
    {
      var category, term := filter, searchTerm;
      var filtered := snippets;
      if category != "" {
        filtered := Filter(filtered, CategoryTest(category));
      }
      if term != "" {
        filtered := Filter(filtered, SearchTest(term));
      }
      filteredSnippets := filtered;
      if category != "" && term != "" {
        FilterFuse(snippets, CategoryTest(category), SearchTest(term), KeepTest(category, term));
      } else if category != "" {
        FilterExt(snippets, CategoryTest(category), KeepTest(category, term));
      } else if term != "" {
        FilterExt(snippets, SearchTest(term), KeepTest(category, term));
      } else {
        VisibleUnfiltered(snippets);
      }
    }

    /** A successful load stores the collection; the effect on `snippets`
        then recomputes the view. */
    method SnippetsLoaded(data: seq<Snippet>)
      modifies this`snippets, this`filteredSnippets
      ensures snippets == data
      ensures filteredSnippets == Visible(data, filter, searchTerm)
    {
      snippets := data;
      filteredSnippets := data;
      FilterAndSearch();
    }

    /** A click on a category chip; the effect on `filter` recomputes the view. */
    method SetFilter(category: string)
      modifies this`filter, this`filteredSnippets
      ensures filter == category
      ensures filteredSnippets == Visible(snippets, category, searchTerm)
    {
      filter := category;
      FilterAndSearch();
    }

    /** Typing in the search box; the effect on `searchTerm` recomputes the view. */
    method SetSearchTerm(term: string)
      modifies this`searchTerm, this`filteredSnippets
      ensures searchTerm == term
      ensures filteredSnippets == Visible(snippets, filter, term)
    {
      searchTerm := term;
      FilterAndSearch();
    }

    /** `showMessage`: fill the slot and schedule its clearing. An earlier
        clearing stays scheduled. */
    method ShowMessage(text: string, kind: string)
      requires Valid()
      modifies this`message, this`timers
      ensures Valid()
      ensures message == Message(text, kind)
      ensures timers == Schedule(old(timers), MessageDelay, ClearMessage)
    {
      ScheduleCancelsNothing(timers, MessageDelay, ClearMessage);
      message := Message(text, kind);
      timers := Schedule(timers, MessageDelay, ClearMessage);
    }

    /** `copyCode`, once the clipboard write has settled with `clipboardOk`. On
        success the snippet's flag is set and its reset scheduled; on failure
        the flags are untouched and an error message is posted. */
    method CopyCode(snippetId: SnippetId, clipboardOk: bool)
      requires Valid()
      modifies this`copyStates, this`message, this`timers
      ensures Valid()
      ensures clipboardOk ==>
        && copyStates == old(copyStates)[snippetId := true]
        && message == old(message)
        && timers == Schedule(old(timers), CopyResetDelay, ResetCopy(snippetId))
      ensures !clipboardOk ==>
        && copyStates == old(copyStates)
        && message == Message(CopyErrorText, "error")
        && timers == Schedule(old(timers), MessageDelay, ClearMessage)
    {
      if clipboardOk {
        ScheduleCancelsNothing(timers, CopyResetDelay, ResetCopy(snippetId));
        copyStates := copyStates[snippetId := true];
        timers := Schedule(timers, CopyResetDelay, ResetCopy(snippetId));
      } else {
        ShowMessage(CopyErrorText, "error");
      }
    }

    /** The event loop runs the next due callback, if any: a copy reset sets
        that snippet's flag to false; a message clear empties the slot. */
    method FireNext() returns (fired: Option<Event>)
      requires Valid()
      modifies this`copyStates, this`message, this`timers
      ensures Valid()
      ensures old(timers.pending) == [] ==>
        fired == None && timers == old(timers)
        && copyStates == old(copyStates) && message == old(message)
      ensures old(timers.pending) != [] ==>
        && fired == Some(Pop(old(timers)).0.event)
        && timers == Pop(old(timers)).1
        && (fired.value.ResetCopy? ==>
              copyStates == old(copyStates)[fired.value.id := false] && message == old(message))
        && (fired.value.ClearMessage? ==>
              copyStates == old(copyStates) && message == NoMessage)
    {
      if timers.pending == [] {
        fired := None;
      } else {
        PopFacts(timers);
        var (t, rest) := Pop(timers);
        timers := rest;
        fired := Some(t.event);
        match t.event
        case ResetCopy(id) =>
          copyStates := copyStates[id := false];
        case ClearMessage =>
          message := NoMessage;
      }
    }

    /** Time passes without any callback falling due. */
    method Elapse(dt: nat)
      requires Valid()
      requires forall k :: 0 <= k < |timers.pending| ==> timers.pending[k].due >= timers.now + dt
      modifies this`timers
      ensures Valid()
      ensures timers == Advance(old(timers), dt)
    {
      timers := Advance(timers, dt);
    }
  }

  /** A second copy of the same snippet 1500 ms after the first does not restart
      the delay: the first reset still fires at 2000 ms and clears the flag
      that the second copy set. */
  method StaleCopyResetScenario(id: SnippetId) returns (flagAfterSecondCopy: bool, flagAtReset: bool, resetAt: nat)
    ensures flagAfterSecondCopy && !flagAtReset && resetAt == 2000
  {
    var b := new SnippetBoard();
    b.CopyCode(id, true);
    b.Elapse(1500);
    b.CopyCode(id, true);
    assert b.timers.pending == [Timer(2000, ResetCopy(id)), Timer(3500, ResetCopy(id))];
    assert Earliest(b.timers.pending) == 0;
    flagAfterSecondCopy := b.copyStates[id];
    var fired := b.FireNext();
    flagAtReset := b.copyStates[id];
    resetAt := b.timers.now;
  }

  /** A second message posted 1000 ms after the first is cleared by the first
      message's timer, at 5000 ms, 4000 ms after it was posted. */
  method StaleMessageClearScenario(first: string, second: string) returns (shown: Message, afterClear: Message, clearedAt: nat)
    ensures shown == Message(second, "error") && afterClear == NoMessage && clearedAt == 5000
  {
    var b := new SnippetBoard();
    b.ShowMessage(first, "error");
    b.Elapse(1000);
    b.ShowMessage(second, "error");
    assert b.timers.pending == [Timer(5000, ClearMessage), Timer(6000, ClearMessage)];
    assert Earliest(b.timers.pending) == 0;
    shown := b.message;
    var fired := b.FireNext();
    afterClear := b.message;
    clearedAt := b.timers.now;
  }
}
