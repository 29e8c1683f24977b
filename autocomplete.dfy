/** The station search box: a debounced text search with a keyboard-driven
    suggestion list. Timers and promises become events: `SetInput` is a
    keystroke, `FireTimer` the end of the 300 ms quiet period, `ResolveFetch`
    the answer of a fetch already sent. */
module AutocompleteWidget {
  import opened Wrappers

  /** The keys the widget reacts to; every other key is `OtherKey`. */
  datatype Key = ArrowDown | ArrowUp | Enter | OtherKey(name: string)

  /** A row of the open list. */
  datatype Row = NoResults | Suggestion(text: string, selected: bool)

  /** The highlight after ArrowDown: one further down, wrapping from the last
      suggestion (or from a stale index) to the first. */
  function ArrowDownIndex(prev: int, len: int): (r: int)
    ensures -1 <= prev < len && len > 0 ==> 0 <= r < len
    ensures 0 <= prev < len ==> r == (prev + 1) % len
    ensures prev == -1 && len > 0 ==> r == 0
  {
    if prev < len - 1 then prev + 1 else 0
  }

  /** The highlight after ArrowUp: one further up, wrapping from the first
      suggestion, and from no highlight, to the last. */
  function ArrowUpIndex(prev: int, len: int): (r: int)
    ensures -1 <= prev < len && len > 0 ==> 0 <= r < len
    ensures 0 <= prev < len ==> r == (prev - 1 + len) % len
    ensures prev == -1 ==> r == len - 1
  {
    if prev > 0 then prev - 1 else len - 1
  }

  /** ArrowUp undoes ArrowDown and ArrowDown undoes ArrowUp on a highlighted suggestion. */
  lemma ArrowsInverse(i: int, len: int)
    requires 0 <= i < len
    ensures ArrowUpIndex(ArrowDownIndex(i, len), len) == i
    ensures ArrowDownIndex(ArrowUpIndex(i, len), len) == i
  {
  }

  /** The highlight after `presses` ArrowDowns from no highlight. */
  function PressDown(presses: nat, len: int): int
  {
    if presses == 0 then -1 else ArrowDownIndex(PressDown(presses - 1, len), len)
  }

  /** From no highlight, the first `len` presses of ArrowDown visit the
      suggestions in order. */
  lemma {:induction false} PressDownVisitsInOrder(presses: nat, len: int)
    requires 1 <= presses <= len
    ensures PressDown(presses, len) == presses - 1
  {
    if presses > 1 {
      PressDownVisitsInOrder(presses - 1, len);
    }
  }

  /** After the first press, ArrowDown repeats with period `len`: the highlight
      cycles through the whole list. */
  lemma {:induction false} PressDownPeriodic(presses: nat, len: int)
    requires presses >= 1 && len > 0
    ensures PressDown(presses + len, len) == PressDown(presses, len)
  {
    if presses == 1 {
      PressDownVisitsInOrder(len, len);
      assert PressDown(len + 1, len) == ArrowDownIndex(PressDown(len, len), len);
    } else {
      PressDownPeriodic(presses - 1, len);
      assert PressDown(presses + len, len) == ArrowDownIndex(PressDown(presses - 1 + len, len), len);
    }
  }

  /** What the open list shows, or `None` when the list is not rendered: a lone
      "No results" row for an empty list, otherwise one row per suggestion, the
      highlighted one marked selected. */
  function Listbox<T>(show: bool, suggestions: seq<T>, highlighted: int, labelOf: T -> string)
    : (rows: Option<seq<Row>>)
    ensures rows.None? <==> !show
    ensures show && suggestions == [] ==> rows == Some([NoResults])
    ensures show && suggestions != [] ==>
              |rows.value| == |suggestions|
              && forall i :: 0 <= i < |suggestions| ==>
                   rows.value[i] == Suggestion(labelOf(suggestions[i]), i == highlighted)
  {
    if !show then None
    else if suggestions == [] then Some([NoResults])
    else Some(seq(|suggestions|, i requires 0 <= i < |suggestions| =>
                Suggestion(labelOf(suggestions[i]), i == highlighted)))
  }

  class Autocomplete<T> {
    /** `getSuggestionLabel`. */
    const getSuggestionLabel: T -> string

    var input: string
    var suggestions: seq<T>
    var showSuggestions: bool
    var highlightedIndex: int

    /** A debounce timer is scheduled; when it fires it fetches with `input`. */
    var timerPending: bool
    /** Fetches sent and not yet answered. */
    var fetchesInFlight: nat
    /** The queries `fetchSuggestions` was called with, oldest first. */
    var fetchCalls: seq<string>
    /** The items `onSelect` was called with, oldest first. */
    var selections: seq<T>

    /** The highlight is -1 or a suggestion, except that it may be left over
        after the list was emptied; a timer is scheduled only for a non-empty input. */
    ghost predicate Valid()
      reads this
    {
      && -1 <= highlightedIndex
      && (suggestions != [] ==> highlightedIndex < |suggestions|)
      && (timerPending ==> input != "")
    }

    /** The widget after mounting: the effect has seen an empty input. */
    constructor (labelOf: T -> string)
      ensures Valid() && getSuggestionLabel == labelOf
      ensures input == "" && suggestions == [] && !showSuggestions && highlightedIndex == -1
      ensures !timerPending && fetchesInFlight == 0 && fetchCalls == [] && selections == []
    {
      getSuggestionLabel := labelOf;
      input := "";
      suggestions := [];
      showSuggestions := false;
      highlightedIndex := -1;
      timerPending := false;
      fetchesInFlight := 0;
      fetchCalls := [];
      selections := [];
    }

    /** The list as rendered now. */
    function Rendered(): Option<seq<Row>>
      reads this
    {
      Listbox(showSuggestions, suggestions, highlightedIndex, getSuggestionLabel)
    }

    /** `setInput(value)`, from the text field's `onChange` or from a selection,
        and, when the value changed, the effect on `input`:
        the previous timer is cleared; an empty input clears and closes the
        list, any other schedules a new timer. */
    method SetInput(value: string)
      requires Valid()
      modifies this
      ensures Valid() && input == value
      ensures value == old(input) ==>
                suggestions == old(suggestions) && showSuggestions == old(showSuggestions)
                && timerPending == old(timerPending)
      ensures value != old(input) && value == "" ==>
                suggestions == [] && !showSuggestions && !timerPending
      ensures value != old(input) && value != "" ==>
                suggestions == old(suggestions) && showSuggestions == old(showSuggestions) && timerPending
      ensures highlightedIndex == old(highlightedIndex) && fetchesInFlight == old(fetchesInFlight)
      ensures fetchCalls == old(fetchCalls) && selections == old(selections)
    {
      if value == input {
        return;
      }
      input := value;
      timerPending := false;
      if input == "" {
        suggestions := [];
        showSuggestions := false;
        return;
      }
      timerPending := true;
    }

    /** The quiet period ends: the pending timer, if any, calls `fetchSuggestions(input)`. */
    method FireTimer()
      requires Valid()
      modifies this
      ensures Valid() && !timerPending
      ensures fetchCalls == old(fetchCalls) + (if old(timerPending) then [input] else [])
      ensures fetchesInFlight == old(fetchesInFlight) + (if old(timerPending) then 1 else 0)
      ensures input == old(input) && suggestions == old(suggestions)
      ensures showSuggestions == old(showSuggestions) && highlightedIndex == old(highlightedIndex)
      ensures selections == old(selections)
    {
      if timerPending {
        fetchCalls := fetchCalls + [input];
        fetchesInFlight := fetchesInFlight + 1;
        timerPending := false;
      }
    }

    /** A fetch answers with `results`: they replace the suggestions, the list
        opens and nothing is highlighted. An answer wins even when the input
        has changed since the fetch was sent. */
    method ResolveFetch(results: seq<T>)
      requires Valid()
      modifies this
      ensures Valid()
      ensures old(fetchesInFlight) > 0 ==>
                suggestions == results && showSuggestions && highlightedIndex == -1
                && fetchesInFlight == old(fetchesInFlight) - 1
      ensures old(fetchesInFlight) == 0 ==>
                suggestions == old(suggestions) && showSuggestions == old(showSuggestions)
                && highlightedIndex == old(highlightedIndex) && fetchesInFlight == 0
      ensures input == old(input) && timerPending == old(timerPending)
      ensures fetchCalls == old(fetchCalls) && selections == old(selections)
    {
      if fetchesInFlight > 0 {
        suggestions := results;
        showSuggestions := true;
        highlightedIndex := -1;
        fetchesInFlight := fetchesInFlight - 1;
      }
    }

    /** A `mousedown` on the page: outside the widget it closes the list. */
    method HandleClickOutside(insideContainer: bool)
      requires Valid()
      modifies this`showSuggestions
      ensures Valid()
      ensures showSuggestions == (old(showSuggestions) && insideContainer)
    {
      if !insideContainer {
        showSuggestions := false;
      }
    }

    /** The state right after committing `item`, relative to the state before. */
    twostate predicate Committed(item: T)
      reads this
    {
      && input == getSuggestionLabel(item)
      && !showSuggestions
      && highlightedIndex == -1
      && selections == old(selections) + [item]
      && fetchCalls == old(fetchCalls) && fetchesInFlight == old(fetchesInFlight)
      && (getSuggestionLabel(item) == old(input) ==>
            suggestions == old(suggestions) && timerPending == old(timerPending))
      && (getSuggestionLabel(item) != old(input) && getSuggestionLabel(item) == "" ==> suggestions == [] && !timerPending)
      && (getSuggestionLabel(item) != old(input) && getSuggestionLabel(item) != "" ==>
            suggestions == old(suggestions) && timerPending)
    }

    /** `handleSelect(item)`: the input shows the item's label, the list closes,
        the highlight is cleared and `onSelect(item)` is called once. A label
        that differs from the typed text schedules a new fetch. */
    method HandleSelect(item: T)
      requires Valid()
      modifies this
      ensures Valid() && Committed(item)
    {
      SetInput(getSuggestionLabel(item));
      showSuggestions := false;
      highlightedIndex := -1;
      selections := selections + [item];
    }

    /** A click on the option at `index` of the open list. */
    method ClickOption(index: int)
      requires Valid()
      requires showSuggestions && 0 <= index < |suggestions|
      modifies this
      ensures Valid() && Committed(old(suggestions)[index])
    {
      HandleSelect(suggestions[index]);
    }

    /** `handleKey`: ignored while the list is closed or empty; the arrows move
        the highlight cyclically, Enter commits the highlighted suggestion.
        Returns whether `preventDefault` was called. */
    method HandleKey(key: Key) returns (preventDefault: bool)
      requires Valid()
      modifies this
      ensures Valid()
      ensures preventDefault <==>
                old(showSuggestions) && old(suggestions) != [] && !key.OtherKey?
      ensures (!old(showSuggestions) || old(suggestions) == [] || key.OtherKey?
               || (key == Enter && !(0 <= old(highlightedIndex) < |old(suggestions)|))) ==>
                unchanged(this)
      ensures old(showSuggestions) && old(suggestions) != [] && (key == ArrowDown || key == ArrowUp) ==>
                highlightedIndex ==
                  (if key == ArrowDown then ArrowDownIndex(old(highlightedIndex), |old(suggestions)|)
                   else ArrowUpIndex(old(highlightedIndex), |old(suggestions)|))
                && input == old(input) && suggestions == old(suggestions) && showSuggestions
                && timerPending == old(timerPending) && fetchesInFlight == old(fetchesInFlight)
                && fetchCalls == old(fetchCalls) && selections == old(selections)
      ensures old(showSuggestions) && key == Enter && 0 <= old(highlightedIndex) < |old(suggestions)| ==>
                Committed(old(suggestions)[old(highlightedIndex)])
    {
      preventDefault := false;
      if !showSuggestions || |suggestions| == 0 {
        return;
      }
      match key
      case ArrowDown =>
        preventDefault := true;
        highlightedIndex := ArrowDownIndex(highlightedIndex, |suggestions|);
      case ArrowUp =>
        preventDefault := true;
        highlightedIndex := ArrowUpIndex(highlightedIndex, |suggestions|);
      case Enter =>
        preventDefault := true;
        if highlightedIndex >= 0 && highlightedIndex < |suggestions| {
          HandleSelect(suggestions[highlightedIndex]);
        }
      case OtherKey(_) =>
    }
  }

  /** A suggestion shaped like the test fixtures. */
  datatype Item = Item(id: string, name: string)

  /** Typing "S", waiting, then ArrowDown, ArrowDown, Enter (the keyboard test).
      The committed label differs from the typed text, so another fetch follows. */
  method KeyboardNavigationTrace() returns (selected: seq<Item>, queries: seq<string>)
    ensures selected == [Item("2", "Hamburg Station")] && queries == ["S", "Hamburg Station"]
  {
    var berlin, hamburg := Item("1", "Berlin Station"), Item("2", "Hamburg Station");
    var a := new Autocomplete((i: Item) => i.name);
    a.SetInput("S");
    a.FireTimer();
    assert a.fetchCalls == ["S"];
    a.ResolveFetch([berlin, hamburg]);
    var prevented := a.HandleKey(ArrowDown);
    assert prevented && a.highlightedIndex == 0;
    var rows := a.Rendered().value;
    assert rows[0] == Suggestion("Berlin Station", true) && rows[1] == Suggestion("Hamburg Station", false);
    assert rows == [Suggestion("Berlin Station", true), Suggestion("Hamburg Station", false)];
    prevented := a.HandleKey(ArrowDown);
    assert a.highlightedIndex == 1;
    prevented := a.HandleKey(Enter);
    assert a.selections == [hamburg] && a.input == "Hamburg Station" && a.Rendered() == None;
    assert a.timerPending;
    a.FireTimer();
    assert a.fetchCalls == ["S", "Hamburg Station"];
    a.ResolveFetch([hamburg]);
    assert a.showSuggestions && a.highlightedIndex == -1;
    selected, queries := a.selections, a.fetchCalls;
  }

  /** With two suggestions, a third ArrowDown wraps from the last back to the
      first, and ArrowUp from the first goes back to the last. Escape is not one of
      the handled keys: it is not prevented and keeps the highlight. */
  method WrapAroundTrace() returns (wrapped: int, back: int, escaped: bool, kept: int)
    ensures wrapped == 0 && back == 1
    ensures !escaped && kept == 1
  {
    var berlin, hamburg := Item("1", "Berlin Station"), Item("2", "Hamburg Station");
    var a := new Autocomplete((i: Item) => i.name);
    a.SetInput("S");
    a.FireTimer();
    a.ResolveFetch([berlin, hamburg]);
    var prevented := a.HandleKey(ArrowDown);
    prevented := a.HandleKey(ArrowDown);
    prevented := a.HandleKey(ArrowDown);
    wrapped := a.highlightedIndex;
    prevented := a.HandleKey(ArrowUp);
    back := a.highlightedIndex;
    escaped := a.HandleKey(OtherKey("Escape"));
    kept := a.highlightedIndex;
  }

  /** Typing and clearing before the quiet period ends sends no fetch. */
  method ClearBeforeTimerTrace() returns (queries: seq<string>, shown: Option<seq<Row>>)
    ensures queries == [] && shown == None
  {
    var a := new Autocomplete((i: Item) => i.name);
    a.SetInput("");
    assert a.Rendered() == None;
    a.SetInput("Ber");
    a.SetInput("");
    a.FireTimer();
    queries, shown := a.fetchCalls, a.Rendered();
  }

  /** Clicking the first suggestion commits it; clicking outside the open list closes it. */
  method ClickTrace() returns (closed: Option<seq<Row>>, selected: seq<Item>, text: string)
    ensures closed == None
    ensures selected == [Item("1", "Berlin Station")] && text == "Berlin Station"
  {
    var berlin, hamburg := Item("1", "Berlin Station"), Item("2", "Hamburg Station");
    var a := new Autocomplete((i: Item) => i.name);
    a.SetInput("S");
    a.FireTimer();
    a.ResolveFetch([berlin, hamburg]);
    a.HandleClickOutside(false);
    assert a.input == "S" && a.suggestions == [berlin, hamburg];
    closed := a.Rendered();
    a.SetInput("Ber");
    a.FireTimer();
    assert a.fetchCalls == ["S", "Ber"];
    a.ResolveFetch([berlin, hamburg]);
    a.ClickOption(0);
    selected, text := a.selections, a.input;
  }

  /** A fetch that answers with nothing shows the lone "No results" row. */
  method NoResultsTrace() returns (shown: Option<seq<Row>>, prevented: bool)
    ensures shown == Some([NoResults]) && !prevented
  {
    var a := new Autocomplete((i: Item) => i.name);
    a.SetInput("xyz");
    a.FireTimer();
    a.ResolveFetch([]);
    assert a.Rendered() == Some([NoResults]);
    prevented := a.HandleKey(ArrowDown);
    assert a.highlightedIndex == -1;
    shown := a.Rendered();
  }

  /** A fetch sent before the input was cleared still opens the list when it answers. */
  method LateAnswerTrace() returns (text: string, shown: Option<seq<Row>>)
    ensures text == "" && shown == Some([Suggestion("Berlin Station", false)])
  {
    var berlin := Item("1", "Berlin Station");
    var a := new Autocomplete((i: Item) => i.name);
    a.SetInput("Ber");
    a.FireTimer();
    a.SetInput("");
    assert a.Rendered() == None;
    a.ResolveFetch([berlin]);
    var rows := a.Rendered().value;
    assert rows[0] == Suggestion("Berlin Station", false);
    assert rows == [Suggestion("Berlin Station", false)];
    text, shown := a.input, a.Rendered();
  }
}
