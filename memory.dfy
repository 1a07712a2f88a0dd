/**
 * The calculation history of calculator/js/memory.js: `MemoryState` and the
 * `MemoryManager` operations on it.
 *
 * `Added` and `FindById` say what `addCalculation` and the lookup in
 * `recallCalculation` compute; the lemmas below them state the promises of
 * the history (newest first, at most `maxHistoryItems` entries, older
 * entries kept in order) and what a recall leaves in the engine.
 */
module Memory {
  import opened Wrappers
  import opened Numbers
  import opened Engine
  import NumberFacts

  /** One entry of the history. `id` and `timestamp` come from the clock. */
  datatype HistoryItem = HistoryItem(id: int, expression: string, result: Decimal, timestamp: string)

  /** The cap `MemoryState` starts with. */
  const DefaultMaxHistoryItems: nat := 10

  /** The history after `unshift(item)` and the cut back to `max` entries. */
  function Added(history: seq<HistoryItem>, item: HistoryItem, max: nat): seq<HistoryItem> {
    var h := [item] + history;
    if |h| > max then h[..max] else h
  }

  /** `history.find(item => item.id === id)`: the first entry with that id. */
  function FindById(history: seq<HistoryItem>, id: int): Option<HistoryItem> {
    if |history| == 0 then None
    else if history[0].id == id then Some(history[0])
    else FindById(history[1..], id)
  }

  /** The engine state `recallCalculation` leaves: `clear()`, then `inputNumber(result.toString())`. */
  function Recalled(result: Decimal): CalculatorState {
    AfterInputNumber(AfterClear(), Show(result))
  }

  // --- addCalculation ---

  /**
   * The new entry comes first, the history never grows past the cap (and
   * holds every entry the cap allows), and behind the new entry stand the
   * previous entries in order, cut only at the old end.
   */
  lemma AddedHistory(history: seq<HistoryItem>, item: HistoryItem, max: nat)
    requires max >= 1
    ensures var r := Added(history, item, max);
      |r| == (if |history| + 1 <= max then |history| + 1 else max) && r[0] == item &&
      r[1..] == history[..|r| - 1]
  {
    var h := [item] + history;
    assert h[1..] == history;
  }

  // --- recallCalculation ---

  /** `find` returns an entry with the id asked for, and no earlier entry has it. */
  lemma {:induction false} FindByIdFirst(history: seq<HistoryItem>, id: int)
    ensures FindById(history, id).Some? ==>
      exists i :: 0 <= i < |history| && history[i] == FindById(history, id).value && history[i].id == id &&
        forall j :: 0 <= j < i ==> history[j].id != id
    decreases |history|
  {
    if |history| > 0 && history[0].id != id {
      FindByIdFirst(history[1..], id);
      if FindById(history, id).Some? {
        var i :| 0 <= i < |history[1..]| && history[1..][i] == FindById(history, id).value &&
          history[1..][i].id == id && forall j :: 0 <= j < i ==> history[1..][j].id != id;
        assert history[i + 1] == history[1..][i];
        assert forall j :: 1 <= j < i + 1 ==> history[j] == history[1..][j - 1];
      }
    }
  }

  /** `find` comes back empty exactly when no entry has the id. */
  lemma {:induction false} FindByIdAbsent(history: seq<HistoryItem>, id: int)
    ensures FindById(history, id).None? <==> forall i :: 0 <= i < |history| ==> history[i].id != id
    decreases |history|
  {
    if |history| > 0 && history[0].id != id {
      FindByIdAbsent(history[1..], id);
      assert forall i :: 1 <= i < |history| ==> history[i] == history[1..][i - 1];
    }
  }

  /** `toString` never writes a lone point, so `inputNumber` takes it as a whole operand. */
  lemma ShowIsNotPoint(d: Decimal)
    ensures Show(d) != "."
  {
    match d
    case DecNaN =>
    case Dec(k, m) =>
      if k > 0 {
        ShowPositiveShape(k, -(m as int));
      } else if k < 0 {
        assert Show(d)[0] == '-';
      }
  }

  /**
   * After a recall the engine holds the result's text as the operand and as
   * the expression, with no tokens, nothing pending and no error, and that
   * text reads back as the recalled number.
   */
  lemma RecalledState(result: Decimal)
    ensures Recalled(result) == CalculatorState(Show(result), Show(result), [], None, false, false)
    ensures Val(ParseFloat(Recalled(result).currentInput)) == Val(result)
  {
    ShowIsNotPoint(result);
    NumberFacts.ShowRoundTrip(result);
  }

  /** The history manager: `MemoryState`, changed in place by the `MemoryManager` methods. */
  class MemoryManager {
    var history: seq<HistoryItem>
    var maxHistoryItems: nat
    var isVisible: bool

    constructor ()
      ensures history == [] && maxHistoryItems == DefaultMaxHistoryItems && !isVisible
    {
      history := [];
      maxHistoryItems := DefaultMaxHistoryItems;
      isVisible := false;
    }

    /** `addCalculation(expression, result)`, with the clock's `id` and `timestamp` passed in. */
    method AddCalculation(expression: string, result: Decimal, id: int, timestamp: string)
      modifies this
      ensures history == Added(old(history), HistoryItem(id, expression, result, timestamp), maxHistoryItems)
      ensures maxHistoryItems == old(maxHistoryItems) && isVisible == old(isVisible)
    {
      var historyItem := HistoryItem(id, expression, result, timestamp);
      history := [historyItem] + history;
      if |history| > maxHistoryItems {
        history := history[..maxHistoryItems];
      }
    }

    /** `clearHistory()`. */
    method ClearHistory()
      modifies this
      ensures history == []
      ensures maxHistoryItems == old(maxHistoryItems) && isVisible == old(isVisible)
    {
      history := [];
    }

    /** `togglePanel()`; `panelFound` says whether the page has the panel element. */
    method TogglePanel(panelFound: bool)
      modifies this
      ensures isVisible == (if panelFound then !old(isVisible) else old(isVisible))
      ensures history == old(history) && maxHistoryItems == old(maxHistoryItems)
    {
      if !panelFound {
        return;
      }
      isVisible := !isVisible;
    }

    /** `recallCalculation(historyId)`: load the result of the first entry with that id. */
    method RecallCalculation(historyId: int, calculator: Calculator)
      modifies calculator
      ensures FindById(history, historyId).None? ==> calculator.GetState() == old(calculator.GetState())
      ensures FindById(history, historyId).Some? ==>
        calculator.GetState() == Recalled(FindById(history, historyId).value.result)
    {
      var historyItem := FindById(history, historyId);
      if historyItem.None? {
        return;
      }
      calculator.Clear();
      calculator.InputNumber(Show(historyItem.value.result));
    }

    /** `getHistory()`: a copy of the entries. */
    function GetHistory(): (h: seq<HistoryItem>)
      reads this
      ensures |h| == |history| && forall i :: 0 <= i < |h| ==> h[i] == history[i]
    {
      history
    }

    /** `isVisible()`. */
    function IsVisible(): (v: bool)
      reads this
      ensures v <==> isVisible
    {
      isVisible
    }
  }
}
