/**
 * The element registry of elementmanager.py: 118 slots indexed by atomic
 * number minus one, and a dict from symbol to slot index.
 */
module Registry {
  import opened Outcomes
  import opened Elements

  /** The number of slots, `element_count`. */
  const ElementCount: int := 118

  /** One record of the element dataset. */
  datatype Record = Record(number: int, name: string, symbol: string, mass: real)

  /** The lookup argument: an int, a str, or a value of some other Python type. */
  datatype Target = NumberTarget(number: int) | SymbolTarget(symbol: string) | OtherTarget(typeName: string)

  /** A record whose atomic number names one of the slots. */
  predicate InRange(r: Record)
  {
    1 <= r.number <= ElementCount
  }

  /** The element `add_element` builds from a record. */
  function ElementOf(r: Record): Element
  {
    Element(r.number, r.name, r.symbol, r.mass)
  }

  /**
   * The registry invariant: every symbol maps to a populated slot, and every
   * populated slot `i` holds an element with atomic number `i + 1`.
   */
  predicate Consistent(slots: seq<Option<Element>>, index: map<string, int>)
  {
    && |slots| == ElementCount
    && (forall s :: s in index ==> 0 <= index[s] < |slots| && slots[index[s]].Some?)
    && (forall i :: 0 <= i < |slots| && slots[i].Some? ==> slots[i].value.number == i + 1)
  }

  /** The slots after `add_element` has been called on each record in order. */
  function LoadSlots(records: seq<Record>): (slots: seq<Option<Element>>)
    requires forall i :: 0 <= i < |records| ==> InRange(records[i])
    ensures |slots| == ElementCount
  {
    if |records| == 0 then seq(ElementCount, _ => None)
    else
      var last := records[|records| - 1];
      assert InRange(last);
      LoadSlots(records[..|records| - 1])[last.number - 1 := Some(ElementOf(last))]
  }

  /** The symbol index after `add_element` has been called on each record in order. */
  function LoadIndex(records: seq<Record>): map<string, int>
  {
    if |records| == 0 then map[]
    else
      var last := records[|records| - 1];
      LoadIndex(records[..|records| - 1])[last.symbol := last.number - 1]
  }

  /** Whatever the dataset, loading it leaves a consistent registry. */
  lemma {:induction false} LoadConsistent(records: seq<Record>)
    requires forall i :: 0 <= i < |records| ==> InRange(records[i])
    ensures Consistent(LoadSlots(records), LoadIndex(records))
  {
    if |records| > 0 {
      LoadConsistent(records[..|records| - 1]);
    }
  }

  /**
   * Last write wins for slots: slot `n - 1` holds the element of the last
   * record numbered `n`, and stays empty when no record has that number.
   */
  lemma {:induction false} LoadSlotsLastWrite(records: seq<Record>, n: int, j: int)
    requires forall i :: 0 <= i < |records| ==> InRange(records[i])
    requires 1 <= n <= ElementCount
    requires j == -1 || (0 <= j < |records| && records[j].number == n)
    requires forall i :: j < i < |records| ==> records[i].number != n
    ensures LoadSlots(records)[n - 1] == if j == -1 then None else Some(ElementOf(records[j]))
  {
    if |records| > 0 && j != |records| - 1 {
      LoadSlotsLastWrite(records[..|records| - 1], n, j);
    }
  }

  /**
   * Last write wins for symbols: a symbol maps to the slot of the last record
   * carrying it, and is unknown when no record carries it.
   */
  lemma {:induction false} LoadIndexLastWrite(records: seq<Record>, s: string, j: int)
    requires j == -1 || (0 <= j < |records| && records[j].symbol == s)
    requires forall i :: j < i < |records| ==> records[i].symbol != s
    ensures j == -1 <==> s !in LoadIndex(records)
    ensures j != -1 ==> LoadIndex(records)[s] == records[j].number - 1
  {
    if |records| > 0 && j != |records| - 1 {
      LoadIndexLastWrite(records[..|records| - 1], s, j);
    }
  }

  /**
   * An overwrite leaves the old symbol behind: it still names the slot, which
   * now holds the newer element with a different symbol.
   */
  lemma StaleSymbolAfterOverwrite(records: seq<Record>, first: Record, second: Record)
    requires forall i :: 0 <= i < |records| ==> InRange(records[i])
    requires InRange(first) && first.number == second.number && first.symbol != second.symbol
    ensures var loaded := records + [first, second];
            && first.symbol in LoadIndex(loaded)
            && LoadIndex(loaded)[first.symbol] == first.number - 1
            && LoadSlots(loaded)[first.number - 1] == Some(ElementOf(second))
            && LoadSlots(loaded)[first.number - 1].value.symbol != first.symbol
  {
    var loaded := records + [first, second];
    assert loaded[..|loaded| - 1] == records + [first];
    assert (records + [first])[..|records|] == records;
  }

  /**
   * A dataset with distinct numbers and distinct symbols can be looked up both
   * ways: each record's slot holds its element and its symbol names that slot.
   */
  lemma {:induction false} DistinctDatasetLookups(records: seq<Record>, j: nat)
    requires forall i :: 0 <= i < |records| ==> InRange(records[i])
    requires forall i, i' :: 0 <= i < i' < |records| ==> records[i].number != records[i'].number
    requires forall i, i' :: 0 <= i < i' < |records| ==> records[i].symbol != records[i'].symbol
    requires j < |records|
    ensures LoadSlots(records)[records[j].number - 1] == Some(ElementOf(records[j]))
    ensures records[j].symbol in LoadIndex(records)
    ensures LoadIndex(records)[records[j].symbol] == records[j].number - 1
  {
    var r := records[j];
    assert LoadSlots(records)[r.number - 1] == Some(ElementOf(r)) by {
      NoLaterNumber(records, j);
      LoadSlotsLastWrite(records, r.number, j);
    }
    assert r.symbol in LoadIndex(records) && LoadIndex(records)[r.symbol] == r.number - 1 by {
      NoLaterSymbol(records, j);
      LoadIndexLastWrite(records, r.symbol, j);
    }
  }

  /** In a dataset with distinct numbers, no later record repeats record `j`'s number. */
  lemma NoLaterNumber(records: seq<Record>, j: nat)
    requires forall i, i' :: 0 <= i < i' < |records| ==> records[i].number != records[i'].number
    requires j < |records|
    ensures forall i :: j < i < |records| ==> records[i].number != records[j].number
  {
  }

  /** In a dataset with distinct symbols, no later record repeats record `j`'s symbol. */
  lemma NoLaterSymbol(records: seq<Record>, j: nat)
    requires forall i, i' :: 0 <= i < i' < |records| ==> records[i].symbol != records[i'].symbol
    requires j < |records|
    ensures forall i :: j < i < |records| ==> records[i].symbol != records[j].symbol
  {
  }

  /**
   * With distinct numbers and distinct symbols, every known symbol names a
   * populated slot whose element carries that symbol.
   */
  lemma {:induction false} DistinctDatasetSymbols(records: seq<Record>, s: string)
    requires forall i :: 0 <= i < |records| ==> InRange(records[i])
    requires forall i, i' :: 0 <= i < i' < |records| ==> records[i].number != records[i'].number
    requires forall i, i' :: 0 <= i < i' < |records| ==> records[i].symbol != records[i'].symbol
    requires s in LoadIndex(records)
    ensures 0 <= LoadIndex(records)[s] < ElementCount
    ensures LoadSlots(records)[LoadIndex(records)[s]].Some?
    ensures LoadSlots(records)[LoadIndex(records)[s]].value.symbol == s
  {
    var j := LastWithSymbol(records, s);
    LoadIndexLastWrite(records, s, j);
    DistinctDatasetLookups(records, j);
  }

  /** The position of the last record carrying symbol `s`, or -1. */
  function LastWithSymbol(records: seq<Record>, s: string): (j: int)
    ensures j == -1 || (0 <= j < |records| && records[j].symbol == s)
    ensures forall i :: j < i < |records| ==> records[i].symbol != s
  {
    if |records| == 0 then -1
    else if records[|records| - 1].symbol == s then |records| - 1
    else LastWithSymbol(records[..|records| - 1], s)
  }

  /** The registry: the slots and the symbol index, both updated in place. */
  class ElementManager {
    const elementCount: int
    var elements: array<Option<Element>>
    var elementIndex: map<string, int>

    ghost predicate Valid()
      reads this, elements
    {
      elementCount == ElementCount && elements.Length == elementCount
      && Consistent(elements[..], elementIndex)
    }

    /**
     * `ElementManager()`: 118 empty slots and an empty index, then
     * `add_element` once per dataset record, in order.
     */
    constructor (records: seq<Record>)
      requires forall i :: 0 <= i < |records| ==> InRange(records[i])
      ensures Valid() && fresh(elements)
      ensures elements[..] == LoadSlots(records) && elementIndex == LoadIndex(records)
    {
      elementCount := ElementCount;
      elements := new Option<Element>[ElementCount](_ => None);
      elementIndex := map[];
      new;
      assert elements[..] == LoadSlots([]);
      var i := 0;
      while i < |records|
        invariant 0 <= i <= |records|
        invariant Valid() && fresh(elements)
        invariant elements[..] == LoadSlots(records[..i]) && elementIndex == LoadIndex(records[..i])
      {
        assert records[..i + 1][..i] == records[..i];
        AddElement(records[i]);
        i := i + 1;
      }
      assert records[..i] == records;
    }

    /**
     * `add_element(record)`: stores the record's element in slot `number - 1`
     * and maps its symbol to that slot, overwriting whatever was there.
     */
    method AddElement(record: Record)
      requires Valid() && InRange(record)
      modifies this`elementIndex, elements
      ensures Valid()
      ensures elements[..] == old(elements[..])[record.number - 1 := Some(ElementOf(record))]
      ensures elementIndex == old(elementIndex)[record.symbol := record.number - 1]
    {
      var number := record.number;
      var index := number - 1;
      var symbol := record.symbol;
      var element := Element(number, record.name, symbol, record.mass);
      elements[index] := Some(element);
      elementIndex := elementIndex[symbol := index];
    }

    /**
     * `get(target)`: by atomic number with Python list indexing (so 0 and
     * negative numbers wrap around to the end), by symbol through the index,
     * and ElementNotDefined otherwise. An empty slot comes back as None.
     */
    method Get(target: Target) returns (r: Result<Option<Element>>)
      requires Valid()
      ensures target.NumberTarget? && 1 <= target.number <= ElementCount ==>
                r == Success(elements[target.number - 1])
      ensures target.NumberTarget? && -ElementCount < target.number <= 0 ==>
                r == Success(elements[ElementCount + target.number - 1])
      ensures target.NumberTarget? && (target.number > ElementCount || target.number <= -ElementCount) ==>
                r == Failure(ElementNotDefined)
      ensures target.SymbolTarget? && target.symbol !in elementIndex ==> r == Failure(ElementNotDefined)
      ensures target.SymbolTarget? && target.symbol in elementIndex ==>
                r == Success(elements[elementIndex[target.symbol]]) && r.value.Some?
      ensures target.OtherTarget? ==> r == Failure(ElementNotDefined)
      ensures target.NumberTarget? && 1 <= target.number <= ElementCount && r.value.Some? ==>
                r.value.value.number == target.number
    {
      match target {
        case NumberTarget(n) =>
          var i := n - 1;
          if i < 0 {
            i := i + elements.Length;
          }
          if 0 <= i < elements.Length {
            r := Success(elements[i]);
          } else {
            r := Failure(ElementNotDefined);
          }
        case SymbolTarget(s) =>
          if s in elementIndex {
            r := Success(elements[elementIndex[s]]);
          } else {
            r := Failure(ElementNotDefined);
          }
        case OtherTarget(_) =>
          r := Failure(ElementNotDefined);
      }
    }
  }

  /**
   * After loading a dataset holding Hydrogen as number 1 with symbol "H" and
   * no other record for either, looking up 1 and "H" give the same element.
   */
  method HydrogenLookups(records: seq<Record>, k: nat) returns (byNumber: Result<Option<Element>>, bySymbol: Result<Option<Element>>)
    requires forall i :: 0 <= i < |records| ==> InRange(records[i])
    requires k < |records| && records[k] == Record(1, "Hydrogen", "H", 1.008)
    requires forall i :: 0 <= i < |records| && i != k ==> records[i].number != 1 && records[i].symbol != "H"
    ensures byNumber == bySymbol == Success(Some(Element(1, "Hydrogen", "H", 1.008)))
  {
    var manager := new ElementManager(records);
    LoadSlotsLastWrite(records, 1, k);
    LoadIndexLastWrite(records, "H", k);
    byNumber := manager.Get(NumberTarget(1));
    bySymbol := manager.Get(SymbolTarget("H"));
  }
}
