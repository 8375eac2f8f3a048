/**
 * The history page: on mount it reads the stored list, sorts it in place
 * newest first and shows it; clicking a card opens that record, and "Back"
 * returns to the list.
 */
module HistoryPage {
  import opened Wrappers
  import opened History

  /** Every element at an index below `n` is at least as new as every later one up to `n`. */
  ghost predicate NewestFirstUpTo(a: seq<Item>, n: int)
    requires 0 <= n <= |a|
  {
    forall i, j :: 0 <= i < j < n ==> a[i].timestamp >= a[j].timestamp
  }

  /** Exchanges the records at `j - 1` and `j`. */
  method SwapAdjacent(a: array<Item>, j: int)
    requires 0 < j < a.Length
    modifies a
    ensures a[..] == old(a[..])[j - 1 := old(a[j])][j := old(a[j - 1])]
    ensures multiset(a[..]) == multiset(old(a[..]))
  {
    a[j - 1], a[j] := a[j], a[j - 1];
  }

  /** Once the moving record at `j` is no newer than its left neighbour, `a[..n]` is newest first. */
  lemma SettledAt(a: seq<Item>, j: int, n: int)
    requires 0 <= j < n <= |a|
    requires forall p, q :: 0 <= p < q < n && p != j && q != j ==> a[p].timestamp >= a[q].timestamp
    requires forall q :: j < q < n ==> a[j].timestamp > a[q].timestamp
    requires j > 0 ==> a[j - 1].timestamp >= a[j].timestamp
    ensures NewestFirstUpTo(a, n)
  {
    forall p, q | 0 <= p < q < n ensures a[p].timestamp >= a[q].timestamp {
      if q == j && p < j - 1 {
        assert a[p].timestamp >= a[j - 1].timestamp;
      }
    }
  }

  /**
   * `Array.prototype.sort` with the comparator `b.timestamp - a.timestamp`:
   * afterwards the array holds the same records, newest first.
   */
  method SortNewestFirst(a: array<Item>)
    modifies a
    ensures NewestFirst(a[..])
    ensures multiset(a[..]) == multiset(old(a[..]))
  {
    if a.Length == 0 {
      return;
    }
    var i := 1;
    while i < a.Length
      invariant 1 <= i <= a.Length
      invariant NewestFirstUpTo(a[..], i)
      invariant multiset(a[..]) == multiset(old(a[..]))
    {
      var j := i;
      while j > 0 && a[j - 1].timestamp < a[j].timestamp
        invariant 0 <= j <= i < a.Length
        invariant forall p, q :: 0 <= p < q <= i && p != j && q != j ==> a[p].timestamp >= a[q].timestamp
        invariant forall q :: j < q <= i ==> a[j].timestamp > a[q].timestamp
        invariant multiset(a[..]) == multiset(old(a[..]))
      {
        SwapAdjacent(a, j);
        j := j - 1;
      }
      SettledAt(a[..], j, i + 1);
      i := i + 1;
    }
  }

  class HistoryView {
    var history: seq<Item>
    var selectedItem: Option<Item>
    const storage: LocalStorage

    constructor (storage: LocalStorage)
      ensures this.storage == storage
      ensures history == [] && selectedItem == None
    {
      this.storage := storage;
      history, selectedItem := [], None;
    }

    /**
     * The mount effect. An absent slot leaves the list as it was; a parsed list
     * is sorted newest first and shown; text that does not parse to a list
     * makes the effect throw (`crashed`), since the parse is not guarded.
     * Storage is only read.
     */
    method Load() returns (crashed: bool)
      modifies this
      ensures selectedItem == old(selectedItem)
      ensures storage.transcriptionHistory == old(storage.transcriptionHistory)
      ensures crashed <==> storage.transcriptionHistory.Unparsable?
      ensures !storage.transcriptionHistory.Parsed? ==> history == old(history)
      ensures storage.transcriptionHistory.Parsed? ==>
        && NewestFirst(history)
        && multiset(history) == multiset(storage.transcriptionHistory.items)
    {
      crashed := false;
      var stored := storage.transcriptionHistory;
      match stored {
        case Absent =>
        case Unparsable =>
          crashed := true;
        case Parsed(items) =>
          var parsed := new Item[|items|](k requires 0 <= k < |items| => items[k]);
          assert parsed[..] == items;
          SortNewestFirst(parsed);
          history := parsed[..];
      }
    }

    /** Clicking a card opens that record. */
    method Select(item: Item)
      requires item in history
      modifies this
      ensures selectedItem == Some(item) && history == old(history)
    {
      selectedItem := Some(item);
    }

    /** "Back to History" closes the open record. */
    method Back()
      modifies this
      ensures selectedItem == None && history == old(history)
    {
      selectedItem := None;
    }
  }

  /** Loading on a fresh page with nothing stored shows an empty list. */
  method LoadWithNothingStored() returns (shown: seq<Item>)
    ensures shown == []
  {
    var storage := new LocalStorage(Absent);
    var page := new HistoryView(storage);
    var crashed := page.Load();
    shown := page.history;
  }
}
