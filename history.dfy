/**
 * The transcription history log: a list of records kept under the
 * `transcriptionHistory` key of the browser's local storage, newest first,
 * capped at fifty entries.
 */
module History {
  import opened Wrappers

  /**
   * One transcription. `id` and `timestamp` are readings of the clock in
   * milliseconds (the source stores both as ISO-8601 strings of such readings).
   */
  datatype Item = Item(id: int, image: string, text: string, timestamp: int)

  /** How many records the log keeps. */
  const HistoryLimit: nat := 50

  /**
   * What the storage slot holds: nothing (no key, or the empty string, which
   * is falsy), a parsed list, or text that `JSON.parse` rejects or that does
   * not parse to a list.
   */
  datatype StoredHistory = Absent | Parsed(items: seq<Item>) | Unparsable

  /** The list a writer reads back: empty for an absent slot, nothing when reading throws. */
  function ReadBack(slot: StoredHistory): (r: Option<seq<Item>>)
    ensures r == None <==> slot.Unparsable?
    ensures slot.Absent? ==> r == Some([])
    ensures slot.Parsed? ==> r == Some(slot.items)
  {
    match slot
    case Absent => Some([])
    case Parsed(items) => Some(items)
    case Unparsable => None
  }

  /** `list.slice(0, n)`. */
  function Take(list: seq<Item>, n: nat): (r: seq<Item>)
    ensures |r| == if |list| < n then |list| else n
    ensures r == list[..|r|]
  {
    if |list| <= n then list else list[..n]
  }

  /** `list.unshift(item)` followed by `list.slice(0, 50)`. */
  function Record(stored: seq<Item>, item: Item): (r: seq<Item>)
    ensures |r| <= HistoryLimit
    ensures |r| == if |stored| < HistoryLimit then |stored| + 1 else HistoryLimit
    ensures r[0] == item
    ensures forall i :: 1 <= i < |r| ==> r[i] == stored[i - 1]
  {
    Take([item] + stored, HistoryLimit)
  }

  /** Recording into a full log keeps the 49 newest old entries and drops the rest. */
  lemma RecordEvictsTail(stored: seq<Item>, item: Item)
    requires |stored| >= HistoryLimit
    ensures Record(stored, item) == [item] + stored[..HistoryLimit - 1]
  {
  }

  /** Recording `items` one after another, oldest first. */
  function RecordAll(stored: seq<Item>, items: seq<Item>): (r: seq<Item>)
    ensures items == [] ==> r == stored
    ensures items != [] ==> 1 <= |r| <= HistoryLimit && r[0] == items[|items| - 1]
    decreases |items|
  {
    if items == [] then stored else RecordAll(Record(stored, items[0]), items[1..])
  }

  function Reverse(s: seq<Item>): (r: seq<Item>)
    ensures |r| == |s|
    ensures forall i :: 0 <= i < |s| ==> r[i] == s[|s| - 1 - i]
  {
    if s == [] then [] else Reverse(s[1..]) + [s[0]]
  }

  lemma TakeOfTake(a: seq<Item>, b: seq<Item>, n: nat)
    ensures Take(a + Take(b, n), n) == Take(a + b, n)
  {
  }

  /**
   * Any run of records into a log within the cap leaves the newest fifty of
   * everything ever recorded, newest first, followed by the older stored
   * entries that still fit.
   */
  lemma {:induction false} RecordAllKeepsNewest(stored: seq<Item>, items: seq<Item>)
    requires |stored| <= HistoryLimit
    ensures RecordAll(stored, items) == Take(Reverse(items) + stored, HistoryLimit)
    decreases |items|
  {
    if items != [] {
      var x, rest := items[0], items[1..];
      RecordAllKeepsNewest(Record(stored, x), rest);
      assert Reverse(items) == Reverse(rest) + [x];
      TakeOfTake(Reverse(rest), [x] + stored, HistoryLimit);
      assert Reverse(rest) + ([x] + stored) == Reverse(items) + stored;
    } else {
      assert Reverse(items) + stored == stored;
      assert RecordAll(stored, items) == stored;
    }
  }

  /**
   * Fifty-one records into an empty log leave exactly fifty: the last one at
   * the head and the first one evicted.
   */
  lemma FiftyOneRecords(items: seq<Item>)
    requires |items| == HistoryLimit + 1
    ensures |RecordAll([], items)| == HistoryLimit
    ensures RecordAll([], items)[0] == items[HistoryLimit]
    ensures RecordAll([], items) == Reverse(items[1..])
  {
    RecordAllKeepsNewest([], items);
    var r := Reverse(items);
    assert r + [] == r;
    assert Take(r, HistoryLimit) == Reverse(items[1..]);
  }

  /** Timestamps never increase along the list: newest first. */
  ghost predicate NewestFirst(s: seq<Item>)
  {
    forall i, j :: 0 <= i < j < |s| ==> s[i].timestamp >= s[j].timestamp
  }

  /**
   * A record stamped no earlier than every stored entry keeps a newest-first
   * log newest first, so the history page shows it at the top.
   */
  lemma RecordKeepsNewestFirst(stored: seq<Item>, item: Item)
    requires NewestFirst(stored)
    requires forall x :: x in stored ==> x.timestamp <= item.timestamp
    ensures NewestFirst(Record(stored, item))
  {
    var r := Record(stored, item);
    forall i, j | 0 <= i < j < |r| ensures r[i].timestamp >= r[j].timestamp {
      if i == 0 {
        assert r[j] == stored[j - 1];
        assert r[j] in stored;
      }
    }
  }

  /** The browser's local storage, reduced to the one key the application uses. */
  class LocalStorage {
    var transcriptionHistory: StoredHistory

    constructor (slot: StoredHistory)
      ensures transcriptionHistory == slot
    {
      transcriptionHistory := slot;
    }
  }
}
