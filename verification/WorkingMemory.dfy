/** Bounded recency memory: the latest value of each of the most recently remembered keys. */
module WorkingMemory {

  datatype Key = Key(namespace: string, memoryId: string)

  /** `value` is everything else an item carries. */
  datatype MemoryItem = MemoryItem(key: Key, value: string)

  // ---- What the memory should hold --------------------------------------

  /** The last `n` elements, or all if there are fewer. */
  function Last<T>(xs: seq<T>, n: nat): seq<T> {
    if |xs| <= n then xs else xs[|xs| - n..]
  }

  predicate HasKey(items: seq<MemoryItem>, key: Key) {
    exists i :: 0 <= i < |items| && items[i].key == key
  }

  ghost predicate UniqueKeys(items: seq<MemoryItem>) {
    forall i, j :: 0 <= i < j < |items| ==> items[i].key != items[j].key
  }

  /** The calls that no later call with the same key replaces, in order. */
  function LastOccurrences(history: seq<MemoryItem>): seq<MemoryItem> {
    if history == [] then [] else
      (if HasKey(history[1..], history[0].key) then [] else [history[0]]) + LastOccurrences(history[1..])
  }

  // ---- One call ---------------------------------------------------------

  function Without(items: seq<MemoryItem>, key: Key): seq<MemoryItem> {
    if items == [] then [] else
      (if items[0].key == key then [] else [items[0]]) + Without(items[1..], key)
  }

  function Remembered(items: seq<MemoryItem>, item: MemoryItem, capacity: nat): seq<MemoryItem> {
    Last(Without(items, item.key) + [item], capacity)
  }

  function RememberedAll(items: seq<MemoryItem>, calls: seq<MemoryItem>, capacity: nat): seq<MemoryItem>
    decreases |calls|
  {
    if calls == [] then items
    else Remembered(RememberedAll(items, calls[..|calls| - 1], capacity), calls[|calls| - 1], capacity)
  }

  // ---- Why they agree ---------------------------------------------------

  lemma HasKeyAppend(items: seq<MemoryItem>, item: MemoryItem, key: Key)
    ensures HasKey(items + [item], key) <==> HasKey(items, key) || item.key == key
  {
    var more := items + [item];
    assert more[|items|] == item;
    if HasKey(items, key) {
      var i :| 0 <= i < |items| && items[i].key == key;
      assert more[i].key == key;
    }
  }

  /** A new call replaces the earlier call with its key and becomes the last one. */
  lemma {:induction false} NewestReplaces(history: seq<MemoryItem>, item: MemoryItem)
    ensures LastOccurrences(history + [item]) == Without(LastOccurrences(history), item.key) + [item]
    decreases |history|
  {
    var longer := history + [item];
    if history == [] {
      assert longer[1..] == [];
    } else {
      assert longer[1..] == history[1..] + [item] && longer[0] == history[0];
      NewestReplaces(history[1..], item);
      HasKeyAppend(history[1..], item, history[0].key);
      var first := if HasKey(history[1..], history[0].key) then [] else [history[0]];
      WithoutConcat(first, LastOccurrences(history[1..]), item.key);
    }
  }

  lemma {:induction false} WithoutConcat(a: seq<MemoryItem>, b: seq<MemoryItem>, key: Key)
    ensures Without(a + b, key) == Without(a, key) + Without(b, key)
    decreases |a|
  {
    if a == [] {
      assert a + b == b;
    } else {
      assert (a + b)[1..] == a[1..] + b;
      WithoutConcat(a[1..], b, key);
    }
  }

  lemma {:induction false} HasKeyFirst(items: seq<MemoryItem>, key: Key)
    requires items != []
    ensures HasKey(items, key) <==> items[0].key == key || HasKey(items[1..], key)
  {
    if i :| 0 <= i < |items| && items[i].key == key {
      if i > 0 { assert items[1..][i - 1].key == key; }
    }
    if i :| 0 <= i < |items[1..]| && items[1..][i].key == key {
      assert items[i + 1].key == key;
    }
  }

  lemma {:induction false} UniqueFirst(items: seq<MemoryItem>)
    requires items != []
    ensures UniqueKeys(items) <==> UniqueKeys(items[1..]) && !HasKey(items[1..], items[0].key)
  {
    var rest := items[1..];
    if UniqueKeys(items) {
      forall i, j | 0 <= i < j < |rest| ensures rest[i].key != rest[j].key {
        assert items[i + 1].key != items[j + 1].key;
      }
      forall i | 0 <= i < |rest| ensures rest[i].key != items[0].key {
        assert items[i + 1].key != items[0].key;
      }
    }
    if UniqueKeys(rest) && !HasKey(rest, items[0].key) {
      forall i, j | 0 <= i < j < |items| ensures items[i].key != items[j].key {
        assert items[j] == rest[j - 1];
        if i > 0 { assert items[i] == rest[i - 1]; }
      }
    }
  }

  /** In unique items, removing a key removes at most one of them. */
  lemma {:induction false} WithoutMembers(items: seq<MemoryItem>, key: Key)
    requires UniqueKeys(items)
    ensures |items| - 1 <= |Without(items, key)| <= |items|
    ensures |Without(items, key)| == |items| <==> !HasKey(items, key)
    ensures !HasKey(items, key) ==> Without(items, key) == items
    decreases |items|
  {
    if items != [] {
      UniqueFirst(items);
      HasKeyFirst(items, key);
      WithoutMembers(items[1..], key);
    }
  }

  lemma {:induction false} LastOccurrencesUnique(history: seq<MemoryItem>)
    ensures UniqueKeys(LastOccurrences(history))
    ensures forall k :: HasKey(LastOccurrences(history), k) ==> HasKey(history, k)
    decreases |history|
  {
    if history != [] {
      var rest := LastOccurrences(history[1..]);
      LastOccurrencesUnique(history[1..]);
      forall k | HasKey(LastOccurrences(history), k) ensures HasKey(history, k) {
        if k != history[0].key {
          var i :| 0 <= i < |LastOccurrences(history)| && LastOccurrences(history)[i].key == k;
          assert HasKey(rest, k) by {
            if HasKey(history[1..], history[0].key) { assert rest[i].key == k; } else { assert rest[i - 1].key == k; }
          }
          var j :| 0 <= j < |history[1..]| && history[1..][j].key == k;
          assert history[j + 1].key == k;
        } else {
          assert history[0].key == k;
        }
      }
      if !HasKey(history[1..], history[0].key) {
        forall i | 0 <= i < |rest| ensures rest[i].key != history[0].key {
          assert HasKey(rest, rest[i].key);
        }
      }
    }
  }

  /** Call `i` is the last with its key. */
  ghost predicate LastOfKey(history: seq<MemoryItem>, i: nat) {
    i < |history| && forall j :: i < j < |history| ==> history[j].key != history[i].key
  }

  /** `places` are, in order, the calls that no later call with the same key replaces. */
  ghost predicate LastPlaces(history: seq<MemoryItem>, places: seq<nat>) {
    && (forall a, b :: 0 <= a < b < |places| ==> places[a] < places[b])
    && (forall i: nat :: i in places <==> LastOfKey(history, i))
  }

  function Shifted(places: seq<nat>): seq<nat> {
    seq(|places|, a requires 0 <= a < |places| => places[a] + 1)
  }

  lemma {:induction false} ShiftedMember(places: seq<nat>, i: nat)
    ensures i in Shifted(places) <==> i > 0 && i - 1 in places
  {
    if i > 0 && i - 1 in places {
      var a :| 0 <= a < |places| && places[a] == i - 1;
      assert Shifted(places)[a] == i;
    }
  }

  lemma {:induction false} LastOfKeyLater(history: seq<MemoryItem>, i: nat)
    requires history != []
    ensures LastOfKey(history, i + 1) <==> LastOfKey(history[1..], i)
    ensures LastOfKey(history, 0) <==> !HasKey(history[1..], history[0].key)
  {
    var rest := history[1..];
    assert forall j :: 0 <= j < |rest| ==> rest[j] == history[j + 1];
    if LastOfKey(rest, i) {
      forall j | i + 1 < j < |history| ensures history[j].key != history[i + 1].key {
        assert history[j] == rest[j - 1];
      }
    }
    if !HasKey(rest, history[0].key) {
      forall j | 0 < j < |history| ensures history[j].key != history[0].key {
        assert history[j] == rest[j - 1];
      }
    }
  }

  lemma {:induction false} PlacesFirst(history: seq<MemoryItem>, later: seq<nat>, first: seq<nat>)
    requires history != [] && LastPlaces(history[1..], later)
    requires first == if HasKey(history[1..], history[0].key) then [] else [0]
    ensures LastPlaces(history, first + Shifted(later))
  {
    forall i: nat ensures i in first + Shifted(later) <==> LastOfKey(history, i) {
      ShiftedMember(later, i);
      LastOfKeyLater(history, if i > 0 then i - 1 else 0);
    }
  }

  /** `kept` are the calls at these places. */
  ghost predicate KeptAt(history: seq<MemoryItem>, kept: seq<MemoryItem>, places: seq<nat>) {
    && |kept| == |places|
    && forall a :: 0 <= a < |places| ==> places[a] < |history| && kept[a] == history[places[a]]
  }

  lemma {:induction false} KeptFirst(history: seq<MemoryItem>, later: seq<nat>, first: seq<nat>)
    requires history != [] && KeptAt(history[1..], LastOccurrences(history[1..]), later)
    requires first == if HasKey(history[1..], history[0].key) then [] else [0]
    ensures KeptAt(history, LastOccurrences(history), first + Shifted(later))
  {
    var kept, places := LastOccurrences(history[1..]), first + Shifted(later);
    forall a | 0 <= a < |later| ensures later[a] + 1 < |history| && kept[a] == history[later[a] + 1] {
      assert history[1..][later[a]] == history[later[a] + 1];
    }
    assert LastOccurrences(history) == (if first == [] then [] else [history[0]]) + kept;
  }

  /** What is kept of a history, said by position: exactly the calls that are the last with their key. */
  lemma {:induction false} LastOccurrencesExactly(history: seq<MemoryItem>) returns (places: seq<nat>)
    ensures LastPlaces(history, places) && KeptAt(history, LastOccurrences(history), places)
    decreases |history|
  {
    if history == [] {
      places := [];
    } else {
      var later := LastOccurrencesExactly(history[1..]);
      var first: seq<nat> := if HasKey(history[1..], history[0].key) then [] else [0];
      places := first + Shifted(later);
      PlacesFirst(history, later, first);
      KeptFirst(history, later, first);
    }
  }

  /** Truncating before a call changes nothing: what it drops would be dropped anyway. */
  lemma {:induction false} TruncationIsHarmless(kept: seq<MemoryItem>, item: MemoryItem, capacity: nat)
    requires UniqueKeys(kept) && capacity > 0
    ensures Remembered(Last(kept, capacity), item, capacity) == Remembered(kept, item, capacity)
  {
    if |kept| > capacity {
      var cut := |kept| - capacity;
      var older, recent := kept[..cut], kept[cut..];
      assert kept == older + recent;
      WithoutConcat(older, recent, item.key);
      WithoutMembers(recent, item.key);
      var tail := Without(recent, item.key) + [item];
      assert Without(kept, item.key) + [item] == Without(older, item.key) + tail;
      if |Without(recent, item.key)| < |recent| {
        // The key is recent, so nothing older has it and `tail` already fills the capacity.
        assert |tail| == capacity;
      } else {
        assert |tail| == capacity + 1;
      }
      LastOfTail(Without(older, item.key), tail, capacity);
    }
  }

  lemma LastOfTail<T>(front: seq<T>, tail: seq<T>, n: nat)
    requires |tail| >= n
    ensures Last(front + tail, n) == Last(tail, n)
  {
  }

  /** After any calls from empty, the memory holds the last `capacity` of the calls that were not
      replaced, each with its latest value. */
  lemma {:induction false} RecencyOfHistory(calls: seq<MemoryItem>, capacity: nat)
    requires capacity > 0
    ensures RememberedAll([], calls, capacity) == Last(LastOccurrences(calls), capacity)
    decreases |calls|
  {
    if calls != [] {
      var n := |calls| - 1;
      RecencyOfHistory(calls[..n], capacity);
      LastOccurrencesUnique(calls[..n]);
      TruncationIsHarmless(LastOccurrences(calls[..n]), calls[n], capacity);
      NewestReplaces(calls[..n], calls[n]);
      assert calls == calls[..n] + [calls[n]];
    }
  }

  lemma {:induction false} UniqueIsAllLast(items: seq<MemoryItem>)
    requires UniqueKeys(items)
    ensures LastOccurrences(items) == items
    decreases |items|
  {
    if items != [] {
      UniqueIsAllLast(items[1..]);
      forall i | 0 <= i < |items[1..]| ensures items[1..][i].key != items[0].key {
        assert items[i + 1].key != items[0].key;
      }
    }
  }

  // ---- The object -------------------------------------------------------

  class Memory {
    const capacity: nat
    const durable: bool                     // whether there is a persistence port
    var items: seq<MemoryItem>
    var persisted: seq<MemoryItem>          // the rows last handed to it
    ghost var history: seq<MemoryItem>      // the rows loaded, then every call since

    ghost predicate Valid()
      reads this
    {
      && capacity > 0
      && items == Last(LastOccurrences(history), capacity)
    }

    /** Starts from the rows the port holds, which are what an earlier memory wrote there. */
    constructor (capacity: nat, durable: bool, rows: seq<MemoryItem>)
      requires capacity > 0
      ensures this.capacity == capacity && this.durable == durable
      ensures items == Last(if durable then rows else [], capacity)
      ensures persisted == rows && history == if durable then rows else []
      ensures UniqueKeys(history) ==> Valid()
    {
      this.capacity := capacity;
      this.durable := durable;
      var loaded := if durable then rows else [];
      items := if |loaded| <= capacity then loaded else loaded[|loaded| - capacity..];
      persisted := rows;
      history := loaded;
      new;
      if UniqueKeys(history) { UniqueIsAllLast(history); }
    }

    /** Drops the item's earlier version, appends it, and forgets what no longer fits. */
    method Remember(item: MemoryItem) returns (r: seq<MemoryItem>)
      requires Valid()
      modifies this
      ensures Valid() && history == old(history) + [item]
      ensures r == items == Remembered(old(items), item, capacity)
      ensures persisted == if durable then items else old(persisted)
    {
      var retained := Without(items, item.key);
      LastOccurrencesUnique(history);
      TruncationIsHarmless(LastOccurrences(history), item, capacity);
      NewestReplaces(history, item);
      items := Last(retained + [item], capacity);
      history := history + [item];
      if durable {
        persisted := items;
      }
      r := items;
    }
  }

  /** Creates a memory, unless the capacity is not positive. */
  method NewMemory(capacity: int, durable: bool, rows: seq<MemoryItem>) returns (memory: Memory?)
    ensures memory == null <==> capacity <= 0
    ensures memory != null ==> fresh(memory) && memory.capacity == capacity
                               && memory.items == Last(if durable then rows else [], capacity)
  {
    if capacity <= 0 {
      return null;
    }
    memory := new Memory(capacity, durable, rows);
  }
}
