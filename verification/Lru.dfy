/** Two byte-budgeted LRU caches and the list of entries, coldest first, that both of them are. */
module Lru {
  import opened Bytes

  /** What a cache is keyed by: a block id, or a part's section, named by a number. */
  type Key = nat

  /** A cached value, as the bytes it counts against the budget. */
  type Held = seq<Byte>

  function Weight(v: Held): nat { |v| }

  datatype Slot = Slot(clock: nat, value: Held)

  datatype Item = Item(key: Key, value: Held)

  // ---- the recency list -----------------------------------------------------------------

  /** The position of a key, or the length of the list when it is not resident. */
  function Pos(list: seq<Item>, k: Key): (i: nat)
    ensures i <= |list|
    ensures i < |list| ==> list[i].key == k
    ensures forall j :: 0 <= j < i ==> list[j].key != k
  {
    if |list| == 0 || list[0].key == k then 0 else 1 + Pos(list[1..], k)
  }

  function Find(list: seq<Item>, k: Key): Option<Held> {
    if Pos(list, k) < |list| then Some(list[Pos(list, k)].value) else None
  }

  function Without(list: seq<Item>, k: Key): seq<Item> {
    var i := Pos(list, k);
    if i < |list| then list[..i] + list[i + 1..] else list
  }

  function Touched(list: seq<Item>, k: Key): seq<Item> {
    match Find(list, k)
    case None => list
    case Some(v) => Without(list, k) + [Item(k, v)]
  }

  function Total(list: seq<Item>): nat {
    if |list| == 0 then 0 else Weight(list[0].value) + Total(list[1..])
  }

  /** Drop the coldest entries until `add` more fits, or nothing is left. */
  function Shed(list: seq<Item>, budget: nat, add: nat): seq<Item> {
    if |list| > 0 && Total(list) + add > budget then Shed(list[1..], budget, add) else list
  }

  function Stored(list: seq<Item>, budget: nat, k: Key, v: Held): seq<Item> {
    Without(Shed(list, budget, Weight(v)), k) + [Item(k, v)]
  }

  predicate Distinct(list: seq<Item>) {
    forall i, j :: 0 <= i < j < |list| ==> list[i].key != list[j].key
  }

  /** Within budget, except that one entry of any size is always admitted. */
  predicate Bounded(list: seq<Item>, budget: nat) {
    Total(list) <= budget || |list| == 1
  }

  lemma {:induction false} TotalConcat(a: seq<Item>, b: seq<Item>)
    ensures Total(a + b) == Total(a) + Total(b)
  {
    if |a| == 0 {
      assert a + b == b;
    } else {
      TotalConcat(a[1..], b);
      assert (a + b)[1..] == a[1..] + b;
    }
  }

  lemma TotalOne(k: Key, v: Held)
    ensures Total([Item(k, v)]) == Weight(v)
  {
  }

  /** `w` is `list` with position `p` left out. */
  ghost predicate Skips(list: seq<Item>, w: seq<Item>, p: nat) {
    && |w| == (if p < |list| then |list| - 1 else |list|)
    && forall i :: 0 <= i < |w| ==> w[i] == list[if i < p then i else i + 1]
  }

  predicate Absent(list: seq<Item>, k: Key) { forall i :: 0 <= i < |list| ==> list[i].key != k }

  lemma SkipsOne(list: seq<Item>, p: nat)
    requires p < |list|
    ensures Skips(list, list[..p] + list[p + 1..], p)
  {
  }

  lemma WithoutAt(list: seq<Item>, k: Key)
    ensures Skips(list, Without(list, k), Pos(list, k))
  {
    hide Pos, Skips;
    if Pos(list, k) < |list| { SkipsOne(list, Pos(list, k)); } else { SkipsNone(list); }
  }

  lemma SkipsNone(list: seq<Item>)
    ensures Skips(list, list, |list|)
  {
  }

  lemma FindAt(list: seq<Item>, i: nat)
    requires Distinct(list) && i < |list|
    ensures Pos(list, list[i].key) == i && Find(list, list[i].key) == Some(list[i].value)
  {
  }

  lemma TouchedIs(list: seq<Item>, k: Key)
    ensures Touched(list, k)
         == if Find(list, k).Some? then Without(list, k) + [Item(k, Find(list, k).value)] else list
  {
  }

  lemma WithoutDistinct(list: seq<Item>, k: Key)
    requires Distinct(list)
    ensures Distinct(Without(list, k)) && Absent(Without(list, k), k)
  {
    WithoutAt(list, k);
    var w := Without(list, k);
    var p := Pos(list, k);
    forall i | 0 <= i < |list| && i != p ensures list[i].key != k { }
    hide Pos, Without;
  }

  /** Removing a resident key removes exactly its entry's weight. */
  lemma WithoutWeighs(list: seq<Item>, k: Key)
    ensures Total(Without(list, k))
         == Total(list) - (if Find(list, k).Some? then Weight(Find(list, k).value) else 0)
  {
    var i := Pos(list, k);
    if i < |list| {
      var head, tail := list[..i], list[i + 1..];
      TotalConcat(head, list[i..]);
      TotalConcat(head, tail);
      assert list == head + list[i..];
      assert list[i..][1..] == tail;
    }
  }

  /** The size and weight of a list once `k` is moved to its hot end with value `v`. */
  lemma RefreshedWeighs(list: seq<Item>, k: Key, v: Held)
    ensures var after := Without(list, k) + [Item(k, v)];
            match Find(list, k)
            case Some(gone) => Total(after) == Total(list) - Weight(gone) + Weight(v) && |after| == |list|
            case None => Total(after) == Total(list) + Weight(v) && |after| == |list| + 1
  {
    WithoutWeighs(list, k);
    WithoutAt(list, k);
    TotalConcat(Without(list, k), [Item(k, v)]);
    TotalOne(k, v);
  }

  lemma {:induction false} ShedFits(list: seq<Item>, budget: nat, add: nat)
    ensures var s := Shed(list, budget, add);
            && |s| <= |list| && s == list[|list| - |s|..]
            && (s == [] || Total(s) + add <= budget)
  {
    if |list| > 0 && Total(list) + add > budget {
      ShedFits(list[1..], budget, add);
      var s := Shed(list[1..], budget, add);
      assert list[1..][|list| - 1 - |s|..] == list[|list| - |s|..];
    }
  }

  lemma ShedsHead(list: seq<Item>, budget: nat, add: nat)
    requires |list| > 0 && Total(list) + add > budget
    ensures Shed(list, budget, add) == Shed(list[1..], budget, add)
  {
  }

  lemma AppendDistinct(list: seq<Item>, k: Key, v: Held)
    requires Distinct(list) && Absent(list, k)
    ensures Distinct(list + [Item(k, v)]) && Find(list + [Item(k, v)], k) == Some(v)
  {
    var r := list + [Item(k, v)];
    assert Distinct(r);
    FindAt(r, |list|);
  }

  /** A put keeps keys distinct and the budget, and leaves the new entry hottest. */
  lemma StoredKeeps(list: seq<Item>, budget: nat, k: Key, v: Held)
    requires Distinct(list)
    ensures var r := Stored(list, budget, k, v);
            && Distinct(r) && Bounded(r, budget) && Find(r, k) == Some(v)
            && |r| > 0 && r[|r| - 1] == Item(k, v)
  {
    var s := Shed(list, budget, Weight(v));
    ShedFits(list, budget, Weight(v));
    assert Distinct(s);
    WithoutWeighs(s, k);
    WithoutDistinct(s, k);
    WithoutAt(s, k);
    var w := Without(s, k);
    TotalConcat(w, [Item(k, v)]);
    TotalOne(k, v);
    AppendDistinct(w, k, v);
  }

  /** A hit moves its entry behind all the others and keeps their order; a miss changes nothing. */
  lemma HitMovesToHotEnd(list: seq<Item>, k: Key, i: nat)
    requires Distinct(list)
    ensures i < |list| && list[i].key == k ==>
              Find(list, k) == Some(list[i].value) && Touched(list, k) == list[..i] + list[i + 1..] + [list[i]]
    ensures Absent(list, k) ==> Find(list, k) == None && Touched(list, k) == list
  {
    if i < |list| { FindAt(list, i); }
  }

  /** A put evicts from the cold end, no more than it must: the least number of entries that makes room, or all.
      The new entry is then the hottest, replacing its key's old entry if that is still there. */
  lemma PutEvictsFewest(list: seq<Item>, budget: nat, k: Key, v: Held) returns (n: nat)
    requires Distinct(list)
    ensures n <= |list| && (n < |list| ==> Total(list[n..]) + |v| <= budget)
    ensures forall m :: 0 <= m < n ==> Total(list[m..]) + |v| > budget
    ensures forall i :: n <= i < |list| && list[i].key == k ==>
              Stored(list, budget, k, v) == list[n..i] + list[i + 1..] + [Item(k, v)]
    ensures (forall i :: n <= i < |list| ==> list[i].key != k) ==> Stored(list, budget, k, v) == list[n..] + [Item(k, v)]
  {
    n := ShedsFewest(list, budget, |v|);
    var s := list[n..];
    assert Distinct(s);
    hide Shed, Distinct, Total;
    forall i | n <= i < |list| && list[i].key == k
      ensures Stored(list, budget, k, v) == list[n..i] + list[i + 1..] + [Item(k, v)]
    {
      assert s[i - n] == list[i];
      FindAt(s, i - n);
      assert s[..i - n] == list[n..i] && s[i - n + 1..] == list[i + 1..];
    }
    if forall i :: n <= i < |list| ==> list[i].key != k {
      forall j | 0 <= j < |s| ensures s[j].key != k { assert s[j] == list[n + j]; }
      SkipsNone(s);
      WithoutAt(s, k);
    }
  }

  lemma {:induction false} ShedsFewest(list: seq<Item>, budget: nat, add: nat) returns (n: nat)
    ensures n <= |list| && Shed(list, budget, add) == list[n..]
    ensures n < |list| ==> Total(list[n..]) + add <= budget
    ensures forall m :: 0 <= m < n ==> Total(list[m..]) + add > budget
  {
    if |list| > 0 && Total(list) + add > budget {
      var r := ShedsFewest(list[1..], budget, add);
      n := r + 1;
      assert list[1..][r..] == list[n..];
      forall m | 0 <= m < n ensures Total(list[m..]) + add > budget {
        if m == 0 { assert list[0..] == list; } else { assert list[1..][m - 1..] == list[m..]; }
      }
    } else {
      n := 0;
      assert list[0..] == list;
    }
  }

  /** What a put leaves of the other entries: each one untouched, or evicted from the cold end. */
  lemma StoredEvictsOnly(list: seq<Item>, budget: nat, k: Key, v: Held, o: Key)
    requires Distinct(list) && o != k
    ensures var r := Stored(list, budget, k, v);
            Find(r, o).Some? ==> Find(r, o) == Find(list, o)
  {
    hide Shed, Total, Without, Distinct;
    var s := Shed(list, budget, Weight(v));
    ShedFits(list, budget, Weight(v));
    WithoutAt(s, k);
    var r := Stored(list, budget, k, v);
    var i := Pos(r, o);
    if i < |r| {
      var w := Without(s, k);
      assert r[i] == w[i];
      var x := if i < Pos(s, k) then i else i + 1;
      assert s[x] == list[|list| - |s| + x];
      FindAt(list, |list| - |s| + x);
    }
  }

  // ---- the clock map both caches keep ---------------------------------------------------

  /** Every listed item is the map's entry for its key, at a clock no later than `clock`. */
  ghost predicate Lists(entries: map<Key, Slot>, list: seq<Item>, clock: nat) {
    forall i :: 0 <= i < |list| ==>
      && list[i].key in entries
      && entries[list[i].key].value == list[i].value
      && entries[list[i].key].clock <= clock
  }

  ghost predicate Rising(entries: map<Key, Slot>, list: seq<Item>, clock: nat)
    requires Lists(entries, list, clock)
  {
    forall i, j :: 0 <= i < j < |list| ==> entries[list[i].key].clock < entries[list[j].key].clock
  }

  ghost predicate Covers(entries: map<Key, Slot>, list: seq<Item>) {
    forall k :: k in entries ==> Pos(list, k) < |list|
  }

  /** `list` is the map's entries in increasing clock order. */
  ghost predicate Ranks(entries: map<Key, Slot>, list: seq<Item>, clock: nat) {
    Lists(entries, list, clock) && Rising(entries, list, clock) && Covers(entries, list)
  }

  /** The clock index is the exact inverse of the map. */
  ghost predicate Inverse(entries: map<Key, Slot>, order: map<nat, Key>) {
    && (forall k :: k in entries ==> entries[k].clock in order && order[entries[k].clock] == k)
    && (forall c :: c in order ==> order[c] in entries && entries[order[c]].clock == c)
  }

  lemma RanksFind(entries: map<Key, Slot>, list: seq<Item>, clock: nat, k: Key)
    requires Ranks(entries, list, clock)
    ensures Distinct(list)
    ensures Find(list, k) == if k in entries then Some(entries[k].value) else None
    ensures k in entries ==> entries[k].clock <= clock
  {
  }

  /** The entry with the least clock is the head of the list. */
  lemma ColdestIsHead(entries: map<Key, Slot>, list: seq<Item>, clock: nat)
    requires Ranks(entries, list, clock) && entries != map[]
    ensures |list| > 0 && list[0].key in entries
    ensures forall k :: k in entries && k != list[0].key ==> entries[list[0].key].clock < entries[k].clock
  {
    var some :| some in entries;
    assert Pos(list, some) < |list|;
    forall k | k in entries && k != list[0].key ensures entries[list[0].key].clock < entries[k].clock {
      assert 0 < Pos(list, k) < |list|;
    }
  }

  lemma EmptyRanks(entries: map<Key, Slot>, list: seq<Item>, clock: nat)
    requires Ranks(entries, list, clock)
    ensures entries == map[] <==> list == []
  {
    if entries != map[] { ColdestIsHead(entries, list, clock); }
    if list != [] { assert list[0].key in entries; }
  }

  lemma RemoveCovers(entries: map<Key, Slot>, list: seq<Item>, k: Key)
    requires Covers(entries, list) && Distinct(list)
    ensures Covers(entries - {k}, Without(list, k))
  {
    WithoutAt(list, k);
    var w := Without(list, k);
    var p := Pos(list, k);
    hide Without, Distinct;
    forall o | o in entries - {k} ensures Pos(w, o) < |w| {
      var i := Pos(list, o);
      var x := if i < p then i else i - 1;
      assert i != p;
      assert w[x].key == o;
    }
  }

  lemma RemoveLists(entries: map<Key, Slot>, list: seq<Item>, clock: nat, k: Key, w: seq<Item>, p: nat)
    requires Lists(entries, list, clock) && Rising(entries, list, clock) && Skips(list, w, p) && Absent(w, k)
    ensures Lists(entries - {k}, w, clock) && Rising(entries - {k}, w, clock)
  {
    forall i | 0 <= i < |w|
      ensures w[i].key in entries - {k} && (entries - {k})[w[i].key] == entries[w[i].key]
      ensures entries[w[i].key].value == w[i].value && entries[w[i].key].clock <= clock
    {
      var x := if i < p then i else i + 1;
      assert w[i] == list[x];
    }
    forall i, j | 0 <= i < j < |w| ensures (entries - {k})[w[i].key].clock < (entries - {k})[w[j].key].clock {
      var x := if i < p then i else i + 1;
      var y := if j < p then j else j + 1;
      assert w[j] == list[y];
      assert w[i] == list[x];
    }
  }

  lemma RemoveRanks(entries: map<Key, Slot>, list: seq<Item>, clock: nat, k: Key)
    requires Ranks(entries, list, clock)
    ensures Ranks(entries - {k}, Without(list, k), clock)
  {
    hide Without, Find, Pos, Distinct, Covers, Skips, Absent, Lists, Rising;
    RanksFind(entries, list, clock, k);
    WithoutDistinct(list, k);
    WithoutAt(list, k);
    RemoveCovers(entries, list, k);
    RemoveLists(entries, list, clock, k, Without(list, k), Pos(list, k));
  }

  lemma AppendRanks(entries: map<Key, Slot>, list: seq<Item>, clock: nat, k: Key, v: Held, c: nat)
    requires Ranks(entries, list, clock) && k !in entries && clock < c
    ensures Ranks(entries[k := Slot(c, v)], list + [Item(k, v)], c)
  {
    hide Pos;
    var r := list + [Item(k, v)];
    var e := entries[k := Slot(c, v)];
    forall o | o in e ensures Pos(r, o) < |r| {
      var x := if o == k then |list| else Pos(list, o);
      assert r[x].key == o;
    }
  }

  /** Giving `k` a fresh clock moves it to the hot end, whether or not it was resident. */
  lemma RefreshRanks(entries: map<Key, Slot>, list: seq<Item>, clock: nat, k: Key, v: Held, c: nat)
    requires Ranks(entries, list, clock) && clock < c
    ensures Ranks(entries[k := Slot(c, v)], Without(list, k) + [Item(k, v)], c)
  {
    RemoveRanks(entries, list, clock, k);
    AppendRanks(entries - {k}, Without(list, k), clock, k, v, c);
    assert entries[k := Slot(c, v)] == (entries - {k})[k := Slot(c, v)];
  }

  lemma DropHeadRanks(entries: map<Key, Slot>, list: seq<Item>, clock: nat)
    requires Ranks(entries, list, clock) && |list| > 0
    ensures Ranks(entries - {list[0].key}, list[1..], clock)
  {
    RemoveRanks(entries, list, clock, list[0].key);
    assert Pos(list, list[0].key) == 0;
    assert list[..0] + list[1..] == list[1..];
  }

  /** The first key of the clock index. */
  predicate IsFirst(order: map<nat, Key>, c: nat) { c in order && forall d :: d in order ==> c <= d }

  lemma FirstIsUnique(order: map<nat, Key>, a: nat, b: nat)
    requires IsFirst(order, a) && IsFirst(order, b)
    ensures a == b
  {
  }

  lemma HeadWeighs(entries: map<Key, Slot>, list: seq<Item>, clock: nat)
    requires Ranks(entries, list, clock) && |list| > 0
    ensures list[0].key in entries && Total(list[1..]) == Total(list) - Weight(entries[list[0].key].value)
  {
  }

  lemma RemoveInverse(entries: map<Key, Slot>, order: map<nat, Key>, k: Key)
    requires Inverse(entries, order) && k in entries
    ensures Inverse(entries - {k}, order - {entries[k].clock})
  {
  }

  lemma AppendInverse(entries: map<Key, Slot>, order: map<nat, Key>, k: Key, c: nat, v: Held)
    requires Inverse(entries, order) && k !in entries && c !in order
    ensures Inverse(entries[k := Slot(c, v)], order[c := k])
  {
  }

  lemma ClocksBelow(entries: map<Key, Slot>, order: map<nat, Key>, list: seq<Item>, clock: nat)
    requires Ranks(entries, list, clock) && Inverse(entries, order)
    ensures forall c :: c in order ==> c <= clock
  {
    forall c | c in order ensures c <= clock { RanksFind(entries, list, clock, order[c]); }
  }

  /** Re-inserting a resident key under a fresh clock, then dropping its displaced clock. */
  lemma RefreshInverse(entries: map<Key, Slot>, order: map<nat, Key>, k: Key, c: nat, v: Held)
    requires Inverse(entries, order) && k in entries && c !in order
    ensures Inverse(entries[k := Slot(c, v)], order[c := k] - {entries[k].clock})
    ensures order[c := k] - {entries[k].clock} == (order - {entries[k].clock})[c := k]
  {
    RemoveInverse(entries, order, k);
    AppendInverse(entries - {k}, order - {entries[k].clock}, k, c, v);
    assert entries[k := Slot(c, v)] == (entries - {k})[k := Slot(c, v)];
    assert order[c := k] - {entries[k].clock} == (order - {entries[k].clock})[c := k];
  }

  // ---- BlockCache: a second index from clock to key -------------------------------------

  class BlockCache {
    const budget: nat
    var bytes: int
    var entries: map<Key, Slot>
    var order: map<nat, Key>
    var clock: nat
    ghost var list: seq<Item>

    ghost predicate Indexed()
      reads this
    {
      Ranks(entries, list, clock) && Inverse(entries, order) && bytes == Total(list)
    }

    ghost predicate Valid()
      reads this
    {
      Indexed() && Bounded(list, budget)
    }

    constructor (budget: nat)
      ensures Valid() && list == [] && this.budget == Max(budget, 1)
    {
      this.budget := Max(budget, 1);
      bytes, entries, order, clock, list := 0, map[], map[], 0, [];
    }

    lemma KeysListed()
      requires Valid()
      ensures forall k :: k in entries.Keys <==> Find(list, k).Some?
    {
      hide Find;
      forall k ensures k in entries.Keys <==> Find(list, k).Some? { RanksFind(entries, list, clock, k); }
    }

    method Get(k: Key) returns (r: Option<Held>)
      requires Valid()
      modifies this
      ensures Valid()
      ensures r == Find(old(list), k)
      ensures list == Touched(old(list), k)
    {
      hide Ranks, Inverse, Total, Bounded, Find, Without, Touched, Pos;
      RanksFind(entries, list, clock, k);
      TouchedIs(list, k);
      if k !in entries { return None; }
      var Slot(before, v) := entries[k];
      GetKeeps(k);
      clock := clock + 1;
      order := order - {before};
      order := order[clock := k];
      entries := entries[k := Slot(clock, v)];
      list := Without(list, k) + [Item(k, v)];
      return Some(v);
    }

    lemma GetKeeps(k: Key)
      requires Valid() && k in entries
      ensures var Slot(before, v) := entries[k];
              && Find(list, k) == Some(v)
              && Ranks(entries[k := Slot(clock + 1, v)], Without(list, k) + [Item(k, v)], clock + 1)
              && Inverse(entries[k := Slot(clock + 1, v)], (order - {before})[clock + 1 := k])
              && Total(Without(list, k) + [Item(k, v)]) == bytes
              && Bounded(Without(list, k) + [Item(k, v)], budget)
    {
      hide Lists, Rising, Covers, Pos, Without, Find, Distinct, Skips, Absent, Inverse, Total;
      var Slot(before, v) := entries[k];
      RanksFind(entries, list, clock, k);
      ClocksBelow(entries, order, list, clock);
      RefreshRanks(entries, list, clock, k, v, clock + 1);
      RefreshInverse(entries, order, k, clock + 1, v);
      RefreshedWeighs(list, k, v);
    }

    method Forget(k: Key)
      requires Valid()
      modifies this
      ensures Valid()
      ensures list == Without(old(list), k)
    {
      hide Ranks, Inverse, Total, Bounded, Find, Without, Stored, Shed, Pos;
      ForgetKeeps(k);
      if k in entries {
        var Slot(before, v) := entries[k];
        entries := entries - {k};
        bytes := bytes - Weight(v);
        order := order - {before};
        list := Without(list, k);
      }
    }

    lemma ForgetKeeps(k: Key)
      requires Valid()
      ensures k !in entries ==> Without(list, k) == list
      ensures k in entries ==>
                && Ranks(entries - {k}, Without(list, k), clock)
                && Inverse(entries - {k}, order - {entries[k].clock})
                && Total(Without(list, k)) == bytes - Weight(entries[k].value)
                && Bounded(Without(list, k), budget)
    {
      RanksFind(entries, list, clock, k);
      WithoutWeighs(list, k);
      if k !in entries {
        assert Without(list, k) == list;
      } else {
        assert |list| == 1 ==> Without(list, k) == [];
        hide Lists, Rising, Covers, Pos, Without, Find, Distinct, Skips, Absent, Inverse;
        RemoveRanks(entries, list, clock, k);
        RemoveInverse(entries, order, k);
      }
    }

    method Put(k: Key, v: Held)
      requires Valid()
      modifies this
      ensures Valid()
      ensures list == Stored(old(list), budget, k, v)
    {
      hide Ranks, Inverse, Total, Bounded, Find, Without, Stored, Shed, Pos;
      var add := Weight(v);
      while bytes + add > budget && order != map[]
        invariant Indexed()
        invariant Shed(old(list), budget, add) == Shed(list, budget, add)
        decreases |list|
      {
        SomeToShed(add);
        DropColdest();
      }
      PutKeeps(old(list), k, v);
      PutIndexes(k, v);
      clock := clock + 1;
      bytes := bytes + add;
      order := order[clock := k];
      if k in entries {
        var Slot(before, gone) := entries[k];
        bytes := bytes - Weight(gone);
        order := order - {before};
      }
      entries := entries[k := Slot(clock, v)];
      list := Without(list, k) + [Item(k, v)];
    }

    lemma PutKeeps(before: seq<Item>, k: Key, v: Held)
      requires Indexed() && (bytes + Weight(v) <= budget || order == map[])
      requires Shed(before, budget, Weight(v)) == Shed(list, budget, Weight(v))
      ensures var after := Without(list, k) + [Item(k, v)];
              && after == Stored(before, budget, k, v)
              && Ranks(entries[k := Slot(clock + 1, v)], after, clock + 1) && Bounded(after, budget)
              && Total(after) == bytes + Weight(v) - (if k in entries then Weight(entries[k].value) else 0)
    {
      hide Ranks, Pos, Without, Find, Distinct, Inverse, Total, Shed;
      NothingToShed(Weight(v));
      RanksFind(entries, list, clock, k);
      RefreshRanks(entries, list, clock, k, v, clock + 1);
      RefreshedWeighs(list, k, v);
    }

    lemma NothingToShed(add: nat)
      requires Indexed() && (bytes + add <= budget || order == map[])
      ensures Shed(list, budget, add) == list
      ensures bytes + add <= budget || (list == [] && bytes == 0)
    {
      EmptyRanks(entries, list, clock);
      assert order == map[] ==> entries == map[];
    }

    lemma PutIndexes(k: Key, v: Held)
      requires Indexed()
      ensures k in entries ==>
                Inverse(entries[k := Slot(clock + 1, v)], order[clock + 1 := k] - {entries[k].clock})
      ensures k !in entries ==> Inverse(entries[k := Slot(clock + 1, v)], order[clock + 1 := k])
    {
      hide Ranks, Total, Inverse;
      ClocksBelow(entries, order, list, clock);
      if k in entries {
        RefreshInverse(entries, order, k, clock + 1, v);
      } else {
        AppendInverse(entries, order, k, clock + 1, v);
      }
    }

    lemma SomeToShed(add: nat)
      requires Indexed() && order != map[] && bytes + add > budget
      ensures |list| > 0 && Shed(list, budget, add) == Shed(list[1..], budget, add)
    {
      var c :| c in order;
      assert order[c] in entries;
      EmptyRanks(entries, list, clock);
      ShedsHead(list, budget, add);
    }

    /** Pop the least clock and the key it names. */
    method DropColdest()
      requires Indexed() && order != map[]
      modifies this
      ensures Indexed()
      ensures |old(list)| > 0 && list == old(list)[1..] && clock == old(clock)
    {
      hide Ranks, Inverse, Total;
      ColdestInOrder();
      ghost var head := list[0].key;
      ghost var c := entries[head].clock;
      var coldest :| coldest in order && IsFirst(order, coldest);
      FirstIsUnique(order, c, coldest);
      var victim := order[coldest];
      var gone := entries[victim].value;
      order := order - {coldest};
      entries := entries - {victim};
      bytes := bytes - Weight(gone);
      list := list[1..];
    }

    lemma ColdestInOrder()
      requires Indexed() && order != map[]
      ensures |list| > 0 && list[0].key in entries && entries[list[0].key].clock in order
      ensures order[entries[list[0].key].clock] == list[0].key
      ensures IsFirst(order, entries[list[0].key].clock)
      ensures Ranks(entries - {list[0].key}, list[1..], clock)
      ensures Inverse(entries - {list[0].key}, order - {entries[list[0].key].clock})
      ensures Total(list[1..]) == bytes - Weight(entries[list[0].key].value)
    {
      hide Lists, Rising, Covers, Total;
      var c :| c in order;
      assert order[c] in entries;
      ColdestIsHead(entries, list, clock);
      HeadWeighs(entries, list, clock);
      var head := list[0].key;
      forall c | c in order ensures entries[head].clock <= c { assert order[c] in entries; }
      DropHeadRanks(entries, list, clock);
      RemoveInverse(entries, order, head);
    }
  }

  // ---- SectionCache: a scan of the map per eviction -------------------------------------

  class SectionCache {
    const budget: nat
    var bytes: int
    var entries: map<Key, Slot>
    var clock: nat
    ghost var list: seq<Item>

    ghost predicate Indexed()
      reads this
    {
      Ranks(entries, list, clock) && bytes == Total(list)
    }

    ghost predicate Valid()
      reads this
    {
      Indexed() && Bounded(list, budget)
    }

    constructor (budget: nat)
      ensures Valid() && list == [] && this.budget == budget
    {
      this.budget := budget;
      bytes, entries, clock, list := 0, map[], 0, [];
    }

    lemma KeysListed()
      requires Valid()
      ensures forall k :: k in entries.Keys <==> Find(list, k).Some?
    {
      hide Find;
      forall k ensures k in entries.Keys <==> Find(list, k).Some? { RanksFind(entries, list, clock, k); }
    }

    method Get(k: Key) returns (r: Option<Held>)
      requires Valid()
      modifies this
      ensures Valid()
      ensures r == Find(old(list), k)
      ensures list == Touched(old(list), k)
    {
      RanksFind(entries, list, clock, k);
      RefreshWeighs(k);
      hide Ranks, Total, Find, Without;
      if k !in entries {
        ClockAdvances();
        clock := clock + 1;
        return None;
      }
      clock := clock + 1;
      var v := entries[k].value;
      entries := entries[k := Slot(clock, v)];
      list := Without(list, k) + [Item(k, v)];
      return Some(v);
    }

    lemma ClockAdvances()
      requires Indexed()
      ensures Ranks(entries, list, clock + 1)
    {
    }

    lemma RefreshWeighs(k: Key)
      requires Indexed()
      ensures k in entries ==> var v := entries[k].value; var after := Without(list, k) + [Item(k, v)];
                && Ranks(entries[k := Slot(clock + 1, v)], after, clock + 1)
                && Total(after) == Total(list) && |after| == |list|
    {
      hide Lists, Rising, Covers, Pos, Without, Find, Distinct, Skips, Absent, Total;
      if k in entries {
        var v := entries[k].value;
        RanksFind(entries, list, clock, k);
        RefreshRanks(entries, list, clock, k, v, clock + 1);
        RefreshedWeighs(list, k, v);
      }
    }

    method Put(k: Key, v: Held)
      requires Valid()
      modifies this
      ensures Valid()
      ensures list == Stored(old(list), budget, k, v)
    {
      hide Ranks, Total, Bounded, Find, Without, Stored, Shed, Pos;
      var add := Weight(v);
      while bytes + add > budget && entries != map[]
        invariant Indexed()
        invariant Shed(old(list), budget, add) == Shed(list, budget, add)
        decreases |list|
      {
        EmptyRanks(entries, list, clock);
        ShedsHead(list, budget, add);
        DropColdest();
      }
      PutKeeps(old(list), k, v);
      clock := clock + 1;
      bytes := bytes + add;
      if k in entries { bytes := bytes - Weight(entries[k].value); }
      entries := entries[k := Slot(clock, v)];
      list := Without(list, k) + [Item(k, v)];
    }

    lemma PutKeeps(before: seq<Item>, k: Key, v: Held)
      requires Indexed() && (bytes + Weight(v) <= budget || entries == map[])
      requires Shed(before, budget, Weight(v)) == Shed(list, budget, Weight(v))
      ensures var after := Without(list, k) + [Item(k, v)];
              && after == Stored(before, budget, k, v)
              && Ranks(entries[k := Slot(clock + 1, v)], after, clock + 1) && Bounded(after, budget)
              && Total(after) == bytes + Weight(v) - (if k in entries then Weight(entries[k].value) else 0)
    {
      hide Ranks, Pos, Without, Find, Distinct, Total, Shed;
      NothingToShed(Weight(v));
      RanksFind(entries, list, clock, k);
      RefreshRanks(entries, list, clock, k, v, clock + 1);
      RefreshedWeighs(list, k, v);
    }

    lemma NothingToShed(add: nat)
      requires Indexed() && (bytes + add <= budget || entries == map[])
      ensures Shed(list, budget, add) == list
      ensures bytes + add <= budget || (list == [] && bytes == 0)
    {
      EmptyRanks(entries, list, clock);
    }

    /** Scan the whole map for the least clock and drop that entry. */
    method DropColdest()
      requires Indexed() && entries != map[]
      modifies this
      ensures Indexed()
      ensures |old(list)| > 0 && list == old(list)[1..] && clock == old(clock)
    {
      hide Ranks, Total;
      ColdestIsHead(entries, list, clock);
      HeadWeighs(entries, list, clock);
      DropHeadRanks(entries, list, clock);
      ghost var head := list[0].key;
      assert head in entries && forall k :: k in entries ==> entries[head].clock <= entries[k].clock;
      var victim :| victim in entries && forall k :: k in entries ==> entries[victim].clock <= entries[k].clock;
      assert victim == head;
      bytes := bytes - Weight(entries[victim].value);
      entries := entries - {victim};
      list := list[1..];
    }
  }

  // ---- the two caches agree -------------------------------------------------------------

  datatype Op = Get(k: Key) | Put(k: Key, v: Held)

  /** One operation on the recency list, and a whole trace of them. */
  function Applied(list: seq<Item>, op: Op, budget: nat): seq<Item> {
    match op
    case Get(k) => Touched(list, k)
    case Put(k, v) => Stored(list, budget, k, v)
  }

  function After(list: seq<Item>, ops: seq<Op>, budget: nat): seq<Item> {
    if |ops| == 0 then list else Applied(After(list, ops[..|ops| - 1], budget), ops[|ops| - 1], budget)
  }

  /** After any trace the list holds each key once and is within budget, or is a single entry. */
  lemma {:induction false} AnyTraceIsBounded(ops: seq<Op>, budget: nat)
    ensures Distinct(After([], ops, budget)) && Bounded(After([], ops, budget), budget)
  {
    if |ops| > 0 {
      var before := After([], ops[..|ops| - 1], budget);
      AnyTraceIsBounded(ops[..|ops| - 1], budget);
      match ops[|ops| - 1] {
        case Get(k) =>
          if Find(before, k).Some? {
            WithoutDistinct(before, k);
            AppendDistinct(Without(before, k), k, Find(before, k).value);
            RefreshedWeighs(before, k, Find(before, k).value);
          }
        case Put(k, v) => StoredKeeps(before, budget, k, v);
      }
    }
  }

  /** Run one trace through both caches: every lookup answers alike and the resident keys stay equal. */
  method Replay(ops: seq<Op>, budget: nat)
    returns (fast: BlockCache, slow: SectionCache, agreed: bool)
    requires budget > 0
    ensures agreed
    ensures fast.Valid() && slow.Valid() && fast.entries.Keys == slow.entries.Keys
    ensures fast.list == slow.list == After([], ops, budget)
  {
    hide BlockCache.Valid, SectionCache.Valid, Find, Touched, Stored;
    fast := new BlockCache(budget);
    slow := new SectionCache(budget);
    agreed := true;
    for i := 0 to |ops|
      invariant fast.Valid() && slow.Valid() && fast.list == slow.list && agreed
      invariant fast.budget == slow.budget == budget
      invariant fast.list == After([], ops[..i], budget)
      invariant fresh(fast) && fresh(slow)
    {
      assert ops[..i + 1][..i] == ops[..i];
      match ops[i] {
        case Get(k) =>
          var a := fast.Get(k);
          var b := slow.Get(k);
          agreed := agreed && a == b;
        case Put(k, v) =>
          fast.Put(k, v);
          slow.Put(k, v);
      }
    }
    assert ops[..|ops|] == ops;
    fast.KeysListed();
    slow.KeysListed();
  }
}
