/** The dedup accelerator: an open-addressed, linear-probe table from content hash to location. */
module DedupTables {
  import opened Bytes
  import opened Frames

  type Hash = h: seq<Byte> | |h| == 32 witness Zeros(32)

  /** The all-zero hash doubles as the empty marker. */
  const EMPTY: Hash := Zeros(32)

  datatype Slot = Slot(hash: Hash, loc: Loc)

  const VACANT := Slot(EMPTY, Loc(0, 0, 0))

  // ---- the table as a value -------------------------------------------------------------

  /** Where probing for `h` begins: its first eight bytes, masked by a power-of-two capacity. */
  function Start(h: Hash, cap: nat): (i: nat)
    requires cap > 0
    ensures i < cap
  {
    FromLe(h[..8]) % cap
  }

  /** The slot probed after `k` steps. */
  function Probe(h: Hash, cap: nat, k: nat): (i: nat)
    requires cap > 0
    ensures i < cap
  {
    (Start(h, cap) + k) % cap
  }

  predicate PowerOfTwo(n: nat) { n == 1 || (n > 1 && n % 2 == 0 && PowerOfTwo(n / 2)) }

  /** `at` says where each key sits: every taken slot belongs to one key, and every key sits in one slot. */
  ghost predicate Sits(s: seq<Slot>, at: map<Hash, nat>) {
    && EMPTY !in at
    && (forall h :: h in at ==> at[h] < |s| && s[at[h]].hash == h)
    && (forall i :: 0 <= i < |s| && s[i].hash != EMPTY ==> s[i].hash in at && at[s[i].hash] == i)
  }

  /** `steps` says how far each key's probe walks to it: every slot on the way is taken. */
  ghost predicate Walks(s: seq<Slot>, at: map<Hash, nat>, steps: map<Hash, nat>)
    requires |s| > 0
  {
    && at.Keys == steps.Keys
    && (forall h :: h in at ==> at[h] == Probe(h, |s|, steps[h]))
    && (forall h, k :: h in at && 0 <= k < steps[h] ==> s[Probe(h, |s|, k)].hash != EMPTY)
  }

  ghost predicate Indexed(s: seq<Slot>, at: map<Hash, nat>, steps: map<Hash, nat>) {
    |s| > 0 && Sits(s, at) && Walks(s, at, steps)
  }

  /** The mapping the slots spell out. */
  ghost function Mapping(s: seq<Slot>, at: map<Hash, nat>): map<Hash, Loc> {
    map h | h in at && at[h] < |s| :: s[at[h]].loc
  }

  lemma MappingKeys(s: seq<Slot>, at: map<Hash, nat>)
    requires Sits(s, at)
    ensures Mapping(s, at).Keys == at.Keys && EMPTY !in at
  {
  }

  // ---- an empty slot always exists ------------------------------------------------------

  lemma {:induction false} InitialSegment(s: set<nat>, n: nat)
    requires forall i :: 0 <= i < n ==> i in s
    ensures |s| >= n
  {
    if n > 0 {
      InitialSegment(s - {n - 1}, n - 1);
    }
  }

  lemma {:induction false} FewValues(at: map<Hash, nat>)
    ensures |at.Values| <= |at|
  {
    if at != map[] {
      var h :| h in at;
      var rest := at - {h};
      FewValues(rest);
      forall v | v in at.Values ensures v in rest.Values + {at[h]} {
        var x :| x in at && at[x] == v;
        if x != h { assert x in rest && rest[x] == v; }
      }
      SubsetSize(at.Values, rest.Values + {at[h]});
      assert at.Keys == rest.Keys + {h};
    } else {
      assert at.Values == {};
    }
  }

  lemma {:induction false} SubsetSize(a: set<nat>, b: set<nat>)
    requires a <= b
    ensures |a| <= |b|
  {
    if a != {} {
      var x :| x in a;
      SubsetSize(a - {x}, b - {x});
    }
  }

  /** Fewer keys than slots leaves a slot empty. */
  lemma EmptySlot(s: seq<Slot>, at: map<Hash, nat>, steps: map<Hash, nat>) returns (e: nat)
    requires Indexed(s, at, steps) && |at| < |s|
    ensures e < |s| && s[e].hash == EMPTY
  {
    if forall i :: 0 <= i < |s| ==> s[i].hash != EMPTY {
      forall i | 0 <= i < |s| ensures i in at.Values { assert at[s[i].hash] == i; }
      InitialSegment(at.Values, |s|);
      FewValues(at);
      assert false;
    }
    e :| 0 <= e < |s| && s[e].hash == EMPTY;
  }

  /** Some number of steps below the capacity reaches any given slot. */
  lemma Reaches(h: Hash, cap: nat, e: nat) returns (k: nat)
    requires e < cap
    ensures k < cap && Probe(h, cap, k) == e
  {
    var start := Start(h, cap);
    k := if e >= start then e - start else e + cap - start;
    ModIs(start + k, cap, e);
  }

  lemma ModIs(x: nat, cap: nat, e: nat)
    requires e < cap && (x == e || x == e + cap)
    ensures x % cap == e
  {
    if x == e + cap { assert x == cap * 1 + e; }
  }

  lemma NextProbe(h: Hash, cap: nat, k: nat)
    requires cap > 0
    ensures Probe(h, cap, k + 1) == (Probe(h, cap, k) + 1) % cap
  {
    var x := Start(h, cap) + k;
    ModSucc(x, cap);
  }

  lemma ModSucc(x: nat, cap: nat)
    requires cap > 0
    ensures (x + 1) % cap == (x % cap + 1) % cap
  {
    var q, r := x / cap, x % cap;
    assert x == cap * q + r;
    if r + 1 < cap {
      ModUnique(x + 1, cap, q, r + 1);
      ModUnique(r + 1, cap, 0, r + 1);
    } else {
      assert x + 1 == cap * (q + 1);
      ModUnique(x + 1, cap, q + 1, 0);
      ModUnique(r + 1, cap, 1, 0);
    }
  }

  lemma ModUnique(x: nat, cap: nat, q: nat, r: nat)
    requires cap > 0 && x == cap * q + r && r < cap
    ensures x % cap == r
  {
    var d := x / cap - q;
    assert cap * (x / cap) + x % cap == cap * q + r;
    assert cap * d == r - x % cap;
    MulAway(cap, d);
  }

  lemma MulAway(cap: nat, d: int)
    ensures d >= 1 ==> cap * d >= cap
    ensures d <= -1 ==> cap * d <= 0 - cap
  {
  }

  // ---- what a probe concludes -----------------------------------------------------------

  /** The first `k` slots probed are taken, by other keys. */
  ghost predicate Passed(s: seq<Slot>, h: Hash, k: nat) {
    |s| > 0 && forall j :: 0 <= j < k ==> s[Probe(h, |s|, j)].hash != EMPTY && s[Probe(h, |s|, j)].hash != h
  }

  /** Meeting an empty slot first proves the key absent. */
  lemma EmptyMeansAbsent(s: seq<Slot>, at: map<Hash, nat>, steps: map<Hash, nat>, h: Hash, k: nat)
    requires Indexed(s, at, steps) && h != EMPTY && Passed(s, h, k) && s[Probe(h, |s|, k)].hash == EMPTY
    ensures h !in at
  {
    KeyAtItsStep(s, at, steps, h);
    hide Sits, Probe;
  }

  lemma KeyAtItsStep(s: seq<Slot>, at: map<Hash, nat>, steps: map<Hash, nat>, h: Hash)
    requires Indexed(s, at, steps)
    ensures h in at ==> h in steps && s[Probe(h, |s|, steps[h])].hash == h
  {
  }

  /** Filling the empty slot a probe met adds exactly that key. */
  lemma FillIndexes(s: seq<Slot>, at: map<Hash, nat>, steps: map<Hash, nat>, h: Hash, k: nat, loc: Loc)
    requires Indexed(s, at, steps) && h != EMPTY && h !in at
    requires Passed(s, h, k) && s[Probe(h, |s|, k)].hash == EMPTY
    ensures var i := Probe(h, |s|, k);
            && Indexed(s[i := Slot(h, loc)], at[h := i], steps[h := k])
            && Mapping(s[i := Slot(h, loc)], at[h := i]) == Mapping(s, at)[h := loc]
  {
    hide Probe;
    var i := Probe(h, |s|, k);
    FillSits(s, at, h, i, loc);
    FillWalks(s, at, steps, h, k, loc);
  }

  lemma FillSits(s: seq<Slot>, at: map<Hash, nat>, h: Hash, i: nat, loc: Loc)
    requires Sits(s, at) && h != EMPTY && h !in at && i < |s| && s[i].hash == EMPTY
    ensures Sits(s[i := Slot(h, loc)], at[h := i])
    ensures Mapping(s[i := Slot(h, loc)], at[h := i]) == Mapping(s, at)[h := loc]
  {
    forall o | o in at ensures at[o] != i { assert s[at[o]].hash == o; }
  }

  lemma FillWalks(s: seq<Slot>, at: map<Hash, nat>, steps: map<Hash, nat>, h: Hash, k: nat, loc: Loc)
    requires |s| > 0 && Walks(s, at, steps) && h != EMPTY && h !in at && Passed(s, h, k)
    ensures Walks(s[Probe(h, |s|, k) := Slot(h, loc)], at[h := Probe(h, |s|, k)], steps[h := k])
  {
    hide Probe;
    var t := s[Probe(h, |s|, k) := Slot(h, loc)];
    forall o, j | o in at[h := Probe(h, |s|, k)] && 0 <= j < steps[h := k][o]
      ensures t[Probe(o, |t|, j)].hash != EMPTY
    {
      assert s[Probe(o, |s|, j)].hash != EMPTY;
    }
  }

  lemma AllEmpty(s: seq<Slot>)
    requires |s| > 0 && forall i :: 0 <= i < |s| ==> s[i].hash == EMPTY
    ensures Indexed(s, map[], map[]) && Mapping(s, map[]) == map[]
  {
  }

  lemma NothingIndexed(cap: nat)
    requires cap > 0
    ensures Indexed(seq(cap, _ => VACANT), map[], map[])
  {
  }

  // ---- the table ------------------------------------------------------------------------

  class DedupTable {
    var slots: array<Slot>
    var len: nat
    var zero: Option<Loc>
    ghost var at: map<Hash, nat>
    ghost var steps: map<Hash, nat>

    ghost predicate Shaped()
      reads this, slots
    {
      && Indexed(slots[..], at, steps)
      && len == |at|
      && PowerOfTwo(slots.Length) && slots.Length >= 16
    }

    /** Load held at or below three quarters. */
    ghost predicate Valid()
      reads this, slots
    {
      Shaped() && len * 4 <= slots.Length * 3
    }

    /** The map this table is. */
    ghost function Contents(): map<Hash, Loc>
      reads this, slots
      requires Shaped()
    {
      var m := Mapping(slots[..], at);
      if zero.Some? then m[EMPTY := zero.value] else m
    }

    constructor (cap: nat)
      requires PowerOfTwo(cap) && cap >= 16
      ensures Valid() && Contents() == map[] && fresh(slots)
    {
      slots := new Slot[cap](_ => VACANT);
      len, zero, at, steps := 0, None, map[], map[];
      new;
      assert slots[..] == seq(cap, _ => VACANT);
      NothingIndexed(cap);
    }

    /** Probe for a key until its slot or an empty one. */
    method Find(h: Hash) returns (i: nat, found: bool, ghost k: nat)
      requires Shaped() && len < slots.Length && h != EMPTY
      ensures i < slots.Length && i == Probe(h, slots.Length, k) && Passed(slots[..], h, k)
      ensures found ==> slots[i].hash == h
      ensures !found ==> slots[i].hash == EMPTY && h !in at
    {
      hide Sits, Walks, PowerOfTwo, Start;
      ghost var e := EmptySlot(slots[..], at, steps);
      ghost var ke := Reaches(h, slots.Length, e);
      k := 0;
      i := Start(h, slots.Length);
      StartsAt(h, slots.Length);
      while true
        invariant k <= ke && i == Probe(h, slots.Length, k) && Passed(slots[..], h, k)
        decreases ke - k
      {
        assert slots[i] == slots[..][i];
        if slots[i].hash == EMPTY {
          EmptyMeansAbsent(slots[..], at, steps, h, k);
          return i, false, k;
        }
        if slots[i].hash == h { return i, true, k; }
        assert slots[..][Probe(h, slots.Length, ke)].hash == EMPTY;
        NextProbe(h, slots.Length, k);
        i := (i + 1) % slots.Length;
        k := k + 1;
      }
    }

    /** The stored location, for exactly the stored keys. */
    method Get(h: Hash) returns (r: Option<Loc>)
      requires Valid()
      ensures r == if h in Contents() then Some(Contents()[h]) else None
    {
      hide Sits, Walks, PowerOfTwo, Probe, Passed;
      SitsInside();
      if h == EMPTY { return zero; }
      var i, found, _ := Find(h);
      if !found { return None; }
      FoundIsMapped(i);
      return Some(slots[i].loc);
    }

    lemma SitsInside()
      requires Shaped()
      ensures EMPTY !in at && forall h :: h in at ==> at[h] < slots.Length
    {
    }

    lemma FoundIsMapped(i: nat)
      requires Shaped() && i < slots.Length && slots[i].hash != EMPTY
      ensures slots[i].hash in at && Mapping(slots[..], at)[slots[i].hash] == slots[i].loc
    {
      assert slots[..][i] == slots[i];
    }

    /** Record a location: the last one for the zero hash, the first one for any other. */
    method Insert(h: Hash, loc: Loc)
      requires Valid()
      modifies this, slots
      ensures Valid() && fresh({slots} - {old(slots)})
      ensures Contents() == if h == EMPTY || h !in old(Contents()) then old(Contents())[h := loc] else old(Contents())
    {
      hide Sits, Walks, PowerOfTwo, Mapping;
      MappingKeys(slots[..], at);
      if h == EMPTY {
        zero := Some(loc);
        return;
      }
      if (len + 1) * 4 > slots.Length * 3 { Grow(); }
      MappingKeys(slots[..], at);
      InsertRaw(h, loc);
    }

    method InsertRaw(h: Hash, loc: Loc)
      requires Shaped() && (len + 1) * 4 <= slots.Length * 3 && h != EMPTY
      modifies this, slots
      ensures Valid() && slots == old(slots) && zero == old(zero)
      ensures Mapping(slots[..], at) == if h in old(at) then old(Mapping(slots[..], at)) else old(Mapping(slots[..], at))[h := loc]
    {
      hide Sits, Walks, PowerOfTwo, Probe, Passed;
      var i, found, k := Find(h);
      if found {
        FoundIsMapped(i);
        return;
      }
      ghost var before := slots[..];
      FillIndexes(before, at, steps, h, k, loc);
      slots[i] := Slot(h, loc);
      assert slots[..] == before[i := Slot(h, loc)];
      at, steps := at[h := i], steps[h := k];
      len := len + 1;
    }

    /** Drop every entry, keeping the capacity. */
    method Clear()
      requires Valid()
      modifies this, slots
      ensures Valid() && Contents() == map[] && slots == old(slots)
    {
      hide PowerOfTwo, Sits, Walks, Probe;
      var i := 0;
      while i < slots.Length
        invariant i <= slots.Length && slots == old(slots)
        invariant forall k :: 0 <= k < i ==> slots[k].hash == EMPTY
      {
        slots[i] := slots[i].(hash := EMPTY);
        i := i + 1;
      }
      AllEmpty(slots[..]);
      at, steps := map[], map[];
      len := 0;
      zero := None;
    }

    /** Double the capacity and put every key back: the map is unchanged. */
    method Grow()
      requires Valid()
      modifies this
      ensures Shaped() && fresh(slots) && (len + 1) * 4 <= slots.Length * 3 && zero == old(zero)
      ensures Mapping(slots[..], at) == old(Mapping(slots[..], at))
    {
      hide Sits, Walks, Probe, Passed, Mapping;
      var from := slots;
      ghost var all := from[..];
      ghost var was := at;
      DoublesTo(from.Length);
      slots := new Slot[from.Length * 2](_ => VACANT);
      assert slots[..] == seq(slots.Length, _ => VACANT);
      NothingIndexed(slots.Length);
      len, at, steps := 0, map[], map[];
      var j := 0;
      NoneMoved(all, was, slots[..]);
      while j < from.Length
        invariant j <= from.Length && from[..] == all
        invariant fresh(slots) && slots != from && slots.Length == 2 * from.Length && Shaped() && zero == old(zero)
        invariant Mapping(slots[..], at) == Moved(all, was, j)
      {
        var s := from[j];
        if s.hash != EMPTY {
          MovesOne(all, was, j);
          StillRoom(all, was, j, slots[..], at);
          InsertRaw(s.hash, s.loc);
        } else {
          MovesNone(all, was, j);
        }
        j := j + 1;
      }
      AllMoved(all, was, slots[..], at);
    }
  }

  lemma DoublesTo(n: nat)
    requires PowerOfTwo(n) && n >= 16
    ensures PowerOfTwo(2 * n)
  {
    assert 2 * n / 2 == n;
  }

  /** The part of a table's mapping that sits in its first `j` slots. */
  ghost function Moved(s: seq<Slot>, at: map<Hash, nat>, j: nat): map<Hash, Loc> {
    map h | h in at && at[h] < j && at[h] < |s| :: s[at[h]].loc
  }

  lemma StartsAt(h: Hash, cap: nat)
    requires cap > 0
    ensures Probe(h, cap, 0) == Start(h, cap)
  {
    ModUnique(Start(h, cap), cap, 0, Start(h, cap));
  }


  lemma NoneMoved(s: seq<Slot>, at: map<Hash, nat>, t: seq<Slot>)
    ensures Moved(s, at, 0) == map[] == Mapping(t, map[])
  {
  }

  lemma MovesNone(s: seq<Slot>, at: map<Hash, nat>, j: nat)
    requires Sits(s, at) && j < |s| && s[j].hash == EMPTY
    ensures Moved(s, at, j + 1) == Moved(s, at, j)
  {
    forall h | h in at ensures at[h] != j { assert s[at[h]].hash == h; }
  }

  /** The key in slot `j` is the next to move. */
  lemma MovesOne(s: seq<Slot>, at: map<Hash, nat>, j: nat)
    requires Sits(s, at) && j < |s| && s[j].hash != EMPTY
    ensures s[j].hash !in Moved(s, at, j)
    ensures Moved(s, at, j + 1) == Moved(s, at, j)[s[j].hash := s[j].loc]
  {
    var h := s[j].hash;
    assert at[h] == j;
    forall o | o in at && at[o] == j ensures o == h { assert s[at[o]].hash == o; }
    var more := Moved(s, at, j)[h := s[j].loc];
    assert forall o :: o in Moved(s, at, j + 1) <==> o in more;
  }

  /** While the doubled table fills, and when it is full of the old keys, there is room for one more. */
  lemma StillRoom(s: seq<Slot>, at: map<Hash, nat>, j: nat, t: seq<Slot>, now: map<Hash, nat>)
    requires |at| * 4 <= |s| * 3 && |s| >= 16
    requires Sits(t, now) && Mapping(t, now) == Moved(s, at, j)
    ensures (|now| + 1) * 4 <= 2 * |s| * 3 && now.Keys == Moved(s, at, j).Keys
  {
    MappingKeys(t, now);
    SubsetCard(now.Keys, at.Keys);
  }

  lemma {:induction false} SubsetCard(a: set<Hash>, b: set<Hash>)
    requires a <= b
    ensures |a| <= |b|
  {
    if a != {} {
      var x :| x in a;
      SubsetCard(a - {x}, b - {x});
    }
  }

  lemma AllMoved(s: seq<Slot>, at: map<Hash, nat>, t: seq<Slot>, now: map<Hash, nat>)
    requires Sits(s, at) && |at| * 4 <= |s| * 3 && |s| >= 16
    requires Sits(t, now) && Mapping(t, now) == Moved(s, at, |s|)
    ensures Mapping(t, now) == Mapping(s, at) && (|now| + 1) * 4 <= 2 * |s| * 3
  {
    StillRoom(s, at, |s|, t, now);
    assert Moved(s, at, |s|) == Mapping(s, at);
  }
}
