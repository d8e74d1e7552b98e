/** Where the claimed ranges of a container lie: the bump allocator packs them one after another,
    each start aligned, so claims never overlap and every byte below the tail is claimed exactly
    once or is alignment padding. */
module Layout {
  import opened Bytes
  import opened Directory

  function End(e: Extent): nat { e.off + e.len }

  // ---- the claims of a directory ----------------------------------------------------------

  function MemberClaims(dir: seq<Entry>): seq<Extent> {
    if |dir| == 0 then [] else dir[0].member.extents + MemberClaims(dir[1..])
  }

  function FreeClaims(free: seq<Freed>): (r: seq<Extent>)
    ensures |r| == |free|
    ensures forall i :: 0 <= i < |free| ==> r[i] == Extent(free[i].off, free[i].len)
  {
    seq(|free|, i requires 0 <= i < |free| => Extent(free[i].off, free[i].len))
  }

  /** Member extents, free extents, then the published directory when there is one. */
  function Claims(t: Tables, dirExtent: seq<Extent>): seq<Extent> {
    MemberClaims(t.dir) + FreeClaims(t.free) + dirExtent
  }

  /** The same claims without their order. */
  ghost function ClaimBag(t: Tables, dirExtent: seq<Extent>): multiset<Extent> {
    multiset(MemberClaims(t.dir)) + multiset(FreeClaims(t.free)) + multiset(dirExtent)
  }

  lemma ClaimBagOf(t: Tables, dirExtent: seq<Extent>)
    ensures multiset(Claims(t, dirExtent)) == ClaimBag(t, dirExtent)
  {
  }

  lemma {:induction false} MemberClaimsAt(dir: seq<Entry>, i: nat, k: nat)
    requires i < |dir| && k < |dir[i].member.extents|
    ensures dir[i].member.extents[k] in multiset(MemberClaims(dir))
  {
    if i > 0 { MemberClaimsAt(dir[1..], i - 1, k); }
  }

  lemma {:induction false} MemberClaimsFrom(dir: seq<Entry>, e: Extent)
    requires e in MemberClaims(dir)
    ensures exists i, k :: 0 <= i < |dir| && 0 <= k < |dir[i].member.extents| && dir[i].member.extents[k] == e
  {
    if e in dir[0].member.extents {
      var k :| 0 <= k < |dir[0].member.extents| && dir[0].member.extents[k] == e;
    } else {
      MemberClaimsFrom(dir[1..], e);
      var i, k :| 0 <= i < |dir[1..]| && 0 <= k < |dir[1..][i].member.extents| && dir[1..][i].member.extents[k] == e;
      assert dir[i + 1].member.extents[k] == e;
    }
  }

  lemma {:induction false} MemberClaimsConcat(a: seq<Entry>, b: seq<Entry>)
    ensures multiset(MemberClaims(a + b)) == multiset(MemberClaims(a)) + multiset(MemberClaims(b))
  {
    if |a| == 0 {
      assert a + b == b;
    } else {
      var ab := a + b;
      assert ab[0] == a[0] && ab[1..] == a[1..] + b;
      MemberClaimsConcat(a[1..], b);
      assert multiset(MemberClaims(ab)) == multiset(a[0].member.extents) + multiset(MemberClaims(ab[1..]));
    }
  }

  // ---- packing ----------------------------------------------------------------------------

  function LayoutEnd(l: seq<Extent>): nat {
    if |l| == 0 then REGION_START else End(l[|l| - 1])
  }

  /** Each claim starts at the first boundary at or past the end of the one before it. */
  predicate Packed(l: seq<Extent>) {
    forall i :: 0 <= i < |l| ==> l[i].len > 0 && l[i].off == AlignUp(LayoutEnd(l[..i]))
  }

  /** `tail` is where the next claim's alignment starts: the end of the layout, or the boundary
      after it (a zero-length member moves the cursor to the boundary). */
  predicate TailOf(l: seq<Extent>, tail: nat) {
    tail == LayoutEnd(l) || tail == AlignUp(LayoutEnd(l))
  }

  ghost predicate Placed(t: Tables, dirExtent: seq<Extent>, tail: nat) {
    exists l: seq<Extent> :: Packed(l) && TailOf(l, tail) && multiset(l) == ClaimBag(t, dirExtent)
  }

  lemma {:induction false} PackedOrder(l: seq<Extent>, i: nat, j: nat)
    requires Packed(l) && i < j < |l|
    ensures End(l[i]) <= l[j].off
    decreases j
  {
    assert LayoutEnd(l[..j]) == End(l[j - 1]);
    if i < j - 1 { PackedOrder(l, i, j - 1); }
  }

  lemma PackedBounds(l: seq<Extent>, tail: nat, i: nat)
    requires Packed(l) && TailOf(l, tail) && i < |l|
    ensures REGION_START <= l[i].off && l[i].off % ALIGN == 0 && End(l[i]) <= tail
    ensures REGION_START <= LayoutEnd(l) <= tail
  {
    if i > 0 { PackedOrder(l, 0, i); }
    assert l[..0] == [];
    assert l[0].off == AlignUp(LayoutEnd(l[..0]));
    if i < |l| - 1 { PackedOrder(l, i, |l| - 1); }
    if 0 < |l| - 1 { PackedOrder(l, 0, |l| - 1); }
  }

  lemma AlignUpTwice(x: nat)
    ensures AlignUp(AlignUp(x)) == AlignUp(x)
  {
  }

  /** Allocation: a fresh claim at the aligned tail keeps the packing. */
  lemma PackedAppend(l: seq<Extent>, tail: nat, len: nat)
    requires Packed(l) && TailOf(l, tail) && len > 0
    ensures Packed(l + [Extent(AlignUp(tail), len)])
    ensures TailOf(l + [Extent(AlignUp(tail), len)], AlignUp(tail) + len)
  {
    var l2 := l + [Extent(AlignUp(tail), len)];
    AlignUpTwice(LayoutEnd(l));
    forall i | 0 <= i < |l2| ensures l2[i].len > 0 && l2[i].off == AlignUp(LayoutEnd(l2[..i])) {
      if i < |l| { assert l2[..i] == l[..i]; } else { assert l2[..i] == l; }
    }
  }

  /** Coalescing: the claim that ends at the tail is the last one, and may grow in place. */
  lemma PackedGrow(l: seq<Extent>, tail: nat, i: nat, len: nat)
    requires Packed(l) && TailOf(l, tail) && i < |l| && End(l[i]) == tail
    ensures i == |l| - 1
    ensures Packed(l[i := Extent(l[i].off, l[i].len + len)])
    ensures TailOf(l[i := Extent(l[i].off, l[i].len + len)], tail + len)
  {
    AtTailIsLast(l, tail, i);
    hide AlignUp, TailOf;
    var l2 := l[i := Extent(l[i].off, l[i].len + len)];
    forall k | 0 <= k < |l2| ensures l2[k].len > 0 && l2[k].off == AlignUp(LayoutEnd(l2[..k])) {
      assert l2[..k] == l[..k];
    }
    TailEnds(l, tail, i);
    TailIs(l2, tail + len);
  }

  lemma AtTailIsLast(l: seq<Extent>, tail: nat, i: nat)
    requires Packed(l) && TailOf(l, tail) && i < |l| && End(l[i]) == tail
    ensures i == |l| - 1
  {
    hide AlignUp;
    assert l[|l| - 1].len > 0;
    if i < |l| - 1 {
      PackedOrder(l, i, |l| - 1);
      PackedBounds(l, tail, |l| - 1);
    }
  }

  lemma TailEnds(l: seq<Extent>, tail: nat, i: nat)
    requires i == |l| - 1 && End(l[i]) == tail
    ensures LayoutEnd(l) == tail
  {
  }

  lemma TailIs(l: seq<Extent>, tail: nat)
    requires LayoutEnd(l) == tail
    ensures TailOf(l, tail)
  {
  }

  // ---- every byte is accounted for ----------------------------------------------------------

  predicate Covers(e: Extent, b: nat) { e.off <= b < End(e) }

  /** The index of the last claim that starts at or before `b`, if any. */
  function LastBefore(l: seq<Extent>, b: nat): (r: int)
    ensures -1 <= r < |l|
    ensures r >= 0 ==> l[r].off <= b
    ensures forall i :: r < i < |l| ==> b < l[i].off
  {
    if |l| == 0 then -1
    else if l[|l| - 1].off <= b then |l| - 1
    else LastBefore(l[..|l| - 1], b)
  }

  lemma FirstStarts(l: seq<Extent>, tail: nat, b: nat)
    requires Packed(l) && TailOf(l, tail) && REGION_START <= b < tail
    ensures |l| > 0 && LastBefore(l, b) >= 0
  {
    if |l| > 0 {
      assert l[..0] == [];
      assert l[0].off == AlignUp(REGION_START) == REGION_START;
    }
  }

  lemma GapIsShort(l: seq<Extent>, tail: nat, k: nat, b: nat)
    requires Packed(l) && TailOf(l, tail) && k < |l| && End(l[k]) <= b < tail
    requires k + 1 < |l| ==> b < l[k + 1].off
    ensures b < AlignUp(End(l[k]))
  {
    hide AlignUp;
    if k + 1 < |l| { assert LayoutEnd(l[..k + 1]) == End(l[k]); }
  }

  /** Directory soundness, space half: each byte of the region below the tail is claimed by exactly
      one range, or by none and then lies less than one alignment unit past the end of the range
      before it (or of the region start). */
  lemma EveryByteAccounted(l: seq<Extent>, tail: nat, b: nat)
    requires Packed(l) && TailOf(l, tail)
    requires REGION_START <= b < tail
    ensures (exists i :: 0 <= i < |l| && Covers(l[i], b) && forall j :: 0 <= j < |l| && Covers(l[j], b) ==> j == i)
         || (exists i :: 0 <= i < |l| && End(l[i]) <= b < AlignUp(End(l[i])) && forall j :: 0 <= j < |l| ==> !Covers(l[j], b))
  {
    hide Packed, AlignUp;
    var k := LastBefore(l, b);
    FirstStarts(l, tail, b);
    if b < End(l[k]) {
      forall j | 0 <= j < |l| && Covers(l[j], b) ensures j == k {
        if j < k { PackedOrder(l, j, k); }
      }
    } else {
      forall j | 0 <= j < |l| ensures !Covers(l[j], b) {
        if j < k { PackedOrder(l, j, k); }
      }
      GapIsShort(l, tail, k, b);
    }
  }

  // ---- the reader's overlap check -----------------------------------------------------------

  predicate ExtentBefore(a: Extent, b: Extent) {
    a.off < b.off || (a.off == b.off && a.len <= b.len)
  }

  function InsertSorted(s: seq<Extent>, e: Extent): (r: seq<Extent>)
    ensures multiset(r) == multiset(s) + multiset{e}
  {
    if |s| == 0 then [e]
    else if ExtentBefore(e, s[0]) then
      assert s == [s[0]] + s[1..];
      [e] + s
    else
      assert s == [s[0]] + s[1..];
      [s[0]] + InsertSorted(s[1..], e)
  }

  /** `sort_unstable` on `(off, len)` pairs: the order of a total order's sort is unique. */
  function Sort(s: seq<Extent>): (r: seq<Extent>)
    ensures multiset(r) == multiset(s)
  {
    if |s| == 0 then []
    else
      assert s == [s[0]] + s[1..];
      InsertSorted(Sort(s[1..]), s[0])
  }

  predicate Sorted(s: seq<Extent>) {
    forall i, j :: 0 <= i < j < |s| ==> ExtentBefore(s[i], s[j])
  }

  lemma {:induction false} InsertSortedIsSorted(s: seq<Extent>, e: Extent)
    requires Sorted(s)
    ensures Sorted(InsertSorted(s, e))
  {
    if |s| > 0 && !ExtentBefore(e, s[0]) {
      InsertSortedIsSorted(s[1..], e);
      var r := InsertSorted(s[1..], e);
      forall x | x in r ensures ExtentBefore(s[0], x) {
        assert x in multiset(r);
        assert x in multiset(s[1..]) || x == e;
      }
    }
  }

  lemma {:induction false} SortIsSorted(s: seq<Extent>)
    ensures Sorted(Sort(s))
  {
    if |s| > 0 { SortIsSorted(s[1..]); InsertSortedIsSorted(Sort(s[1..]), s[0]); }
  }

  predicate AdjacentApart(s: seq<Extent>) {
    forall i :: 0 <= i < |s| - 1 ==> End(s[i]) <= s[i + 1].off
  }

  /** `windows(2)` over the sorted claims. */
  predicate NoOverlap(claims: seq<Extent>) {
    AdjacentApart(Sort(claims))
  }

  lemma {:induction false} AdjacentOrder(s: seq<Extent>, i: nat, j: nat)
    requires AdjacentApart(s) && i < j < |s|
    ensures End(s[i]) <= s[j].off
    decreases j
  {
    if i < j - 1 { AdjacentOrder(s, i, j - 1); }
  }

  lemma SameMultisetSameLeast(a: seq<Extent>, b: seq<Extent>)
    requires Sorted(a) && Sorted(b) && multiset(a) == multiset(b) && |a| > 0 && |b| > 0
    ensures a[0] == b[0]
  {
    assert a[0] in multiset(b) && b[0] in multiset(a);
    var i :| 0 <= i < |b| && b[i] == a[0];
    var j :| 0 <= j < |a| && a[j] == b[0];
    if i > 0 && j > 0 { assert ExtentBefore(b[0], b[i]) && ExtentBefore(a[0], a[j]); }
  }

  lemma {:induction false} SameMultisetSameSort(a: seq<Extent>, b: seq<Extent>)
    requires Sorted(a) && Sorted(b) && multiset(a) == multiset(b)
    ensures a == b
  {
    hide Sorted;
    assert |a| == |multiset(a)| == |b|;
    if |a| > 0 {
      SameMultisetSameLeast(a, b);
      SortedTail(a);
      SortedTail(b);
      SameMultisetSameSort(a[1..], b[1..]);
      assert a == [a[0]] + a[1..];
      assert b == [b[0]] + b[1..];
    }
  }

  lemma SortedTail(s: seq<Extent>)
    requires Sorted(s) && |s| > 0
    ensures Sorted(s[1..]) && multiset(s[1..]) == multiset(s) - multiset{s[0]}
  {
    assert s == [s[0]] + s[1..];
  }

  lemma PackedIsSorted(l: seq<Extent>)
    requires Packed(l)
    ensures Sorted(l)
  {
    forall i, j | 0 <= i < j < |l| ensures ExtentBefore(l[i], l[j]) {
      PackedOrder(l, i, j);
    }
  }

  /** A packed layout passes the overlap check, in whatever order the directory lists it. */
  lemma PlacedPassesOverlapCheck(l: seq<Extent>, claims: seq<Extent>)
    requires Packed(l) && multiset(l) == multiset(claims)
    ensures NoOverlap(claims)
  {
    SortIsSorted(claims);
    PackedIsSorted(l);
    SameMultisetSameSort(l, Sort(claims));
    forall i | 0 <= i < |l| - 1 ensures End(l[i]) <= l[i + 1].off { PackedOrder(l, i, i + 1); }
  }

  ghost predicate Apart(x: Extent, y: Extent) {
    forall b: nat :: !(Covers(x, b) && Covers(y, b))
  }

  ghost predicate AllApart(s: seq<Extent>) {
    forall i, j :: 0 <= i < j < |s| ==> Apart(s[i], s[j])
  }

  lemma AdjacentApartMeansAllApart(s: seq<Extent>)
    requires Sorted(s) && forall i :: 0 <= i < |s| ==> s[i].len > 0
    ensures AdjacentApart(s) <==> AllApart(s)
  {
    if AdjacentApart(s) {
      forall i, j | 0 <= i < j < |s| ensures Apart(s[i], s[j]) {
        AdjacentOrder(s, i, j);
      }
    } else {
      var i :| 0 <= i < |s| - 1 && !(End(s[i]) <= s[i + 1].off);
      assert ExtentBefore(s[i], s[i + 1]);
      assert Covers(s[i], s[i + 1].off) && Covers(s[i + 1], s[i + 1].off);
      assert !Apart(s[i], s[i + 1]);
    }
  }

  /** What the check means: it passes exactly when no byte is claimed by two different claims. */
  lemma NoOverlapMeansDisjoint(claims: seq<Extent>)
    requires forall e :: e in claims ==> e.len > 0
    ensures NoOverlap(claims) <==> AllApart(Sort(claims))
  {
    var s := Sort(claims);
    SortIsSorted(claims);
    forall i | 0 <= i < |s| ensures s[i].len > 0 {
      assert s[i] in multiset(s);
      assert s[i] in multiset(claims);
    }
    AdjacentApartMeansAllApart(s);
  }

  /** Distinct claims of one multiset are disjoint: what makes one freed extent's bytes nobody
      else's. */
  lemma ClaimsDisjoint(l: seq<Extent>, a: Extent, b: Extent)
    requires Packed(l) && a in l && b in l && a != b
    ensures End(a) <= b.off || End(b) <= a.off
  {
    var i :| 0 <= i < |l| && l[i] == a;
    var j :| 0 <= j < |l| && l[j] == b;
    if i < j { PackedOrder(l, i, j); } else { PackedOrder(l, j, i); }
  }
}
