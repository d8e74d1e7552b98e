/** What a structured scan means: the live, matching rows of an id range in scan order, the resolved
    prefix a source hands out, and what one page consumes. */
module ScanSpec {
  import opened Bytes
  import opened Cursors

  /** The decoded record of a row, named by a number. */
  type Record = nat

  /** All versions of one id, already merged newest-wins: a live row, or only tombstones.
      `cost` counts the physical and memtable entries that resolving the group reads. */
  datatype Group = Group(id: Id, live: bool, cost: nat, record: Record)

  /** The predicates and projections of a request, as the scan evaluates them.
      `bytes` is the content the projection would reconstruct for a record. */
  datatype Query = Query(
    needsRecord: bool,
    mayMatch: Group -> bool,
    matches: (Id, Option<Record>) -> bool,
    bytes: Option<Record> -> nat)
  {
    /** The record the predicates see: none when neither they nor the projection need one. */
    function Seen(g: Group): Option<Record> { if needsRecord then Some(g.record) else None }

    predicate Matches(g: Group) { matches(g.id, Seen(g)) }

    /** Part-wide metadata may only prune rows that no predicate set would accept. */
    ghost predicate Lawful() { forall g: Group :: Matches(g) ==> mayMatch(g) }
  }

  datatype Row = Row(id: Id, record: Option<Record>)

  // ---- ranges and scan order ------------------------------------------------------------

  predicate Sorted(gs: seq<Group>) {
    forall i, j :: 0 <= i < j < |gs| ==> Less(gs[i].id, gs[j].id)
  }

  predicate WellFormed(gs: seq<Group>) {
    && Sorted(gs)
    && forall i :: 0 <= i < |gs| ==> gs[i].cost > 0
  }

  datatype Bounds = Bounds(lo: Option<Id>, hi: Option<Id>) {
    predicate Has(id: Id) {
      && (lo.Some? ==> !Less(id, lo.value))
      && (hi.Some? ==> Less(id, hi.value))
    }

    /** The emptiness test made before any source is read. */
    predicate Inverted() { lo.Some? && hi.Some? && !Less(lo.value, hi.value) }

    /** Where a scan continues once `last` is consumed. */
    function Past(last: Id, reverse: bool): Bounds {
      if reverse then this.(hi := Some(last)) else this.(lo := Some(After(last)))
    }
  }

  function InRange(gs: seq<Group>, b: Bounds): (r: seq<Group>)
  {
    if |gs| == 0 then []
    else if b.Has(gs[0].id) then [gs[0]] + InRange(gs[1..], b)
    else InRange(gs[1..], b)
  }

  function Reversed<T>(s: seq<T>): (r: seq<T>)
    ensures |r| == |s|
    ensures forall i :: 0 <= i < |s| ==> r[i] == s[|s| - 1 - i]
  {
    if |s| == 0 then [] else Reversed(s[1..]) + [s[0]]
  }

  /** The groups a scan of `b` still has to walk, in walking order. */
  function Walk(gs: seq<Group>, b: Bounds, reverse: bool): seq<Group> {
    if reverse then Reversed(InRange(gs, b)) else InRange(gs, b)
  }

  function Live(w: seq<Group>): seq<Group> {
    if |w| == 0 then []
    else if w[0].live then [w[0]] + Live(w[1..])
    else Live(w[1..])
  }

  function Cost(w: seq<Group>): nat {
    if |w| == 0 then 0 else w[0].cost + Cost(w[1..])
  }

  /** The rows a filter over candidates keeps. */
  function Accepted(q: Query, cs: seq<Group>): (rows: seq<Row>)
    ensures |rows| <= |cs|
  {
    if |cs| == 0 then []
    else if q.Matches(cs[0]) then [Row(cs[0].id, q.Seen(cs[0]))] + Accepted(q, cs[1..])
    else Accepted(q, cs[1..])
  }

  /** Filtering once: every live matching row of a walk, in walking order. */
  function Answer(q: Query, w: seq<Group>): seq<Row> { Accepted(q, Live(w)) }

  // ---- the source contract --------------------------------------------------------------

  datatype Batch = Batch(
    candidates: seq<Group>, used: nat, resolvedThrough: Option<Id>, hasMore: bool, exhausted: bool)

  function LastId(w: seq<Group>): Option<Id> {
    if |w| == 0 then None else Some(w[|w| - 1].id)
  }

  /** The batch resolves exactly the first `n` groups of the walk, truthfully and within its limits. */
  predicate Resolves(batch: Batch, w: seq<Group>, n: nat, limit: nat, maxEntries: nat, oversized: bool) {
    && n <= |w|
    && batch.candidates == Live(w[..n])
    && batch.used == Cost(w[..n])
    && batch.resolvedThrough == LastId(w[..n])
    && batch.hasMore == (n < |w|)
    && (batch.exhausted ==> n < |w|)
    && |batch.candidates| <= limit
    && (n < |w| ==> |batch.candidates| == limit || batch.exhausted)
    && (oversized && 0 < limit && 0 < |w| ==> 0 < n)
    && (batch.used <= maxEntries || (oversized && n == 1))
  }

  // ---- lemmas ---------------------------------------------------------------------------

  lemma {:induction false} InRangeIsFilter(gs: seq<Group>, b: Bounds)
    ensures forall g :: g in InRange(gs, b) <==> g in gs && b.Has(g.id)
  {
    if |gs| > 0 { InRangeIsFilter(gs[1..], b); }
  }

  lemma {:induction false} InRangeSorted(gs: seq<Group>, b: Bounds)
    requires Sorted(gs)
    ensures Sorted(InRange(gs, b))
  {
    if |gs| > 0 {
      InRangeSorted(gs[1..], b);
      InRangeIsFilter(gs[1..], b);
    }
  }

  lemma {:induction false} InvertedIsEmpty(gs: seq<Group>, b: Bounds)
    requires b.Inverted()
    ensures InRange(gs, b) == []
  {
    if |gs| > 0 {
      InvertedIsEmpty(gs[1..], b);
      var id := gs[0].id;
      if b.Has(id) {
        LessTotal(id, b.lo.value);
        if id != b.lo.value { LessTransitive(b.lo.value, id, b.hi.value); }
      }
    }
  }

  /** A kept group other than the first input is kept by the tail, and lies above the first input. */
  lemma KeptByTail(gs: seq<Group>, b: Bounds, k: nat)
    requires Sorted(gs) && k < |InRange(gs, b)|
    requires !(b.Has(gs[0].id) && k == 0)
    ensures var j := if b.Has(gs[0].id) then k - 1 else k;
            j < |InRange(gs[1..], b)| && InRange(gs[1..], b)[j] == InRange(gs, b)[k]
    ensures Less(gs[0].id, InRange(gs, b)[k].id) && !Less(InRange(gs, b)[k].id, gs[0].id)
    ensures gs[0].id != InRange(gs, b)[k].id
  {
    hide Less, InRange, Bounds.Has;
    TailKeeps(gs, b, k);
    InRangeIsFilter(gs[1..], b);
    var g := InRange(gs, b)[k];
    assert g in gs[1..];
    assert Less(gs[0].id, g.id);
    LessAsymmetric(gs[0].id, g.id);
  }

  lemma TailKeeps(gs: seq<Group>, b: Bounds, k: nat)
    requires k < |InRange(gs, b)|
    requires |gs| > 0 ==> !(b.Has(gs[0].id) && k == 0)
    ensures |gs| > 0
    ensures var j := if b.Has(gs[0].id) then k - 1 else k;
            j < |InRange(gs[1..], b)| && InRange(gs[1..], b)[j] == InRange(gs, b)[k]
  {
    hide Less, Bounds.Has;
  }

  /** Keep the groups above an id of a sorted walk: exactly what follows it. */
  lemma {:induction false} NarrowLow(gs: seq<Group>, b: Bounds, k: nat)
    requires Sorted(gs) && k < |InRange(gs, b)|
    ensures InRange(gs, b.Past(InRange(gs, b)[k].id, false)) == InRange(gs, b)[k + 1..]
  {
    var last := InRange(gs, b)[k].id;
    AfterIsLeastAbove(last, gs[0].id);
    hide Less, After;
    if b.Has(gs[0].id) && k == 0 {
      LessIrreflexive(last);
      AllAbove(gs[1..], b, last);
    } else {
      KeptByTail(gs, b, k);
      NarrowLow(gs[1..], b, if b.Has(gs[0].id) then k - 1 else k);
    }
  }

  /** Raising the lower bound past an id below every group changes nothing. */
  lemma {:induction false} AllAbove(gs: seq<Group>, b: Bounds, last: Id)
    requires forall i :: 0 <= i < |gs| ==> Less(last, gs[i].id)
    requires b.Has(last)
    ensures InRange(gs, b.Past(last, false)) == InRange(gs, b)
  {
    if |gs| > 0 {
      AfterIsLeastAbove(last, gs[0].id);
      if b.lo.Some? && Less(gs[0].id, b.lo.value) {
        LessTransitive(last, gs[0].id, b.lo.value);
      }
      AllAbove(gs[1..], b, last);
    }
  }

  lemma {:induction false} NarrowHigh(gs: seq<Group>, b: Bounds, k: nat)
    requires Sorted(gs) && k < |InRange(gs, b)|
    ensures InRange(gs, b.Past(InRange(gs, b)[k].id, true)) == InRange(gs, b)[..k]
  {
    hide Less;
    var last := InRange(gs, b)[k].id;
    var past := b.Past(last, true);
    InRangeIsFilter(gs, b);
    assert b.Has(last) by { assert InRange(gs, b)[k] in InRange(gs, b); }
    if b.Has(gs[0].id) && k == 0 {
      LessIrreflexive(last);
      InRangeIsFilter(gs, past);
      if |InRange(gs, past)| > 0 {
        var g := InRange(gs, past)[0];
        assert g in gs && past.Has(g.id);
        if g != gs[0] { LessAsymmetric(last, g.id); }
        assert false;
      }
    } else {
      KeptByTail(gs, b, k);
      NarrowHigh(gs[1..], b, if b.Has(gs[0].id) then k - 1 else k);
      if b.hi.Some? { LessTransitive(gs[0].id, last, b.hi.value); }
    }
  }

  /** Continuing past the k-th group walks exactly the rest, in either direction. */
  lemma WalkPast(gs: seq<Group>, b: Bounds, reverse: bool, k: nat)
    requires Sorted(gs) && k < |Walk(gs, b, reverse)|
    ensures Walk(gs, b.Past(Walk(gs, b, reverse)[k].id, reverse), reverse)
            == Walk(gs, b, reverse)[k + 1..]
  {
    hide InRange, Sorted, Bounds.Past;
    if reverse {
      NarrowHigh(gs, b, |InRange(gs, b)| - 1 - k);
      ReversedTail(InRange(gs, b), k);
    } else {
      NarrowLow(gs, b, k);
    }
  }

  lemma ReversedTail<T>(s: seq<T>, k: nat)
    requires k < |s|
    ensures Reversed(s[..|s| - 1 - k]) == Reversed(s)[k + 1..]
  {
    hide Reversed;
  }

  lemma {:induction false} LiveConcat(a: seq<Group>, b: seq<Group>)
    ensures Live(a + b) == Live(a) + Live(b)
  {
    if |a| == 0 {
      assert a + b == b;
    } else {
      LiveConcat(a[1..], b);
      assert (a + b)[1..] == a[1..] + b;
      if a[0].live {
        assert Live(a + b) == [a[0]] + (Live(a[1..]) + Live(b));
      }
    }
  }

  lemma {:induction false} CostConcat(a: seq<Group>, b: seq<Group>)
    ensures Cost(a + b) == Cost(a) + Cost(b)
  {
    if |a| == 0 {
      assert a + b == b;
    } else {
      CostConcat(a[1..], b);
      assert (a + b)[1..] == a[1..] + b;
    }
  }

  lemma {:induction false} AcceptedConcat(q: Query, a: seq<Group>, b: seq<Group>)
    ensures Accepted(q, a + b) == Accepted(q, a) + Accepted(q, b)
  {
    hide Query.Matches, Query.Seen;
    if |a| == 0 {
      assert a + b == b;
    } else {
      AcceptedConcat(q, a[1..], b);
      assert (a + b)[1..] == a[1..] + b;
      if q.Matches(a[0]) {
        assert Accepted(q, a + b)
            == [Row(a[0].id, q.Seen(a[0]))] + (Accepted(q, a[1..]) + Accepted(q, b));
      }
    }
  }

  lemma AnswerConcat(q: Query, a: seq<Group>, b: seq<Group>)
    ensures Answer(q, a + b) == Answer(q, a) + Answer(q, b)
  {
    LiveConcat(a, b);
    AcceptedConcat(q, Live(a), Live(b));
  }

  lemma {:induction false} CostPositive(w: seq<Group>)
    requires forall i :: 0 <= i < |w| ==> w[i].cost > 0
    ensures Cost(w) == 0 <==> |w| == 0
  {
  }

  lemma WalkCosts(gs: seq<Group>, b: Bounds, reverse: bool)
    requires WellFormed(gs)
    ensures forall i :: 0 <= i < |Walk(gs, b, reverse)| ==> Walk(gs, b, reverse)[i].cost > 0
  {
    InRangeIsFilter(gs, b);
    forall i | 0 <= i < |InRange(gs, b)| ensures InRange(gs, b)[i].cost > 0 {
      assert InRange(gs, b)[i] in gs;
    }
  }

  /** How far into the walk the first `c` live candidates reach. */
  function Reach(w: seq<Group>, c: nat): (m: nat)
    requires c <= |Live(w)|
    ensures m <= |w|
  {
    if c == 0 then 0
    else if w[0].live then 1 + Reach(w[1..], c - 1)
    else 1 + Reach(w[1..], c)
  }

  lemma {:induction false} ReachIsExact(w: seq<Group>, c: nat)
    requires c <= |Live(w)|
    ensures Live(w[..Reach(w, c)]) == Live(w)[..c]
    ensures c > 0 ==> Reach(w, c) > 0 && w[Reach(w, c) - 1] == Live(w)[c - 1]
    ensures c < |Live(w)| ==> Reach(w, c) < |w|
  {
    if c > 0 {
      var m := Reach(w, c);
      ReachIsExact(w[1..], if w[0].live then c - 1 else c);
      assert w[..m][1..] == w[1..][..m - 1];
    }
  }
}
