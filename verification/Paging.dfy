/** Following continuation tokens until none is returned is the same as filtering the range once,
    whatever budgets and projections each page is asked with. */
module Paging {
  import opened Bytes
  import opened Cursors
  import opened ScanSpec
  import opened Scans

  /** One served page: the query and budgets it was asked with, and what came back. Only the predicates
      are tied to the cursor, so the projection may change from page to page. */
  datatype Visit = Visit(query: Query, limits: Limits, page: Page)

  ghost predicate SamePredicates(a: Query, b: Query) {
    forall g: Group :: a.Matches(g) == b.Matches(g)
  }

  /** The pages a client sees that starts at `cursor` and follows `next` until it is absent. */
  ghost predicate Follows(gs: seq<Group>, q: Query, seal: Sealing, req: Request,
                          cursor: Option<seq<Byte>>, visits: seq<Visit>)
    requires |req.fingerprint| == CURSOR_FINGERPRINT
    decreases |visits|
  {
    && 0 < |visits|
    && SamePredicates(visits[0].query, q)
    && Start(seal, req, visits[0].limits, cursor).Ok?
    && (exists n :: Serves(gs, seal, req, cursor, visits[0], n))
    && (if visits[0].page.next.None? then |visits| == 1
        else Follows(gs, q, seal, req, visits[0].page.next, visits[1..]))
  }

  ghost predicate Serves(gs: seq<Group>, seal: Sealing, req: Request, cursor: Option<seq<Byte>>, v: Visit, n: nat)
    requires |req.fingerprint| == CURSOR_FINGERPRINT
    requires Start(seal, req, v.limits, cursor).Ok?
  {
    IsPage(gs, v.query, seal, req, v.limits, Start(seal, req, v.limits, cursor).value, v.page, n)
  }

  function Ids(rows: seq<Row>): (ids: seq<Id>)
    ensures |ids| == |rows| && forall i :: 0 <= i < |rows| ==> ids[i] == rows[i].id
  {
    seq(|rows|, i requires 0 <= i < |rows| => rows[i].id)
  }

  function AllIds(visits: seq<Visit>): seq<Id> {
    if |visits| == 0 then [] else Ids(visits[0].page.rows) + AllIds(visits[1..])
  }

  /** The walk left after the cursor's id, or the whole walk without one. */
  function Remaining(gs: seq<Group>, req: Request, seal: Sealing, cursor: Option<seq<Byte>>): seq<Group> {
    var last := if cursor.None? then None else
                match DecodeCursor(seal, cursor.value)
                case Ok(c) => Some(c.lastId)
                case Err => None;
    StartWalk(gs, req, last)
  }

  // ---- the answer, read as a set --------------------------------------------------------

  lemma {:induction false} LiveIsFilter(w: seq<Group>)
    ensures forall g :: g in Live(w) <==> g in w && g.live
  {
    if |w| > 0 { LiveIsFilter(w[1..]); }
  }

  lemma {:induction false} AcceptedIsFilter(q: Query, cs: seq<Group>)
    ensures forall r :: r in Accepted(q, cs) <==> exists g :: g in cs && q.Matches(g) && r == Row(g.id, q.Seen(g))
  {
    if |cs| > 0 {
      AcceptedIsFilter(q, cs[1..]);
      forall r ensures r in Accepted(q, cs) <==> exists g :: g in cs && q.Matches(g) && r == Row(g.id, q.Seen(g)) {
        if r in Accepted(q, cs) {
          if r in Accepted(q, cs[1..]) {
            var g :| g in cs[1..] && q.Matches(g) && r == Row(g.id, q.Seen(g));
            assert g in cs;
          } else {
            assert cs[0] in cs;
          }
        }
        if g :| g in cs && q.Matches(g) && r == Row(g.id, q.Seen(g)) {
          if g != cs[0] { assert g in cs[1..]; }
        }
      }
    }
  }

  /** Walking order: upwards by id, or downwards for a reverse scan. */
  predicate Ordered(ids: seq<Id>, reverse: bool) {
    forall i, j :: 0 <= i < j < |ids| ==> if reverse then Less(ids[j], ids[i]) else Less(ids[i], ids[j])
  }

  predicate WalkOrdered(w: seq<Group>, reverse: bool) {
    forall i, j :: 0 <= i < j < |w| ==> if reverse then Less(w[j].id, w[i].id) else Less(w[i].id, w[j].id)
  }

  lemma {:induction false} AcceptedOrdered(q: Query, w: seq<Group>, reverse: bool)
    requires WalkOrdered(w, reverse)
    ensures Ordered(Ids(Answer(q, w)), reverse)
  {
    if |w| > 0 {
      AcceptedOrdered(q, w[1..], reverse);
      var tail := Answer(q, w[1..]);
      forall i | 0 <= i < |tail|
        ensures if reverse then Less(tail[i].id, w[0].id) else Less(w[0].id, tail[i].id)
      {
        AcceptedIsFilter(q, Live(w[1..]));
        assert tail[i] in tail;
        var g :| g in Live(w[1..]) && q.Matches(g) && tail[i] == Row(g.id, q.Seen(g));
        LiveIsFilter(w[1..]);
        assert g in w[1..];
      }
      if w[0].live && q.Matches(w[0]) {
        assert Live(w)[1..] == Live(w[1..]);
        assert Answer(q, w) == [Row(w[0].id, q.Seen(w[0]))] + tail;
      } else {
        assert Answer(q, w) == tail by { if w[0].live { assert Live(w)[1..] == Live(w[1..]); } }
      }
    }
  }

  lemma WalkHolds(gs: seq<Group>, b: Bounds, reverse: bool)
    ensures forall g :: g in Walk(gs, b, reverse) <==> g in InRange(gs, b)
  {
    var all := InRange(gs, b);
    if reverse {
      forall g | g in all ensures g in Reversed(all) {
        var i :| 0 <= i < |all| && all[i] == g;
        assert Reversed(all)[|all| - 1 - i] == g;
      }
    }
  }

  /** `r` is the row of group `g`: live, from the lower bound on and below the upper, accepted by the predicates, and
      carrying its record exactly when the request needs one. */
  predicate Chosen(q: Query, b: Bounds, g: Group, r: Row) {
    var record := if q.needsRecord then Some(g.record) else None;
    && g.live && (b.lo.Some? ==> !Less(g.id, b.lo.value)) && (b.hi.Some? ==> Less(g.id, b.hi.value))
    && q.matches(g.id, record) && r == Row(g.id, record)
  }

  /** The answer to a request holds exactly the live matching groups of its range, each once, in order. */
  lemma AnswerIsTheFilteredRange(gs: seq<Group>, q: Query, b: Bounds, reverse: bool)
    requires WellFormed(gs)
    ensures var rows := Answer(q, Walk(gs, b, reverse));
            && Ordered(Ids(rows), reverse)
            && forall r :: r in rows <==> exists g :: g in gs && Chosen(q, b, g, r)
  {
    var w := Walk(gs, b, reverse);
    InRangeSorted(gs, b);
    AcceptedOrdered(q, w, reverse);
    AcceptedIsFilter(q, Live(w));
    LiveIsFilter(w);
    InRangeIsFilter(gs, b);
    WalkHolds(gs, b, reverse);
    hide Less, Walk;
    forall r ensures r in Answer(q, w) <==> exists g :: g in gs && Chosen(q, b, g, r) {
      if r in Answer(q, w) {
        var g :| g in Live(w) && q.Matches(g) && r == Row(g.id, q.Seen(g));
        assert g in w && g in gs && b.Has(g.id) && g.live;
        assert Chosen(q, b, g, r);
      }
      if g :| g in gs && Chosen(q, b, g, r) {
        assert b.Has(g.id) && q.Matches(g) && r == Row(g.id, q.Seen(g));
        assert g in Live(w);
      }
    }
  }

  // ---- continuing -----------------------------------------------------------------------

  lemma {:induction false} SamePredicatesSameIds(a: Query, b: Query, cs: seq<Group>)
    requires SamePredicates(a, b)
    ensures Ids(Accepted(a, cs)) == Ids(Accepted(b, cs))
  {
    if |cs| > 0 {
      assert a.Matches(cs[0]) == b.Matches(cs[0]);
      SamePredicatesSameIds(a, b, cs[1..]);
      assert Ids(Accepted(a, cs)) ==
             (if a.Matches(cs[0]) then [cs[0].id] else []) + Ids(Accepted(a, cs[1..]));
    }
  }

  /** A returned token is accepted by any later page of the same request with allowed budgets, and
      that page walks exactly the groups this one left: strictly fewer. */
  lemma NextResumes(gs: seq<Group>, seal: Sealing, req: Request, cursor: Option<seq<Byte>>, v: Visit, n: nat,
                    limits: Limits)
    requires WellFormed(gs) && seal.Lawful() && |req.fingerprint| == CURSOR_FINGERPRINT
    requires forall g :: g in gs ==> seal.utf8(g.id)
    requires Start(seal, req, v.limits, cursor).Ok? && Serves(gs, seal, req, cursor, v, n)
    requires v.page.next.Some? && limits.Allowed()
    ensures Start(seal, req, limits, v.page.next).Ok?
    ensures 0 < n < |Remaining(gs, req, seal, cursor)|
    ensures Remaining(gs, req, seal, v.page.next) == Remaining(gs, req, seal, cursor)[n..]
  {
    hide DecodeCursor, InRange, Sorted, Reversed;
    var last := Start(seal, req, v.limits, cursor).value;
    var b := StartBounds(req, last);
    var w := StartWalk(gs, req, last);
    var c := Cursor(req.reverse, req.fingerprint, w[n - 1].id);
    WalkHas(gs, b, req.reverse, w[n - 1]);
    DecodeInvertsEncode(seal, c);
    WalkPast(gs, b, req.reverse, n - 1);
    assert b.Past(c.lastId, req.reverse) == StartBounds(req, Some(c.lastId));
  }

  lemma PageTakesPrefix(gs: seq<Group>, q: Query, seal: Sealing, req: Request, cursor: Option<seq<Byte>>,
                        v: Visit, n: nat)
    requires |req.fingerprint| == CURSOR_FINGERPRINT && SamePredicates(v.query, q)
    requires Start(seal, req, v.limits, cursor).Ok? && Serves(gs, seal, req, cursor, v, n)
    ensures var w := Remaining(gs, req, seal, cursor);
            && n <= |w|
            && Ids(v.page.rows) == Ids(Answer(q, w[..n]))
            && (v.page.next.None? <==> n == |w|)
  {
    var w := Remaining(gs, req, seal, cursor);
    assert w == StartWalk(gs, req, Start(seal, req, v.limits, cursor).value);
    SamePredicatesSameIds(v.query, q, Live(w[..n]));
    hide EncodeCursor, DecodeCursor;
  }

  lemma StartAllows(seal: Sealing, req: Request, limits: Limits, cursor: Option<seq<Byte>>)
    requires Start(seal, req, limits, cursor).Ok?
    ensures limits.Allowed()
  {
  }

  lemma IdsConcat(a: seq<Row>, b: seq<Row>)
    ensures Ids(a + b) == Ids(a) + Ids(b)
  {
  }

  /** Losslessness: however the pages were budgeted, following `next` returns every live matching row of
      the range exactly once and in scan order, in no more pages than there are groups left to walk. */
  lemma {:induction false} FollowingCursorsLosesNothing(gs: seq<Group>, q: Query, seal: Sealing, req: Request,
                                                       cursor: Option<seq<Byte>>, visits: seq<Visit>)
    requires WellFormed(gs) && seal.Lawful() && |req.fingerprint| == CURSOR_FINGERPRINT
    requires forall g :: g in gs ==> seal.utf8(g.id)
    requires Follows(gs, q, seal, req, cursor, visits)
    ensures AllIds(visits) == Ids(Answer(q, Remaining(gs, req, seal, cursor)))
    ensures |visits| <= Max(1, |Remaining(gs, req, seal, cursor)|)
    decreases |visits|
  {
    hide Answer, Remaining, Serves, Start, Ids;
    var v := visits[0];
    var w := Remaining(gs, req, seal, cursor);
    var n: nat :| Serves(gs, seal, req, cursor, v, n);
    PageTakesPrefix(gs, q, seal, req, cursor, v, n);
    if v.page.next.None? {
      assert w[..n] == w;
      assert AllIds(visits) == Ids(v.page.rows) + AllIds(visits[1..]);
      assert AllIds(visits[1..]) == [];
    } else {
      FollowingCursorsLosesNothing(gs, q, seal, req, v.page.next, visits[1..]);
      StartAllows(seal, req, visits[1..][0].limits, v.page.next);
      NextResumes(gs, seal, req, cursor, v, n, visits[1].limits);
      AnswerConcat(q, w[..n], w[n..]);
      assert w == w[..n] + w[n..];
      IdsConcat(Answer(q, w[..n]), Answer(q, w[n..]));
    }
  }

  /** Read from the start: the ids handed out, over all pages, are exactly those of the live rows in range
      that satisfy the predicates, strictly ordered (so each exactly once). */
  lemma EveryMatchingRowExactlyOnce(gs: seq<Group>, q: Query, seal: Sealing, req: Request, visits: seq<Visit>)
    requires WellFormed(gs) && seal.Lawful() && |req.fingerprint| == CURSOR_FINGERPRINT
    requires forall g :: g in gs ==> seal.utf8(g.id)
    requires Follows(gs, q, seal, req, None, visits)
    ensures Ordered(AllIds(visits), req.reverse)
    ensures forall id :: id in AllIds(visits) <==>
                    exists g :: g in gs && g.id == id && req.bounds.Has(id) && g.live && q.Matches(g)
  {
    hide Follows, Ordered, Walk, Less;
    FollowingCursorsLosesNothing(gs, q, seal, req, None, visits);
    AnswerIsTheFilteredRange(gs, q, req.bounds, req.reverse);
    var rows := Answer(q, Walk(gs, req.bounds, req.reverse));
    forall id ensures id in Ids(rows) <==>
                      exists g :: g in gs && g.id == id && req.bounds.Has(id) && g.live && q.Matches(g) {
      if id in Ids(rows) {
        var i :| 0 <= i < |Ids(rows)| && Ids(rows)[i] == id;
        assert rows[i] in rows;
      }
      if g :| g in gs && g.id == id && req.bounds.Has(id) && g.live && q.Matches(g) {
        assert Row(g.id, q.Seen(g)) in rows;
        var i :| 0 <= i < |rows| && rows[i] == Row(g.id, q.Seen(g));
        assert Ids(rows)[i] == id;
      }
    }
  }
}
