/** The structured scan: one loop under four budgets that serves a page and an opaque continuation. */
module Scans {
  import opened Bytes
  import opened Cursors
  import opened ScanSpec

  const MAX_LIMIT: nat := 10_000
  const MAX_EXAMINED: nat := 1_000_000
  const MAX_RESOLUTION_ENTRIES: nat := 10_000_000
  const CHUNK: nat := 64

  /** The part of a request a cursor is bound to. `fingerprint` hashes bounds, direction and predicates. */
  datatype Request = Request(bounds: Bounds, reverse: bool, fingerprint: seq<Byte>)

  /** The four budgets, chosen afresh for every page. */
  datatype Limits = Limits(rows: nat, examined: nat, entries: nat, bytes: nat) {
    predicate Allowed() {
      && 0 < rows <= MAX_LIMIT
      && 0 < examined <= MAX_EXAMINED
      && 0 < entries <= MAX_RESOLUTION_ENTRIES
      && 0 < bytes
    }
  }

  datatype Page = Page(rows: seq<Row>, next: Option<seq<Byte>>, stats: Stats)

  datatype Stats = Stats(examined: nat, resolved: nat, entriesExhausted: bool, bytesExhausted: bool)

  // ---- the page contract ----------------------------------------------------------------

  function TotalBytes(q: Query, rows: seq<Row>): nat {
    if |rows| == 0 then 0 else q.bytes(rows[0].record) + TotalBytes(q, rows[1..])
  }

  /** Request checks and cursor decoding: the id the scan continues past, if any. */
  function Start(seal: Sealing, req: Request, limits: Limits, cursor: Option<seq<Byte>>): Outcome<Option<Id>> {
    if !limits.Allowed() || req.bounds.Inverted() then Err
    else if cursor.None? then Ok(None)
    else
      var c :- DecodeCursor(seal, cursor.value);
      if c.reverse != req.reverse || c.fingerprint != req.fingerprint then Err
      else Ok(Some(c.lastId))
  }

  /** A token handed out for one request is taken up by another only where direction and fingerprint agree, and
      a request without a token starts at its bounds; a bad request is refused either way. */
  lemma StartsExactly(seal: Sealing, req: Request, limits: Limits, c: Cursor)
    requires seal.Lawful() && c.Encodable() && seal.utf8(c.lastId)
    ensures var good := 0 < limits.rows <= 10_000 && 0 < limits.examined <= 1_000_000 && 0 < limits.entries <= 10_000_000
                        && 0 < limits.bytes
                        && (req.bounds.lo.Some? && req.bounds.hi.Some? ==> Less(req.bounds.lo.value, req.bounds.hi.value));
            && (Start(seal, req, limits, None) == if good then Ok(None) else Err)
            && EncodeCursor(seal, c).Ok?
            && (Start(seal, req, limits, Some(EncodeCursor(seal, c).value))
                == if good && c.reverse == req.reverse && c.fingerprint == req.fingerprint then Ok(Some(c.lastId)) else Err)
  {
    hide DecodeCursor, EncodeCursor;
    DecodeInvertsEncode(seal, c);
  }

  /** And no other token is taken up at all. */
  lemma StartsFromSealedOnly(seal: Sealing, req: Request, limits: Limits, token: seq<Byte>)
    requires seal.Lawful() && Start(seal, req, limits, Some(token)).Ok?
    ensures Start(seal, req, limits, Some(token)).value.Some?
    ensures var c := Cursor(req.reverse, req.fingerprint, Start(seal, req, limits, Some(token)).value.value);
            c.Encodable() && seal.utf8(c.lastId) && Unhex(token) == Ok(Payload(c) + seal.checksum(Payload(c)))
  {
    hide DecodeCursor, Unhex;
    DecodeAcceptsOnlySealedPayloads(seal, token, DecodeCursor(seal, token).value);
  }

  function StartBounds(req: Request, last: Option<Id>): Bounds {
    if last.None? then req.bounds else req.bounds.Past(last.value, req.reverse)
  }

  function StartWalk(gs: seq<Group>, req: Request, last: Option<Id>): seq<Group> {
    Walk(gs, StartBounds(req, last), req.reverse)
  }

  /** What a page consumes: the first `n` groups of the walk, whose live matching rows it returns. */
  predicate Consumes(q: Query, w: seq<Group>, limits: Limits, rows: seq<Row>, stats: Stats, n: nat) {
    && n <= |w|
    && rows == Answer(q, w[..n])
    && (0 < |w| ==> 0 < n)
    && |rows| <= limits.rows
    && stats.examined <= limits.examined
    && (stats.resolved <= limits.entries || (0 < |w| && stats.resolved == w[0].cost))
    && (TotalBytes(q, rows) <= limits.bytes || TotalBytes(q, rows) == q.bytes(rows[0].record))
    && (n < |w| ==>
          || |rows| == limits.rows
          || stats.examined == limits.examined
          || stats.entriesExhausted
          || stats.bytesExhausted)
    && (stats.bytesExhausted ==>
          && 0 < |rows|
          && 0 < |Answer(q, w[n..])|
          && TotalBytes(q, rows) + q.bytes(Answer(q, w[n..])[0].record) > limits.bytes)
  }

  /** A continuation is handed out exactly when groups remain, and names the last consumed group. */
  predicate Continues(seal: Sealing, req: Request, w: seq<Group>, n: nat, next: Option<seq<Byte>>)
    requires n <= |w| && (0 < |w| ==> 0 < n)
    requires |req.fingerprint| == CURSOR_FINGERPRINT
  {
    if n < |w| then
      var token := EncodeCursor(seal, Cursor(req.reverse, req.fingerprint, w[n - 1].id));
      token.Ok? && next == Some(token.value)
    else next == None
  }

  predicate IsPage(gs: seq<Group>, q: Query, seal: Sealing, req: Request, limits: Limits,
                   last: Option<Id>, page: Page, n: nat)
    requires |req.fingerprint| == CURSOR_FINGERPRINT
  {
    && Consumes(q, StartWalk(gs, req, last), limits, page.rows, page.stats, n)
    && Continues(seal, req, StartWalk(gs, req, last), n, page.next)
  }

  // ---- the source -----------------------------------------------------------------------

  /** The bounded merge: whole id groups in walking order, until enough live rows or work. */
  method ScanCandidates(gs: seq<Group>, b: Bounds, limit: nat, reverse: bool, maxEntries: nat,
                        oversized: bool)
    returns (batch: Batch, ghost n: nat)
    requires WellFormed(gs)
    ensures 0 < limit ==> Resolves(batch, Walk(gs, b, reverse), n, limit, maxEntries, oversized)
    ensures limit == 0 ==> batch == Batch([], 0, None, false, false)
  {
    n := 0;
    if limit == 0 { return Batch([], 0, None, false, false), 0; }
    var w := Walk(gs, b, reverse);
    WalkCosts(gs, b, reverse);
    var candidates, used, through, hasMore, exhausted := [], 0, None, false, false;
    var i := 0;
    while |candidates| < limit
      invariant i <= |w| && !hasMore && !exhausted
      invariant candidates == Live(w[..i]) && |candidates| <= limit
      invariant used == Cost(w[..i])
      invariant through == LastId(w[..i])
      invariant used > 0 <==> i > 0
      invariant used <= maxEntries || (oversized && i == 1)
      invariant i < |w| && 0 < i ==> used < maxEntries
      decreases |w| - i
    {
      if i == |w| { break; }
      var g := w[i];
      if g.cost > Max(0, maxEntries - used) && (used > 0 || !oversized) {
        hasMore, exhausted := true, true;
        break;
      }
      assert w[..i + 1] == w[..i] + [g];
      LiveConcat(w[..i], [g]);
      CostConcat(w[..i], [g]);
      used := used + g.cost;
      if g.live { candidates := candidates + [g]; }
      through := Some(g.id);
      i := i + 1;
      if i < |w| && used >= maxEntries {
        hasMore, exhausted := true, true;
        break;
      }
    }
    if !hasMore { hasMore := i < |w|; }
    batch, n := Batch(candidates, used, through, hasMore, exhausted), i;
  }

  // ---- examining candidates -------------------------------------------------------------

  /** The running state of one page. */
  datatype Progress = Progress(rows: seq<Row>, examined: nat, bytes: nat, last: Option<Id>, deferred: bool)

  /** One candidate: pruned or rejected, deferred by the byte budget, or returned. */
  function Step(q: Query, limits: Limits, p: Progress, c: Group): Progress {
    if !q.mayMatch(c) || !q.Matches(c) then
      p.(examined := p.examined + 1, last := Some(c.id))
    else if p.rows != [] && q.bytes(q.Seen(c)) > Max(0, limits.bytes - p.bytes) then
      p.(examined := p.examined + 1, deferred := true)
    else
      p.(examined := p.examined + 1, last := Some(c.id), rows := p.rows + [Row(c.id, q.Seen(c))],
         bytes := p.bytes + q.bytes(q.Seen(c)))
  }

  predicate Stopped(limits: Limits, p: Progress) { p.deferred || |p.rows| >= limits.rows }

  /** Candidates taken strictly one at a time until the page is full or a row is deferred. */
  function Examine(q: Query, limits: Limits, cs: seq<Group>, p: Progress): Progress
    decreases |cs|
  {
    if |cs| == 0 || Stopped(limits, p) then p
    else Examine(q, limits, cs[1..], Step(q, limits, p, cs[0]))
  }

  /** How many candidates an examination consumed; a deferred one is examined but not consumed. */
  function Consumed(before: Progress, after: Progress): int {
    after.examined - before.examined - (if after.deferred then 1 else 0)
  }

  /** What an examination that consumed `c` of `cs` returned, and why it stopped short of the end. */
  predicate Took(q: Query, limits: Limits, cs: seq<Group>, p: Progress, r: Progress, c: int) {
    && 0 <= c <= |cs| && r.examined <= p.examined + |cs|
    && r.rows == p.rows + Accepted(q, cs[..c])
    && r.last == (if c > 0 then Some(cs[c - 1].id) else p.last)
    && |r.rows| <= limits.rows
    && (r.deferred ==>
          && c < |cs| && q.Matches(cs[c]) && r.rows != [] && |r.rows| < limits.rows
          && r.bytes + q.bytes(q.Seen(cs[c])) > limits.bytes)
    && (!r.deferred && c < |cs| ==> |r.rows| == limits.rows)
  }

  lemma TookMore(q: Query, limits: Limits, cs: seq<Group>, p: Progress, r: Progress, c: int)
    requires q.Lawful() && |cs| > 0 && !Stopped(limits, p)
    requires !Step(q, limits, p, cs[0]).deferred
    requires Took(q, limits, cs[1..], Step(q, limits, p, cs[0]), r, c)
    ensures Took(q, limits, cs, p, r, c + 1)
  {
    assert cs[..c + 1][1..] == cs[1..][..c];
    assert cs[..c + 1][0] == cs[0];
    assert c < |cs[1..]| ==> cs[1..][c] == cs[c + 1];
    if q.Matches(cs[0]) {
      var row := Row(cs[0].id, q.Seen(cs[0]));
      assert q.mayMatch(cs[0]);
      assert p.rows + ([row] + Accepted(q, cs[1..][..c])) == (p.rows + [row]) + Accepted(q, cs[1..][..c]);
    }
  }

  lemma {:induction false} ExamineTakes(q: Query, limits: Limits, cs: seq<Group>, p: Progress)
    requires q.Lawful() && !Stopped(limits, p)
    ensures var r := Examine(q, limits, cs, p); Took(q, limits, cs, p, r, Consumed(p, r))
    decreases |cs|
  {
    if |cs| > 0 {
      var s := Step(q, limits, p, cs[0]);
      if s.deferred {
        assert q.Matches(cs[0]) && cs[..0] == [];
      } else if Stopped(limits, s) {
        assert cs[..1] == [cs[0]];
        assert Accepted(q, [cs[0]][1..]) == [];
      } else {
        ExamineTakes(q, limits, cs[1..], s);
        TookMore(q, limits, cs, p, Examine(q, limits, cs, p), Consumed(s, Examine(q, limits, cs, p)));
      }
    }
  }

  /** The byte counter is the sum over the returned rows; it passes its budget only when the first row
      does so alone, after which only rows that reconstruct nothing are still returned. */
  predicate BytesCounted(q: Query, limits: Limits, p: Progress) {
    && p.bytes == TotalBytes(q, p.rows)
    && (p.bytes <= limits.bytes || (p.rows != [] && p.bytes == q.bytes(p.rows[0].record)))
  }

  lemma {:induction false} TotalBytesConcat(q: Query, a: seq<Row>, b: seq<Row>)
    ensures TotalBytes(q, a + b) == TotalBytes(q, a) + TotalBytes(q, b)
  {
    if |a| == 0 {
      assert a + b == b;
    } else {
      TotalBytesConcat(q, a[1..], b);
      assert (a + b)[1..] == a[1..] + b;
    }
  }

  lemma {:induction false} ExamineCountsBytes(q: Query, limits: Limits, cs: seq<Group>, p: Progress)
    requires BytesCounted(q, limits, p)
    ensures BytesCounted(q, limits, Examine(q, limits, cs, p))
    decreases |cs|
  {
    if |cs| > 0 && !Stopped(limits, p) {
      TotalBytesConcat(q, p.rows, [Row(cs[0].id, q.Seen(cs[0]))]);
      ExamineCountsBytes(q, limits, cs[1..], Step(q, limits, p, cs[0]));
    }
  }

  lemma ExamineNothing(q: Query, limits: Limits, cs: seq<Group>, p: Progress)
    requires |cs| == 0
    ensures Examine(q, limits, cs, p) == p
  {
  }

  function Unpruned(q: Query, cs: seq<Group>): seq<Group> {
    if |cs| == 0 then []
    else if q.mayMatch(cs[0]) then [cs[0]] + Unpruned(q, cs[1..])
    else Unpruned(q, cs[1..])
  }

  /** Decode the records of the given candidates, in order. */
  method ProjectBatch(cs: seq<Group>) returns (records: seq<Record>)
    ensures |records| == |cs| && forall i :: 0 <= i < |cs| ==> records[i] == cs[i].record
  {
    records := seq(|cs|, i requires 0 <= i < |cs| => cs[i].record);
  }

  /** The candidates worth decoding: those that part-wide metadata does not rule out. */
  method Unprune(q: Query, chunk: seq<Group>) returns (project: seq<Group>)
    ensures project == Unpruned(q, chunk)
  {
    project := [];
    var i := 0;
    while i < |chunk|
      invariant i <= |chunk|
      invariant Unpruned(q, chunk) == project + Unpruned(q, chunk[i..])
    {
      assert chunk[i..][1..] == chunk[i + 1..];
      if q.mayMatch(chunk[i]) {
        assert Unpruned(q, chunk) == project + ([chunk[i]] + Unpruned(q, chunk[i + 1..]));
        project := project + [chunk[i]];
      }
      i := i + 1;
    }
  }

  /** Examine one candidate against the record decoded for it. */
  method ExamineOne(q: Query, limits: Limits, c: Group, record: Option<Record>, p0: Progress)
    returns (p: Progress)
    requires q.mayMatch(c) && record == q.Seen(c)
    ensures p == Step(q, limits, p0, c)
  {
    p := p0.(examined := p0.examined + 1);
    if !q.matches(c.id, record) { return p.(last := Some(c.id)); }
    var rowBytes := q.bytes(record);
    if p.rows != [] && rowBytes > Max(0, limits.bytes - p.bytes) { return p.(deferred := true); }
    p := p.(rows := p.rows + [Row(c.id, record)], bytes := p.bytes + rowBytes, last := Some(c.id));
  }

  /** One gathered chunk: decode the unpruned candidates together, then examine each in turn. The chunk
      never exceeds the remaining demand, so only a deferred row can stop it early. */
  method ExamineChunk(q: Query, limits: Limits, chunk: seq<Group>, p0: Progress)
    returns (p: Progress, processed: nat)
    requires q.Lawful() && !p0.deferred && 0 < |chunk| <= limits.rows - |p0.rows|
    ensures p == Examine(q, limits, chunk, p0)
    ensures p.examined == p0.examined + processed
    ensures !p.deferred ==> processed == |chunk|
  {
    var project := Unprune(q, chunk);
    var projected := [];
    if q.needsRecord { projected := ProjectBatch(project); }
    var projectedIndex: nat := 0;
    p, processed := p0, 0;
    while processed < |chunk|
      invariant processed <= |chunk| && !p.deferred
      invariant p.examined == p0.examined + processed
      invariant |p.rows| <= |p0.rows| + processed
      invariant Examine(q, limits, chunk, p0) == Examine(q, limits, chunk[processed..], p)
      invariant q.needsRecord ==>
                  projectedIndex <= |project| && project[projectedIndex..] == Unpruned(q, chunk[processed..])
    {
      var c := chunk[processed];
      assert chunk[processed..][1..] == chunk[processed + 1..];
      assert chunk[processed..][0] == c;
      if !q.mayMatch(c) {
        p := p.(examined := p.examined + 1, last := Some(c.id));
      } else {
        var record := None;
        if q.needsRecord {
          assert project[projectedIndex] == project[projectedIndex..][0] == c;
          assert project[projectedIndex..][1..] == project[projectedIndex + 1..];
          record := Some(projected[projectedIndex]);
          projectedIndex := projectedIndex + 1;
        }
        p := ExamineOne(q, limits, c, record, p);
      }
      processed := processed + 1;
      if p.deferred { break; }
    }
  }

  /** All candidates of a batch, in chunks sized by the remaining demand. */
  method ExamineBatch(q: Query, limits: Limits, candidates: seq<Group>, p0: Progress)
    returns (p: Progress, processed: nat)
    requires q.Lawful() && !Stopped(limits, p0)
    ensures p == Examine(q, limits, candidates, p0)
    ensures p.examined == p0.examined + processed
  {
    p, processed := p0, 0;
    var pending := candidates;
    while |pending| > 0
      invariant p.examined == p0.examined + processed
      invariant !Stopped(limits, p)
      invariant Examine(q, limits, candidates, p0) == Examine(q, limits, pending, p)
    {
      var chunk := Min(Min(Max(limits.rows - |p.rows|, 1), CHUNK), |pending|);
      var batch, rest := pending[..chunk], pending[chunk..];
      assert pending == batch + rest;
      ExamineSplit(q, limits, batch, rest, p);
      var done: nat;
      p, done := ExamineChunk(q, limits, batch, p);
      processed := processed + done;
      pending := rest;
      if Stopped(limits, p) { break; }
    }
  }

  lemma {:induction false} ExamineSplit(q: Query, limits: Limits, a: seq<Group>, b: seq<Group>, p: Progress)
    ensures Examine(q, limits, a + b, p) == Examine(q, limits, b, Examine(q, limits, a, p))
    decreases |a|
  {
    if |a| == 0 || Stopped(limits, p) {
      assert |a| == 0 ==> a + b == b;
    } else {
      assert (a + b)[1..] == a[1..] + b;
      ExamineSplit(q, limits, a[1..], b, Step(q, limits, p, a[0]));
    }
  }

  // ---- one page -------------------------------------------------------------------------

  /** The next candidate of a resolved batch is the next live group of the walk. */
  lemma NextCandidate(w: seq<Group>, k: nat, n: nat, c: nat)
    requires k + n <= |w| && c < |Live(w[k..k + n])|
    ensures var m := Reach(w[k..k + n], c);
      m < n && |Live(w[k + m..])| > 0 && Live(w[k + m..])[0] == Live(w[k..k + n])[c]
  {
    hide Live, Reach;
    var part := w[k..k + n];
    var m := Reach(part, c);
    ReachIsExact(part, c);
    assert part == part[..m] + part[m..];
    LiveConcat(part[..m], part[m..]);
    assert Live(part)[c] == Live(part[m..])[0];
    assert w[k + m..] == part[m..] + w[k + n..];
    LiveConcat(part[m..], w[k + n..]);
  }

  lemma AnswerIsAccepted(q: Query, w: seq<Group>)
    ensures Answer(q, w) == Accepted(q, Live(w))
  {
  }

  /** Consuming `c` candidates of a resolved batch moves the walk to just past the last of them. */
  lemma ConsumedUpTo(q: Query, w: seq<Group>, k: nat, n: nat, c: nat) returns (m: nat)
    requires k + n <= |w| && c <= |Live(w[k..k + n])|
    ensures m <= n
    ensures Answer(q, w[..k + m]) == Answer(q, w[..k]) + Accepted(q, Live(w[k..k + n])[..c])
    ensures c > 0 ==> m > 0 && w[k + m - 1] == Live(w[k..k + n])[c - 1]
    ensures c == 0 ==> m == 0
    ensures c < |Live(w[k..k + n])| ==> m < n && |Live(w[k + m..])| > 0 && Live(w[k + m..])[0] == Live(w[k..k + n])[c]
  {
    hide Answer, Accepted, Live;
    var part := w[k..k + n];
    m := Reach(part, c);
    ReachIsExact(part, c);
    assert w[..k + m] == w[..k] + part[..m];
    AnswerConcat(q, w[..k], part[..m]);
    AnswerIsAccepted(q, part[..m]);
    if c < |Live(part)| { NextCandidate(w, k, n, c); }
  }

  /** The page has consumed exactly the first `k` groups of its walk. */
  predicate At(q: Query, limits: Limits, w: seq<Group>, start: Option<Id>, k: nat, p: Progress) {
    && k <= |w|
    && p.rows == Answer(q, w[..k])
    && p.last == (if k > 0 then Some(w[k - 1].id) else start)
    && BytesCounted(q, limits, p)
    && |p.rows| <= limits.rows
  }

  /** After a batch, `last` moves on to the group the source resolved through when every candidate of
      the batch was consumed, so trailing tombstones are not walked again. */
  function Settle(batch: Batch, p: Progress, processed: int): Progress {
    if processed == |batch.candidates| && !p.deferred && batch.resolvedThrough.Some?
    then p.(last := batch.resolvedThrough) else p
  }

  lemma SliceOfRest<T>(w: seq<T>, k: nat, n: nat)
    requires k + n <= |w|
    ensures w[k..][..n] == w[k..k + n]
  {
  }

  lemma BatchTakenWhole(q: Query, w: seq<Group>, k: nat, n: nat, cs: seq<Group>)
    requires k + n <= |w| && cs == Live(w[k..][..n])
    ensures Answer(q, w[..k + n]) == Answer(q, w[..k]) + Accepted(q, cs[..|cs|])
  {
    SliceOfRest(w, k, n);
    assert w[..k + n] == w[..k] + w[k..k + n];
    AnswerConcat(q, w[..k], w[k..k + n]);
    assert cs[..|cs|] == cs;
  }

  /** Nothing consumed from a batch means a row was deferred behind rows already on the page. */
  lemma NothingConsumed(q: Query, w: seq<Group>, cs: seq<Group>, rows: seq<Row>)
    requires rows == Answer(q, w[..0]) + Accepted(q, cs[..0])
    ensures rows == []
  {
  }

  /** Where a page stands after examining a batch: `m` more groups consumed, all `n` of them unless the
      page filled up or a row was deferred. */
  predicate Advanced(q: Query, limits: Limits, w: seq<Group>, start: Option<Id>, k: nat,
                     batch: Batch, r: Progress, processed: int, n: nat, m: nat) {
    && 0 <= processed <= |batch.candidates|
    && 0 < k + m
    && At(q, limits, w, start, k + m, Settle(batch, r, processed))
    && (processed == |batch.candidates| && !r.deferred ==> m == n)
    && (processed < |batch.candidates| || r.deferred ==> m < n)
    && (r.deferred ==> r.rows != [] && NextOverflows(q, limits, w[k + m..], r))
  }

  /** The next matching row would take the page past its byte budget. */
  predicate NextOverflows(q: Query, limits: Limits, rest: seq<Group>, p: Progress) {
    0 < |Answer(q, rest)| && p.bytes + q.bytes(Answer(q, rest)[0].record) > limits.bytes
  }

  lemma DeferredIsNext(q: Query, limits: Limits, rest: seq<Group>, p: Progress)
    requires 0 < |Live(rest)| && q.Matches(Live(rest)[0])
    requires p.bytes + q.bytes(q.Seen(Live(rest)[0])) > limits.bytes
    ensures NextOverflows(q, limits, rest, p)
  {
  }

  lemma WholeBatchAdvances(q: Query, limits: Limits, w: seq<Group>, start: Option<Id>, k: nat, p: Progress,
                           batch: Batch, r: Progress, n: nat)
    requires At(q, limits, w, start, k, p) && k + n <= |w| && 0 < k + n
    requires batch.candidates == Live(w[k..][..n]) && batch.resolvedThrough == LastId(w[k..][..n])
    requires Took(q, limits, batch.candidates, p, r, |batch.candidates|) && !r.deferred
    requires BytesCounted(q, limits, r) && r.examined == p.examined + |batch.candidates|
    ensures Advanced(q, limits, w, start, k, batch, r, r.examined - p.examined, n, n)
  {
    BatchTakenWhole(q, w, k, n, batch.candidates);
    SliceOfRest(w, k, n);
    assert n == 0 ==> batch.candidates == [];
    assert n > 0 ==> batch.resolvedThrough == Some(w[k + n - 1].id);
    hide Answer, Live, BytesCounted, Accepted;
  }

  lemma PartBatchAdvances(q: Query, limits: Limits, w: seq<Group>, start: Option<Id>, k: nat, p: Progress,
                          batch: Batch, r: Progress, n: nat)
    returns (m: nat)
    requires At(q, limits, w, start, k, p) && k + n <= |w|
    requires batch.candidates == Live(w[k..][..n])
    requires Took(q, limits, batch.candidates, p, r, Consumed(p, r))
    requires Consumed(p, r) < |batch.candidates| && !Stopped(limits, p)
    requires BytesCounted(q, limits, r)
    ensures Advanced(q, limits, w, start, k, batch, r, r.examined - p.examined, n, m)
  {
    var c := Consumed(p, r);
    var cs := batch.candidates;
    SliceOfRest(w, k, n);
    hide Answer, Live, BytesCounted, Accepted, NextOverflows;
    m := ConsumedUpTo(q, w, k, n, c);
    if r.deferred { DeferredIsNext(q, limits, w[k + m..], r); }
    if c == 0 {
      assert cs[..0] == [];
      if k == 0 {
        NothingConsumed(q, w, cs, r.rows);
        assert false;
      }
    }
  }

  lemma BatchAdvances(q: Query, limits: Limits, w: seq<Group>, start: Option<Id>, k: nat, p: Progress,
                      batch: Batch, n: nat, maxEntries: nat, ask: nat)
    returns (m: nat)
    requires q.Lawful() && At(q, limits, w, start, k, p) && !Stopped(limits, p)
    requires Resolves(batch, w[k..], n, ask, maxEntries, k == 0) && 0 < ask && k < |w|
    ensures var r := Examine(q, limits, batch.candidates, p);
            Advanced(q, limits, w, start, k, batch, r, r.examined - p.examined, n, m)
  {
    hide Answer, Live, BytesCounted, Accepted, Examine, Advanced;
    var r := Examine(q, limits, batch.candidates, p);
    ExamineTakes(q, limits, batch.candidates, p);
    ExamineCountsBytes(q, limits, batch.candidates, p);
    if Consumed(p, r) == |batch.candidates| && !r.deferred {
      m := n;
      WholeBatchAdvances(q, limits, w, start, k, p, batch, r, n);
    } else {
      m := PartBatchAdvances(q, limits, w, start, k, p, batch, r, n);
    }
  }

  /** Resolution work stays within its budget, or is the one oversized group a page may always resolve. */
  predicate WorkBounded(limits: Limits, w: seq<Group>, used: nat) {
    used <= limits.entries || (0 < |w| && used == w[0].cost)
  }

  lemma WorkStaysBounded(limits: Limits, w: seq<Group>, k: nat, used: nat, batch: Batch, n: nat, ask: nat)
    requires k < |w| && (used > 0 <==> k > 0) && WorkBounded(limits, w, used) && 0 < ask
    requires forall i :: 0 <= i < |w| ==> w[i].cost > 0
    requires Resolves(batch, w[k..], n, ask, Max(0, limits.entries - used), used == 0)
    ensures used + batch.used > 0 && WorkBounded(limits, w, used + batch.used)
  {
    hide Live;
    if used == 0 {
      CostPositive(w[k..][..n]);
      if n == 1 { assert w[k..][..1] == [w[0]]; }
    }
  }

  /** A page between two gathers. */
  predicate Gathering(q: Query, limits: Limits, w: seq<Group>, start: Option<Id>, k: nat, p: Progress,
                      used: nat) {
    && At(q, limits, w, start, k, p)
    && !Stopped(limits, p) && p.examined < limits.examined
    && (k > 0 ==> k < |w|)
    && (used > 0 <==> k > 0)
    && WorkBounded(limits, w, used)
  }

  /** A page that has stopped: what it consumed, and that it says so exactly. */
  predicate Finished(q: Query, limits: Limits, w: seq<Group>, start: Option<Id>, k: nat, p: Progress,
                     used: nat, exhausted: bool, hasMore: bool) {
    && At(q, limits, w, start, k, p)
    && (hasMore <==> k < |w|)
    && (0 < |w| ==> 0 < k)
    && p.examined <= limits.examined
    && WorkBounded(limits, w, used)
    && (p.deferred ==> p.rows != [] && NextOverflows(q, limits, w[k..], p))
    && (hasMore ==> |p.rows| == limits.rows || p.examined == limits.examined || exhausted || p.deferred)
  }

  lemma FinishedConsumes(q: Query, limits: Limits, w: seq<Group>, start: Option<Id>, k: nat, p: Progress,
                         used: nat, exhausted: bool, hasMore: bool)
    requires Finished(q, limits, w, start, k, p, used, exhausted, hasMore)
    ensures Consumes(q, w, limits, p.rows, Stats(p.examined, used, exhausted, p.deferred), k)
  {
    hide Answer;
  }

  /** Where the page stands after one gather, in the terms its exits are decided by. */
  lemma Gathered(q: Query, limits: Limits, w: seq<Group>, start: Option<Id>, k: nat, p: Progress, used: nat,
                 batch: Batch, n: nat, ask: nat)
    returns (m: nat)
    requires q.Lawful() && Gathering(q, limits, w, start, k, p, used) && k < |w|
    requires 0 < ask <= limits.examined - p.examined
    requires forall i :: 0 <= i < |w| ==> w[i].cost > 0
    requires Resolves(batch, w[k..], n, ask, Max(0, limits.entries - used), used == 0)
    ensures var r := Examine(q, limits, batch.candidates, p);
            Advanced(q, limits, w, start, k, batch, r, r.examined - p.examined, n, m)
            && r.examined <= limits.examined && |r.rows| <= limits.rows
            && (r.examined - p.examined < |batch.candidates| && !r.deferred ==> |r.rows| == limits.rows)
    ensures used + batch.used > 0 && WorkBounded(limits, w, used + batch.used)
  {
    ExamineTakes(q, limits, batch.candidates, p);
    m := BatchAdvances(q, limits, w, start, k, p, batch, n, Max(0, limits.entries - used), ask);
    WorkStaysBounded(limits, w, k, used, batch, n, ask);
  }

  lemma ResolvesFacts(batch: Batch, w: seq<Group>, n: nat, limit: nat, maxEntries: nat, oversized: bool)
    requires Resolves(batch, w, n, limit, maxEntries, oversized)
    ensures n <= |w| && batch.hasMore == (n < |w|)
    ensures batch.candidates == [] && n < |w| && 0 < limit ==> batch.exhausted
    ensures |w| == 0 ==> batch.candidates == [] && batch.used == 0 && batch.resolvedThrough == None
    ensures batch.exhausted ==> n < |w|
    ensures batch.candidates != [] ==> 0 < n
  {
  }

  /** Continuing past the last group of a resolved stretch walks what is left of the whole walk. */
  lemma RestOfWalk(gs: seq<Group>, b: Bounds, reverse: bool, w: seq<Group>, k: nat, m: nat)
    requires Sorted(gs) && k + m <= |w| && 0 < m && Walk(gs, b, reverse) == w[k..]
    ensures Walk(gs, b.Past(w[k + m - 1].id, reverse), reverse) == w[k + m..]
  {
    WalkPast(gs, b, reverse, m - 1);
    assert w[k..][m..] == w[k + m..];
  }

  lemma WalkHas(gs: seq<Group>, b: Bounds, reverse: bool, g: Group)
    requires g in Walk(gs, b, reverse)
    ensures g in gs && b.Has(g.id)
  {
    InRangeIsFilter(gs, b);
  }

  /** Each way a gather can end, decided by the same tests as the loop's exits. */
  lemma GatherDecides(q: Query, limits: Limits, w: seq<Group>, start: Option<Id>, k: nat, p: Progress, used: nat,
                      batch: Batch, n: nat, ask: nat)
    returns (m: nat)
    requires q.Lawful() && Gathering(q, limits, w, start, k, p, used)
    requires 0 < ask <= limits.examined - p.examined
    requires forall i :: 0 <= i < |w| ==> w[i].cost > 0
    requires Resolves(batch, w[k..], n, ask, Max(0, limits.entries - used), used == 0)
    ensures var r := Examine(q, limits, batch.candidates, p); var processed := r.examined - p.examined;
            var after := Settle(batch, r, processed); var u := used + batch.used;
            var full := |r.rows| == limits.rows || r.examined == limits.examined;
            && (r.deferred ==> Finished(q, limits, w, start, k + m, after, u, batch.exhausted, true))
            && (!r.deferred && full ==>
                  Finished(q, limits, w, start, k + m, after, u, batch.exhausted,
                           processed < |batch.candidates| || batch.hasMore))
            && (!r.deferred && !full && (batch.exhausted || !batch.hasMore || batch.candidates == []) ==>
                  Finished(q, limits, w, start, k + m, after, u, batch.exhausted, batch.hasMore))
            && (!r.deferred && !full && !batch.exhausted && batch.hasMore ==>
                  && Gathering(q, limits, w, start, k + m, after, u) && 0 < m && k + m < |w|
                  && after.last == Some(w[k + m - 1].id))
  {
    hide Answer, NextOverflows, Resolves, BytesCounted, WorkBounded;
    ResolvesFacts(batch, w[k..], n, ask, Max(0, limits.entries - used), used == 0);
    if k < |w| {
      hide Examine;
      m := Gathered(q, limits, w, start, k, p, used, batch, n, ask);
    } else {
      m := 0;
    }
  }

  /** One turn of the loop: gather, examine, and decide whether the page is done and whether groups remain. */
  method Gather(gs: seq<Group>, q: Query, limits: Limits, b: Bounds, reverse: bool, p0: Progress, used0: nat,
                ghost w: seq<Group>, ghost start: Option<Id>, ghost k: nat)
    returns (p: Progress, used: nat, exhausted: bool, hasMore: bool, stop: bool, ghost n: nat)
    requires WellFormed(gs) && q.Lawful()
    requires Gathering(q, limits, w, start, k, p0, used0) && Walk(gs, b, reverse) == w[k..]
    requires forall i :: 0 <= i < |w| ==> w[i].cost > 0
    ensures stop ==> Finished(q, limits, w, start, n, p, used, exhausted, hasMore)
    ensures !stop ==> Gathering(q, limits, w, start, n, p, used) && !exhausted && hasMore
                      && k < n < |w| && p.last == Some(w[n - 1].id)
  {
    hide Answer, Walk, Finished, Gathering, Resolves, At, Live;
    assert !Stopped(limits, p0) && p0.examined < limits.examined by { GatheringFacts(q, limits, w, start, k, p0, used0); }
    var ask := Min(limits.examined - p0.examined, Max(limits.rows - |p0.rows|, 64));
    var batch, resolved := ScanCandidates(gs, b, ask, reverse, Max(0, limits.entries - used0), used0 == 0);
    ghost var m := GatherDecides(q, limits, w, start, k, p0, used0, batch, resolved, ask);
    used, exhausted, n := used0 + batch.used, batch.exhausted, k + m;
    if |batch.candidates| == 0 {
      ExamineNothing(q, limits, batch.candidates, p0);
      p := if batch.resolvedThrough.Some? then p0.(last := batch.resolvedThrough) else p0;
      return p, used, exhausted, batch.hasMore, true, n;
    }
    hide Examine;
    var fetched := |batch.candidates|;
    var processed: nat;
    p, processed := ExamineBatch(q, limits, batch.candidates, p0);
    if processed == fetched && !p.deferred {
      if batch.resolvedThrough.Some? { p := p.(last := batch.resolvedThrough); }
    }
    if p.deferred {
      stop, hasMore := true, true;
    } else if |p.rows| == limits.rows || p.examined == limits.examined {
      stop, hasMore := true, processed < fetched || batch.hasMore;
    } else if exhausted {
      stop, hasMore := true, batch.hasMore;
    } else {
      stop, hasMore := !batch.hasMore, batch.hasMore;
    }
  }

  lemma GatheringFacts(q: Query, limits: Limits, w: seq<Group>, start: Option<Id>, k: nat, p: Progress, used: nat)
    requires Gathering(q, limits, w, start, k, p, used)
    ensures !Stopped(limits, p) && p.examined < limits.examined && k <= |w|
  {
  }

  /** The gathering loop: batches until the page is full, a budget is spent, or the range is done. */
  method GatherPage(gs: seq<Group>, q: Query, limits: Limits, bounds: Bounds, reverse: bool, start: Option<Id>)
    returns (p: Progress, used: nat, exhausted: bool, hasMore: bool, ghost n: nat)
    requires WellFormed(gs) && q.Lawful() && limits.Allowed()
    ensures Finished(q, limits, Walk(gs, bounds, reverse), start, n, p, used, exhausted, hasMore)
  {
    var b := bounds;
    ghost var w := Walk(gs, b, reverse);
    WalkCosts(gs, b, reverse);
    p, used, exhausted, hasMore, n := Progress([], 0, 0, start, false), 0, false, false, 0;
    assert w[0..] == w;
    assert Gathering(q, limits, w, start, n, p, used) by { assert Answer(q, w[..0]) == []; }
    hide Answer, Walk, Finished, At;
    while |p.rows| < limits.rows && p.examined < limits.examined && !exhausted
      invariant n <= |w|
      invariant Gathering(q, limits, w, start, n, p, used) && !exhausted
      invariant Walk(gs, b, reverse) == w[n..]
      decreases |w| - n
    {
      ghost var k := n;
      var stop;
      p, used, exhausted, hasMore, stop, n := Gather(gs, q, limits, b, reverse, p, used, w, start, n);
      if stop { break; }
      RestOfWalk(gs, b, reverse, w, k, n - k);
      b := b.Past(p.last.value, reverse);
    }
  }

  /** Serve one page. Refused for a bad request or cursor, and when the continuation would name an id
      too long to encode; otherwise the page satisfies `IsPage`. */
  method ScanSource(gs: seq<Group>, q: Query, seal: Sealing, req: Request, limits: Limits,
                    cursor: Option<seq<Byte>>)
    returns (result: Outcome<Page>, ghost n: nat)
    requires WellFormed(gs) && q.Lawful() && |req.fingerprint| == CURSOR_FINGERPRINT
    ensures Start(seal, req, limits, cursor).Err? ==> result.Err?
    ensures Start(seal, req, limits, cursor).Ok? && result.Ok? ==>
              IsPage(gs, q, seal, req, limits, Start(seal, req, limits, cursor).value, result.value, n)
    ensures Start(seal, req, limits, cursor).Ok? && result.Err? ==>
              exists g :: g in gs && |g.id| > U32_MAX
  {
    var start := Start(seal, req, limits, cursor);
    if start.Err? { return Err, 0; }
    var b := StartBounds(req, start.value);
    ghost var w := Walk(gs, b, req.reverse);
    if b.Inverted() {
      InvertedIsEmpty(gs, b);
      assert Answer(q, w[..0]) == [];
      return Ok(Page([], None, Stats(0, 0, false, false))), 0;
    }
    var p, used, exhausted, hasMore;
    p, used, exhausted, hasMore, n := GatherPage(gs, q, limits, b, req.reverse, start.value);
    FinishedConsumes(q, limits, w, start.value, n, p, used, exhausted, hasMore);
    hide Answer, Consumes, Walk;
    var next := None;
    if hasMore && p.last.Some? {
      var token := EncodeCursor(seal, Cursor(req.reverse, req.fingerprint, p.last.value));
      if token.Err? {
        WalkHas(gs, b, req.reverse, w[n - 1]);
        return Err, n;
      }
      next := Some(token.value);
    }
    result := Ok(Page(p.rows, next, Stats(p.examined, used, exhausted, p.deferred)));
  }
}
