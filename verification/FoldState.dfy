/** The fold's memory: the open block, blocks in the pipeline, and the pieces that must stay readable. */
module FoldState {
  import opened Bytes
  import opened Host
  import opened Frames
  import opened Pipe
  import Lru

  const BLOCK_TARGET_MAX: nat := U32_MAX / 2

  datatype FoldCfg = FoldCfg(segMax: nat, blockTarget: nat, cacheBytes: nat) {
    predicate Valid() { segMax <= SEG_MAX_LIMIT && 0 < blockTarget <= BLOCK_TARGET_MAX }
  }

  type PieceHash = seq<Byte>

  /** The largest block a fold with these limits may build: one it can read back itself. */
  function Atomic(limits: ReadLimits): nat {
    Min(Min(limits.maxStored, limits.maxDecoded), BLOCK_PAYLOAD_MAX)
  }

  /** Blocks by where they live: `next` names the open block, `inflight` the sealed ones not yet written,
      and `placed` the written frames. */
  datatype Blocks = Blocks(next: nat, open: seq<Byte>, inflight: map<nat, seq<Byte>>, placed: map<nat, Frame>) {
    function Raw(id: nat): Option<seq<Byte>> {
      if id == next then Some(open)
      else if id in inflight then Some(inflight[id])
      else if id in placed then Some(placed[id].raw)
      else None
    }
  }

  predicate Buildable(limits: ReadLimits, id: nat, raw: seq<Byte>) {
    0 < |raw| <= Atomic(limits) && id < U32_MAX && limits.AdmitBlocks(id + 1)
  }

  /** Every id below `next` is in exactly one of the two later stages, up to holes older than this handle. */
  ghost predicate Staged(limits: ReadLimits, b: Blocks, dirLen: nat) {
    && dirLen <= b.next <= U32_MAX
    && (forall id :: id in b.inflight ==>
          id < b.next && id !in b.placed && Buildable(limits, id, b.inflight[id]))
    && (forall id :: id in b.placed ==> id < dirLen)
    && (forall id: nat :: dirLen <= id < b.next ==> id in b.inflight)
    && (b.open != [] ==> Buildable(limits, b.next, b.open))
  }

  /** The jobs outstanding are blocks in flight, each once; all of them, unless a write has failed. */
  ghost predicate Tracks(inflight: map<nat, seq<Byte>>, jobs: multiset<Job>, all: bool) {
    && (forall j :: j in jobs ==> jobs[j] == 1 && j.blockId in inflight && inflight[j.blockId] == j.raw)
    && (all ==> forall id :: id in inflight ==> Job(id, inflight[id]) in jobs)
  }

  /** Cached blocks are written blocks, byte for byte. */
  ghost predicate Caches(list: seq<Lru.Item>, placed: map<nat, Frame>) {
    forall i :: 0 <= i < |list| ==> list[i].key in placed && placed[list[i].key].raw == list[i].value
  }

  // ---- admitting a piece ----------------------------------------------------------------

  /** A piece opens a new block when none is open or the open one has no room left for it. */
  predicate StartsBlock(limits: ReadLimits, open: seq<Byte>, raw: seq<Byte>) {
    open == [] || |open| > Max(0, Atomic(limits) - |raw|)
  }

  /** The id of the block a piece will go into. */
  function Proposed(limits: ReadLimits, next: nat, open: seq<Byte>, raw: seq<Byte>): nat {
    if open != [] && StartsBlock(limits, open, raw) then next + 1 else next
  }

  /** Exactly the pieces an unpoisoned fold accepts: non-empty, no larger than a block it could read back,
      and in a block whose id is representable and admitted. */
  predicate Admissible(limits: ReadLimits, next: nat, open: seq<Byte>, raw: seq<Byte>) {
    && 0 < |raw| <= Atomic(limits)
    && Proposed(limits, next, open, raw) < U32_MAX
    && (StartsBlock(limits, open, raw) ==> limits.AdmitBlocks(Proposed(limits, next, open, raw) + 1))
  }

  /** The bytes a location names, wherever its block is; none past the block's end or in no block. */
  function Served(b: Blocks, loc: Loc): Outcome<seq<Byte>> {
    match b.Raw(loc.blockId)
    case None => Err
    case Some(raw) => if loc.inOff + loc.raw <= |raw| then Ok(raw[loc.inOff..loc.inOff + loc.raw]) else Err
  }

  predicate PieceAt(b: Blocks, loc: Loc, piece: seq<Byte>) { Served(b, loc) == Ok(piece) }

  /** Every handed-out piece is where its location says, and none is empty. */
  ghost predicate Holds(b: Blocks, pieces: map<Loc, seq<Byte>>) {
    forall loc :: loc in pieces ==> 0 < loc.raw && PieceAt(b, loc, pieces[loc])
  }

  /** The dedup window only ever answers with a piece of the asked-for hash. */
  ghost predicate Indexes(hash: seq<Byte> -> PieceHash, dedup: map<PieceHash, Loc>, pieces: map<Loc, seq<Byte>>) {
    forall h :: h in dedup ==> dedup[h] in pieces && hash(pieces[dedup[h]]) == h
  }

  // ---- sealing --------------------------------------------------------------------------

  function Sealed(b: Blocks): Blocks {
    Blocks(b.next + 1, [], b.inflight[b.next := b.open], b.placed)
  }

  lemma SealKeeps(limits: ReadLimits, b: Blocks, dirLen: nat, pieces: map<Loc, seq<Byte>>)
    requires Staged(limits, b, dirLen) && b.open != [] && Holds(b, pieces)
    ensures Staged(limits, Sealed(b), dirLen) && Holds(Sealed(b), pieces)
    ensures b.next !in b.inflight
  {
    var s := Sealed(b);
    forall loc | loc in pieces ensures PieceAt(s, loc, pieces[loc]) {
      assert PieceAt(b, loc, pieces[loc]);
    }
  }

  lemma SealTracks(inflight: map<nat, seq<Byte>>, jobs: multiset<Job>, all: bool, id: nat, raw: seq<Byte>)
    requires Tracks(inflight, jobs, all) && id !in inflight
    ensures Tracks(inflight[id := raw], jobs + multiset{Job(id, raw)}, all)
    ensures Tracks(inflight[id := raw], jobs, false)
  {
    var after := inflight[id := raw];
    var more := jobs + multiset{Job(id, raw)};
    assert Job(id, raw) !in jobs;
    forall j | j in more ensures more[j] == 1 && j.blockId in after && after[j.blockId] == j.raw { }
    if all {
      forall o | o in after ensures Job(o, after[o]) in more {
        if o != id { assert Job(o, inflight[o]) in jobs; }
      }
    }
  }

  // ---- writing --------------------------------------------------------------------------

  function Written(b: Blocks, f: Frame): Blocks {
    Blocks(b.next, b.open, b.inflight - {f.id}, b.placed[f.id := f])
  }

  lemma WriteKeeps(limits: ReadLimits, b: Blocks, dirLen: nat, pieces: map<Loc, seq<Byte>>, f: Frame)
    requires Staged(limits, b, dirLen) && Holds(b, pieces)
    requires f.id in b.inflight && b.inflight[f.id] == f.raw
    ensures Staged(limits, Written(b, f), Max(dirLen, f.id + 1)) && Holds(Written(b, f), pieces)
  {
    var s := Written(b, f);
    forall loc | loc in pieces ensures PieceAt(s, loc, pieces[loc]) {
      assert PieceAt(b, loc, pieces[loc]);
    }
  }

  lemma WriteTracks(inflight: map<nat, seq<Byte>>, jobs: multiset<Job>, all: bool, j: Job)
    requires Tracks(inflight, jobs, all) && j in jobs
    ensures Tracks(inflight - {j.blockId}, jobs - multiset{j}, all)
  {
    var rest := jobs - multiset{j};
    forall o | o in rest
      ensures rest[o] == 1 && o.blockId in inflight - {j.blockId} && (inflight - {j.blockId})[o.blockId] == o.raw
    {
      assert o in jobs && o != j;
      assert inflight[o.blockId] == o.raw && inflight[j.blockId] == j.raw;
    }
    if all {
      forall id | id in inflight - {j.blockId} ensures Job(id, (inflight - {j.blockId})[id]) in rest {
        assert Job(id, inflight[id]) in jobs;
      }
    }
  }

  lemma FewerTracks(inflight: map<nat, seq<Byte>>, jobs: multiset<Job>, fewer: multiset<Job>, all: bool)
    requires Tracks(inflight, jobs, all) && fewer <= jobs
    ensures Tracks(inflight, fewer, false)
  {
    forall j | j in fewer ensures fewer[j] == 1 && j.blockId in inflight && inflight[j.blockId] == j.raw {
      assert fewer[j] <= jobs[j];
      assert j in jobs;
    }
  }

  lemma NothingTracked(inflight: map<nat, seq<Byte>>)
    requires Tracks(inflight, multiset{}, true)
    ensures inflight == map[]
  {
    assert forall id :: id in inflight ==> Job(id, inflight[id]) in multiset{};
    assert inflight.Keys == {};
  }

  lemma WriteCaches(list: seq<Lru.Item>, placed: map<nat, Frame>, f: Frame)
    requires Caches(list, placed) && f.id !in placed
    ensures Caches(list, placed[f.id := f])
  {
  }

  // ---- gathering ------------------------------------------------------------------------

  function Gathered(b: Blocks, raw: seq<Byte>): Blocks {
    b.(open := b.open + raw)
  }

  lemma GatherKeeps(limits: ReadLimits, b: Blocks, dirLen: nat, pieces: map<Loc, seq<Byte>>, raw: seq<Byte>)
    requires Staged(limits, b, dirLen) && Holds(b, pieces)
    requires Buildable(limits, b.next, b.open + raw)
    ensures var loc := Loc(b.next, |b.open|, |raw|);
            && Staged(limits, Gathered(b, raw), dirLen)
            && Holds(Gathered(b, raw), pieces)
            && PieceAt(Gathered(b, raw), loc, raw)
            && loc !in pieces
  {
    var s := Gathered(b, raw);
    forall loc | loc in pieces ensures PieceAt(s, loc, pieces[loc]) {
      assert PieceAt(b, loc, pieces[loc]);
      if loc.blockId == b.next {
        assert (b.open + raw)[loc.inOff..loc.inOff + loc.raw] == b.open[loc.inOff..loc.inOff + loc.raw];
      }
    }
    var loc := Loc(b.next, |b.open|, |raw|);
    forall l | l in pieces ensures l != loc { assert PieceAt(b, l, pieces[l]); }
    assert (b.open + raw)[|b.open|..|b.open| + |raw|] == raw;
  }

  lemma HoldsMore(b: Blocks, pieces: map<Loc, seq<Byte>>, loc: Loc, raw: seq<Byte>)
    requires Holds(b, pieces) && PieceAt(b, loc, raw) && 0 < loc.raw
    ensures Holds(b, pieces[loc := raw])
  {
  }

  lemma IndexesMore(hash: seq<Byte> -> PieceHash, dedup: map<PieceHash, Loc>, pieces: map<Loc, seq<Byte>>,
                    loc: Loc, raw: seq<Byte>)
    requires Indexes(hash, dedup, pieces) && loc !in pieces
    ensures Indexes(hash, dedup[hash(raw) := loc], pieces[loc := raw])
  {
  }

  // ---- caching --------------------------------------------------------------------------

  lemma TouchCaches(list: seq<Lru.Item>, placed: map<nat, Frame>, k: nat)
    requires Caches(list, placed)
    ensures Caches(Lru.Touched(list, k), placed)
    ensures Lru.Find(list, k).Some? ==> k in placed && placed[k].raw == Lru.Find(list, k).value
  {
  }

  lemma {:induction false} ShedCaches(list: seq<Lru.Item>, placed: map<nat, Frame>, budget: nat, add: nat)
    requires Caches(list, placed)
    ensures Caches(Lru.Shed(list, budget, add), placed)
    decreases |list|
  {
    if |list| > 0 {
      forall i | 0 <= i < |list[1..]| ensures list[1..][i] == list[i + 1] { }
      ShedCaches(list[1..], placed, budget, add);
    }
  }

  lemma StoreCaches(list: seq<Lru.Item>, placed: map<nat, Frame>, budget: nat, k: nat)
    requires Caches(list, placed) && k in placed
    ensures Caches(Lru.Stored(list, budget, k, placed[k].raw), placed)
  {
    ShedCaches(list, placed, budget, Lru.Weight(placed[k].raw));
  }
}
