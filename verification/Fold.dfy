/** The fold writer: pieces get their final address at once, while blocks are sealed, compressed, and
    written in whatever order they finish. */
module Folds {
  import opened Bytes
  import opened Host
  import opened Frames
  import opened Segments
  import opened Sidecars
  import opened Pipe
  import opened Segstore
  import opened FoldImage
  import opened FoldState
  import opened FoldCore
  import DedupTables
  import Lru

  datatype FoldTail = FoldTail(seg: nat, off: nat)

  datatype Put = Put(loc: Loc, deduped: bool)

  class Fold {
    const p: Platform
    const cfg: FoldCfg
    const limits: ReadLimits
    const hash: seq<Byte> -> PieceHash
    const segs: ContainerSegments
    const pool: Pool
    const cache: Lru.BlockCache
    var active: nat
    var curOff: nat
    var blockdir: Directory
    var nextBlock: nat
    var openBlock: seq<Byte>
    var inflight: map<nat, seq<Byte>>
    var dedup: map<PieceHash, Loc>
    var poisoned: bool
    var writeFailed: bool
    ghost var frames: seq<seq<Frame>>
    ghost var placed: map<nat, Frame>
    /** Every location this fold has handed out, with the bytes it stands for. */
    ghost var pieces: map<Loc, seq<Byte>>

    /** The fold's state as a value; `jobs` are the blocks submitted to the pool and not yet written. */
    ghost function State(jobs: multiset<Job>): Core
      reads this, segs, cache
    {
      Core(segs.members, frames, blockdir, placed, active, curOff, nextBlock, openBlock, inflight,
           jobs, writeFailed, cache.list, pieces)
    }

    ghost predicate Consistent(jobs: multiset<Job>)
      reads this, segs, pool, cache
    {
      && Sound(p, limits, State(jobs))
      && Indexes(hash, dedup, pieces)
      && cfg.Valid()
      && pool.p == p && segs.p == p && pool.Valid() && cache.Valid()
      && (writeFailed ==> poisoned)
    }

    /** Between operations an open block is short of its target, unless a failure cut the last one off. */
    ghost predicate Valid()
      reads this, segs, pool, cache
    {
      Consistent(pool.jobs) && ShortOfTarget()
    }

    ghost predicate ShortOfTarget()
      reads this
    {
      poisoned || |openBlock| < cfg.blockTarget
    }

    /** The open block has bytes in it, and with the piece would be more than this fold can read back. */
    ghost predicate NoRoom(raw: seq<Byte>)
      reads this
    {
      && openBlock != []
      && (|openBlock| + |raw| > BLOCK_PAYLOAD_MAX
          || |openBlock| + |raw| > limits.maxStored || |openBlock| + |raw| > limits.maxDecoded)
    }

    /** A store operation or the pool has failed, or the segment namespace is full. */
    ghost predicate Broken()
      reads this, segs, pool
    {
      segs.failed || pool.died || active >= MAX_SEGMENT_NUMBER
    }

    /** A fold with no segments yet stages segment 0, just its header. */
    constructor (p: Platform, cfg: FoldCfg, limits: ReadLimits, hash: seq<Byte> -> PieceHash)
      requires p.Lawful() && cfg.Valid() && limits.Usable()
      ensures Valid() && !poisoned && pieces == map[] && !segs.failed && !pool.died
      ensures this.p == p && this.cfg == cfg && this.limits == limits && this.hash == hash
      ensures fresh(segs) && fresh(pool) && fresh(cache)
    {
      hide Sound, Lru.BlockCache.Valid, Platform.Lawful, SegHeader;
      this.p, this.cfg, this.limits, this.hash := p, cfg, limits, hash;
      active, curOff, blockdir, nextBlock, openBlock := 0, SEG_HDR_LEN, [], 0, [];
      inflight, dedup, poisoned, writeFailed := map[], map[], false, false;
      frames, placed, pieces := [[]], map[], map[];
      segs := new ContainerSegments(p, [SegHeader(0, NoDict())]);
      pool := new Pool(p);
      cache := new Lru.BlockCache(cfg.cacheBytes);
      new;
      BornSound(p, limits);
      assert State(pool.jobs) == Born();
    }

    /** A fold over segments that already hold frames, with the directory a scan of them rebuilt. */
    constructor Reopened(p: Platform, cfg: FoldCfg, limits: ReadLimits, hash: seq<Byte> -> PieceHash,
                         segs: ContainerSegments, dir: Directory, next: nat, active: nat, curOff: nat, ghost c: Core)
      requires Sound(p, limits, c.(jobs := multiset{}, failed := false, list := []))
      requires c.open == [] && c.inflight == map[] && cfg.Valid() && segs.p == p
      requires segs.members == c.files && dir == c.dir && next == c.next && active == c.active && curOff == c.curOff
      ensures Valid() && !poisoned && this.segs == segs && pieces == c.pieces
      ensures blockdir == dir && nextBlock == next && this.active == active && this.curOff == curOff
      ensures fresh(pool) && fresh(cache)
    {
      hide Sound, Lru.BlockCache.Valid, Platform.Lawful;
      this.p, this.cfg, this.limits, this.hash, this.segs := p, cfg, limits, hash, segs;
      this.active, this.curOff, blockdir, nextBlock, openBlock := active, curOff, dir, next, [];
      inflight, dedup, poisoned, writeFailed := map[], map[], false, false;
      frames, placed, pieces := c.frames, c.placed, c.pieces;
      pool := new Pool(p);
      cache := new Lru.BlockCache(cfg.cacheBytes);
      new;
      assert State(pool.jobs) == c.(jobs := multiset{}, failed := false, list := []);
    }

    // ---- reading ------------------------------------------------------------------------

    /** The decompressed bytes of a written block, through the cache. */
    method BlockBytes(id: nat) returns (r: Outcome<seq<Byte>>)
      requires Valid()
      modifies cache
      ensures Valid()
      ensures r == if id in placed then Ok(placed[id].raw) else Err
    {
      hide Sound, Indexes, ReadBlock, Lru.Find, Lru.Touched, Lru.Stored, Lru.BlockCache.Valid;
      ghost var c := State(pool.jobs);
      BlockReadable(p, limits, c, id);
      TouchSound(p, limits, c, id);
      var hit := cache.Get(id);
      ghost var touched := State(pool.jobs);
      assert touched == c.(list := Lru.Touched(c.list, id));
      if hit.Some? { return Ok(hit.value); }
      if !Has(blockdir, id) { return Err; }
      var Place(seg, off) := blockdir[id].value;
      r := ReadBlock(p, limits, segs.members[seg], off, id);
      StoreSound(p, limits, touched, cache.budget, id);
      cache.Put(id, r.value);
      assert State(pool.jobs) == touched.(list := Lru.Stored(touched.list, cache.budget, id, placed[id].raw));
    }

    /** Serve a piece from the open block, the pipeline, or a written block: every location ever handed out
        reads back exactly its piece. */
    method Read(loc: Loc) returns (r: Outcome<seq<Byte>>)
      requires Valid()
      modifies cache
      ensures Valid()
      ensures r == Served(Blocks(nextBlock, openBlock, inflight, placed), loc)
      ensures loc in pieces ==> r == Ok(pieces[loc])
    {
      hide Sound, Indexes, Lru.BlockCache.Valid;
      if loc in pieces { PieceServed(p, limits, State(pool.jobs), loc); }
      var end := loc.inOff + loc.raw;
      if loc.blockId == nextBlock {
        if end > |openBlock| { return Err; }
        return Ok(openBlock[loc.inOff..end]);
      }
      if loc.blockId in inflight {
        var raw := inflight[loc.blockId];
        if end > |raw| { return Err; }
        return Ok(raw[loc.inOff..end]);
      }
      var block := BlockBytes(loc.blockId);
      if block.Err? { return Err; }
      if end > |block.value| { return Err; }
      return Ok(block.value[loc.inOff..end]);
    }

    lemma PieceWidth(loc: Loc)
      requires Valid() && loc in pieces
      ensures loc.raw == |pieces[loc]|
    {
      hide Sound, Indexes, Lru.BlockCache.Valid;
      PieceServed(p, limits, State(pool.jobs), loc);
    }

    /** Read and compare against the hash the caller expects. */
    method ReadVerified(loc: Loc, expected: PieceHash) returns (r: Outcome<seq<Byte>>)
      requires Valid()
      modifies cache
      ensures Valid()
      ensures loc in pieces ==> r == if hash(pieces[loc]) == expected then Ok(pieces[loc]) else Err
      ensures r.Ok? ==> hash(r.value) == expected
    {
      hide Sound, Indexes, Lru.BlockCache.Valid;
      r := Read(loc);
      if r.Ok? && hash(r.value) != expected { r := Err; }
    }

    // ---- sealing and writing ------------------------------------------------------------

    /** Give the open block to the pool. The id was fixed when the block opened. */
    method SealBlock() returns (ok: bool)
      requires Consistent(pool.jobs) && !poisoned
      modifies this, pool
      ensures Valid() && openBlock == [] && pieces == old(pieces) && dedup == old(dedup)
      ensures nextBlock == old(nextBlock) + (if old(openBlock) == [] then 0 else 1)
      ensures active == old(active) && curOff == old(curOff) && frames == old(frames)
      ensures ok ==> !poisoned
      ensures !ok ==> poisoned && Broken()
    {
      hide Sound, Indexes, Lru.BlockCache.Valid, Pool.Valid, Platform.Lawful;
      if openBlock == [] { return true; }
      ghost var c := State(pool.jobs);
      ok := SendOpen();
      if !ok { poisoned, writeFailed := true, true; }
      SealSound(p, limits, c, ok);
      assert State(pool.jobs) == SealedCore(c, ok);
    }

    /** The open block, under its id, to the pool. */
    method SendOpen() returns (ok: bool)
      requires pool.Valid()
      modifies this`nextBlock, this`openBlock, this`inflight, pool
      ensures pool.Valid() && (!ok ==> pool.died)
      ensures State(pool.jobs) == SealedCore(old(State(pool.jobs)), ok).(failed := writeFailed)
    {
      hide Pool.Valid;
      var id, raw := nextBlock, openBlock;
      nextBlock := nextBlock + 1;
      openBlock := [];
      inflight := inflight[id := raw];
      ok := pool.Submit(id, raw);
    }

    /** The entries of the active segment, ordered by offset: what a scan of it would find. */
    method ActiveBlockEntries(ghost jobs: multiset<Job>) returns (entries: seq<Entry>)
      requires Consistent(jobs)
      ensures active < |frames| && entries == EntriesOf(frames[active], SEG_HDR_LEN)
    {
      hide Listed, Staged, Tracks, Caches, Holds, Indexes, SegmentHolds, Readable, EntriesOf, Platform.Lawful,
           Lru.BlockCache.Valid;
      entries := SegmentEntries(blockdir, active, frames, placed);
    }

    /** Seal off the active segment and open the next; the logical state moves only once every physical
        step has succeeded. */
    method Roll(ghost jobs: multiset<Job>) returns (ok: bool)
      requires Consistent(jobs)
      modifies this, segs
      ensures Consistent(jobs) && OnlySegments()
      ensures ok ==> curOff == SEG_HDR_LEN && active == old(active) + 1
      ensures !ok ==> (active, curOff) == old((active, curOff)) && Broken()
    {
      hide Sound, Indexes, Lru.BlockCache.Valid, FoldCfg.Valid, SegHeader, SidecarBytes;
      TailOf(jobs);
      ok := SealSegment(jobs);
      if !ok || active + 1 > MAX_SEGMENT_NUMBER { return false; }
      ghost var c := State(jobs);
      RollSound(p, limits, c);
      ok := segs.CreateSegment(active + 1);
      if ok {
        frames := frames + [[]];
        active := active + 1;
        curOff := SEG_HDR_LEN;
      }
      assert State(jobs) == if ok then RolledCore(c) else c;
    }

    /** Everything but the segments, and where the tail is in them. */
    twostate predicate OnlySegments()
      reads this, segs
    {
      && pieces == old(pieces) && dedup == old(dedup) && nextBlock == old(nextBlock)
      && openBlock == old(openBlock) && inflight == old(inflight) && placed == old(placed)
      && blockdir == old(blockdir)
      && poisoned == old(poisoned) && writeFailed == old(writeFailed)
      && (old(segs.failed) ==> segs.failed)
    }

    /** Make the active segment durable and describe it in its sidecar. */
    method SealSegment(ghost jobs: multiset<Job>) returns (ok: bool)
      requires Consistent(jobs)
      modifies segs
      ensures Consistent(jobs) && State(jobs) == old(State(jobs))
      ensures old(segs.failed) ==> segs.failed
      ensures !ok ==> Broken()
    {
      hide Sound, Indexes, Lru.BlockCache.Valid, FoldCfg.Valid, SidecarBytes;
      ok := segs.Sync(active);
      if !ok { return; }
      var entries := ActiveBlockEntries(jobs);
      ok := segs.WriteSidecar(active, curOff, entries);
    }

    lemma TailOf(jobs: multiset<Job>)
      requires Consistent(jobs)
      ensures State(jobs).AtTail() && SEG_HDR_LEN <= curOff
    {
      hide Listed, Staged, Tracks, Caches, Holds, Platform.Lawful, Lru.BlockCache.Valid, Indexes;
      assert SegmentHolds(p, active, segs.members[active], frames[active]);
    }

    static function FrameOf(d: Done): Frame { Frame(d.blockId, d.codec, d.raw, d.payload) }

    /** Frame one finished block and append it, rolling first if it would not fit. Only the store, or a full
        segment namespace, can make this fail: the frame always fits the segment bound, its block count was
        admitted when its block opened, and no block is written twice. */
    method WriteBlock(d: Done, ghost jobs: multiset<Job>) returns (ok: bool)
      requires Consistent(jobs) && d.TheJob() in jobs && d.Encodes(p)
      modifies this, segs
      ensures Consistent(jobs - multiset{d.TheJob()})
      ensures pieces == old(pieces) && dedup == old(dedup) && nextBlock == old(nextBlock) && openBlock == old(openBlock)
      ensures old(segs.failed) ==> segs.failed
      ensures ok ==> poisoned == old(poisoned) && writeFailed == old(writeFailed)
      ensures ok ==> (active, curOff - FrameOf(d).Len()) == old(TailFor(FrameOf(d).Len()))
      ensures ok ==> curOff <= Max(cfg.segMax, SEG_HDR_LEN + FrameOf(d).Len())
      ensures !ok ==> poisoned && writeFailed && Broken()
    {
      hide Sound, Indexes, Lru.BlockCache.Valid, Platform.Lawful, FoldCfg.Valid, CodecEncode, TailFor, Frame.Len, FrameOf,
           Done.Encodes, Pool.Valid;
      ok := WriteBlockInner(d, jobs);
      if !ok {
        FailSound(p, limits, State(jobs), jobs - multiset{d.TheJob()});
        poisoned, writeFailed := true, true;
      }
    }

    method WriteBlockInner(d: Done, ghost jobs: multiset<Job>) returns (ok: bool)
      requires Consistent(jobs) && d.TheJob() in jobs && d.Encodes(p)
      modifies this, segs
      ensures pieces == old(pieces) && dedup == old(dedup) && nextBlock == old(nextBlock) && openBlock == old(openBlock)
      ensures poisoned == old(poisoned) && writeFailed == old(writeFailed)
      ensures old(segs.failed) ==> segs.failed
      ensures ok ==> Consistent(jobs - multiset{d.TheJob()})
      ensures ok ==> (active, curOff - FrameOf(d).Len()) == old(TailFor(FrameOf(d).Len()))
      ensures ok ==> curOff <= Max(cfg.segMax, SEG_HDR_LEN + FrameOf(d).Len())
      ensures !ok ==> Consistent(jobs) && Broken()
    {
      hide Sound, Indexes, Lru.BlockCache.Valid, FrameBytes, Platform.Lawful, Readable, CodecEncode, FoldCfg.Valid, Done.Encodes;
      var f := FrameOf(d);
      JobReadable(p, limits, State(jobs), d);
      var encoded := EncodeFrame(p, f);
      if encoded.Err? {
        assert false;
      }
      var n := |encoded.value|;
      ok := MakeRoom(n, jobs);
      if !ok { return false; }
      ok := AppendFrame(f, encoded.value, jobs);
    }

    /** Where a frame of `n` bytes goes: the tail while the segment stays within the threshold or holds
        nothing yet, else the start of the next segment. */
    ghost function TailFor(n: nat): (nat, nat)
      reads this
    {
      if curOff + n <= cfg.segMax || curOff <= SEG_HDR_LEN then (active, curOff) else (active + 1, SEG_HDR_LEN)
    }

    /** Roll exactly when a frame of `n` bytes would take a segment that already holds one past the roll
        threshold. Afterwards it fits the segment bound. */
    method MakeRoom(n: nat, ghost jobs: multiset<Job>) returns (ok: bool)
      requires Consistent(jobs) && n <= SEG_MAX_LIMIT - SEG_HDR_LEN
      modifies this, segs
      ensures Consistent(jobs) && OnlySegments()
      ensures ok ==> curOff + n <= SEG_MAX_LIMIT
      ensures ok ==> (active, curOff) == old(TailFor(n))
      ensures !ok ==> Broken()
    {
      hide Sound, Indexes, Lru.BlockCache.Valid;
      TailOf(jobs);
      var end := curOff + n;
      if curOff > SEG_HDR_LEN && end > cfg.segMax {
        ok := Roll(jobs);
        if !ok { return false; }
        end := curOff + n;
      }
      if end > SEG_MAX_LIMIT {
        assert false;
      }
      return true;
    }

    /** Append a framed block at the tail and record where it went. */
    method AppendFrame(f: Frame, bytes: seq<Byte>, ghost jobs: multiset<Job>) returns (ok: bool)
      requires Consistent(jobs) && Job(f.id, f.raw) in jobs && Readable(p, limits, f)
      requires bytes == FrameBytes(p, f) && |bytes| == f.Len() && curOff + f.Len() <= SEG_MAX_LIMIT
      modifies this, segs
      ensures pieces == old(pieces) && dedup == old(dedup) && nextBlock == old(nextBlock) && openBlock == old(openBlock)
      ensures poisoned == old(poisoned) && writeFailed == old(writeFailed)
      ensures old(segs.failed) ==> segs.failed
      ensures ok ==> Consistent(jobs - multiset{Job(f.id, f.raw)})
      ensures ok ==> active == old(active) && curOff == old(curOff) + f.Len()
      ensures !ok ==> Consistent(jobs) && Broken()
    {
      hide Sound, Indexes, Lru.BlockCache.Valid, FrameBytes, FoldCfg.Valid, Readable, Has;
      ghost var c := State(jobs);
      TailOf(jobs);
      FrameUnwritten(jobs, f);
      WriteSound(p, limits, c, f);
      ok := segs.Append(active, curOff, bytes);
      if !ok {
        assert State(jobs) == c;
        return false;
      }
      if !limits.AdmitBlocks(f.id + 1) {
        assert false;
      }
      if Has(blockdir, f.id) {
        assert false;
      }
      Record(f, jobs, c);
    }

    /** Note where the frame just appended stands, and let its block out of the pipeline. */
    method Record(f: Frame, ghost jobs: multiset<Job>, ghost c: Core)
      requires f.Fits() && |c.frames| == |c.files| && c.AtTail() && Sound(p, limits, WrittenCore(p, c, f))
      requires State(jobs) == c.(files := c.files[c.active := c.files[c.active] + FrameBytes(p, f)])
      requires Indexes(hash, dedup, pieces) && cfg.Valid() && (writeFailed ==> poisoned)
      requires pool.p == p && segs.p == p && pool.Valid() && cache.Valid()
      modifies this
      ensures Consistent(jobs - multiset{Job(f.id, f.raw)})
      ensures active == old(active) && curOff == old(curOff) + f.Len()
      ensures pieces == old(pieces) && dedup == old(dedup) && nextBlock == old(nextBlock) && openBlock == old(openBlock)
      ensures poisoned == old(poisoned) && writeFailed == old(writeFailed)
    {
      hide Sound, Indexes, Lru.BlockCache.Valid, FrameBytes, FoldCfg.Valid, Frame.Fits, Platform.Lawful, Recorded;
      ListFrame(f);
      assert State(jobs - multiset{Job(f.id, f.raw)}) == WrittenCore(p, c, f);
    }

    /** The directory entry, the append point and the pipeline, once the frame is in its segment. */
    method ListFrame(f: Frame)
      requires active < |frames|
      modifies this`blockdir, this`frames, this`placed, this`curOff, this`inflight
      ensures blockdir == Recorded(old(blockdir), f.id, Place(active, old(curOff)))
      ensures frames == old(frames)[active := old(frames)[active] + [f]] && placed == old(placed)[f.id := f]
      ensures curOff == old(curOff) + f.Len() && inflight == old(inflight) - {f.id}
    {
      blockdir := Recorded(blockdir, f.id, Place(active, curOff));
      frames := frames[active := frames[active] + [f]];
      placed := placed[f.id := f];
      curOff := curOff + f.Len();
      inflight := inflight - {f.id};
    }

    lemma FrameUnwritten(jobs: multiset<Job>, f: Frame)
      requires Consistent(jobs) && Job(f.id, f.raw) in jobs && Readable(p, limits, f)
      ensures f.Fits() && limits.AdmitBlocks(f.id + 1) && !Has(blockdir, f.id)
    {
      hide SegmentsHold, Caches, Holds, Listed, Indexes, Lru.BlockCache.Valid, Platform.Lawful, FoldCfg.Valid;
      WriteFresh(limits, State(jobs), f);
    }

    /** Append every block the pool has finished; with `wait`, every block outstanding. */
    method WriteReady(wait: bool) returns (ok: bool)
      requires Valid() && !poisoned
      modifies this, segs, pool
      ensures Valid()
      ensures pieces == old(pieces) && dedup == old(dedup) && nextBlock == old(nextBlock) && openBlock == old(openBlock)
      ensures ok ==> !poisoned && (wait ==> pool.jobs == multiset{})
      ensures !ok ==> poisoned && Broken()
    {
      hide Sound, Indexes, Lru.BlockCache.Valid, FoldCfg.Valid, AllEncode, JobsOf;
      var done := [];
      if wait {
        var all := pool.TakeAll();
        if all.Err? {
          FailSound(p, limits, old(State(pool.jobs)), pool.jobs);
          poisoned, writeFailed := true, true;
          return false;
        }
        done := all.value;
        NoneLeft(done);
      } else {
        done := pool.TryTake();
      }
      ok := WriteAll(done);
    }

    lemma NoneLeft(done: seq<Done>)
      ensures JobsOf(done) + multiset{} == JobsOf(done)
    {
    }

    /** Write the blocks in hand in the order they finished, stopping at the first failure. */
    method WriteAll(done: seq<Done>) returns (ok: bool)
      requires Consistent(JobsOf(done) + pool.jobs) && AllEncode(p, done) && !poisoned && ShortOfTarget()
      modifies this, segs
      ensures Valid()
      ensures pieces == old(pieces) && dedup == old(dedup) && nextBlock == old(nextBlock) && openBlock == old(openBlock)
      ensures ok ==> !poisoned
      ensures !ok ==> poisoned && Broken()
    {
      hide Sound, Indexes, Lru.BlockCache.Valid, FoldCfg.Valid, JobsOf, Consistent, Done.Encodes;
      var i := 0;
      assert done[0..] == done;
      while i < |done|
        invariant i <= |done|
        invariant Consistent(JobsOf(done[i..]) + pool.jobs) && !poisoned
        invariant pieces == old(pieces) && dedup == old(dedup) && nextBlock == old(nextBlock) && openBlock == old(openBlock)
      {
        JobsOfFirst(done, i);
        ghost var jobs := JobsOf(done[i..]) + pool.jobs;
        ghost var rest := JobsOf(done[i + 1..]) + pool.jobs;
        OneFewer(done[i].TheJob(), JobsOf(done[i + 1..]), pool.jobs);
        ok := WriteBlock(done[i], jobs);
        if !ok {
          DropRest(rest);
          return false;
        }
        i := i + 1;
      }
      NothingInHand(done[i..]);
      return true;
    }

    lemma OneFewer(j: Job, rest: multiset<Job>, pooled: multiset<Job>)
      ensures j in multiset{j} + rest + pooled
      ensures multiset{j} + rest + pooled - multiset{j} == rest + pooled
    {
    }

    lemma NothingInHand(done: seq<Done>)
      requires done == [] && Consistent(JobsOf(done) + pool.jobs) && ShortOfTarget()
      ensures Valid()
    {
      assert JobsOf(done) + pool.jobs == pool.jobs;
      hide Sound, Indexes, Lru.BlockCache.Valid;
    }

    /** After a failure the blocks still in hand are dropped; they stay readable in the pipeline map. */
    lemma DropRest(jobs: multiset<Job>)
      requires Consistent(jobs) && writeFailed && pool.jobs <= jobs
      ensures Valid()
    {
      hide Sound, Indexes, Lru.BlockCache.Valid;
      FailSound(p, limits, State(jobs), pool.jobs);
      assert State(jobs).(jobs := pool.jobs, failed := true) == State(pool.jobs);
    }

    // ---- putting ------------------------------------------------------------------------

    /** Nothing a later put, lookup or read depends on has moved. */
    twostate predicate Unmoved()
      reads this
    {
      && pieces == old(pieces) && dedup == old(dedup)
      && nextBlock == old(nextBlock) && openBlock == old(openBlock)
    }

    /** Append a piece, or return where its content already is. The location is final at once. A refusal
        before anything is wrong leaves the fold as it was, and happens exactly when the piece is neither
        known nor admissible. */
    method PutHashed(raw: seq<Byte>, h: PieceHash) returns (r: Outcome<Put>)
      requires Valid() && h == hash(raw)
      modifies this, segs, pool
      ensures Valid()
      ensures forall l :: l in old(pieces) ==> l in pieces && pieces[l] == old(pieces)[l]
      ensures r.Ok? ==> r.value.loc in pieces && hash(pieces[r.value.loc]) == h
      ensures r.Ok? ==> h in dedup && dedup[h] == r.value.loc && (r.value.deduped <==> h in old(dedup))
      ensures r.Ok? && r.value.deduped ==> Unmoved() && r.value.loc == old(dedup)[h]
      ensures r.Ok? && !r.value.deduped ==>
                r.value.loc !in old(pieces) && pieces == old(pieces)[r.value.loc := raw]
      ensures r.Ok? && !r.value.deduped ==>
                r.value.loc == old(Loc(BlockFor(raw), if NoRoom(raw) then 0 else |openBlock|, |raw|))
      ensures r.Ok? && !r.value.deduped ==>
                var gathered := if old(NoRoom(raw)) then raw else old(openBlock) + raw;
                if |gathered| >= cfg.blockTarget then nextBlock == r.value.loc.blockId + 1 && openBlock == []
                else nextBlock == r.value.loc.blockId && openBlock == gathered
      ensures old(poisoned) ==> r.Err? && poisoned && Unmoved()
      ensures !old(poisoned) ==>
                (r.Err? && !poisoned <==> old(Refuses(raw, h)))
      ensures r.Err? && !poisoned ==> Unmoved()
      ensures poisoned && !old(poisoned) ==> r.Err? && Broken()
    {
      hide Sound, Indexes, Lru.BlockCache.Valid, FoldCfg.Valid, Buildable, Admissible;
      RefusesMeans(raw, h);
      if poisoned { return Err; }
      if |raw| == 0 || |raw| > BLOCK_PAYLOAD_MAX { return Err; }
      if h in dedup {
        KnownPiece(h);
        return Ok(Put(dedup[h], true));
      }
      AdmissibleMeans(raw);
      if !limits.Admit(|raw|, |raw|) { return Err; }
      var atomic := Min(Min(limits.maxStored, limits.maxDecoded), BLOCK_PAYLOAD_MAX);
      var startsNew := openBlock == [] || |openBlock| > Max(0, atomic - |raw|);
      var proposed := if openBlock != [] && startsNew then nextBlock + 1 else nextBlock;
      if proposed >= U32_MAX { return Err; }
      if startsNew && !limits.AdmitBlocks(proposed + 1) { return Err; }
      RoomFor(raw);
      assert NoRoom(raw) <==> openBlock != [] && startsNew;
      if openBlock != [] && startsNew {
        var sealed := SealBlock();
        if !sealed { return Err; }
        var written := WriteReady(false);
        if !written { return Err; }
      }
      assert openBlock == [] ==> openBlock + raw == raw;
      r := Gather(raw, h);
    }

    /** When an unpoisoned fold turns a piece away without failing: it is empty, larger than a block, or new and
        more than the read limits admit, or it would go into a block whose id is the last number there is or, for
        one opened for it, not admitted. */
    ghost predicate Refuses(raw: seq<Byte>, h: PieceHash)
      reads this
    {
      || |raw| == 0 || |raw| > BLOCK_PAYLOAD_MAX
      || (h !in dedup
          && (|raw| > limits.maxStored || |raw| > limits.maxDecoded || BlockFor(raw) >= U32_MAX
              || ((openBlock == [] || NoRoom(raw)) && BlockFor(raw) + 1 > limits.maxBlocks)))
    }

    /** The id of the block a new piece goes into. */
    ghost function BlockFor(raw: seq<Byte>): nat
      reads this
    {
      if NoRoom(raw) then nextBlock + 1 else nextBlock
    }

    lemma RefusesMeans(raw: seq<Byte>, h: PieceHash)
      ensures Refuses(raw, h) <==> || |raw| == 0 || |raw| > BLOCK_PAYLOAD_MAX
                                   || (h !in dedup && !Admissible(limits, nextBlock, openBlock, raw))
    {
    }

    lemma KnownPiece(h: PieceHash)
      requires Indexes(hash, dedup, pieces) && h in dedup
      ensures dedup[h] in pieces && hash(pieces[dedup[h]]) == h
    {
    }

    lemma AdmissibleMeans(raw: seq<Byte>)
      requires 0 < |raw| <= BLOCK_PAYLOAD_MAX
      ensures var starts := StartsBlock(limits, openBlock, raw); var proposed := Proposed(limits, nextBlock, openBlock, raw);
              Admissible(limits, nextBlock, openBlock, raw)
              <==> limits.Admit(|raw|, |raw|) && proposed < U32_MAX && (starts ==> limits.AdmitBlocks(proposed + 1))
    {
    }

    /** An admissible piece fits the block it goes into: the open one, or the one opened in its place. */
    lemma RoomFor(raw: seq<Byte>)
      requires Valid() && Admissible(limits, nextBlock, openBlock, raw)
      ensures if StartsBlock(limits, openBlock, raw)
              then Buildable(limits, Proposed(limits, nextBlock, openBlock, raw), raw)
              else Buildable(limits, nextBlock, openBlock + raw)
    {
      hide Sound, Indexes, Lru.BlockCache.Valid, FoldCfg.Valid;
      if openBlock != [] { OpenBuildable(p, limits, State(pool.jobs)); }
    }

    /** Put the piece in the open block, hand out its location, and move any full or finished block along. */
    method Gather(raw: seq<Byte>, h: PieceHash) returns (r: Outcome<Put>)
      requires Valid() && !poisoned && h == hash(raw) && h !in dedup
      requires raw != [] && Buildable(limits, nextBlock, openBlock + raw)
      modifies this, segs, pool
      ensures Valid()
      ensures old(Loc(nextBlock, |openBlock|, |raw|)) !in old(pieces)
      ensures pieces == old(pieces)[old(Loc(nextBlock, |openBlock|, |raw|)) := raw]
      ensures dedup == old(dedup)[h := old(Loc(nextBlock, |openBlock|, |raw|))]
      ensures r.Ok? ==> r.value == Put(old(Loc(nextBlock, |openBlock|, |raw|)), false) && !poisoned
      ensures r.Ok? ==> if |old(openBlock)| + |raw| >= cfg.blockTarget then nextBlock == old(nextBlock) + 1 && openBlock == []
                        else nextBlock == old(nextBlock) && openBlock == old(openBlock) + raw
      ensures r.Err? ==> poisoned && Broken()
    {
      hide Sound, Indexes, Lru.BlockCache.Valid, FoldCfg.Valid, Buildable;
      ghost var c := State(pool.jobs);
      var loc := Loc(nextBlock, |openBlock|, |raw|);
      PutSound(p, limits, c, raw);
      IndexesMore(hash, dedup, pieces, loc, raw);
      openBlock := openBlock + raw;
      dedup := dedup[h := loc];
      pieces := pieces[loc := raw];
      assert State(pool.jobs) == PutCore(c, raw);
      if |openBlock| >= cfg.blockTarget {
        var sealed := SealBlock();
        if !sealed { return Err; }
      }
      var written := WriteReady(false);
      if !written { return Err; }
      return Ok(Put(loc, false));
    }

    // ---- syncing ------------------------------------------------------------------------

    /** Seal, drain and describe: every piece handed out is then in a written block below the tail, and the
        active segment's staged sidecar lists exactly the frames it holds. */
    method Sync() returns (r: Outcome<FoldTail>)
      requires Valid()
      modifies this, segs, pool
      ensures Valid()
      ensures pieces == old(pieces) && dedup == old(dedup)
      ensures r.Ok? ==> !poisoned && openBlock == [] && inflight == map[] && nextBlock == |blockdir|
      ensures r.Ok? ==> r.value == FoldTail(active, curOff) && active < |frames| && active in segs.sidecars
      ensures r.Ok? ==> segs.sidecars[active] ==
                        SidecarBytes(segs.p, active, curOff, EntriesOf(frames[active], SEG_HDR_LEN))
      ensures r.Err? ==> poisoned && (old(poisoned) || Broken())
    {
      hide Sound, Indexes, Lru.BlockCache.Valid, FoldCfg.Valid, SidecarBytes, EntriesOf;
      if poisoned { return Err; }
      var ok := SealBlock();
      if !ok { return Err; }
      ok := WriteReady(true);
      if !ok { return Err; }
      r := Describe();
    }

    method Describe() returns (r: Outcome<FoldTail>)
      requires Valid() && !poisoned && pool.jobs == multiset{} && openBlock == []
      modifies this, segs
      ensures Valid()
      ensures pieces == old(pieces) && dedup == old(dedup) && openBlock == []
      ensures r.Ok? ==> !poisoned && inflight == map[] && nextBlock == |blockdir|
      ensures r.Ok? ==> r.value == FoldTail(active, curOff) && active < |frames| && active in segs.sidecars
      ensures r.Ok? ==> segs.sidecars[active] ==
                        SidecarBytes(segs.p, active, curOff, EntriesOf(frames[active], SEG_HDR_LEN))
      ensures r.Err? ==> poisoned && Broken()
    {
      hide Sound, Indexes, Lru.BlockCache.Valid, FoldCfg.Valid, SidecarBytes, EntriesOf;
      ghost var c := State(pool.jobs);
      var entries := ActiveBlockEntries(pool.jobs);
      Drained();
      var ok := segs.Sync(active);
      if ok { ok := segs.WriteSidecar(active, curOff, entries); }
      assert State(pool.jobs) == c;
      if !ok {
        FailSound(p, limits, c, pool.jobs);
        poisoned, writeFailed := true, true;
        assert State(pool.jobs) == c.(jobs := pool.jobs, failed := true);
        return Err;
      }
      return Ok(FoldTail(active, curOff));
    }

    lemma Drained()
      requires Valid() && !poisoned && pool.jobs == multiset{}
      ensures inflight == map[] && nextBlock == |blockdir|
    {
      hide Sound, Indexes, Lru.BlockCache.Valid, FoldCfg.Valid;
      DrainedIsWritten(p, limits, State(pool.jobs));
    }

    // ---- the dedup window ---------------------------------------------------------------

    /** Record a location the caller resolved elsewhere; it must hold a piece of that hash. The first location
        of a hash stays, except for the all-zero hash, whose last one does. */
    method Note(h: PieceHash, loc: Loc)
      requires Valid() && loc in pieces && hash(pieces[loc]) == h
      modifies this
      ensures Valid()
      ensures pieces == old(pieces) && nextBlock == old(nextBlock) && openBlock == old(openBlock)
      ensures dedup == if h == DedupTables.EMPTY || h !in old(dedup) then old(dedup)[h := loc] else old(dedup)
    {
      hide Sound, Lru.BlockCache.Valid, FoldCfg.Valid;
      if h == DedupTables.EMPTY || h !in dedup { dedup := dedup[h := loc]; }
    }

    /** Forget the window. Duplicates may be stored again; nothing handed out stops reading back. */
    method ReleaseDedupWindow()
      requires Valid()
      modifies this
      ensures Valid()
      ensures dedup == map[] && pieces == old(pieces)
      ensures nextBlock == old(nextBlock) && openBlock == old(openBlock)
    {
      hide Sound, Lru.BlockCache.Valid, FoldCfg.Valid;
      dedup := map[];
    }
  }
}
