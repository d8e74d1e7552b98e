/** `Container` (`src/container.rs`) as a class over one file. Every public method is a run of the
    publication protocol: `trace` records the protocol states passed through, one per file
    operation, so the run theorems of `CrashSafety` hold at every instant inside every method. */
module Containers {
  import opened Bytes
  import opened Host
  import opened Directory
  import opened Layout
  import opened Superblocks
  import opened Device
  import opened Staging
  import opened Publication
  import opened Durability
  import opened DurabilitySteps
  import opened Readers
  import opened Checksums
  import opened Pens
  import opened CrashSafety
  import DirectoryCodec

  const WINDOW: nat := 0x10_0000

  /** The open file. The contracts are what the operating system promises; the bodies are one
      system that keeps them. */
  class File {
    var bytes: seq<Byte>
    ghost var durable: seq<Byte>
    ghost var dirty: iset<int>
    /** Some write or barrier has failed. */
    ghost var faulted: bool

    ghost function State(): Disk
      reads this
    { Disk(durable, bytes, dirty) }

    constructor (image: seq<Byte>)
      ensures State() == Disk(image, image, iset{})
    {
      bytes, durable, dirty, faulted := image, image, iset{}, false;
    }

    method WriteAllAt(ghost p: Platform, off: nat, data: seq<Byte>) returns (ok: bool)
      requires DiskOk(State())
      modifies this
      ensures Wrote(p, old(State()), off, data, ok, State())
      ensures faulted == (old(faulted) || !ok)
    {
      ok := *;
      faulted := faulted || !ok;
      dirty := iset i: int | i in dirty || off <= i < off + |data|;
      if ok { bytes := Patch(bytes, off, data); }
    }

    method Sync() returns (ok: bool)
      modifies this
      ensures Synced(old(State()), ok, State())
      ensures faulted == (old(faulted) || !ok)
    {
      ok := *;
      faulted := faulted || !ok;
      if ok { durable, dirty := bytes, iset{}; }
    }
  }

  /** The bytes a staging call streams in, and where the producer fails if it does. */
  datatype Source = Source(bytes: seq<Byte>, failsAt: Option<nat>)

  method Fill(s: Source, at: nat, take: nat) returns (r: Outcome<seq<Byte>>)
    requires at + take <= |s.bytes|
    ensures r.Ok? ==> r.value == s.bytes[at..at + take]
    ensures s.failsAt.None? ==> r.Ok?
  {
    if s.failsAt.Some? && at <= s.failsAt.value < at + take { return Err; }
    return Ok(s.bytes[at..at + take]);
  }

  // ---- reading a file image ---------------------------------------------------------------------

  method ReadDirectory(c: Config, file: seq<Byte>, sb: Superblock) returns (r: Outcome<Tables>)
    ensures r == ReadAdmitted(c, file, sb)
  {
    hide Parse, Semantic, NoOverlap;
    if sb.seqno == 0 {
      if sb == BIRTH { return Ok(Tables([], [])); }
      return Err;
    }
    if !Semantic(sb) || sb.dirOff + sb.dirStored > |file| { return Err; }
    var stored := file[sb.dirOff..sb.dirOff + sb.dirStored];
    if c.p.crc(stored) != sb.dirXsum { return Err; }
    var payload := CodecDecode(c.p, sb.dirCodec, stored, sb.dirRaw);
    if payload.Err? { return Err; }
    var t := DirectoryCodec.ReadPayload(c.p, payload.value, sb.nEntries, sb.dirOff, sb.seqno);
    if t.Err? { return Err; }
    if !NoOverlap(Claims(t.value, DirExtent(sb))) { return Err; }
    if !Admits(c.limits, sb, t.value) { return Err; }
    return t;
  }

  method OpenFile(c: Config, file: seq<Byte>) returns (r: Outcome<Opened>)
    ensures r == Open(c, file)
  {
    hide ReadAdmitted, SelectIn;
    var chosen := SelectIn(c.p, file);
    if chosen.Err? { return Err; }
    var (sb, slot) := chosen.value;
    if sb.tail > |file| { return Err; }
    var t := ReadDirectory(c, file, sb);
    if t.Err? { return Err; }
    return Ok(Opened(sb, slot, t.value));
  }

  // ---- the container ------------------------------------------------------------------------------

  class Container {
    const cfg: Config
    const f: File
    var dir: seq<Entry>
    var free: seq<Freed>
    var sb: Superblock
    var tail: nat
    var slot: nat
    var staged: bool
    var openMember: Option<nat>
    var nextToken: nat
    var poisoned: bool
    var failedSelected: Option<bool>
    var acknowledged: bool
    ghost var trace: seq<World>

    ghost function View(): Handle
      reads this
    {
      Handle(Tables(dir, free), sb, tail, slot, staged, openMember, nextToken, poisoned, failedSelected, acknowledged)
    }

    ghost function Last(): World
      reads this
      requires |trace| > 0
    { trace[|trace| - 1] }

    /** The recorded run ends in the state of the file and the fields. */
    ghost predicate Midway()
      reads this, f
    {
      && cfg.p.Lawful() && |trace| > 0 && Run(cfg, trace)
      && Last().disk == f.State() && Last().h == View()
    }

    ghost predicate Valid()
      reads this, f
    {
      Midway() && Last().phase.Idle?
    }

    lemma Known()
      requires Midway()
      ensures Inv(cfg, Last()) && DiskOk(f.State()) && Last().fallbackSlot <= 1 && slot <= 1
    {
      hide Run, ReadersInv, SumsInv;
      RunKeepsInv(cfg, trace, |trace| - 1);
    }

    /** No byte between the slots and the staging cursor has moved. */
    twostate predicate BytesStay()
      reads this, f
    {
      KeptBelow(old(f.bytes), f.bytes, old(tail))
    }

    /** While a publication was under way the staged directory and every byte below the cursor stood still. */
    twostate predicate Steady()
      reads this
    {
      forall j :: |old(trace)| <= j < |trace| && !trace[j].phase.Idle? ==>
        trace[j].h.tables.dir == old(dir) && KeptBelow(old(f.bytes), trace[j].disk.volatile, old(tail))
    }

    /** Every member but `name` reads as it did. */
    twostate predicate OthersStay(name: Option<Name>)
      reads this, f
    {
      forall other :: name != Some(other) ==> ReadMember(f.bytes, dir, other) == ReadMember(old(f.bytes), old(dir), other)
    }

    /** Append one protocol step to the recorded run. */
    ghost method Record(w: World)
      requires |trace| > 0 && Run(cfg, trace) && Next(cfg, Last(), w)
      modifies this`trace
      ensures trace == old(trace) + [w] && Run(cfg, trace)
    {
      hide Next;
      trace := trace + [w];
      forall i | 0 <= i < |trace| - 1 ensures Next(cfg, trace[i], trace[i + 1]) {
        if i < |trace| - 2 { assert Next(cfg, old(trace)[i], old(trace)[i + 1]); }
      }
    }

    /** The recorded run went on, and no member handle was handed out, moved or taken back. */
    twostate predicate Onward()
      reads this
    {
      |old(trace)| > 0 && old(trace) <= trace && SameHands(old(Last()), Last())
    }

    // ---- opening ----------------------------------------------------------------------------------

    /** `create`: the birth image made durable before the name exists. */
    constructor Create(c: Config)
      requires c.p.Lawful()
      ensures Valid() && fresh(f) && cfg == c && trace == [BirthWorld(c)]
      ensures View() == BirthWorld(c).h
    {
      cfg := c;
      f := new File(BirthImage(c));
      dir, free, sb, tail, slot := [], [], BIRTH, REGION_START, 0;
      staged, openMember, nextToken := false, None, 0;
      poisoned, failedSelected, acknowledged := false, None, true;
      trace := [BirthWorld(c)];
    }

    /** A handle on an existing file, by a process other than the one that wrote it. */
    constructor Adopt(c: Config, file: File, o: Opened, ghost past: seq<World>)
      requires c.p.Lawful() && |past| > 0 && Run(c, past) && past[|past| - 1].disk == file.State()
      requires Open(c, file.bytes) == Ok(o)
      ensures Valid() && f == file && cfg == c
      ensures View() == HandleOf(o)
      ensures past <= trace
    {
      hide Run, Next, Open;
      cfg := c;
      f := file;
      dir, free, sb, tail, slot := o.tables.dir, o.tables.free, o.sb, o.sb.tail, o.slot;
      staged, openMember, nextToken := false, None, 0;
      poisoned, failedSelected, acknowledged := false, None, false;
      trace := past;
      new;
      ghost var w2 := past[|past| - 1].(phase := Idle, h := HandleOf(o), opening := past[|past| - 1].opening + 1);
      ReopenIsNext(c, past, w2);
      Record(w2);
    }

    /** `open`: the newest published state, or the refusal `Device.Open` gives. */
    static method OpenExisting(c: Config, file: File, ghost past: seq<World>) returns (r: Outcome<Container>)
      requires c.p.Lawful() && |past| > 0 && Run(c, past) && past[|past| - 1].disk == file.State()
      ensures r.Ok? <==> Open(c, file.bytes).Ok?
      ensures r.Ok? ==> r.value.Valid() && r.value.f == file && past <= r.value.trace
      ensures r.Ok? ==> r.value.View() == HandleOf(Open(c, file.bytes).value)
    {
      var o := OpenFile(c, file.bytes);
      if o.Err? { return Err; }
      var k := new Container.Adopt(c, file, o.value, past);
      return Ok(k);
    }

    // ---- staging ----------------------------------------------------------------------------------

    /** Record a write at or past the cursor that has just been made. */
    ghost method RecordWrite(w: World, off: nat, data: seq<Byte>, ok: bool)
      requires cfg.p.Lawful() && |trace| > 0 && Run(cfg, trace) && w == Last() && w.phase.Idle? && w.h == View()
      requires DiskOk(w.disk) && w.fallbackSlot <= 1 && Writable(View()) && off >= tail
      requires Wrote(cfg.p, w.disk, off, data, ok, f.State())
      modifies this`trace
      ensures Valid() && Onward()
    {
      hide Run, Next, Wrote, DiskOk;
      var w2 := w.(disk := f.State());
      WriteIsNext(cfg, w, w2, off, data, ok);
      Record(w2);
    }

    /** A staging call's positional write, at or past the cursor. */
    method WriteAt(off: nat, data: seq<Byte>) returns (ok: bool)
      requires Valid() && Writable(View()) && off >= tail
      modifies f, this`trace
      ensures Valid() && Onward()
      ensures |f.bytes| >= |old(f.bytes)|
      ensures forall i :: 0 <= i < off && i < |old(f.bytes)| ==> f.bytes[i] == old(f.bytes)[i]
      ensures if ok then f.bytes == Patch(old(f.bytes), off, data) else f.faulted
    {
      hide Run, Next, Inv, Platform.Lawful, Wrote, DiskOk;
      Known();
      ghost var w := Last();
      ok := f.WriteAllAt(cfg.p, off, data);
      WroteBelow(cfg.p, w.disk, off, data, ok, f.State());
      RecordWrite(w, off, data, ok);
    }

    /** `preflight_member` and `preflight_replacement`: every refusal a fresh member can meet
        before a byte is written. */
    predicate MayPut(name: Name, len: nat, newExtents: nat)
      reads this
    {
      && !poisoned && openMember.None?
      && ValidName(name)
      && AlignUp(tail) + len <= U64_MAX && sb.seqno + 1 <= U64_MAX
      && (Contains(dir, name) || |dir| < MAX_MEMBERS)
      && newExtents <= MAX_MEMBER_EXTENTS
      && |free| + |ExtentsOf(dir, name)| + (if sb.dirStored != 0 then 1 else 0) <= MAX_FREE_EXTENTS
    }

    /** `stage_entry`: the directory edit. The file is not looked at. */
    method StageEntry(name: Name, off: nat, len: nat, xsum: nat)
      requires NamesAscend(dir) && (len > 0 ==> off + len <= |f.bytes|)
      modifies this
      ensures trace == old(trace)
      ensures View() == old(View()).(
        tables := StagePut(Tables(old(dir), old(free)), name, FreshMember(off, len, xsum), old(sb.seqno) + 1),
        tail := off + len, staged := true)
      ensures ReadMember(f.bytes, dir, name) == Some(Window(f.bytes, off, len))
      ensures forall other :: other != name ==> ReadMember(f.bytes, dir, other) == ReadMember(f.bytes, old(dir), other)
    {
      hide Run, Next, StagePut, FreshMember, ReadMember;
      var t := StagePut(Tables(dir, free), name, FreshMember(off, len, xsum), sb.seqno + 1);
      ReadAfterStagePut(f.bytes, Tables(dir, free), name, off, Window(f.bytes, off, len), xsum, sb.seqno + 1);
      dir, free, tail, staged := t.dir, t.free, off + len, true;
    }

    lemma Lawful()
      requires Valid()
      ensures cfg.p.Lawful() && |trace| > 0
    {
    }

    lemma AscendingView()
      requires Midway() && !poisoned && Last().phase.Idle?
      ensures NamesAscend(dir)
    {
      hide Run, DiskInv, ReadersInv, SumsInv, EntryOk, Placed, FreeOk;
      Known();
    }

    /** Member names are valid text. */
    lemma NamesAreText()
      requires Midway() && !poisoned && Last().phase.Idle?
      ensures forall i :: 0 <= i < |dir| ==> cfg.p.utf8(dir[i].name) && ValidName(dir[i].name)
    {
      hide Run, DiskInv, ReadersInv, SumsInv, Placed, FreeOk, MemberOk, ValidName;
      Known();
      forall i | 0 <= i < |dir| ensures cfg.p.utf8(dir[i].name) && ValidName(dir[i].name) { assert dir[i] in dir; }
    }

    /** The write loop `put_stream` and `append_stream` share: a bounded window at a time, the
        checksum accumulated in the same pass. */
    method StreamIn(off: nat, source: Source) returns (ok: bool, crc: nat)
      requires Valid() && Writable(View()) && off >= tail
      modifies this`trace, f
      ensures Valid() && Onward()
      ensures BytesStay()
      ensures ok ==> crc == cfg.p.crc(source.bytes)
      ensures ok && |source.bytes| > 0 ==>
        off + |source.bytes| <= |f.bytes| && f.bytes[off..off + |source.bytes|] == source.bytes
      ensures !ok ==> f.faulted || source.failsAt.Some?
    {
      hide Run, Next, Inv, Patch, Valid, Midway, Platform.Lawful, Open, Contents, DiskOk;
      Lawful();
      var len := |source.bytes|;
      crc := cfg.p.crc([]);
      var at := 0;
      while at < len
        invariant at <= len && Valid() && Onward()
        invariant crc == cfg.p.crc(source.bytes[..at])
        invariant at > 0 ==> off + at <= |f.bytes| && f.bytes[off..off + at] == source.bytes[..at]
        invariant BytesStay()
        decreases len - at
      {
        var take := Min(WINDOW, len - at);
        var chunk := Fill(source, at, take);
        if chunk.Err? { return false, crc; }
        ghost var before := f.bytes;
        var written := WriteAt(off + at, chunk.value);
        if !written { return false, crc; }
        WindowLanded(before, f.bytes, off, at, source.bytes, take);
        WindowSummed(cfg.p, source.bytes, at, take);
        crc := cfg.p.crcCombine(crc, cfg.p.crc(chunk.value), take);
        at := at + take;
      }
      assert source.bytes[..len] == source.bytes;
      ok := true;
    }

    /** `put_stream`, and with it `put_bytes` and `ingest`: stage a member of known length, a window
        at a time. A refusal leaves the staged view exactly as it was. */
    method PutStream(name: Name, source: Source) returns (ok: bool)
      requires Valid() && cfg.p.utf8(name)
      modifies this, f
      ensures Valid() && Onward()
      ensures ok ==> old(MayPut(name, |source.bytes|, if |source.bytes| == 0 then 0 else 1))
      ensures ok ==> View() == old(View()).(
        tables := StagePut(Tables(old(dir), old(free)), name,
                           FreshMember(AlignUp(old(tail)), |source.bytes|, cfg.p.crc(source.bytes)), old(sb.seqno) + 1),
        tail := AlignUp(old(tail)) + |source.bytes|, staged := true)
      ensures ok ==> ReadMember(f.bytes, dir, name) == Some(source.bytes)
      ensures OthersStay(if ok then Some(name) else None)
      ensures ok && |source.bytes| > 0 ==> AlignUp(old(tail)) + |source.bytes| <= |f.bytes|
      ensures ok && |source.bytes| > 0 ==>
        f.bytes[AlignUp(old(tail))..AlignUp(old(tail)) + |source.bytes|] == source.bytes
      ensures BytesStay()
      ensures !ok ==> View() == old(View())
      ensures !ok ==> f.faulted || source.failsAt.Some? || !old(MayPut(name, |source.bytes|, if |source.bytes| == 0 then 0 else 1))
    {
      hide Run, Next, Inv, Platform.Lawful, ValidName, StagePut, ReadMember, FreshMember, ExtentsOf, Patch;
      var len := |source.bytes|;
      if !MayPut(name, len, if len == 0 then 0 else 1) { return false; }
      var off := AlignUp(tail);
      ghost var w := Last();
      Known();
      var crc;
      ok, crc := StreamIn(off, source);
      ReadsStay(cfg, w, f.bytes);
      if ok { RegisterPut(name, len, crc, source.bytes); }
    }

    /** The directory edit of `put_stream`, once the content is in the file. */
    method RegisterPut(name: Name, len: nat, crc: nat, ghost content: seq<Byte>)
      requires Valid() && Writable(View()) && ValidName(name) && cfg.p.utf8(name)
      requires len == |content| && crc == cfg.p.crc(content)
      requires AlignUp(tail) + len <= U64_MAX && sb.seqno + 1 <= U64_MAX
      requires Stands(f.bytes, AlignUp(tail), content)
      modifies this
      ensures Valid() && Onward()
      ensures View() == old(View()).(
        tables := StagePut(Tables(old(dir), old(free)), name, FreshMember(AlignUp(old(tail)), len, crc), old(sb.seqno) + 1),
        tail := AlignUp(old(tail)) + len, staged := true)
      ensures ReadMember(f.bytes, dir, name) == Some(content)
      ensures forall other :: other != name ==> ReadMember(f.bytes, dir, other) == ReadMember(f.bytes, old(dir), other)
    {
      hide Run, Next, Inv, Platform.Lawful, ValidName, StagePut, FreshMember, AlignUp, ReadMember, Open;
      Known();
      AscendingView();
      ghost var w := Last();
      StageEntry(name, AlignUp(tail), len, crc);
      ghost var w2 := w.(h := View());
      PutIsNext(cfg, w, w2, name, content);
      Record(w2);
    }

    /** Every refusal an append of `len` bytes can meet before a byte is written. */
    predicate MayAppend(name: Name, len: nat)
      reads this
    {
      && !poisoned && openMember.None?
      && (len > 0 ==>
            && Contains(dir, name)
            && |free| + (if sb.dirStored != 0 then 1 else 0) <= MAX_FREE_EXTENTS && sb.seqno + 1 <= U64_MAX
            && var m := dir[Position(dir, name)].member;
               && m.len + len <= U64_MAX && AppendAt(m, tail) + len <= U64_MAX
               && (Coalesces(m, tail) || |m.extents| < MAX_MEMBER_EXTENTS))
    }

    /** `append_stream`: the delta becomes the member's next extent, or grows its last one, and the
        checksum extends without rereading a byte. */
    method AppendStream(name: Name, source: Source) returns (ok: bool)
      requires Valid()
      modifies this, f
      ensures Valid() && Onward()
      ensures ok ==> old(MayAppend(name, |source.bytes|))
      ensures ok && |source.bytes| > 0 ==>
        && View() == old(View()).(
             tables := StageGrow(Tables(old(dir), old(free)), name, old(tail), |source.bytes|,
                         cfg.p.crcCombine(old(dir)[Position(old(dir), name)].member.xsum, cfg.p.crc(source.bytes), |source.bytes|)),
             tail := AppendAt(old(dir)[Position(old(dir), name)].member, old(tail)) + |source.bytes|, staged := true)
        && ReadMember(old(f.bytes), old(dir), name).Some?
        && ReadMember(f.bytes, dir, name) == Some(ReadMember(old(f.bytes), old(dir), name).value + source.bytes)
      ensures OthersStay(if ok && |source.bytes| > 0 then Some(name) else None)
      ensures BytesStay()
      ensures !ok || |source.bytes| == 0 ==> View() == old(View())
      ensures !ok ==> f.faulted || source.failsAt.Some? || !old(MayAppend(name, |source.bytes|))
    {
      hide Run, Next, Inv, Platform.Lawful, StageGrow, GrownMember, ReadMember, Position, Patch;
      var len := |source.bytes|;
      if poisoned || openMember.Some? { return false; }
      if len == 0 { return true; }
      if !Contains(dir, name) { return false; }
      var m := dir[Position(dir, name)].member;
      if |free| + (if sb.dirStored != 0 then 1 else 0) > MAX_FREE_EXTENTS { return false; }
      if sb.seqno + 1 > U64_MAX || m.len + len > U64_MAX { return false; }
      if !Coalesces(m, tail) && |m.extents| >= MAX_MEMBER_EXTENTS { return false; }
      var off := AppendAt(m, tail);
      if off + len > U64_MAX { return false; }
      ghost var w := Last();
      Known();
      var crc;
      ok, crc := StreamIn(off, source);
      ReadsStay(cfg, w, f.bytes);
      if ok { RegisterGrowth(name, len, crc, source.bytes); }
    }

    /** The directory edit of `append_stream`, once the delta is in the file. */
    method RegisterGrowth(name: Name, len: nat, crc: nat, ghost delta: seq<Byte>)
      requires Valid() && !poisoned && openMember.None? && Contains(dir, name) && sb.seqno + 1 <= U64_MAX
      requires len == |delta| > 0 && crc == cfg.p.crc(delta)
      requires var m := dir[Position(dir, name)].member;
        && (Coalesces(m, tail) || |m.extents| < MAX_MEMBER_EXTENTS) && m.len + len <= U64_MAX
        && AppendAt(m, tail) + len <= U64_MAX && AppendAt(m, tail) + len <= |f.bytes|
        && f.bytes[AppendAt(m, tail)..AppendAt(m, tail) + len] == delta
      modifies this
      ensures Valid() && Onward()
      ensures View() == old(View()).(
        tables := StageGrow(Tables(old(dir), old(free)), name, old(tail), len,
                    cfg.p.crcCombine(old(dir)[Position(old(dir), name)].member.xsum, crc, len)),
        tail := AppendAt(old(dir)[Position(old(dir), name)].member, old(tail)) + len, staged := true)
      ensures ReadMember(f.bytes, old(dir), name).Some?
      ensures ReadMember(f.bytes, dir, name) == Some(ReadMember(f.bytes, old(dir), name).value + delta)
      ensures forall other :: other != name ==> ReadMember(f.bytes, dir, other) == ReadMember(f.bytes, old(dir), other)
    {
      hide Run, Next, Inv, Platform.Lawful, StageGrow, GrownMember, Position, AppendAt, Coalesces, ReadMember, Open;
      Known();
      AscendingView();
      ghost var w := Last();
      var m := dir[Position(dir, name)].member;
      var xsum := cfg.p.crcCombine(m.xsum, crc, len);
      var t := StageGrow(Tables(dir, free), name, tail, len, xsum);
      ReadAfterStageGrow(f.bytes, Tables(dir, free), name, tail, delta, xsum);
      dir, free, tail, staged := t.dir, t.free, AppendAt(m, tail) + len, true;
      ghost var w2 := w.(h := View());
      GrowIsNext(cfg, w, w2, name, delta);
      Record(w2);
    }

    /** The free list can take the member's extents and the superseded directory. */
    predicate RoomToFree(name: Name)
      reads this
    {
      |free| + |ExtentsOf(dir, name)| + (if sb.dirStored != 0 then 1 else 0) <= MAX_FREE_EXTENTS
    }

    /** The counts a commit refuses at. */
    predicate UnderCeilings(t: Tables)
      reads this
    {
      && |t.dir| <= 1_000_000 && |t.free| + (if sb.dirStored != 0 then 1 else 0) <= 1_000_000
      && forall e :: e in t.dir ==> |e.member.extents| <= 65536
    }

    /** No edit the handle accepts takes the staged tables past a count the commit would refuse. */
    lemma EditsStayUnderCeilings(name: Name, len: nat, m: Member, xsum: nat)
      requires UnderCeilings(Tables(dir, free))
      ensures MayPut(name, len, |m.extents|) ==> UnderCeilings(StagePut(Tables(dir, free), name, m, sb.seqno + 1))
      ensures MayAppend(name, len) && len > 0 ==> UnderCeilings(StageGrow(Tables(dir, free), name, tail, len, xsum))
      ensures RoomToFree(name) ==> UnderCeilings(StageDrop(Tables(dir, free), name, sb.seqno + 1))
    {
      hide ValidName, AlignUp, ExtentsOf;
      PutEntryCounts(dir, Entry(name, m));
      if MayAppend(name, len) && len > 0 { PutEntryCounts(dir, Entry(name, GrownMember(dir[Position(dir, name)].member, tail, len, xsum))); }
    }

    /** `remove`: false when the name is absent; refused when its extents would overflow the free
        list or the sequence space is exhausted. */
    method Remove(name: Name) returns (r: Outcome<bool>)
      requires Valid()
      modifies this
      ensures Valid() && Onward()
      ensures r.Ok? ==> r.value == Contains(old(dir), name)
      ensures r.Ok? <==> old(!poisoned && openMember.None? && sb.seqno + 1 <= U64_MAX && (Contains(dir, name) ==> RoomToFree(name)))
      ensures r == Ok(true) ==> View() == old(View()).(
        tables := StageDrop(Tables(old(dir), old(free)), name, old(sb.seqno) + 1), staged := true)
      ensures r == Ok(true) ==> ReadMember(f.bytes, dir, name) == None
      ensures r != Ok(true) ==> View() == old(View())
    {
      hide Run, Next, Inv, Platform.Lawful, StageDrop, Position, ExtentsOf, ReadExtents, DropEntry, Open;
      if poisoned || openMember.Some? || sb.seqno + 1 > U64_MAX { return Err; }
      if !Contains(dir, name) { return Ok(false); }
      if |free| + |ExtentsOf(dir, name)| + (if sb.dirStored != 0 then 1 else 0) > MAX_FREE_EXTENTS { return Err; }
      Known();
      AscendingView();
      LookupAfterStageDrop(Tables(dir, free), name, sb.seqno + 1);
      ghost var w := Last();
      var t := StageDrop(Tables(dir, free), name, sb.seqno + 1);
      dir, free, staged := t.dir, t.free, true;
      ghost var w2 := w.(h := View());
      DropIsNext(cfg, w, w2, name);
      Record(w2);
      r := Ok(true);
    }

    // ---- unwinding --------------------------------------------------------------------------------

    /** The field updates of `discard_staged`; an unreadable selected state changes nothing. */
    method RestoreSelected() returns (ok: bool)
      modifies this
      ensures View() == Discarded(cfg, f.bytes, old(View())) && trace == old(trace)
      ensures ok <==> ReadAdmitted(cfg, f.bytes, old(sb)).Ok?
    {
      hide ReadAdmitted;
      var t := ReadDirectory(cfg, f.bytes, sb);
      if t.Err? { return false; }
      dir, free := t.value.dir, t.value.free;
      tail := sb.tail;
      staged := false;
      openMember := None;
      ok := true;
    }

    /** `discard_staged`: back to the published state. */
    method DiscardStaged() returns (ok: bool)
      requires Valid()
      modifies this
      ensures Valid() && Onward()
      ensures View() == Discarded(cfg, f.bytes, old(View()))
      ensures ok <==> ReadAdmitted(cfg, f.bytes, old(sb)).Ok?
      ensures ok && !old(poisoned) ==> !staged && openMember == None && Tables(dir, free) == Last().Current().tables
    {
      hide Run, Next, Inv, Platform.Lawful, Discarded, ReadAdmitted, DiskOk;
      Known();
      ghost var w := Last();
      ok := RestoreSelected();
      ghost var w2 := w.(h := View());
      DiscardIsNext(cfg, w, w2);
      Record(w2);
      if ok && !old(poisoned) { DiscardedIsCurrent(cfg, w); }
    }

    // ---- commit -----------------------------------------------------------------------------------

    /** `acknowledge_current_state`. */
    method Acknowledge() returns (ok: bool)
      requires Valid()
      modifies this, f
      ensures Valid() && Onward()
      ensures View() == old(View()).(acknowledged := acknowledged)
      ensures ok ==> acknowledged && old(Writable(View()))
      ensures ok ==> Last().attempt.None? && Last().fallback == old(Last().Current())
      ensures !ok ==> f.faulted || !old(Writable(View()))
      ensures f.bytes == old(f.bytes) && Steady()
    {
      hide Run, Next, Inv, Platform.Lawful, Settled;
      if poisoned || openMember.Some? { return false; }
      Known();
      ghost var w := Last();
      if acknowledged {
        AcknowledgedIsSettled(cfg, w);
        return true;
      }
      ok := f.Sync();
      if ok {
        acknowledged := true;
        ghost var w2 := Settled(w).(disk := f.State(), h := View());
        AcknowledgeIsNext(cfg, w, w2);
        Record(w2);
      }
    }

    /** A commit whose failure left no successor to select: one protocol step short of `Poisoned`. */
    ghost predicate Unselected()
      reads this, f
    {
      && cfg.p.Lawful() && |trace| > 0 && Run(cfg, trace) && failedSelected.None?
      && Next(cfg, Last(), Failed())
    }

    /** The state `commit` reaches by discarding and poisoning. */
    ghost function Failed(): World
      reads this, f
      requires |trace| > 0
    {
      Last().(phase := Idle, disk := f.State(), h := Poisoned(cfg, f.bytes, View()))
    }

    /** What a successful commit of staged changes leaves. */
    twostate predicate Committed(r: Outcome<nat>)
      reads this, f
    {
      && Valid() && r == Ok(sb.seqno) && sb.seqno == old(sb.seqno) + 1
      && !staged && !poisoned && acknowledged && tail == sb.tail
      && dir == old(dir) && free == NextFree(old(View()))
      && Last().attempt.None? && Last().fallback.sb == sb && Last().fallback.tables == Tables(dir, free)
    }

    /** `commit` has cleared the outcome of earlier attempts. */
    ghost predicate Starting()
      reads this, f
    {
      && cfg.p.Lawful() && |trace| > 0 && Run(cfg, trace) && Last().phase.Idle?
      && Last().disk == f.State() && View() == Last().h.(failedSelected := None)
      && Writable(View()) && staged
    }

    /** `reconcile_after_publication_failure`: ask the file itself which state is selected. */
    method Reconcile(attempted: Superblock)
      requires Midway() && Last().phase == Broken(attempted)
      modifies this
      ensures Onward() && Steady()
      ensures Unselected() || (Valid() && failedSelected == Some(!poisoned))
      ensures !poisoned ==> sb == attempted && !staged
      ensures !poisoned <==> Selects(cfg, f.bytes, attempted, 1 - old(slot))
    {
      hide Run, Next, Inv, Platform.Lawful, Open, Poisoned, Discarded, DiskOk;
      Known();
      ghost var w := Last();
      poisoned := true;
      failedSelected := None;
      var current := OpenFile(cfg, f.bytes);
      if current.Err? {
        UnreconciledIsNext(cfg, w, Failed());
        return;
      }
      AdoptSelected(current.value, attempted);
      ghost var w2 := w.(phase := Idle, h := View());
      ReconcileIsNext(cfg, w, w2);
      Record(w2);
    }

    /** The field updates of a reconciliation that could read the file. */
    method AdoptSelected(o: Opened, attempted: Superblock)
      modifies this
      ensures trace == old(trace)
      ensures View() == Adopted(old(View()), o, attempted)
    {
      var selected := o.slot == 1 - slot && o.sb == attempted;
      dir, free, sb, tail, slot := o.tables.dir, o.tables.free, o.sb, o.sb.tail, o.slot;
      staged, openMember := false, None;
      poisoned, failedSelected, acknowledged := !selected, Some(selected), !selected;
    }

    /** The slot write of `flip`. */
    method WriteSlot(next: Superblock, ghost nextFree: seq<Freed>) returns (ok: bool)
      requires Midway() && Last().phase == Barred(next, nextFree)
      modifies this`trace, f
      ensures Midway() && Onward()
      ensures Last().phase == if ok then Flipped(next, nextFree) else Broken(next)
      ensures BytesStay() && Steady() && (!ok ==> f.faulted)
    {
      hide Run, Next, Inv, Platform.Lawful, Wrote, DiskOk, EncodeSlot, FlipStep;
      Known();
      ghost var w := Last();
      var nextSlot := 1 - slot;
      ok := f.WriteAllAt(cfg.p, nextSlot * SLOT_LEN, EncodeSlot(cfg.p, next));
      WroteInSlot(cfg.p, w.disk, nextSlot, next, ok, f.State());
      ghost var w2 := FlipIsNext(cfg, w, f.State(), ok);
      Record(w2);
    }

    /** The final barrier of `flip` and, when it holds, the adoption of the new state. */
    method Settle(next: Superblock, nextFree: seq<Freed>) returns (ok: bool)
      requires Midway() && Last().phase == Flipped(next, nextFree)
      modifies this, f
      ensures Midway() && Onward()
      ensures !ok ==> View() == old(View()) && Last().phase == Broken(next) && f.faulted
      ensures ok ==> Last().phase.Idle? && Last().attempt.None?
      ensures ok ==> Last().fallback.sb == next && Last().fallback.tables == Tables(dir, nextFree)
      ensures ok ==> View() == SettledHandle(old(View()), next, nextFree)
      ensures f.bytes == old(f.bytes) && Steady()
    {
      hide Run, Next, Inv, Platform.Lawful, DiskOk, Settled;
      Known();
      ghost var w := Last();
      ok := f.Sync();
      ghost var w2 := SettleIsNext(cfg, w, ok);
      if ok { AdoptSettled(next, nextFree); }
      Record(w2);
    }

    method AdoptSettled(next: Superblock, nextFree: seq<Freed>)
      modifies this
      ensures trace == old(trace)
      ensures View() == SettledHandle(old(View()), next, nextFree)
    {
      sb, tail, slot := next, next.tail, if slot == 0 then 1 else 0;
      staged, acknowledged, failedSelected, free := false, true, None, nextFree;
    }

    /** `flip`: write the slot the live state was not read from, make it durable, adopt it. */
    method Flip(next: Superblock, nextFree: seq<Freed>) returns (r: Outcome<nat>)
      requires Midway() && Last().phase == Barred(next, nextFree)
      requires !poisoned && failedSelected.None? && next.seqno == sb.seqno + 1 && nextFree == NextFree(View())
      modifies this, f
      ensures Onward()
      ensures r.Ok? ==> Committed(r)
      ensures r.Err? ==> Unselected() || (Valid() && failedSelected == Some(!poisoned))
      ensures r.Err? ==> f.faulted
      ensures r.Err? && !poisoned ==> sb == next && !staged
      ensures r.Err? ==> (!poisoned <==> Selects(cfg, f.bytes, next, 1 - old(slot)))
      ensures BytesStay() && Steady()
    {
      hide Run, Next, Inv, Platform.Lawful, NextFree, Poisoned, Selects;
      var ok := WriteSlot(next, nextFree);
      if ok { ok := Settle(next, nextFree); }
      if !ok {
        Reconcile(next);
        return Err;
      }
      r := Ok(next.seqno);
    }

    /** Nothing `commit_staged` checks refuses the staged tables. */
    ghost predicate Sealable()
      reads this
    {
      CanSeal(cfg.p, View().(failedSelected := None))
    }

    method TooScattered() returns (bad: bool)
      ensures bad <==> exists e :: e in dir && |e.member.extents| > MAX_MEMBER_EXTENTS
    {
      for i := 0 to |dir|
        invariant forall k :: 0 <= k < i ==> |dir[k].member.extents| <= MAX_MEMBER_EXTENTS
      {
        if |dir[i].member.extents| > MAX_MEMBER_EXTENTS { return true; }
      }
      return false;
    }

    /** The directory half of `commit_staged`: encode, refuse what is over a ceiling, write, and make
        everything the next superblock will name durable. */
    method SealDirectory() returns (r: Outcome<Superblock>)
      requires Starting()
      modifies this`trace, f
      ensures Onward()
      ensures r.Err? ==> Unselected() && (f.faulted || !Sealable())
      ensures r.Ok? ==> Sealable() && Midway() && Last().phase == Barred(r.value, NextFree(View()))
      ensures r.Ok? ==> r.value.seqno == sb.seqno + 1
      ensures BytesStay() && Steady()
    {
      hide Run, Next, Inv, Poisoned, Payload, CodecEncode, Wrote, DiskOk, AlignUp, Platform.Lawful;
      StartingKnown();
      ghost var w := Last();
      var scattered := TooScattered();
      var nextFree := free + (if sb.dirStored > 0 then [Freed(sb.dirOff, sb.dirStored, sb.seqno + 1)] else []);
      if sb.seqno + 1 > U64_MAX || |dir| > MAX_MEMBERS || scattered || |nextFree| > MAX_FREE_EXTENTS {
        RefuseIsNext(cfg, w, Failed());
        return Err;
      }
      var t := Tables(dir, nextFree);
      var payload := DirectoryCodec.EncodeDirectory(t);
      var dirOff := AlignUp(tail);
      if payload.Err? || |CodecEncode(cfg.p, payload.value).1| > MAX_DIR_STORED
         || dirOff + |CodecEncode(cfg.p, payload.value).1| > U64_MAX {
        RefuseIsNext(cfg, w, Failed());
        return Err;
      }
      var (codec, stored) := CodecEncode(cfg.p, payload.value);
      var next := Superblock(sb.seqno + 1, dirOff, |stored|, |payload.value|, |dir|, cfg.p.crc(stored), dirOff + |stored|, codec);
      r := WriteDirectory(next, nextFree, stored);
    }

    /** The write and the pre-flip barrier. */
    method WriteDirectory(next: Superblock, nextFree: seq<Freed>, stored: seq<Byte>) returns (r: Outcome<Superblock>)
      requires Starting()
      requires next == NextSuperblock(cfg, View()) && nextFree == NextFree(View()) && stored == StoredDirectory(cfg, View())
      requires NextSeq(View()) <= U64_MAX && Committable(cfg.p, NextTables(View()), NextDirOff(View()))
      modifies this`trace, f
      ensures Onward()
      ensures r.Err? ==> Unselected() && f.faulted
      ensures r.Ok? ==> r.value == next && Midway() && Last().phase == Barred(next, nextFree)
      ensures BytesStay() && Steady()
    {
      hide Run, Next, Inv, Platform.Lawful, Poisoned, Payload, CodecEncode, Wrote, DiskOk, Committable, SealOf;
      StartingKnown();
      ghost var w := Last();
      var ok := f.WriteAllAt(cfg.p, AlignUp(tail), stored);
      WroteBelow(cfg.p, w.disk, AlignUp(tail), stored, ok, f.State());
      ghost var w2 := SealIsNext(cfg, w, f.State(), ok);
      if !ok { return Err; }
      Record(w2);
      Known();
      ok := f.Sync();
      ghost var w3 := BarrierIsNext(cfg, w2, ok);
      if !ok { return Err; }
      Record(w3);
      r := Ok(next);
    }

    lemma StartingKnown()
      requires Starting()
      ensures Inv(cfg, Last()) && DiskOk(f.State()) && Last().fallbackSlot <= 1 && slot <= 1
    {
      hide Run, ReadersInv, SumsInv;
      RunKeepsInv(cfg, trace, |trace| - 1);
    }

    /** `commit`: publish every staged change as one atomic state. */
    method Commit() returns (r: Outcome<nat>)
      requires Valid()
      modifies this, f
      ensures Valid() && Onward()
      ensures r.Ok? ==> old(Writable(View())) && r.value == sb.seqno && acknowledged && !staged
      ensures r.Ok? && old(staged) ==> Committed(r)
      ensures r.Ok? && !old(staged) ==> View() == old(View()).(acknowledged := true)
      ensures !old(Writable(View())) ==> r.Err? && View() == old(View()) && trace == old(trace)
      ensures r.Err? && old(Writable(View())) && old(staged) ==> poisoned || (failedSelected == Some(true) && !staged && sb.seqno == old(sb.seqno) + 1)
      ensures r.Ok? && old(staged) ==> old(Sealable())
      ensures r.Err? ==> f.faulted || !old(Writable(View())) || (old(staged) && !old(Sealable()))
      ensures BytesStay() && Steady()
    {
      hide Run, Next, Inv, Platform.Lawful, Discarded, DiskOk, CanSeal;
      if poisoned || openMember.Some? { return Err; }
      if !staged {
        var ok := Acknowledge();
        if !ok { return Err; }
        return Ok(sb.seqno);
      }
      failedSelected := None;
      r := CommitStaged();
      if r.Err? && failedSelected.None? { Poison(); }
    }

    /** What `commit` does when nothing can be selected: discard what can be discarded, and refuse
        every further change. */
    method Poison()
      requires Unselected()
      modifies this
      ensures Valid() && Onward()
      ensures View() == Poisoned(cfg, f.bytes, old(View()))
      ensures forall j :: |old(trace)| <= j < |trace| ==> trace[j].phase.Idle?
    {
      hide Run, Next, Inv, Platform.Lawful, Discarded, DiskOk;
      ghost var w := Failed();
      var _ := RestoreSelected();
      poisoned := true;
      acknowledged := false;
      Record(w);
    }

    /** `commit_staged`. */
    method CommitStaged() returns (r: Outcome<nat>)
      requires Starting()
      modifies this, f
      ensures Onward()
      ensures r.Ok? ==> Committed(r)
      ensures r.Err? ==> Unselected() || (Valid() && failedSelected == Some(!poisoned))
      ensures r.Err? && failedSelected.Some? && !poisoned ==> sb.seqno == old(sb.seqno) + 1 && !staged
      ensures r.Ok? ==> old(Sealable())
      ensures r.Err? ==> f.faulted || !old(Sealable())
      ensures BytesStay() && Steady()
    {
      hide Run, Next, Inv, Platform.Lawful, Poisoned, DiskOk, CanSeal, Selects, Committable, Discarded, Open, AlignUp;
      var sealed := SealDirectory();
      if sealed.Err? { return Err; }
      var nextFree := free + (if sb.dirStored > 0 then [Freed(sb.dirOff, sb.dirStored, sb.seqno + 1)] else []);
      r := Flip(sealed.value, nextFree);
    }

    // ---- deallocation -----------------------------------------------------------------------------

    /** `punch_free_extents`: deallocate the aligned interior of every free extent old enough. The
        caller has acknowledged the selected state. Returns how many extents were punched and how
        many were deferred. */
    method PunchFreeExtents(grace: nat) returns (r: Outcome<(nat, nat)>)
      requires Valid()
      modifies this`trace, f
      ensures MayPunch() ==> Valid() && Onward()
      ensures r.Ok? ==> r.value.0 == |PunchedOf(free, |free|, sb.seqno, grace)|
      ensures r.Ok? ==> r.value.1 == |DeferredOf(free, |free|, sb.seqno, grace)|
      ensures r.Ok? ==> PunchedBytes(old(f.bytes), f.bytes, sb.seqno, free, grace)
      ensures r.Ok? && r.value.0 > 0 ==> f.durable == f.bytes
      ensures r.Err? ==> f.faulted
    {
      hide Run, Next, Inv, Platform.Lawful, PunchedBytes, DiskOk, PunchedOf, DeferredOf, PunchLo, PunchHi;
      Known();
      var punched, deferred := 0, 0;
      NothingPunched(f.bytes, sb.seqno, free, grace);
      for i := 0 to |free|
        invariant DiskOk(f.State()) && (MayPunch() ==> Valid() && Onward())
        invariant PunchedBytes(old(f.bytes), f.bytes, sb.seqno, free[..i], grace)
        invariant punched == |PunchedOf(free, i, sb.seqno, grace)| && deferred == |DeferredOf(free, i, sb.seqno, grace)|
      {
        var e := free[i];
        assert free[..i + 1] == free[..i] + [e];
        ghost var before := f.bytes;
        OneMorePunched(old(f.bytes), before, sb.seqno, free[..i], e, grace);
        OneMoreCounted(free, i, sb.seqno, grace);
        if Min(e.seqno + grace, U64_MAX) > sb.seqno {
          deferred := deferred + 1;
          continue;
        }
        var lo, hi := PunchLo(e), PunchHi(e);
        if hi <= lo { continue; }
        var ok := PunchOne(e, grace);
        if !ok { return Err; }
        punched := punched + 1;
      }
      assert free[..|free|] == free;
      if punched > 0 {
        var ok := Flush();
        if !ok { return Err; }
      }
      r := Ok((punched, deferred));
    }

    /** What a punch asks of its caller if the published states are to survive it: the handle is healthy and
        the selected state acknowledged. */
    predicate MayPunch()
      reads this
    {
      !poisoned && acknowledged
    }

    method PunchOne(e: Freed, grace: nat) returns (ok: bool)
      requires DiskOk(f.State()) && (MayPunch() ==> Valid())
      requires Punchable(View(), e, grace)
      modifies this`trace, f
      ensures DiskOk(f.State()) && (MayPunch() ==> Valid() && Onward())
      ensures if ok then f.bytes == Patch(old(f.bytes), PunchLo(e), Zeros(PunchHi(e) - PunchLo(e))) else f.faulted
    {
      hide Run, Next, Inv, Platform.Lawful, Wrote, DiskOk, Punchable;
      ghost var d := f.State();
      PunchableWindow(View(), e, grace);
      var zeros := Zeros(PunchHi(e) - PunchLo(e));
      if MayPunch() { Known(); }
      ok := f.WriteAllAt(cfg.p, PunchLo(e), zeros);
      WroteBelow(cfg.p, d, PunchLo(e), zeros, ok, f.State());
      WroteDiskOk(cfg.p, d, PunchLo(e), zeros, ok, f.State());
      if MayPunch() {
        ghost var w2 := PunchIsNext(cfg, Last(), f.State(), e, grace, ok);
        Record(w2);
      }
    }

    /** The barrier after the last hole. */
    method Flush() returns (ok: bool)
      requires MayPunch() ==> Valid()
      modifies this`trace, f
      ensures (MayPunch() ==> Valid() && Onward()) && f.bytes == old(f.bytes)
      ensures if ok then f.durable == f.bytes else f.faulted
    {
      hide Run, Next, Inv, Platform.Lawful, Settled;
      if MayPunch() { Known(); }
      ok := f.Sync();
      if ok && MayPunch() {
        ghost var w := Last();
        ghost var w2 := Settled(w).(disk := f.State(), h := View());
        AcknowledgeIsNext(cfg, w, w2);
        Record(w2);
      }
    }

    // ---- incremental members ----------------------------------------------------------------------

    /** `begin_member`: take the cursor. */
    method BeginMember(name: Name) returns (r: Outcome<MemberWrite>)
      requires Valid() && cfg.p.utf8(name)
      modifies this
      ensures Valid() && old(trace) <= trace && Last().marred == old(Last().marred)
      ensures r.Ok? <==> old(MayPut(name, 0, 1)) && old(nextToken) + 1 <= U64_MAX
      ensures r.Ok? ==> View() == old(View()).(openMember := Some(old(nextToken) + 1), nextToken := old(nextToken) + 1)
      ensures r.Ok? ==> fresh(r.value) && r.value.f == f && r.value.token == nextToken && r.value.Recorded(this)
      ensures r.Ok? ==> r.value.name == name && r.value.off == AlignUp(tail) && r.value.content == []
      ensures r.Ok? ==> Last().pens == old(Last().pens)[r.value.Id() := r.value.AsPen()] && r.value.Id() == Last().Listed()
      ensures r.Err? ==> View() == old(View()) && Onward()
    {
      hide Run, Next, Inv, Platform.Lawful, ValidName;
      if !MayPut(name, 0, 1) || nextToken + 1 > U64_MAX { return Err; }
      Known();
      ghost var w := Last();
      nextToken := nextToken + 1;
      openMember := Some(nextToken);
      var m := new MemberWrite(f, nextToken, name, AlignUp(tail), cfg.p, w.opening);
      ghost var w2 := w.(h := View(), pens := w.pens[m.Id() := m.AsPen()]);
      BeginIsNext(cfg, w, w2, name);
      Record(w2);
      r := Ok(m);
    }

    /** `finish_member`: only the write that currently owns the cursor may register. The checksum is the one
        accumulated while writing; the file is not read, so what the member then reads as is what was written
        through the handle exactly when those bytes still stand. */
    method FinishMember(m: MemberWrite) returns (ok: bool)
      requires Valid() && m.Recorded(this)
      modifies this
      ensures Valid() && old(trace) <= trace
      ensures ok <==> old(openMember) == Some(m.token) && m.f == f
      ensures ok ==> View() == old(View()).(
        tables := StagePut(Tables(old(dir), old(free)), m.name, FreshMember(m.off, m.written, m.crc), old(sb.seqno) + 1),
        tail := m.off + m.written, staged := true, openMember := None)
      ensures ok ==> (ReadMember(f.bytes, dir, m.name) == Some(m.content) <==> Stands(f.bytes, m.off, m.content))
      ensures ok ==> forall other :: other != m.name ==> ReadMember(f.bytes, dir, other) == ReadMember(f.bytes, old(dir), other)
      ensures ok ==> Last().marred == old(Last().marred) + if Stands(f.bytes, m.off, m.content) then {} else {m.off}
      ensures ok ==> Last().pens == old(Last().pens) - {m.Id()}
      ensures !ok ==> View() == old(View()) && Onward()
    {
      hide Run, Next, Inv, Platform.Lawful, ValidName, StagePut, ReadMember, FreshMember, AlignUp, FinishStep;
      if openMember != Some(m.token) || m.f != f { return false; }
      Known();
      ghost var w := Last();
      ListedIsListable(cfg, w);
      AscendingView();
      openMember := None;
      StageEntry(m.name, m.off, m.written, m.crc);
      StandsIsWindow(f.bytes, m.off, m.content);
      ghost var w2 := FinishIsNext(cfg, w, View());
      Record(w2);
      ok := true;
    }

    /** `abandon_member`. */
    method AbandonMember(m: MemberWrite) returns (ok: bool)
      requires Valid() && m.Recorded(this)
      modifies this
      ensures Valid() && old(trace) <= trace && Last().marred == old(Last().marred)
      ensures ok <==> old(openMember) == Some(m.token) && m.f == f
      ensures View() == if ok then old(View()).(openMember := None) else old(View())
      ensures Last().pens == if ok then old(Last().pens) - {m.Id()} else old(Last().pens)
    {
      hide Run, Next, Inv, Platform.Lawful;
      if openMember != Some(m.token) || m.f != f { return false; }
      Known();
      ghost var w := Last();
      openMember := None;
      ghost var w2 := Released(w);
      AbandonIsNext(cfg, w, w2);
      Record(w2);
      ok := true;
    }

    /** `abandon_open_member`: for an assembly whose failure consumed its handle. A handle that survives it is no
        longer listed, and no longer refused by anything but `finish_member`. */
    method AbandonOpenMember()
      requires Valid()
      modifies this
      ensures Valid() && Onward()
      ensures View() == old(View()).(openMember := None)
    {
      hide Run, Next, Inv, Platform.Lawful;
      if openMember.None? { return; }
      Known();
      ghost var w := Last();
      openMember := None;
      ghost var w2 := w.(h := View());
      AbandonIsNext(cfg, w, w2);
      Record(w2);
    }

    /** Record a write through a member handle, at or past the published tail, that has just been made. */
    ghost method RecordPen(w: World, t: PenId, data: seq<Byte>, ok: bool)
      requires cfg.p.Lawful() && |trace| > 0 && Run(cfg, trace) && w == Last() && w.phase.Idle? && w.h == View()
      requires Inv(cfg, w) && DiskOk(w.disk) && w.fallbackSlot <= 1 && PastTail(w, t) && w.pens[t].At() + |data| <= U64_MAX
      requires Wrote(cfg.p, w.disk, w.pens[t].At(), data, ok, f.State())
      modifies this`trace
      ensures Valid() && old(trace) <= trace && Last().opening == w.opening
      ensures w.marred <= Last().marred
      ensures !w.h.poisoned && w.pens[t].At() >= w.h.tail ==> Last().marred == w.marred
      ensures Last().pens == if ok then w.pens[t := w.pens[t].(content := w.pens[t].content + data)] else w.pens
    {
      hide Run, Next, Inv, Wrote, DiskOk, Struck;
      if !w.h.poisoned && w.pens[t].At() >= w.h.tail { NothingStruck(cfg, w, w.pens[t].At(), |data|); }
      var w2 := w.(disk := f.State(),
                   pens := if ok then w.pens[t := w.pens[t].(content := w.pens[t].content + data)] else w.pens,
                   marred := w.marred + Struck(StagedDir(w), w.pens[t].At(), |data|));
      PenIsNext(cfg, w, w2, t, data, ok);
      Record(w2);
    }

    // ---- reading ----------------------------------------------------------------------------------

    /** `read_file_bounded`. */
    method ReadFileBounded(name: Name, maxBytes: nat) returns (r: Outcome<seq<Byte>>)
      requires Valid()
      ensures r.Ok? <==> Contains(dir, name) && dir[Position(dir, name)].member.len <= maxBytes
      ensures r.Ok? ==> ReadMember(f.bytes, dir, name) == Some(r.value)
    {
      hide Run, Next, Inv, Platform.Lawful;
      if !Contains(dir, name) { return Err; }
      var m := dir[Position(dir, name)].member;
      if m.len > maxBytes { return Err; }
      r := Ok(ReadExtents(f.bytes, m.extents));
    }

    /** `verify`, for a container with no declared erasures: reread the selected state and check
        every member against its directory checksum. When every registered member stood, it fails only where
        limits refuse the directory. */
    method Verify() returns (r: Outcome<nat>)
      requires Valid()
      ensures r.Ok? <==> ReadAdmitted(cfg, f.bytes, sb).Ok? && SumsHold(cfg.p, f.bytes, ReadAdmitted(cfg, f.bytes, sb).value.dir)
      ensures r.Ok? ==> r.value == |ReadAdmitted(cfg, f.bytes, sb).value.dir|
      ensures !poisoned && Last().marred == {} ==> (r.Ok? <==> ReadAdmitted(cfg, f.bytes, sb).Ok?)
      ensures !poisoned && r.Ok? ==> r.value == |Last().Current().tables.dir|
    {
      hide Run, Next, Inv, Platform.Lawful, ReadAdmitted, ReadExtents;
      Known();
      if !poisoned { SelectedSums(cfg, Last()); }
      var t := ReadDirectory(cfg, f.bytes, sb);
      if t.Err? { return Err; }
      var members := t.value.dir;
      var bad := FirstMismatch(cfg.p, f.bytes, members);
      assert !poisoned ==>
        forall i :: 0 <= i < |members| ==> EntrySum(cfg.p, members[i].member, Contents(f.bytes, members)[i], Last().marred);
      if bad.Some? { return Err; }
      r := Ok(|members|);
    }
  }

  /** Every member's bytes match its checksum. */
  predicate SumsHold(p: Platform, file: seq<Byte>, dir: seq<Entry>) {
    forall i :: 0 <= i < |dir| ==> p.crc(ReadExtents(file, dir[i].member.extents)) == dir[i].member.xsum
  }

  /** The member loop of `verify`: the first member whose bytes do not match its checksum. */
  method FirstMismatch(p: Platform, file: seq<Byte>, dir: seq<Entry>) returns (bad: Option<nat>)
    ensures bad.None? <==> SumsHold(p, file, dir)
    ensures bad.Some? ==> bad.value < |dir|
    ensures bad.Some? ==> p.crc(ReadExtents(file, dir[bad.value].member.extents)) != dir[bad.value].member.xsum
    ensures bad.Some? ==>
      forall i :: 0 <= i < bad.value ==> p.crc(ReadExtents(file, dir[i].member.extents)) == dir[i].member.xsum
  {
    hide ReadExtents;
    for i := 0 to |dir|
      invariant forall k :: 0 <= k < i ==> p.crc(ReadExtents(file, dir[k].member.extents)) == dir[k].member.xsum
    {
      if p.crc(ReadExtents(file, dir[i].member.extents)) != dir[i].member.xsum { return Some(i); }
    }
    return None;
  }

  /** The bytes between the slots and `end` are as they were. */
  predicate KeptBelow(a: seq<Byte>, b: seq<Byte>, end: nat) {
    |a| <= |b| && forall i :: REGION_START <= i < end && i < |a| ==> b[i] == a[i]
  }

  predicate CanSeal(p: Platform, h: Handle) {
    && NextSeq(h) <= U64_MAX && Committable(p, NextTables(h), NextDirOff(h))
    && forall e :: e in h.tables.dir ==> |e.member.extents| <= MAX_MEMBER_EXTENTS
  }

  /** The bytes of a window, or none. */
  /** In numbers, what a commit refuses. */
  lemma SealsUnderCeilings(p: Platform, h: Handle)
    ensures CanSeal(p, h) <==>
              var t := NextTables(h);
              && h.sb.seqno + 1 <= 0xFFFF_FFFF_FFFF_FFFF && |t.dir| <= 1_000_000 && |t.free| <= 1_000_000
              && |Payload(t)| <= 256 * 1024 * 1024 && |CodecEncode(p, Payload(t)).1| <= 64 * 1024 * 1024
              && AlignUp(h.tail) + |CodecEncode(p, Payload(t)).1| <= 0xFFFF_FFFF_FFFF_FFFF
              && forall e :: e in h.tables.dir ==> |e.member.extents| <= 65536
  {
    hide Payload, CodecEncode, AlignUp;
  }

  function Window(file: seq<Byte>, off: nat, len: nat): (r: seq<Byte>)
    requires len > 0 ==> off + len <= |file|
    ensures |r| == len
  {
    if len > 0 then file[off..off + len] else []
  }

  lemma StandsIsWindow(file: seq<Byte>, off: nat, content: seq<Byte>)
    requires |content| > 0 ==> off + |content| <= |file|
    ensures Stands(file, off, content) <==> Window(file, off, |content|) == content
  {
  }

  lemma StandsStill(a: seq<Byte>, b: seq<Byte>, off: nat, content: seq<Byte>)
    requires Stands(a, off, content)
    requires |a| <= |b| && forall i :: 0 <= i < off + |content| && i < |a| ==> b[i] == a[i]
    ensures Stands(b, off, content)
  {
    if |content| > 0 { PrefixKept(a, b, off, |content|); }
  }

  lemma StandsFurther(a: seq<Byte>, off: nat, content: seq<Byte>, data: seq<Byte>)
    requires Stands(a, off, content)
    ensures Stands(Patch(a, off + |content|, data), off, content + data)
  {
    hide Patch;
    AppendLanded(a, Patch(a, off + |content|, data), off, content, data);
  }

  /** What was written through a handle stands after its next write, whole or failed, if it stood before. */
  lemma StandsAfter(a: seq<Byte>, b: seq<Byte>, off: nat, content: seq<Byte>, data: seq<Byte>, ok: bool)
    requires |a| <= |b| && forall i :: 0 <= i < off + |content| && i < |a| ==> b[i] == a[i]
    requires ok ==> b == Patch(a, off + |content|, data)
    ensures Stands(a, off, content) ==> Stands(b, off, if ok then content + data else content)
  {
    hide Patch, Stands;
    if Stands(a, off, content) {
      if ok { StandsFurther(a, off, content, data); } else { StandsStill(a, b, off, content); }
    }
  }

  // ---- one member being written -------------------------------------------------------------------

  /** `MemberWrite`: the position, and the checksum of everything written through the handle. */
  class MemberWrite {
    const f: File
    const token: nat
    const name: Name
    const off: nat
    const p: Platform
    var written: nat
    var crc: nat
    ghost const opening: nat
    ghost var content: seq<Byte>

    constructor (file: File, token: nat, name: Name, off: nat, p: Platform, ghost opening: nat)
      ensures f == file && this.token == token && this.name == name && this.off == off && this.p == p && this.opening == opening
      ensures written == 0 && crc == p.crc([]) && content == []
    {
      f, this.token, this.name, this.off, this.p, this.opening := file, token, name, off, p, opening;
      written, crc, content := 0, p.crc([]), [];
    }

    ghost function Id(): PenId { PenId(opening, token) }

    ghost function AsPen(): Pen
      reads this
    { Pen(name, off, content) }

    /** The handle is one `begin_member` handed out, and only `write_all_at` has changed it since. Of the file's
        bytes nothing is said. */
    ghost predicate Recorded(k: Container)
      reads this, k
    {
      && p == k.cfg.p && written == |content| && crc == p.crc(content)
      && (f == k.f && |k.trace| > 0 ==>
            && (k.openMember == Some(token) ==> opening == k.Last().opening)
            && (Id() in k.Last().pens ==> k.Last().pens[Id()] == AsPen()))
    }

    /** The handle is in the process's hands, its next byte at or past the published tail. */
    ghost predicate Past(k: Container)
      reads this, k
    {
      f == k.f && |k.trace| > 0 && PastTail(k.Last(), Id())
    }

    /** `write_all_at`: sequential, appended at the handle's own position. It asks the container nothing, so
        it is the same on a handle the container no longer lists. The container stays valid whenever the position
        is past the published tail, as it always is for the handle listed; staged members the write touches are
        marred, and for the handle listed there are none. */
    method WriteAllAt(data: seq<Byte>, at: nat, ghost k: Container) returns (ok: bool)
      requires k.Valid() && k.f == f && Recorded(k)
      modifies this, f, k`trace
      ensures ok ==> at == old(written) && content == old(content) + data
      ensures ok ==> f.bytes == Patch(old(f.bytes), off + old(written), data)
      ensures !ok ==> content == old(content)
      ensures !ok ==> f.faulted || at != old(written) || off + old(written) + |data| > U64_MAX
      ensures at != old(written) ==> f.bytes == old(f.bytes)
      ensures old(Stands(f.bytes, off, content)) ==> Stands(f.bytes, off, content)
      ensures written == |content| && crc == p.crc(content)
      ensures old(k.openMember) == Some(token) ==> old(Past(k))
      ensures old(Past(k)) ==> k.Valid() && old(k.trace) <= k.trace && Recorded(k)
      ensures old(Past(k)) ==> k.Last().pens == old(k.Last().pens)[Id() := AsPen()]
      ensures old(Past(k)) ==> old(k.Last().marred) <= k.Last().marred
      ensures old(k.openMember == Some(token) || (Past(k) && !k.poisoned && off + written >= k.tail)) ==>
        k.Last().marred == old(k.Last().marred)
    {
      hide ValidName, Patch, Run, Next, Inv, Stands, Platform.Lawful, Wrote, DiskOk, Struck, Open, Contents, PenStep;
      k.Known();
      ghost var w := k.Last();
      ListedPosition(k.cfg, w);
      if at != written || written + |data| > U64_MAX || off + written + |data| > U64_MAX { return false; }
      ghost var before, past := f.bytes, Past(k);
      k.Lawful();
      ok := f.WriteAllAt(p, off + written, data);
      WroteBelow(p, w.disk, off + written, data, ok, f.State());
      if past { k.RecordPen(w, Id(), data, ok); }
      StandsAfter(before, f.bytes, off, content, data, ok);
      if !ok { return false; }
      CrcExtends(p, content, data);
      crc := p.crcCombine(crc, p.crc(data), |data|);
      written := written + |data|;
      content := content + data;
    }
  }

  lemma PrefixKept(a: seq<Byte>, b: seq<Byte>, off: nat, n: nat)
    requires off + n <= |a| <= |b| && forall i :: 0 <= i < off + n && i < |a| ==> b[i] == a[i]
    ensures b[off..off + n] == a[off..off + n]
  {
  }

  lemma AppendLanded(a: seq<Byte>, b: seq<Byte>, off: nat, content: seq<Byte>, data: seq<Byte>)
    requires b == Patch(a, off + |content|, data)
    requires |content| > 0 ==> off + |content| <= |a| && a[off..off + |content|] == content
    ensures |content + data| > 0 ==> off + |content + data| <= |b| && b[off..off + |content + data|] == content + data
  {
    hide Patch;
    var both := content + data;
    var n := |content|;
    if |data| > 0 {
      assert both[n..n + |data|] == data && both[..n] == content && both[..n + |data|] == both;
      WindowLanded(a, b, off, n, both, |data|);
    } else {
      assert both == content;
      assert b == a by { EmptyPatch(a, off + n, data); }
    }
  }

  lemma PutEntryCounts(dir: seq<Entry>, e: Entry)
    ensures var d := PutEntryIn(dir, e);
            && |d| == (if Contains(dir, e.name) then |dir| else |dir| + 1)
            && forall x :: x in d ==> x == e || x in dir
  {
  }

  lemma EmptyPatch(a: seq<Byte>, off: nat, data: seq<Byte>)
    requires |data| == 0
    ensures Patch(a, off, data) == a
  {
  }

  // ---- counting what a punch does -------------------------------------------------------------------

  /** The `ALIGN`-byte page holding byte `i` lies wholly inside the free extent. */
  predicate PageInside(e: Freed, i: nat) {
    e.off <= i / ALIGN * ALIGN && i / ALIGN * ALIGN + ALIGN <= e.off + e.len
  }

  ghost predicate HoldsPage(e: Freed) { exists i: nat :: PageInside(e, i) }

  /** Which of the first `n` free extents a punch deallocates bytes of, and which it leaves for later. */
  ghost function PunchedOf(free: seq<Freed>, n: nat, seqno: nat, grace: nat): set<nat>
    requires n <= |free|
  {
    set k: nat | k < n && OldEnough(free[k], seqno, grace) && HoldsPage(free[k])
  }

  ghost function DeferredOf(free: seq<Freed>, n: nat, seqno: nat, grace: nat): set<nat>
    requires n <= |free|
  {
    set k: nat | k < n && !OldEnough(free[k], seqno, grace)
  }

  /** `now` is `before` with every page inside an old enough extent of `free` zeroed, and no other byte changed. */
  ghost predicate PunchedBytes(before: seq<Byte>, now: seq<Byte>, seqno: nat, free: seq<Freed>, grace: nat) {
    && |before| <= |now|
    && forall i :: 0 <= i < |now| ==>
         now[i] == if Punched(seqno, free, grace, i) then 0 else if i < |before| then before[i] else 0
  }

  ghost predicate Punched(seqno: nat, free: seq<Freed>, grace: nat, i: nat) {
    exists e :: e in free && OldEnough(e, seqno, grace) && PageInside(e, i)
  }

  /** The window that is written is exactly the pages inside the extent. */
  lemma WindowIsPages(e: Freed)
    ensures forall i: nat :: PunchLo(e) <= i < PunchHi(e) <==> PageInside(e, i)
    ensures PunchLo(e) < PunchHi(e) <==> HoldsPage(e)
  {
    forall i: nat ensures PunchLo(e) <= i < PunchHi(e) <==> PageInside(e, i) { }
    if PunchLo(e) < PunchHi(e) { assert PageInside(e, PunchLo(e)); }
  }

  lemma NothingPunched(file: seq<Byte>, seqno: nat, free: seq<Freed>, grace: nat)
    ensures PunchedBytes(file, file, seqno, [], grace)
    ensures PunchedOf(free, 0, seqno, grace) == {} == DeferredOf(free, 0, seqno, grace)
  {
  }

  lemma OneMoreCounted(free: seq<Freed>, i: nat, seqno: nat, grace: nat)
    requires i < |free|
    ensures |PunchedOf(free, i + 1, seqno, grace)| == |PunchedOf(free, i, seqno, grace)|
      + if OldEnough(free[i], seqno, grace) && PunchLo(free[i]) < PunchHi(free[i]) then 1 else 0
    ensures |DeferredOf(free, i + 1, seqno, grace)| == |DeferredOf(free, i, seqno, grace)|
      + if OldEnough(free[i], seqno, grace) then 0 else 1
  {
    hide OldEnough, HoldsPage, PunchLo, PunchHi, PageInside;
    WindowIsPages(free[i]);
    OneMore(PunchedOf(free, i, seqno, grace), PunchedOf(free, i + 1, seqno, grace), i);
    OneMore(DeferredOf(free, i, seqno, grace), DeferredOf(free, i + 1, seqno, grace), i);
  }

  lemma OneMore(a: set<nat>, b: set<nat>, i: nat)
    requires i !in a && forall k :: k in b <==> k in a || (k == i && i in b)
    ensures |b| == |a| + if i in b then 1 else 0
  {
    assert b == if i in b then a + {i} else a;
  }

  lemma OneMorePunched(before: seq<Byte>, now: seq<Byte>, seqno: nat, free: seq<Freed>, e: Freed, grace: nat)
    requires PunchedBytes(before, now, seqno, free, grace)
    ensures !OldEnough(e, seqno, grace) || PunchHi(e) <= PunchLo(e) ==> PunchedBytes(before, now, seqno, free + [e], grace)
    ensures OldEnough(e, seqno, grace) && PunchLo(e) < PunchHi(e) ==>
      PunchedBytes(before, Patch(now, PunchLo(e), Zeros(PunchHi(e) - PunchLo(e))), seqno, free + [e], grace)
  {
    hide PunchLo, PunchHi, PageInside, OldEnough;
    WindowIsPages(e);
    forall i: nat ensures Punched(seqno, free + [e], grace, i) <==>
      Punched(seqno, free, grace, i) || (OldEnough(e, seqno, grace) && PunchLo(e) <= i < PunchHi(e))
    {
      if Punched(seqno, free, grace, i) {
        var x :| x in free && OldEnough(x, seqno, grace) && PageInside(x, i);
        assert x in free + [e];
      }
      if OldEnough(e, seqno, grace) && PunchLo(e) <= i < PunchHi(e) { assert e in free + [e]; }
    }
  }

  lemma PunchIsNext(c: Config, w: World, d: Disk, e: Freed, grace: nat, ok: bool) returns (w2: World)
    requires DiskOk(w.disk) && w.fallbackSlot <= 1 && w.phase.Idle? && !w.h.poisoned && w.h.acknowledged
    requires Punchable(w.h, e, grace)
    requires Wrote(c.p, w.disk, PunchLo(e), Zeros(PunchHi(e) - PunchLo(e)), ok, d)
    ensures Next(c, w, w2) && w2.disk == d && w2.h == w.h && w2.phase.Idle? && SameHands(w, w2)
  {
    hide Wrote, Punchable, DiskOk;
    w2 := w.(disk := d, horizon := Max(w.horizon, Spared(w.h.sb.seqno, grace)) as nat);
    assert PunchStep(c, w, w2, e, grace, ok);
  }

  lemma CrcExtends(p: Platform, content: seq<Byte>, data: seq<Byte>)
    requires p.Lawful()
    ensures p.crcCombine(p.crc(content), p.crc(data), |data|) == p.crc(content + data)
  {
  }

  lemma BeginIsNext(c: Config, w: World, w2: World, name: Name)
    requires DiskOk(w.disk) && w.fallbackSlot <= 1 && BeginStep(c, w, w2, name)
    ensures Next(c, w, w2)
  {
    hide BeginStep;
  }

  lemma AbandonIsNext(c: Config, w: World, w2: World)
    requires DiskOk(w.disk) && w.fallbackSlot <= 1 && AbandonStep(w, w2)
    ensures Next(c, w, w2)
  {
    hide AbandonStep;
  }

  lemma PenIsNext(c: Config, w: World, w2: World, t: PenId, data: seq<Byte>, ok: bool)
    requires DiskOk(w.disk) && w.fallbackSlot <= 1 && PenStep(c, w, w2, t, data, ok) && PastTail(w, t)
    ensures Next(c, w, w2)
  {
    hide PenStep, PastTail;
  }

  /** What is known of the listed handle. */
  lemma ListedIsListable(c: Config, w: World)
    requires Inv(c, w) && w.h.openMember.Some?
    ensures w.Listed() in w.pens && NextSeq(w.h) <= U64_MAX && !w.h.poisoned
    ensures Listable(c, w.pens[w.Listed()], w.h.tail, |w.disk.volatile|)
  {
    hide DiskInv, HandleInv, ReadersInv, SumsInv, Listable;
  }

  lemma ListedPosition(c: Config, w: World)
    requires Inv(c, w)
    ensures w.h.openMember.Some? ==>
      PastTail(w, w.Listed()) && !w.h.poisoned && w.pens[w.Listed()].At() >= w.h.tail
  {
    hide DiskInv, HandleInv, ReadersInv, SumsInv, ValidName;
    if w.h.openMember.Some? {
      ListedIsPast(c, w);
      AlignedPast(w.h.tail);
    }
  }

  /** At or past the cursor a write touches no staged member. */
  lemma NothingStruck(c: Config, w: World, off: nat, len: nat)
    requires Inv(c, w) && w.phase.Idle? && !w.h.poisoned && off >= w.h.tail
    ensures Struck(StagedDir(w), off, len) == {}
  {
    hide DiskInv, ReadersInv, SumsInv, PensInv, Placed, FreeOk, MemberClaims;
    forall i, e | 0 <= i < |w.h.tables.dir| && e in w.h.tables.dir[i].member.extents ensures End(e) <= w.h.tail {
      assert w.h.tables.dir[i] in w.h.tables.dir;
      EntryClaims(w.h.tables.dir, w.h.tables.dir[i], e);
      ClaimInDir(w.h.tables.dir, c.p, w.h.tail, e);
    }
  }

  lemma FinishIsNext(c: Config, w: World, h: Handle) returns (w2: World)
    requires DiskOk(w.disk) && w.fallbackSlot <= 1 && w.phase.Idle? && w.h.openMember.Some? && !w.h.poisoned
    requires w.Listed() in w.pens && NextSeq(w.h) <= U64_MAX
    requires var pen := w.pens[w.Listed()];
      && Listable(c, pen, w.h.tail, |w.disk.volatile|)
      && h == w.h.(
           tables := StagePut(w.h.tables, pen.name, FreshMember(pen.off, |pen.content|, c.p.crc(pen.content)), NextSeq(w.h)),
           tail := pen.At(), staged := true, openMember := None)
    ensures Next(c, w, w2) && w2 == Released(w).(h := h, marred := w2.marred)
    ensures var pen := w.pens[w.Listed()];
      w2.marred == w.marred + if Stands(w.disk.volatile, pen.off, pen.content) then {} else {pen.off}
  {
    hide ValidName, StagePut, FreshMember, AlignUp, Stands, DiskOk;
    var pen := w.pens[w.Listed()];
    w2 := Released(w).(
      h := h, marred := w.marred + if Stands(w.disk.volatile, pen.off, pen.content) then {} else {pen.off});
    assert FinishStep(c, w, w2);
  }

  lemma SelectedSums(c: Config, w: World)
    requires c.p.Lawful() && Inv(c, w) && w.phase.Idle? && !w.h.poisoned
    ensures ReadAdmitted(c, w.disk.volatile, w.h.sb).Ok? ==>
              ReadAdmitted(c, w.disk.volatile, w.h.sb).value == w.Current().tables
    ensures SumsOk(c.p, w.Current().tables.dir, Contents(w.disk.volatile, w.Current().tables.dir), w.marred)
  {
    hide SnapOk, Durable, Slots, StagedOk, ReadersInv, ReadTables, Open, FileSums;
    VolatileSelectsCurrent(c, w);
  }

  lemma LookupAfterStageDrop(t: Tables, name: Name, nextSeq: nat)
    requires NamesAscend(t.dir)
    ensures Lookup(StageDrop(t, name, nextSeq).dir, name) == None
  {
    LookupAfterDrop(t.dir, name, name);
  }

  lemma ReopenIsNext(c: Config, past: seq<World>, w2: World)
    requires c.p.Lawful() && |past| > 0 && Run(c, past) && ReopenStep(c, past[|past| - 1], w2)
    ensures Next(c, past[|past| - 1], w2)
  {
    hide Run, Inv, DiskOk, ReopenStep;
    RunKeepsInv(c, past, |past| - 1);
    InvFacts(c, past[|past| - 1]);
  }

  lemma DiscardIsNext(c: Config, w: World, w2: World)
    requires DiskOk(w.disk) && w.fallbackSlot <= 1 && DiscardStep(c, w, w2)
    ensures Next(c, w, w2)
  {
    hide DiscardStep;
  }

  lemma DiscardedIsCurrent(c: Config, w: World)
    requires c.p.Lawful() && Inv(c, w) && w.phase.Idle? && !w.h.poisoned
    requires ReadAdmitted(c, w.disk.volatile, w.h.sb).Ok?
    ensures var h := Discarded(c, w.disk.volatile, w.h);
            !h.staged && h.openMember == None && h.tables == w.Current().tables
  {
    hide SnapOk, Durable, Slots, StagedOk, ReadersInv, SumsInv, ReadTables, Open, Contents;
    VolatileSelectsCurrent(c, w);
  }

  lemma AcknowledgedIsSettled(c: Config, w: World)
    requires Inv(c, w) && w.phase.Idle? && !w.h.poisoned && w.h.acknowledged
    ensures w.attempt.None? && w.fallback == w.Current()
  {
    hide DiskInv, ReadersInv, SumsInv, StagedOk;
  }

  lemma AcknowledgeIsNext(c: Config, w: World, w2: World)
    requires DiskOk(w.disk) && w.fallbackSlot <= 1 && AcknowledgeStep(w, w2)
    ensures Next(c, w, w2) && SameHands(w, w2)
    ensures w2.attempt.None? && w2.fallback == w.Current() && w2.phase.Idle?
  {
    hide StagedOk;
  }

  /** The file opens, and selects this superblock from this slot. */
  predicate Selects(c: Config, file: seq<Byte>, sb: Superblock, slot: int) {
    Open(c, file).Ok? && Open(c, file).value.sb == sb && Open(c, file).value.slot == slot
  }

  function Adopted(h: Handle, o: Opened, attempted: Superblock): Handle {
    var selected := o.slot == 1 - h.slot && o.sb == attempted;
    h.(tables := o.tables, sb := o.sb, tail := o.sb.tail, slot := o.slot, staged := false, openMember := None,
       poisoned := !selected, failedSelected := Some(selected), acknowledged := !selected)
  }

  lemma ReconcileIsNext(c: Config, w: World, w2: World)
    requires DiskOk(w.disk) && w.fallbackSlot <= 1 && w.phase.Broken? && w.h.slot <= 1
    requires Open(c, w.disk.volatile).Ok?
    requires w2 == w.(phase := Idle,
      h := Adopted(w.h.(poisoned := true, failedSelected := None), Open(c, w.disk.volatile).value, w.phase.next))
    ensures Next(c, w, w2)
  {
    hide Open, Poisoned, Discarded, DiskOk;
    assert ReconcileStep(c, w, w2);
  }

  lemma UnreconciledIsNext(c: Config, w: World, w2: World)
    requires DiskOk(w.disk) && w.fallbackSlot <= 1 && w.phase.Broken? && w.h.slot <= 1
    requires Open(c, w.disk.volatile).Err?
    requires w2 == w.(phase := Idle, h := Poisoned(c, w.disk.volatile, w.h.(poisoned := true, failedSelected := None)))
    ensures Next(c, w, w2)
  {
    hide Open, Poisoned, Discarded, DiskOk;
    assert ReconcileStep(c, w, w2);
  }

  lemma FlipIsNext(c: Config, w: World, d: Disk, ok: bool) returns (w2: World)
    requires DiskOk(w.disk) && w.fallbackSlot <= 1 && w.h.slot <= 1 && w.phase.Barred?
    requires Wrote(c.p, w.disk, (1 - w.h.slot) * SLOT_LEN, EncodeSlot(c.p, w.phase.next), ok, d)
    ensures Next(c, w, w2) && FlipStep(c, w, w2, ok) && SameHands(w, w2)
    ensures w2.disk == d && w2.h == w.h
    ensures w2.phase == if ok then Flipped(w.phase.next, w.phase.free) else Broken(w.phase.next)
  {
    hide SlotOutcome, EncodeSlot, Platform.Lawful;
    var landed := SlotBytes(d.volatile, 1 - w.h.slot) == EncodeSlot(c.p, w.phase.next);
    var s := Successor(w, w.phase.next, w.phase.free);
    w2 := w.(disk := d,
             phase := if ok then Flipped(w.phase.next, w.phase.free) else Broken(w.phase.next),
             attempt := if landed then Some(s) else None,
             readers := if landed then w.readers + [s] else w.readers);
    assert FlipStep(c, w, w2, ok);
  }

  function SettledHandle(h: Handle, next: Superblock, nextFree: seq<Freed>): Handle {
    h.(tables := Tables(h.tables.dir, nextFree), sb := next, tail := next.tail, slot := if h.slot == 0 then 1 else 0,
       staged := false, failedSelected := None, acknowledged := true)
  }

  lemma SettleIsNext(c: Config, w: World, ok: bool) returns (w2: World)
    requires DiskOk(w.disk) && w.fallbackSlot <= 1 && Inv(c, w) && w.phase.Flipped?
    ensures Next(c, w, w2) && SameHands(w, w2)
    ensures !ok ==> w2 == w.(phase := Broken(w.phase.next))
    ensures ok ==> w2.attempt.None? && w2.fallback.sb == w.phase.next
    ensures ok ==> w2.fallback.tables == Tables(w.h.tables.dir, w.phase.free)
    ensures ok ==> w2.disk == Flushed(w.disk) && w2.phase.Idle?
    ensures ok ==> w2.h == SettledHandle(w.h, w.phase.next, w.phase.free)
  {
    hide DiskInv, ReadersInv, SumsInv, StagedOk;
    w2 := if ok then Settled(w).(
            disk := Flushed(w.disk), phase := Idle, h := SettledHandle(w.h, w.phase.next, w.phase.free))
          else w.(phase := Broken(w.phase.next));
    assert SettleStep(w, w2, ok);
  }

  lemma RefuseIsNext(c: Config, w: World, w2: World)
    requires DiskOk(w.disk) && w.fallbackSlot <= 1 && RefuseStep(c, w, w2)
    ensures Next(c, w, w2)
  {
    hide RefuseStep;
  }

  lemma SealIsNext(c: Config, w: World, d: Disk, ok: bool) returns (w2: World)
    requires DiskOk(w.disk) && w.fallbackSlot <= 1 && w.phase.Idle? && Writable(w.h) && w.h.staged
    requires NextSeq(w.h) <= U64_MAX && Committable(c.p, NextTables(w.h), NextDirOff(w.h))
    requires Wrote(c.p, w.disk, NextDirOff(w.h), StoredDirectory(c, w.h), ok, d)
    ensures Next(c, w, w2)
    ensures ok ==> w2 == w.(disk := d, phase := Sealed(NextSuperblock(c, w.h), NextFree(w.h)), h := w.h.(failedSelected := None))
    ensures !ok ==> w2 == w.(disk := d, h := Poisoned(c, d.volatile, w.h.(failedSelected := None)))
  {
    hide Wrote, Committable, Poisoned, SealOf, Payload, CodecEncode, DiskOk;
    w2 := if ok then w.(disk := d, phase := Sealed(NextSuperblock(c, w.h), NextFree(w.h)), h := w.h.(failedSelected := None))
          else w.(disk := d, h := Poisoned(c, d.volatile, w.h.(failedSelected := None)));
    assert SealStep(c, w, w2, ok);
  }

  lemma BarrierIsNext(c: Config, w: World, ok: bool) returns (w2: World)
    requires DiskOk(w.disk) && w.fallbackSlot <= 1 && w.phase.Sealed?
    ensures Next(c, w, w2) && SameHands(w, w2)
    ensures ok ==> w2.h == w.h && w2.disk == Flushed(w.disk) && w2.phase == Barred(w.phase.next, w.phase.free)
    ensures !ok ==> w2 == w.(phase := Idle, h := Poisoned(c, w.disk.volatile, w.h.(failedSelected := None)))
  {
    hide Poisoned, DiskOk;
    w2 := if ok then Settled(w).(disk := Flushed(w.disk), phase := Barred(w.phase.next, w.phase.free))
          else w.(phase := Idle, h := Poisoned(c, w.disk.volatile, w.h.(failedSelected := None)));
    assert BarrierStep(c, w, w2, ok);
  }

  lemma PutIsNext(c: Config, w: World, w2: World, name: Name, content: seq<Byte>)
    requires DiskOk(w.disk) && w.fallbackSlot <= 1 && PutStep(c, w, w2, name, content)
    ensures Next(c, w, w2)
  {
    hide PutStep;
  }

  lemma GrowIsNext(c: Config, w: World, w2: World, name: Name, delta: seq<Byte>)
    requires DiskOk(w.disk) && w.fallbackSlot <= 1 && GrowStep(c, w, w2, name, delta)
    ensures Next(c, w, w2)
  {
    hide GrowStep;
  }

  lemma DropIsNext(c: Config, w: World, w2: World, name: Name)
    requires DiskOk(w.disk) && w.fallbackSlot <= 1 && DropStep(w, w2, name)
    ensures Next(c, w, w2)
  {
    hide DropStep;
  }

  lemma WriteIsNext(c: Config, w: World, w2: World, off: nat, data: seq<Byte>, ok: bool)
    requires DiskOk(w.disk) && w.fallbackSlot <= 1 && WriteStep(c, w, w2, off, data, ok)
    ensures Next(c, w, w2)
  {
    hide WriteStep;
  }

  lemma WroteInSlot(p: Platform, d: Disk, s: nat, next: Superblock, ok: bool, d2: Disk)
    requires p.Lawful() && DiskOk(d) && s <= 1 && Wrote(p, d, s * SLOT_LEN, EncodeSlot(p, next), ok, d2)
    ensures |d2.volatile| >= |d.volatile|
    ensures forall i :: REGION_START <= i < |d.volatile| ==> d2.volatile[i] == d.volatile[i]
  {
    hide SlotOutcome, EncodeSlot;
    EncodeSlotLength(p, next);
  }

  lemma WroteDiskOk(p: Platform, d: Disk, off: nat, data: seq<Byte>, ok: bool, d2: Disk)
    requires DiskOk(d) && Wrote(p, d, off, data, ok, d2)
    ensures DiskOk(d2)
  {
    hide SlotOutcome;
  }

  lemma WroteBelow(p: Platform, d: Disk, off: nat, data: seq<Byte>, ok: bool, d2: Disk)
    requires DiskOk(d) && Wrote(p, d, off, data, ok, d2)
    ensures |d2.volatile| >= |d.volatile|
    ensures forall i :: 0 <= i < off && i < |d.volatile| ==> d2.volatile[i] == d.volatile[i]
    ensures ok ==> d2.volatile == Patch(d.volatile, off, data)
  {
    hide SlotOutcome;
  }

  lemma WindowLanded(a: seq<Byte>, b: seq<Byte>, off: nat, at: nat, source: seq<Byte>, take: nat)
    requires at + take <= |source| && take > 0
    requires b == Patch(a, off + at, source[at..at + take])
    requires at > 0 ==> off + at <= |a| && a[off..off + at] == source[..at]
    ensures off + at + take <= |b| && b[off..off + at + take] == source[..at + take]
  {
    hide Patch;
    forall i | 0 <= i < at + take ensures b[off + i] == source[i] {
      if i < at {
        assert a[off..off + at][i] == source[..at][i];
      } else {
        assert b[off + at + (i - at)] == source[at..at + take][i - at];
      }
    }
  }

  lemma WindowSummed(p: Platform, source: seq<Byte>, at: nat, take: nat)
    requires p.Lawful() && at + take <= |source|
    ensures p.crcCombine(p.crc(source[..at]), p.crc(source[at..at + take]), take) == p.crc(source[..at + take])
  {
    assert source[..at] + source[at..at + take] == source[..at + take];
  }

  lemma ReadAfterPut(file: seq<Byte>, dir: seq<Entry>, e: Entry)
    requires NamesAscend(dir)
    ensures ReadMember(file, PutEntryIn(dir, e), e.name) == Some(ReadExtents(file, e.member.extents))
    ensures forall other :: other != e.name ==> ReadMember(file, PutEntryIn(dir, e), other) == ReadMember(file, dir, other)
  {
    hide PutEntryIn, Lookup;
    LookupAfterPut(dir, e, e.name);
    forall other | other != e.name ensures ReadMember(file, PutEntryIn(dir, e), other) == ReadMember(file, dir, other) {
      LookupAfterPut(dir, e, other);
    }
  }

  lemma ReadAfterStagePut(file: seq<Byte>, t: Tables, name: Name, off: nat, content: seq<Byte>, xsum: nat, nextSeq: nat)
    requires NamesAscend(t.dir)
    requires |content| > 0 ==> off + |content| <= |file| && file[off..off + |content|] == content
    ensures var t2 := StagePut(t, name, FreshMember(off, |content|, xsum), nextSeq);
      && ReadMember(file, t2.dir, name) == Some(content)
      && forall other :: other != name ==> ReadMember(file, t2.dir, other) == ReadMember(file, t.dir, other)
  {
    hide FreshMember, ReadMember, PutEntryIn, ReadExtents;
    ReadAfterPut(file, t.dir, Entry(name, FreshMember(off, |content|, xsum)));
    FreshReads(file, off, content, xsum);
  }

  /** Bytes below the cursor stay, and with them every member. */
  lemma ReadsStay(c: Config, w: World, now: seq<Byte>)
    requires Inv(c, w) && w.phase.Idle? && !w.h.poisoned && |w.disk.volatile| <= |now|
    requires forall i :: REGION_START <= i < w.h.tail && i < |w.disk.volatile| ==> now[i] == w.disk.volatile[i]
    ensures forall name :: ReadMember(now, w.h.tables.dir, name) == ReadMember(w.disk.volatile, w.h.tables.dir, name)
  {
    hide DiskInv, ReadersInv, MemberClaims, ReadExtents, Placed, FreeOk, SumsOk, Position;
    var dir := w.h.tables.dir;
    forall name ensures ReadMember(now, dir, name) == ReadMember(w.disk.volatile, dir, name) {
      if Contains(dir, name) {
        var e := dir[Position(dir, name)];
        forall x | x in e.member.extents ensures SameRange(w.disk.volatile, now, x.off, End(x)) {
          EntryClaims(dir, e, x);
          ClaimInDir(dir, c.p, w.h.tail, x);
        }
        ReadExtentsLocal(w.disk.volatile, now, e.member.extents);
      }
    }
  }

  lemma ReadAfterStageGrow(file: seq<Byte>, t: Tables, name: Name, tail: nat, delta: seq<Byte>, xsum: nat)
    requires NamesAscend(t.dir) && Contains(t.dir, name)
    requires var off := AppendAt(t.dir[Position(t.dir, name)].member, tail);
             off + |delta| <= |file| && file[off..off + |delta|] == delta
    ensures ReadMember(file, t.dir, name).Some?
    ensures var t2 := StageGrow(t, name, tail, |delta|, xsum);
      && ReadMember(file, t2.dir, name) == Some(ReadMember(file, t.dir, name).value + delta)
      && forall other :: other != name ==> ReadMember(file, t2.dir, other) == ReadMember(file, t.dir, other)
  {
    hide GrownMember, PutEntryIn;
    var m := t.dir[Position(t.dir, name)].member;
    GrownReads(file, m, tail, delta, xsum);
    ReadAfterPut(file, t.dir, Entry(name, GrownMember(m, tail, |delta|, xsum)));
  }
}
