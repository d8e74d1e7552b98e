/** The container's publication protocol (`src/container.rs`) as a state machine whose steps are the
    individual file operations, so that power can fail between any two of them. */
module Publication {
  import opened Bytes
  import opened Host
  import opened Directory
  import opened Layout
  import opened Superblocks
  import opened Device
  import opened Staging

  /** The writer's handle. */
  datatype Handle = Handle(
    tables: Tables, sb: Superblock, tail: nat, slot: nat, staged: bool,
    openMember: Option<nat>, nextToken: nat,
    poisoned: bool, failedSelected: Option<bool>, acknowledged: bool)

  /** Where a commit stands. `Sealed`: the directory is written. `Barred`: everything the next
      superblock names is durable. `Flipped`: the slot is written. `Broken`: the slot write or its
      barrier failed. */
  datatype Phase =
    | Idle
    | Sealed(next: Superblock, free: seq<Freed>)
    | Barred(next: Superblock, free: seq<Freed>)
    | Flipped(next: Superblock, free: seq<Freed>)
    | Broken(next: Superblock)

  /** One published state with every member's bytes. */
  datatype Snapshot = Snapshot(sb: Superblock, tables: Tables, contents: seq<seq<Byte>>)

  /** A member handle: where its member begins, and everything written through it so far. Its checksum is
      that of `content`. */
  datatype Pen = Pen(name: Name, off: nat, content: seq<Byte>) {
    function At(): nat { off + |content| }
  }

  /** A handle belongs to one opening of the file, and is named by its token there. */
  datatype PenId = PenId(opening: nat, token: nat)

  /** `fallback` is published and durable. `attempt`, when present, is written to the other slot and
      not yet known durable. `readers` are the states some open may have selected since power came
      on; those at or past `horizon` are promised undisturbed bytes. `opening` counts the openings of
      the file. `pens` are the member handles in the process's hands, listed by the container or not.
      `marred` are the offsets of members registered over bytes that were no longer those written through
      their handle, or overwritten through a handle while staged. */
  datatype World = World(
    disk: Disk, h: Handle, phase: Phase,
    fallback: Snapshot, fallbackSlot: nat, attempt: Option<Snapshot>,
    readers: seq<Snapshot>, horizon: nat,
    opening: nat, pens: map<PenId, Pen>, marred: set<nat>)
  {
    function Current(): Snapshot { if attempt.Some? then attempt.value else fallback }
    function CurrentSlot(): nat
      requires fallbackSlot <= 1
    { if attempt.Some? then 1 - fallbackSlot else fallbackSlot }

    /** The handle the container lists. */
    function Listed(): PenId
      requires h.openMember.Some?
    { PenId(opening, h.openMember.value) }
  }

  /** The same member handles, and no further marred place. */
  predicate SameHands(w: World, w2: World) {
    w2.opening == w.opening && w2.pens == w.pens && w2.marred == w.marred
  }

  predicate Writable(h: Handle) { !h.poisoned && h.openMember.None? }

  function NextSeq(h: Handle): nat { h.sb.seqno + 1 }

  /** `Container::open`'s handle: selection is proven, a past barrier is not. */
  function HandleOf(o: Opened): Handle {
    Handle(o.tables, o.sb, o.sb.tail, o.slot, false, None, 0, false, None, false)
  }

  /** `discard_staged`: back to the selected state, if it can be read. */
  function Discarded(c: Config, file: seq<Byte>, h: Handle): Handle {
    match ReadAdmitted(c, file, h.sb)
    case Ok(t) => h.(tables := t, tail := h.sb.tail, staged := false, openMember := None)
    case Err => h
  }

  /** `commit`'s handling of a failure before any successor could be selected. */
  function Poisoned(c: Config, file: seq<Byte>, h: Handle): Handle {
    Discarded(c, file, h).(poisoned := true, acknowledged := false)
  }

  /** `reconcile_after_publication_failure`, followed by what `commit` does with its outcome. */
  function Reconciled(c: Config, file: seq<Byte>, h: Handle, next: Superblock): Handle {
    match Open(c, file)
    case Ok(o) =>
      var selected := o.slot == 1 - h.slot && o.sb == next;
      h.(tables := o.tables, sb := o.sb, tail := o.sb.tail, slot := o.slot, staged := false, openMember := None,
         poisoned := !selected, failedSelected := Some(selected), acknowledged := !selected)
    case Err => Poisoned(c, file, h.(poisoned := true, failedSelected := None))
  }

  /** `commit_staged`'s free list: the superseded directory joins it. */
  function NextFree(h: Handle): seq<Freed> {
    h.tables.free + (if h.sb.dirStored > 0 then [Freed(h.sb.dirOff, h.sb.dirStored, NextSeq(h))] else [])
  }

  function NextTables(h: Handle): Tables { Tables(h.tables.dir, NextFree(h)) }

  function NextDirOff(h: Handle): nat { AlignUp(h.tail) }

  function NextSuperblock(c: Config, h: Handle): Superblock {
    SealOf(c.p, NextTables(h), NextDirOff(h), NextSeq(h))
  }

  function StoredDirectory(c: Config, h: Handle): seq<Byte> {
    CodecEncode(c.p, Payload(NextTables(h))).1
  }

  // ---- steps ----------------------------------------------------------------------------------

  /** A write at or past the cursor, whatever part of it lands. */
  ghost predicate RegionWrite(c: Config, w: World, w2: World, off: nat, data: seq<Byte>, ok: bool)
    requires DiskOk(w.disk)
  {
    && w.phase.Idle? && !w.h.poisoned && off >= w.h.tail
    && Wrote(c.p, w.disk, off, data, ok, w2.disk)
    && w2 == w.(disk := w2.disk)
  }

  /** A write at or past the published tail, whatever part of it lands; staged members it touches are marred. */
  ghost predicate TailWrite(c: Config, w: World, w2: World, off: nat, data: seq<Byte>, ok: bool)
    requires DiskOk(w.disk)
  {
    && w.phase.Idle? && off >= w.Current().sb.tail
    && Wrote(c.p, w.disk, off, data, ok, w2.disk)
    && w2 == w.(disk := w2.disk, pens := w2.pens, marred := w.marred + Struck(StagedDir(w), off, |data|))
  }

  /** A staging call's own write: no member is open. */
  ghost predicate WriteStep(c: Config, w: World, w2: World, off: nat, data: seq<Byte>, ok: bool)
    requires DiskOk(w.disk)
  {
    RegionWrite(c, w, w2, off, data, ok) && Writable(w.h)
  }

  /** The file holds `content` from `off` on. */
  ghost predicate Stands(file: seq<Byte>, off: nat, content: seq<Byte>) {
    |content| > 0 ==> off + |content| <= |file| && file[off..off + |content|] == content
  }

  /** `stage_entry`: the checksum is the one accumulated while writing, and the file is not looked at. */
  ghost predicate RegisterStep(c: Config, w: World, w2: World, name: Name, content: seq<Byte>) {
    var off := AlignUp(w.h.tail);
    && w.phase.Idle? && Writable(w.h)
    && ValidName(name) && c.p.utf8(name)
    && off + |content| <= U64_MAX && NextSeq(w.h) <= U64_MAX
    && (|content| > 0 ==> off + |content| <= |w.disk.volatile|)
    && w2 == w.(
         h := w.h.(
           tables := StagePut(w.h.tables, name, FreshMember(off, |content|, c.p.crc(content)), NextSeq(w.h)),
           tail := off + |content|, staged := true),
         marred := w.marred + if Stands(w.disk.volatile, off, content) then {} else {off})
  }

  /** `put_bytes` and `put_stream` register what they have just written. */
  ghost predicate PutStep(c: Config, w: World, w2: World, name: Name, content: seq<Byte>) {
    RegisterStep(c, w, w2, name, content) && Stands(w.disk.volatile, AlignUp(w.h.tail), content)
  }

  /** `append_stream` after the delta's bytes are in the file. */
  ghost predicate GrowStep(c: Config, w: World, w2: World, name: Name, delta: seq<Byte>) {
    && w.phase.Idle? && Writable(w.h) && |delta| > 0 && Contains(w.h.tables.dir, name)
    && NextSeq(w.h) <= U64_MAX
    && var m := w.h.tables.dir[Position(w.h.tables.dir, name)].member;
       var off := AppendAt(m, w.h.tail);
       && (Coalesces(m, w.h.tail) || |m.extents| < MAX_MEMBER_EXTENTS)
       && off + |delta| <= U64_MAX && m.len + |delta| <= U64_MAX
       && off + |delta| <= |w.disk.volatile| && w.disk.volatile[off..off + |delta|] == delta
       && w2 == w.(h := w.h.(
            tables := StageGrow(w.h.tables, name, w.h.tail, |delta|, c.p.crcCombine(m.xsum, c.p.crc(delta), |delta|)),
            tail := off + |delta|, staged := true))
  }

  /** `remove` of a present member. */
  ghost predicate DropStep(w: World, w2: World, name: Name) {
    && w.phase.Idle? && Writable(w.h) && NextSeq(w.h) <= U64_MAX
    && Contains(w.h.tables.dir, name)
    && w2 == w.(h := w.h.(tables := StageDrop(w.h.tables, name, NextSeq(w.h)), staged := true))
  }

  /** `begin_member` takes the cursor and hands out a handle on it. */
  ghost predicate BeginStep(c: Config, w: World, w2: World, name: Name) {
    var t := w.h.nextToken + 1;
    && w.phase.Idle? && Writable(w.h)
    && ValidName(name) && c.p.utf8(name)
    && AlignUp(w.h.tail) <= U64_MAX && NextSeq(w.h) <= U64_MAX
    && w2 == w.(h := w.h.(openMember := Some(t), nextToken := t), pens := w.pens[PenId(w.opening, t) := Pen(name, AlignUp(w.h.tail), [])])
  }

  /** The members a coming commit may publish. A poisoned handle publishes nothing. */
  function StagedDir(w: World): seq<Entry> { if w.h.poisoned then [] else w.h.tables.dir }

  predicate Touched(m: Member, off: nat, len: nat) {
    |m.extents| > 0 && exists e :: e in m.extents && e.off < off + len && off < End(e)
  }

  /** Where the members begin that a write touches. */
  function Struck(dir: seq<Entry>, off: nat, len: nat): set<nat> {
    set i | 0 <= i < |dir| && Touched(dir[i].member, off, len) :: dir[i].member.extents[0].off
  }

  /** `write_all_at` through any handle the process holds: the file changes at the handle's own position, and
      the container is not asked. */
  ghost predicate PenStep(c: Config, w: World, w2: World, t: PenId, data: seq<Byte>, ok: bool)
    requires DiskOk(w.disk)
  {
    && w.phase.Idle? && t in w.pens
    && var pen := w.pens[t];
       && pen.At() + |data| <= U64_MAX
       && Wrote(c.p, w.disk, pen.At(), data, ok, w2.disk)
       && w2 == w.(
            disk := w2.disk, pens := if ok then w.pens[t := pen.(content := pen.content + data)] else w.pens,
            marred := w.marred + Struck(StagedDir(w), pen.At(), |data|))
  }

  /** The handle's next byte is at or past the published tail. */
  predicate PastTail(w: World, t: PenId) {
    t in w.pens && w.pens[t].At() >= w.Current().sb.tail
  }

  /** The listed handle given back: the first half of `finish_member`. */
  function Released(w: World): World
    requires w.h.openMember.Some?
  {
    w.(h := w.h.(openMember := None), pens := w.pens - {w.Listed()})
  }

  /** `abandon_member` takes the handle back; `abandon_open_member` forgets it, and the handle may live on. */
  ghost predicate AbandonStep(w: World, w2: World) {
    && w.phase.Idle? && w.h.openMember.Some?
    && (w2 == Released(w) || w2 == w.(h := w.h.(openMember := None)))
  }

  /** `finish_member`: the listed handle's member is registered with what was written through the handle. */
  ghost predicate FinishStep(c: Config, w: World, w2: World) {
    && w.phase.Idle? && w.h.openMember.Some? && w.Listed() in w.pens
    && var pen := w.pens[w.Listed()];
       RegisterStep(c, Released(w), w2, pen.name, pen.content)
  }

  ghost predicate DiscardStep(c: Config, w: World, w2: World) {
    w.phase.Idle? && w2 == w.(h := Discarded(c, w.disk.volatile, w.h))
  }

  /** `commit_staged` writes the directory, or refuses or fails before its barrier. */
  ghost predicate SealStep(c: Config, w: World, w2: World, ok: bool)
    requires DiskOk(w.disk)
  {
    && w.phase.Idle? && Writable(w.h) && w.h.staged
    && NextSeq(w.h) <= U64_MAX && Committable(c.p, NextTables(w.h), NextDirOff(w.h))
    && Wrote(c.p, w.disk, NextDirOff(w.h), StoredDirectory(c, w.h), ok, w2.disk)
    && w2 == if ok then w.(disk := w2.disk, phase := Sealed(NextSuperblock(c, w.h), NextFree(w.h)),
                           h := w.h.(failedSelected := None))
             else w.(disk := w2.disk, h := Poisoned(c, w2.disk.volatile, w.h.(failedSelected := None)))
  }

  ghost predicate RefuseStep(c: Config, w: World, w2: World) {
    && w.phase.Idle? && Writable(w.h) && w.h.staged
    && w2 == w.(h := Poisoned(c, w.disk.volatile, w.h.(failedSelected := None)))
  }

  /** After any successful barrier the selected state is the durable one. */
  function Settled(w: World): World
    requires w.fallbackSlot <= 1
  {
    w.(fallback := w.Current(), fallbackSlot := w.CurrentSlot(), attempt := None)
  }

  /** The pre-flip barrier. */
  ghost predicate BarrierStep(c: Config, w: World, w2: World, ok: bool)
    requires w.fallbackSlot <= 1
  {
    && w.phase.Sealed?
    && w2 == if ok then Settled(w).(disk := Flushed(w.disk),
                                    phase := Barred(w.phase.next, w.phase.free))
             else w.(phase := Idle, h := Poisoned(c, w.disk.volatile, w.h.(failedSelected := None)))
  }

  /** The state a flip publishes. */
  function Successor(w: World, next: Superblock, free: seq<Freed>): Snapshot {
    var t := Tables(w.h.tables.dir, free);
    Snapshot(next, t, Contents(w.disk.volatile, t.dir))
  }

  /** The slot write. When it fails the new claim may still have landed whole. */
  ghost predicate FlipStep(c: Config, w: World, w2: World, ok: bool)
    requires DiskOk(w.disk)
  {
    && w.phase.Barred? && w.h.slot <= 1
    && var slot := 1 - w.h.slot;
       var image := EncodeSlot(c.p, w.phase.next);
       && Wrote(c.p, w.disk, slot * SLOT_LEN, image, ok, w2.disk)
       && var landed := SlotBytes(w2.disk.volatile, slot) == image;
          var s := Successor(w, w.phase.next, w.phase.free);
          w2 == w.(
            disk := w2.disk,
            phase := if ok then Flipped(w.phase.next, w.phase.free) else Broken(w.phase.next),
            attempt := if landed then Some(s) else None,
            readers := if landed then w.readers + [s] else w.readers)
  }

  /** The final barrier: on success the handle adopts the new state. */
  ghost predicate SettleStep(w: World, w2: World, ok: bool)
    requires w.fallbackSlot <= 1
  {
    && w.phase.Flipped?
    && w2 == if ok then Settled(w).(
               disk := Flushed(w.disk), phase := Idle,
               h := w.h.(tables := Tables(w.h.tables.dir, w.phase.free), sb := w.phase.next, tail := w.phase.next.tail,
                         slot := if w.h.slot == 0 then 1 else 0, staged := false, failedSelected := None,
                         acknowledged := true))
             else w.(phase := Broken(w.phase.next))
  }

  ghost predicate ReconcileStep(c: Config, w: World, w2: World) {
    && w.phase.Broken? && w.h.slot <= 1
    && w2 == w.(phase := Idle, h := Reconciled(c, w.disk.volatile, w.h, w.phase.next))
  }

  /** `acknowledge_current_state`, and any other barrier outside a commit. */
  ghost predicate AcknowledgeStep(w: World, w2: World)
    requires w.fallbackSlot <= 1
  {
    && w.phase.Idle? && !w.h.poisoned
    && w2 == Settled(w).(disk := Flushed(w.disk), h := w.h.(acknowledged := true))
  }

  /** A commit with nothing staged and a barrier already behind it, or a failed barrier. */
  ghost predicate IdleStep(w: World, w2: World) { w2 == w }

  /** The bytes `punch_free_extents` deallocates of one free extent. */
  function PunchLo(f: Freed): nat { AlignUp(f.off) }
  function PunchHi(f: Freed): nat { (f.off + f.len) / ALIGN * ALIGN }

  /** The sum stops at the largest 64-bit number. */
  predicate OldEnough(f: Freed, seqno: nat, grace: nat) { Min(f.seqno + grace, U64_MAX) <= seqno }

  /** The oldest state a punch with this grace spares; at the last sequence number, the selected one alone. */
  function Spared(seqno: nat, grace: nat): nat {
    if seqno >= U64_MAX then seqno else Max(0, seqno - grace)
  }

  predicate Punchable(h: Handle, f: Freed, grace: nat) {
    f in h.tables.free && OldEnough(f, h.sb.seqno, grace) && PunchLo(f) < PunchHi(f)
  }

  /** Punching one free extent. The caller has acknowledged the selected state first. */
  ghost predicate PunchStep(c: Config, w: World, w2: World, f: Freed, grace: nat, ok: bool)
    requires DiskOk(w.disk)
  {
    && w.phase.Idle? && !w.h.poisoned && w.h.acknowledged
    && Punchable(w.h, f, grace)
    && Wrote(c.p, w.disk, PunchLo(f), Zeros(PunchHi(f) - PunchLo(f)), ok, w2.disk)
    && w2 == w.(disk := w2.disk, horizon := Max(w.horizon, Spared(w.h.sb.seqno, grace)) as nat)
  }

  /** The file is opened again, by this process or after its death. Handles of the earlier opening may
      outlive it. */
  ghost predicate ReopenStep(c: Config, w: World, w2: World) {
    && Open(c, w.disk.volatile).Ok?
    && w2 == w.(phase := Idle, h := HandleOf(Open(c, w.disk.volatile).value), opening := w.opening + 1)
  }

  /** Power fails, at any point, and the machine comes back with one of the possible files. */
  ghost predicate CrashStep(c: Config, w: World, w2: World, img: seq<Byte>)
    requires DiskOk(w.disk)
  {
    && CrashImage(c.p, w.disk, img) && Open(c, img).Ok?
    && var o := Open(c, img).value;
       var s := Snapshot(o.sb, o.tables, Contents(img, o.tables.dir));
       w2 == World(Disk(img, img, iset{}), HandleOf(o), Idle, s, o.slot, None, [s], o.sb.seqno, w.opening + 1, map[], w.marred)
  }

  /** The steps the container's own calls take. */
  ghost predicate OwnStep(c: Config, w: World, w2: World)
    requires DiskOk(w.disk) && w.fallbackSlot <= 1
  {
    || (exists off, data, ok :: WriteStep(c, w, w2, off, data, ok))
    || (exists name, content :: PutStep(c, w, w2, name, content))
    || (exists name, delta :: GrowStep(c, w, w2, name, delta))
    || (exists name :: DropStep(w, w2, name))
    || (exists name :: BeginStep(c, w, w2, name))
    || AbandonStep(w, w2)
    || FinishStep(c, w, w2)
    || DiscardStep(c, w, w2)
    || (exists ok :: SealStep(c, w, w2, ok))
    || RefuseStep(c, w, w2)
    || (exists ok :: BarrierStep(c, w, w2, ok))
    || (exists ok :: FlipStep(c, w, w2, ok))
    || (exists ok :: SettleStep(w, w2, ok))
    || ReconcileStep(c, w, w2)
    || AcknowledgeStep(w, w2)
    || IdleStep(w, w2)
    || (exists f, grace, ok :: PunchStep(c, w, w2, f, grace, ok))
    || ReopenStep(c, w, w2)
    || (exists img :: CrashStep(c, w, w2, img))
  }

  /** Those, and writes through member handles at or past the published tail, the handle listed or not. */
  ghost predicate Next(c: Config, w: World, w2: World) {
    && DiskOk(w.disk) && w.fallbackSlot <= 1
    && (|| OwnStep(c, w, w2)
        || (exists t, data, ok :: PenStep(c, w, w2, t, data, ok) && PastTail(w, t)))
  }

  /** `create`: the birth image, durable. */
  function BirthImage(c: Config): seq<Byte> {
    EncodeSlot(c.p, BIRTH) + Zeros(SLOT_LEN)
  }

  function BirthWorld(c: Config): World {
    var s := Snapshot(BIRTH, Tables([], []), []);
    World(Disk(BirthImage(c), BirthImage(c), iset{}),
          Handle(Tables([], []), BIRTH, REGION_START, 0, false, None, 0, false, None, true),
          Idle, s, 0, None, [s], 0, 0, map[], {})
  }

  /** A run: a new container followed by any number of steps. */
  ghost predicate Run(c: Config, ws: seq<World>) {
    && |ws| > 0 && ws[0] == BirthWorld(c)
    && forall i :: 0 <= i < |ws| - 1 ==> Next(c, ws[i], ws[i + 1])
  }
}
