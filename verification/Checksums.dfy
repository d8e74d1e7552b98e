/** End-to-end member content: what was staged is what reads back, and every directory checksum is
    the checksum of exactly those bytes, through appends that never reread them. */
module Checksums {
  import opened Bytes
  import opened Host
  import opened Directory
  import opened Layout
  import opened Superblocks
  import opened Device
  import opened Staging
  import opened Publication
  import opened Durability
  import opened DurabilitySteps
  import opened Readers

  /** A directory entry's own claims about its bytes. Its checksum may be another only when the member begins
      where one was registered over bytes that no longer stood. */
  predicate EntrySum(p: Platform, m: Member, content: seq<Byte>, marred: set<nat>) {
    m.len == |content| && (Marred(m, marred) || m.xsum == p.crc(content))
  }

  predicate Marred(m: Member, marred: set<nat>) { |m.extents| > 0 && m.extents[0].off in marred }

  ghost predicate SumsOk(p: Platform, dir: seq<Entry>, contents: seq<seq<Byte>>, marred: set<nat>) {
    |contents| == |dir| && forall i :: 0 <= i < |dir| ==> EntrySum(p, dir[i].member, contents[i], marred)
  }

  ghost predicate FileSums(p: Platform, file: seq<Byte>, dir: seq<Entry>, marred: set<nat>) {
    && (forall e :: e in MemberClaims(dir) ==> End(e) <= |file|)
    && SumsOk(p, dir, Contents(file, dir), marred)
  }

  ghost predicate SumsInv(c: Config, w: World) {
    && SumsOk(c.p, w.fallback.tables.dir, w.fallback.contents, w.marred)
    && (w.attempt.Some? ==> SumsOk(c.p, w.attempt.value.tables.dir, w.attempt.value.contents, w.marred))
    && (StillStaging(w) ==> FileSums(c.p, w.disk.volatile, w.h.tables.dir, w.marred))
  }

  // ---- reading one member -----------------------------------------------------------------------------

  /** A member's bytes through the handle's view, or nothing when it is absent. */
  function ReadMember(file: seq<Byte>, dir: seq<Entry>, name: Name): Option<seq<Byte>> {
    match Lookup(dir, name)
    case Some(m) => Some(ReadExtents(file, m.extents))
    case None => None
  }

  lemma {:induction false} ReadSplit(file: seq<Byte>, a: seq<Extent>, e: Extent)
    ensures ReadExtents(file, a + [e]) == ReadExtents(file, a) + Slice(file, e)
  {
    assert (a + [e])[..|a|] == a;
  }

  /** A fresh member reads back the bytes written for it. */
  lemma FreshReads(file: seq<Byte>, off: nat, content: seq<Byte>, xsum: nat)
    requires |content| > 0 ==> off + |content| <= |file| && file[off..off + |content|] == content
    ensures ReadExtents(file, FreshMember(off, |content|, xsum).extents) == content
  {
    if |content| > 0 { ReadSplit(file, [], Extent(off, |content|)); assert [] + [Extent(off, |content|)] == [Extent(off, |content|)]; }
  }

  lemma LastReplaced(s: seq<Extent>, x: Extent)
    requires |s| > 0
    ensures s == s[..|s| - 1] + [s[|s| - 1]] && s[|s| - 1 := x] == s[..|s| - 1] + [x]
  {
  }

  /** An appended member reads back its old bytes followed by the delta, whether or not the delta
      became a new extent. */
  lemma {:induction false} GrownReads(file: seq<Byte>, m: Member, tail: nat, delta: seq<Byte>, xsum: nat)
    requires var off := AppendAt(m, tail); off + |delta| <= |file| && file[off..off + |delta|] == delta
    ensures ReadExtents(file, GrownMember(m, tail, |delta|, xsum).extents) == ReadExtents(file, m.extents) + delta
  {
    hide AlignUp, ReadExtents, Slice, GrownMember, AppendAt, Coalesces;
    GrownExtents(m, tail, |delta|, xsum);
    if Coalesces(m, tail) {
      LengthenedReads(file, m.extents, delta);
    } else {
      AddedReads(file, m.extents, AppendAt(m, tail), delta);
    }
  }

  lemma GrownExtents(m: Member, tail: nat, len: nat, xsum: nat)
    ensures Coalesces(m, tail) ==>
              var n := |m.extents|;
              && n > 0 && AppendAt(m, tail) == tail == End(m.extents[n - 1])
              && GrownMember(m, tail, len, xsum).extents == m.extents[n - 1 := Extent(m.extents[n - 1].off, m.extents[n - 1].len + len)]
    ensures !Coalesces(m, tail) ==>
              GrownMember(m, tail, len, xsum).extents == m.extents + [Extent(AppendAt(m, tail), len)]
  {
    hide AlignUp;
  }

  lemma LengthenedReads(file: seq<Byte>, es: seq<Extent>, delta: seq<Byte>)
    requires |es| > 0
    requires var end := End(es[|es| - 1]); end + |delta| <= |file| && file[end..end + |delta|] == delta
    ensures var n, last := |es|, es[|es| - 1];
            ReadExtents(file, es[n - 1 := Extent(last.off, last.len + |delta|)]) == ReadExtents(file, es) + delta
  {
    hide ReadExtents, Slice;
    var n, last := |es|, es[|es| - 1];
    CoalescedReads(file, es[..n - 1], last, delta);
    LastReplaced(es, Extent(last.off, last.len + |delta|));
  }

  lemma AddedReads(file: seq<Byte>, es: seq<Extent>, off: nat, delta: seq<Byte>)
    requires off + |delta| <= |file| && file[off..off + |delta|] == delta
    ensures ReadExtents(file, es + [Extent(off, |delta|)]) == ReadExtents(file, es) + delta
  {
    hide ReadExtents;
    ReadSplit(file, es, Extent(off, |delta|));
  }

  lemma CoalescedReads(file: seq<Byte>, before: seq<Extent>, last: Extent, delta: seq<Byte>)
    requires End(last) + |delta| <= |file| && file[End(last)..End(last) + |delta|] == delta
    ensures ReadExtents(file, before + [Extent(last.off, last.len + |delta|)]) == ReadExtents(file, before + [last]) + delta
  {
    hide ReadExtents, Slice;
    var grown := Extent(last.off, last.len + |delta|);
    ReadSplit(file, before, last);
    ReadSplit(file, before, grown);
    SliceGrows(file, last, delta);
    Reassociate(ReadExtents(file, before), Slice(file, last), delta);
  }

  lemma SliceGrows(file: seq<Byte>, e: Extent, delta: seq<Byte>)
    requires End(e) + |delta| <= |file| && file[End(e)..End(e) + |delta|] == delta
    ensures Slice(file, Extent(e.off, e.len + |delta|)) == Slice(file, e) + delta
  {
    assert file[e.off..End(e) + |delta|] == file[e.off..End(e)] + file[End(e)..End(e) + |delta|];
  }

  lemma Reassociate(a: seq<Byte>, b: seq<Byte>, d: seq<Byte>)
    ensures a + (b + d) == a + b + d
  {
  }

  // ---- edits ----------------------------------------------------------------------------------------------

  lemma PutEnds(file: seq<Byte>, dir: seq<Entry>, e: Entry)
    requires forall x :: x in MemberClaims(dir) ==> End(x) <= |file|
    requires forall x :: x in e.member.extents ==> End(x) <= |file|
    ensures forall x :: x in MemberClaims(PutEntryIn(dir, e)) ==> End(x) <= |file|
  {
    hide Position, Contains, PutEntryIn;
    var r := PutEntryIn(dir, e);
    forall x | x in MemberClaims(r) ensures End(x) <= |file| {
      MemberClaimsFrom(r, x);
      var i, j :| 0 <= i < |r| && 0 <= j < |r[i].member.extents| && r[i].member.extents[j] == x;
      PutEntryAt(dir, e, i);
      if r[i] != e { EntryClaims(dir, r[i], x); }
    }
  }

  lemma PutSums(p: Platform, file: seq<Byte>, dir: seq<Entry>, e: Entry, marred: set<nat>)
    requires FileSums(p, file, dir, marred)
    requires EntrySum(p, e.member, ReadExtents(file, e.member.extents), marred)
    requires forall x :: x in e.member.extents ==> End(x) <= |file|
    ensures FileSums(p, file, PutEntryIn(dir, e), marred)
  {
    hide EntrySum, ReadExtents, MemberClaims, PutEntryIn;
    var r := PutEntryIn(dir, e);
    var k := Position(dir, e.name);
    PutEnds(file, dir, e);
    forall i | 0 <= i < |r| ensures EntrySum(p, r[i].member, ReadExtents(file, r[i].member.extents), marred) {
      PutEntryAt(dir, e, i);
      if i != k {
        var i' := if i < k || Contains(dir, e.name) then i else i - 1;
        assert EntrySum(p, dir[i'].member, Contents(file, dir)[i'], marred);
      }
    }
  }

  lemma EntryClaims(dir: seq<Entry>, e: Entry, x: Extent)
    requires e in dir && x in e.member.extents
    ensures x in MemberClaims(dir)
  {
    var i :| 0 <= i < |dir| && dir[i] == e;
    var k :| 0 <= k < |e.member.extents| && e.member.extents[k] == x;
    MemberClaimsAt(dir, i, k);
    assert x in multiset(MemberClaims(dir));
  }

  lemma DropSums(p: Platform, file: seq<Byte>, dir: seq<Entry>, name: Name, marred: set<nat>)
    requires FileSums(p, file, dir, marred)
    ensures FileSums(p, file, DropEntry(dir, name), marred)
  {
    hide Position, Contains, DropEntry, MemberClaims, ReadExtents, EntrySum;
    var r := DropEntry(dir, name);
    forall x | x in MemberClaims(r) ensures End(x) <= |file| {
      MemberClaimsFrom(r, x);
      var i, j :| 0 <= i < |r| && 0 <= j < |r[i].member.extents| && r[i].member.extents[j] == x;
      var i' := DroppedFrom(dir, name, i);
      assert r[i] in dir;
      EntryClaims(dir, r[i], x);
    }
    forall i | 0 <= i < |r| ensures EntrySum(p, r[i].member, ReadExtents(file, r[i].member.extents), marred) {
      var i' := DroppedFrom(dir, name, i);
      assert EntrySum(p, dir[i'].member, Contents(file, dir)[i'], marred);
    }
  }

  /** Where an entry that survives a drop stood before it. */
  lemma DroppedFrom(dir: seq<Entry>, name: Name, i: nat) returns (j: nat)
    requires i < |DropEntry(dir, name)|
    ensures j < |dir| && DropEntry(dir, name)[i] == dir[j]
  {
    j := if i < Position(dir, name) || !Contains(dir, name) then i else i + 1;
  }

  lemma SumsFrame(p: Platform, a: seq<Byte>, b: seq<Byte>, dir: seq<Entry>, marred: set<nat>)
    requires FileSums(p, a, dir, marred) && |a| <= |b|
    requires forall e, i :: e in MemberClaims(dir) && e.off <= i < End(e) ==> i < |a| ==> a[i] == b[i]
    ensures FileSums(p, b, dir, marred)
  {
    forall e | e in MemberClaims(dir) ensures SameRange(a, b, e.off, End(e)) { }
    ContentsLocal(a, b, dir);
  }

  // ---- steps --------------------------------------------------------------------------------------------------

  lemma BirthSums(c: Config)
    ensures SumsInv(c, BirthWorld(c))
  {
  }

  lemma RegionWriteKeepsSums(c: Config, w: World, w2: World, off: nat, data: seq<Byte>, ok: bool)
    requires c.p.Lawful() && DiskInv(c, w) && HandleInv(c, w) && SumsInv(c, w)
    requires w.phase.Idle? && !w.h.poisoned && off >= w.h.tail && Wrote(c.p, w.disk, off, data, ok, w2.disk)
    ensures FileSums(c.p, w2.disk.volatile, w.h.tables.dir, w.marred)
  {
    hide SnapOk, Durable, Slots, SlotOutcome, Placed, FreeOk, SumsOk;
    forall e, i | e in MemberClaims(w.h.tables.dir) && e.off <= i < End(e) && i < |w.disk.volatile|
      ensures w.disk.volatile[i] == w2.disk.volatile[i]
    {
      ClaimInDir(w.h.tables.dir, c.p, w.h.tail, e);
    }
    SumsFrame(c.p, w.disk.volatile, w2.disk.volatile, w.h.tables.dir, w.marred);
  }

  lemma WriteKeepsSums(c: Config, w: World, w2: World, off: nat, data: seq<Byte>, ok: bool)
    requires c.p.Lawful() && DiskInv(c, w) && HandleInv(c, w) && SumsInv(c, w) && RegionWrite(c, w, w2, off, data, ok)
    ensures SumsInv(c, w2)
  {
    hide DiskInv, HandleInv, FileSums, SumsOk, Wrote;
    RegionWriteKeepsSums(c, w, w2, off, data, ok);
  }

  /** Members a write does not touch keep their checksums, and those it touches their lengths. */
  lemma StruckSums(p: Platform, a: seq<Byte>, b: seq<Byte>, dir: seq<Entry>, off: nat, len: nat, marred: set<nat>)
    requires FileSums(p, a, dir, marred) && |a| <= |b|
    requires forall i :: 0 <= i < |a| && (i < off || off + len <= i) ==> b[i] == a[i]
    ensures FileSums(p, b, dir, marred + Struck(dir, off, len))
  {
    hide MemberClaims, ReadExtents, Touched;
    var more := marred + Struck(dir, off, len);
    forall i | 0 <= i < |dir| ensures EntrySum(p, dir[i].member, Contents(b, dir)[i], more) {
      var m := dir[i].member;
      assert EntrySum(p, m, Contents(a, dir)[i], marred);
      forall e | e in m.extents ensures End(e) <= |a| { EntryClaims(dir, dir[i], e); }
      SameLength(a, b, m.extents);
      if Touched(m, off, len) {
        TouchedIsStruck(dir, off, len, i);
      } else {
        UntouchedReads(a, b, m, off, len);
      }
    }
  }

  lemma TouchedIsStruck(dir: seq<Entry>, off: nat, len: nat, i: nat)
    requires i < |dir| && Touched(dir[i].member, off, len)
    ensures |dir[i].member.extents| > 0 && dir[i].member.extents[0].off in Struck(dir, off, len)
  {
  }

  lemma {:induction false} SameLength(a: seq<Byte>, b: seq<Byte>, es: seq<Extent>)
    requires |a| <= |b| && forall e :: e in es ==> End(e) <= |a|
    ensures |ReadExtents(a, es)| == |ReadExtents(b, es)|
    decreases |es|
  {
    if |es| > 0 {
      assert es[|es| - 1] in es;
      SameLength(a, b, es[..|es| - 1]);
    }
  }

  lemma UntouchedReads(a: seq<Byte>, b: seq<Byte>, m: Member, off: nat, len: nat)
    requires |a| <= |b| && (forall e :: e in m.extents ==> End(e) <= |a|) && !Touched(m, off, len)
    requires forall i :: 0 <= i < |a| && (i < off || off + len <= i) ==> b[i] == a[i]
    ensures ReadExtents(a, m.extents) == ReadExtents(b, m.extents)
  {
    forall e | e in m.extents ensures SameRange(a, b, e.off, End(e)) { }
    ReadExtentsLocal(a, b, m.extents);
  }

  lemma TailWriteKeepsSums(c: Config, w: World, w2: World, off: nat, data: seq<Byte>, ok: bool)
    requires DiskOk(w.disk) && SumsInv(c, w) && TailWrite(c, w, w2, off, data, ok)
    ensures SumsInv(c, w2)
  {
    hide SumsOk, FileSums, Struck, SlotOutcome;
    SumsLoosen(c.p, w.fallback.tables.dir, w.fallback.contents, w.marred, w2.marred);
    if w.attempt.Some? { SumsLoosen(c.p, w.attempt.value.tables.dir, w.attempt.value.contents, w.marred, w2.marred); }
    if StillStaging(w) { StruckSums(c.p, w.disk.volatile, w2.disk.volatile, w.h.tables.dir, off, |data|, w.marred); }
  }

  /** More marred places excuse no less. */
  lemma SumsLoosen(p: Platform, dir: seq<Entry>, contents: seq<seq<Byte>>, marred: set<nat>, more: set<nat>)
    requires SumsOk(p, dir, contents, marred) && marred <= more
    ensures SumsOk(p, dir, contents, more)
  {
    forall i | 0 <= i < |dir| ensures EntrySum(p, dir[i].member, contents[i], more) {
      assert EntrySum(p, dir[i].member, contents[i], marred);
    }
  }

  /** A registered member: its length is right whatever the file holds, its checksum when the bytes stand. */
  lemma RegisteredSum(p: Platform, file: seq<Byte>, off: nat, content: seq<Byte>, marred: set<nat>)
    requires |content| > 0 ==> off + |content| <= |file|
    requires Stands(file, off, content) || off in marred
    ensures var m := FreshMember(off, |content|, p.crc(content)); EntrySum(p, m, ReadExtents(file, m.extents), marred)
  {
    hide ReadExtents;
    var there := if |content| > 0 then file[off..off + |content|] else [];
    FreshReads(file, off, there, p.crc(content));
  }

  lemma RegisterKeepsSums(c: Config, w: World, w2: World, name: Name, content: seq<Byte>)
    requires c.p.Lawful() && SumsInv(c, w) && RegisterStep(c, w, w2, name, content)
    ensures SumsInv(c, w2)
  {
    hide SumsOk, ValidName, PutEntryIn, EntrySum, Stands, ReadExtents;
    var file, off := w.disk.volatile, AlignUp(w.h.tail);
    var m := FreshMember(off, |content|, c.p.crc(content));
    SumsLoosen(c.p, w.fallback.tables.dir, w.fallback.contents, w.marred, w2.marred);
    if w.attempt.Some? { SumsLoosen(c.p, w.attempt.value.tables.dir, w.attempt.value.contents, w.marred, w2.marred); }
    SumsLoosen(c.p, w.h.tables.dir, Contents(file, w.h.tables.dir), w.marred, w2.marred);
    RegisteredSum(c.p, file, off, content, w2.marred);
    PutSums(c.p, file, w.h.tables.dir, Entry(name, m), w2.marred);
  }

  lemma GrownEnds(m: Member, tail: nat, len: nat, xsum: nat, limit: nat, x: Extent)
    requires x in GrownMember(m, tail, len, xsum).extents
    requires forall e :: e in m.extents ==> End(e) <= limit
    requires AppendAt(m, tail) + len <= limit
    ensures End(x) <= limit
  {
    if x !in m.extents {
      if Coalesces(m, tail) {
        assert x == Extent(m.extents[|m.extents| - 1].off, m.extents[|m.extents| - 1].len + len);
      } else {
        assert x == Extent(AlignUp(tail), len);
      }
    }
  }

  lemma GrowKeepsSums(c: Config, w: World, w2: World, name: Name, delta: seq<Byte>)
    requires c.p.Lawful() && SumsInv(c, w) && GrowStep(c, w, w2, name, delta)
    ensures SumsInv(c, w2)
  {
    hide PutEntryIn, Position, GrownMember, AppendAt;
    var dir, file := w.h.tables.dir, w.disk.volatile;
    var k := Position(dir, name);
    var m := dir[k].member;
    var was := ReadExtents(file, m.extents);
    var xsum := c.p.crcCombine(m.xsum, c.p.crc(delta), |delta|);
    var m2 := GrownMember(m, w.h.tail, |delta|, xsum);
    assert EntrySum(c.p, m, Contents(file, dir)[k], w.marred);
    GrownReads(file, m, w.h.tail, delta, xsum);
    assert EntrySum(c.p, m2, was + delta, w.marred) by { GrownSum(c.p, m, w.h.tail, was, delta, w.marred); }
    forall e | e in m.extents ensures End(e) <= |file| { EntryClaims(dir, dir[k], e); }
    forall x | x in m2.extents ensures End(x) <= |file| { GrownEnds(m, w.h.tail, |delta|, xsum, |file|, x); }
    PutSums(c.p, file, dir, Entry(name, m2), w.marred);
  }

  /** A member that grows begins where it began. */
  lemma GrownSum(p: Platform, m: Member, tail: nat, was: seq<Byte>, delta: seq<Byte>, marred: set<nat>)
    requires p.Lawful() && EntrySum(p, m, was, marred)
    ensures EntrySum(p, GrownMember(m, tail, |delta|, p.crcCombine(m.xsum, p.crc(delta), |delta|)), was + delta, marred)
  {
    if Marred(m, marred) {
      assert Marred(GrownMember(m, tail, |delta|, p.crcCombine(m.xsum, p.crc(delta), |delta|)), marred);
    }
  }

  lemma DropKeepsSums(c: Config, w: World, w2: World, name: Name)
    requires SumsInv(c, w) && DropStep(w, w2, name)
    ensures SumsInv(c, w2)
  {
    hide FileSums, SumsOk, DropEntry;
    DropSums(c.p, w.disk.volatile, w.h.tables.dir, name, w.marred);
  }

  /** Putting the handle back on the current state. */
  lemma CurrentFileSums(c: Config, w: World)
    requires c.p.Lawful() && DiskInv(c, w) && SumsInv(c, w)
    ensures FileSums(c.p, w.disk.volatile, w.Current().tables.dir, w.marred)
  {
    hide Slots, Durable, SumsOk, ReadTables, Placed, FreeOk;
    VolatileSelectsCurrent(c, w);
    var s := w.Current();
    SemanticBounds(s.sb);
    forall e | e in MemberClaims(s.tables.dir) ensures End(e) <= |w.disk.volatile| {
      ClaimInDir(s.tables.dir, c.p, s.sb.dirOff, e);
    }
  }

  lemma RebasedKeepsSums(c: Config, w: World, w2: World)
    requires c.p.Lawful() && DiskInv(c, w) && SumsInv(c, w)
    requires w2.disk.volatile == w.disk.volatile && w2.marred == w.marred
    requires w2.fallback in {w.fallback, w.Current()} && (w2.attempt.Some? ==> w2.attempt == w.attempt)
    requires StillStaging(w2) ==> w2.h.tables == w.Current().tables || (StillStaging(w) && w2.h.tables == w.h.tables)
    ensures SumsInv(c, w2)
  {
    hide SumsOk, FileSums, DiskInv;
    CurrentFileSums(c, w);
  }

  lemma SealKeepsSums(c: Config, w: World, w2: World, ok: bool)
    requires c.p.Lawful() && DiskInv(c, w) && HandleInv(c, w) && SumsInv(c, w) && SealStep(c, w, w2, ok)
    ensures SumsInv(c, w2)
  {
    hide DiskInv, HandleInv, FileSums, SumsOk, Wrote, Payload, SealOf, Committable, AlignUp;
    AlignedPast(w.h.tail);
    RegionWriteKeepsSums(c, w, w2, NextDirOff(w.h), StoredDirectory(c, w.h), ok);
  }

  lemma AlignedPast(x: nat)
    ensures AlignUp(x) >= x
  {
  }

  lemma FlipKeepsSums(c: Config, w: World, w2: World, ok: bool)
    requires w.fallbackSlot <= 1 && DiskOk(w.disk)
    requires SumsInv(c, w) && HandleInv(c, w) && FlipStep(c, w, w2, ok)
    ensures SumsInv(c, w2)
  {
    hide EncodeSlot, DecodeSlot, SlotOutcome, EntrySum, StagedOk, Committable, SealOf;
  }

  lemma PunchKeepsSums(c: Config, w: World, w2: World, f: Freed, grace: nat, ok: bool)
    requires c.p.Lawful() && DiskInv(c, w) && HandleInv(c, w) && SumsInv(c, w) && PunchStep(c, w, w2, f, grace, ok)
    ensures SumsInv(c, w2)
  {
    hide SnapOk, Durable, Slots, SumsOk, DirOk, FreeOk, Wrote, Placed;
    var dir := w.h.tables.dir;
    PunchBytes(c, w, w2, f, grace, ok);
    PunchWindow(f);
    forall e, i | e in MemberClaims(dir) && e.off <= i < End(e) && i < |w.disk.volatile|
      ensures w.disk.volatile[i] == w2.disk.volatile[i]
    {
      FreeIsDisjoint(w.h.tables, DirExtent(w.h.sb), w.h.tail, f, e);
    }
    SumsFrame(c.p, w.disk.volatile, w2.disk.volatile, dir, w.marred);
  }
}
