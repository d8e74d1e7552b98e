/** Reader isolation and space reuse: a reader holding an older published state keeps reading the
    same member bytes, and hole punching destroys nothing any supported reader names. */
module Readers {
  import opened Bytes
  import opened Host
  import opened Directory
  import opened Layout
  import opened Superblocks
  import opened Device
  import opened Staging
  import opened Publication
  import opened Durability
  import opened DurabilitySteps

  /** Every extent `s` names is still a live member's, possibly grown, or was freed after `s` was
      published. */
  ghost predicate Kept(s: Snapshot, t: Tables) {
    forall e :: e in MemberClaims(s.tables.dir) ==> KeptExtent(e, s.sb.seqno, t)
  }

  ghost predicate KeptExtent(e: Extent, seqno: nat, t: Tables) {
    || (exists x :: x in MemberClaims(t.dir) && x.off == e.off && e.len <= x.len)
    || (exists f :: f in t.free && f.off == e.off && e.len <= f.len && seqno < f.seqno)
  }

  ghost predicate ReaderOk(c: Config, file: seq<Byte>, cur: Snapshot, s: Snapshot) {
    && SnapOk(c, s)
    && s.sb.seqno <= cur.sb.seqno && s.sb.tail <= cur.sb.tail <= |file|
    && Contents(file, s.tables.dir) == s.contents
    && Kept(s, cur.tables)
  }

  ghost predicate ReadersInv(c: Config, w: World) {
    && w.Current() in w.readers && w.horizon <= w.Current().sb.seqno
    && (forall s :: s in w.readers && w.horizon <= s.sb.seqno ==> ReaderOk(c, w.disk.volatile, w.Current(), s))
    && (StillStaging(w) ==> forall s :: s in w.readers && w.horizon <= s.sb.seqno ==> Kept(s, w.h.tables))
  }

  /** The handle's tables still extend the current state. */
  predicate StillStaging(w: World) {
    !w.h.poisoned && (w.phase.Idle? || w.phase.Sealed? || w.phase.Barred?)
  }

  lemma KeptBySelf(s: Snapshot)
    ensures Kept(s, s.tables)
  {
  }

  lemma BirthReaders(c: Config)
    requires c.p.Lawful()
    ensures ReadersInv(c, BirthWorld(c))
  {
    BirthInv(c);
    DecodeInvertsEncode(c.p, BIRTH);
    assert Contents(BirthImage(c), []) == [];
  }

  // ---- writes that touch no reader -------------------------------------------------------------------

  lemma ReaderFrame(c: Config, a: seq<Byte>, b: seq<Byte>, cur: Snapshot, s: Snapshot)
    requires ReaderOk(c, a, cur, s) && |a| <= |b|
    requires forall e, i :: e in MemberClaims(s.tables.dir) && e.off <= i < End(e) ==> i < |a| ==> a[i] == b[i]
    ensures ReaderOk(c, b, cur, s)
  {
    hide Kept, Placed, DirOk, FreeOk, Semantic, Contents;
    SemanticBounds(s.sb);
    forall e | e in MemberClaims(s.tables.dir) ensures SameRange(a, b, e.off, End(e)) {
      ClaimInDir(s.tables.dir, c.p, s.sb.dirOff, e);
    }
    ContentsLocal(a, b, s.tables.dir);
  }

  /** A write at or past the published tail, or inside a slot, is invisible to every reader. */
  lemma UnseenWrite(c: Config, a: seq<Byte>, b: seq<Byte>, cur: Snapshot, s: Snapshot)
    requires ReaderOk(c, a, cur, s) && |a| <= |b|
    requires forall i :: REGION_START <= i < cur.sb.tail ==> i < |a| ==> a[i] == b[i]
    ensures ReaderOk(c, b, cur, s)
  {
    hide Kept, Placed, DirOk, FreeOk, Semantic, Contents;
    SemanticBounds(s.sb);
    forall e, i | e in MemberClaims(s.tables.dir) && e.off <= i < End(e) && i < |a| ensures a[i] == b[i] {
      ClaimInDir(s.tables.dir, c.p, s.sb.dirOff, e);
    }
    ReaderFrame(c, a, b, cur, s);
  }

  lemma UnseenWriteAll(c: Config, w: World, w2: World)
    requires ReadersInv(c, w)
    requires |w.disk.volatile| <= |w2.disk.volatile|
    requires forall i :: REGION_START <= i < w.Current().sb.tail ==> i < |w.disk.volatile| ==> w.disk.volatile[i] == w2.disk.volatile[i]
    requires w2.Current() == w.Current() && w2.readers == w.readers && w2.horizon == w.horizon
    requires StillStaging(w2) ==> StillStaging(w) && w2.h.tables == w.h.tables
    ensures ReadersInv(c, w2)
  {
    hide ReaderOk, Kept;
    forall s | s in w.readers && w.horizon <= s.sb.seqno ensures ReaderOk(c, w2.disk.volatile, w.Current(), s) {
      UnseenWrite(c, w.disk.volatile, w2.disk.volatile, w.Current(), s);
    }
  }

  lemma WriteKeepsReaders(c: Config, w: World, w2: World, off: nat, data: seq<Byte>, ok: bool)
    requires c.p.Lawful() && DiskInv(c, w) && HandleInv(c, w) && ReadersInv(c, w) && RegionWrite(c, w, w2, off, data, ok)
    ensures ReadersInv(c, w2)
  {
    hide DiskInv, ReadersInv, StagedOk;
    RegionWriteKeepsDisk(c, w, w2, off, data, ok);
    UnseenWriteAll(c, w, w2);
  }

  lemma TailWriteKeepsReaders(c: Config, w: World, w2: World, off: nat, data: seq<Byte>, ok: bool)
    requires c.p.Lawful() && DiskInv(c, w) && ReadersInv(c, w) && TailWrite(c, w, w2, off, data, ok)
    ensures ReadersInv(c, w2)
  {
    hide DiskInv, ReadersInv, Wrote, Struck;
    RegionWriteKeepsDisk(c, w, w2, off, data, ok);
    UnseenWriteAll(c, w, w2);
  }

  // ---- staging keeps the extents older readers name ----------------------------------------------------

  lemma KeptThroughEdit(s: Snapshot, t: Tables, t2: Tables, nextSeq: nat)
    requires Kept(s, t) && s.sb.seqno < nextSeq
    requires forall f :: f in t.free ==> f in t2.free
    requires forall x :: x in MemberClaims(t.dir) ==> KeptExtent(x, nextSeq - 1, t2)
    ensures Kept(s, t2)
  {
    forall e | e in MemberClaims(s.tables.dir) ensures KeptExtent(e, s.sb.seqno, t2) {
      assert KeptExtent(e, s.sb.seqno, t);
      if x :| x in MemberClaims(t.dir) && x.off == e.off && e.len <= x.len {
        assert KeptExtent(x, nextSeq - 1, t2);
      }
    }
  }

  lemma FreedIsKept(t: Tables, t2: Tables, x: Extent, es: seq<Extent>, nextSeq: nat)
    requires nextSeq > 0 && x in es && t2.free == t.free + FreedAt(es, nextSeq)
    ensures KeptExtent(x, nextSeq - 1, t2)
  {
    var i :| 0 <= i < |es| && es[i] == x;
    var f := FreedAt(es, nextSeq)[i];
    assert t2.free[|t.free| + i] == f;
  }

  lemma PutKeepsExtents(t: Tables, name: Name, m: Member, nextSeq: nat)
    requires nextSeq > 0
    ensures forall x :: x in MemberClaims(t.dir) ==> KeptExtent(x, nextSeq - 1, StagePut(t, name, m, nextSeq))
  {
    var t2 := StagePut(t, name, m, nextSeq);
    var gone := ExtentsOf(t.dir, name);
    ClaimsAfterPut(t.dir, Entry(name, m));
    forall x | x in MemberClaims(t.dir) ensures KeptExtent(x, nextSeq - 1, t2) {
      StaysOrGoes(MemberClaims(t.dir), m.extents, MemberClaims(t2.dir), gone, x);
      if x in gone { FreedIsKept(t, t2, x, gone, nextSeq); }
    }
  }

  lemma StaysOrGoes(before: seq<Extent>, added: seq<Extent>, after: seq<Extent>, gone: seq<Extent>, x: Extent)
    requires multiset(after) + multiset(gone) == multiset(before) + multiset(added)
    requires x in before
    ensures x in after || x in gone
  {
    assert x in multiset(before) + multiset(added);
    assert x in multiset(after) || x in multiset(gone);
  }

  lemma DropKeepsExtents(t: Tables, name: Name, nextSeq: nat)
    requires nextSeq > 0
    ensures forall x :: x in MemberClaims(t.dir) ==> KeptExtent(x, nextSeq - 1, StageDrop(t, name, nextSeq))
  {
    var t2 := StageDrop(t, name, nextSeq);
    var gone := ExtentsOf(t.dir, name);
    ClaimsAfterDrop(t.dir, name);
    forall x | x in MemberClaims(t.dir) ensures KeptExtent(x, nextSeq - 1, t2) {
      assert multiset(MemberClaims(t.dir)) == multiset(MemberClaims(t.dir)) + multiset([]);
      StaysOrGoes(MemberClaims(t.dir), [], MemberClaims(t2.dir), gone, x);
      if x in gone { FreedIsKept(t, t2, x, gone, nextSeq); }
    }
  }

  lemma GrownKeepsExtent(m: Member, tail: nat, len: nat, xsum: nat, x: Extent)
    requires x in m.extents
    ensures exists y :: y in GrownMember(m, tail, len, xsum).extents && y.off == x.off && x.len <= y.len
  {
    var r := GrownMember(m, tail, len, xsum).extents;
    var i :| 0 <= i < |m.extents| && m.extents[i] == x;
    assert r[i] in r && r[i].off == x.off && x.len <= r[i].len;
  }

  lemma GrowKeepsExtents(t: Tables, name: Name, tail: nat, len: nat, xsum: nat, nextSeq: nat)
    requires nextSeq > 0 && Contains(t.dir, name)
    ensures forall x :: x in MemberClaims(t.dir) ==> KeptExtent(x, nextSeq - 1, StageGrow(t, name, tail, len, xsum))
  {
    hide GrownMember, PutEntryIn, Position;
    var t2 := StageGrow(t, name, tail, len, xsum);
    var m := t.dir[Position(t.dir, name)].member;
    var m2 := GrownMember(m, tail, len, xsum);
    ClaimsAfterPut(t.dir, Entry(name, m2));
    forall x | x in MemberClaims(t.dir) ensures KeptExtent(x, nextSeq - 1, t2) {
      StaysOrGoes(MemberClaims(t.dir), m2.extents, MemberClaims(t2.dir), m.extents, x);
      if x in m.extents {
        GrownKeepsExtent(m, tail, len, xsum, x);
        var y :| y in m2.extents && y.off == x.off && x.len <= y.len;
        NewMemberClaims(t.dir, Entry(name, m2), y);
      }
    }
  }

  lemma NewMemberClaims(dir: seq<Entry>, e: Entry, y: Extent)
    requires y in e.member.extents
    ensures y in MemberClaims(PutEntryIn(dir, e))
  {
    var k := Position(dir, e.name);
    var r := PutEntryIn(dir, e);
    assert r[k] == e;
    var i :| 0 <= i < |e.member.extents| && e.member.extents[i] == y;
    MemberClaimsAt(r, k, i);
    assert y in multiset(MemberClaims(r));
  }

  lemma EditKeepsReaders(c: Config, w: World, w2: World)
    requires DiskInv(c, w) && HandleInv(c, w) && ReadersInv(c, w) && w.phase.Idle? && !w.h.poisoned
    requires w2 == w.(h := w2.h, marred := w2.marred)
    requires forall f :: f in w.h.tables.free ==> f in w2.h.tables.free
    requires forall x :: x in MemberClaims(w.h.tables.dir) ==> KeptExtent(x, NextSeq(w.h) - 1, w2.h.tables)
    ensures ReadersInv(c, w2)
  {
    hide DiskInv, HandleInv, SnapOk, KeptExtent, Contents, Kept;
    CurrentIsSelected(c, w);
    forall s | s in w.readers && w.horizon <= s.sb.seqno ensures Kept(s, w2.h.tables) {
      assert ReaderOk(c, w.disk.volatile, w.Current(), s);
      KeptThroughEdit(s, w.h.tables, w2.h.tables, NextSeq(w.h));
    }
  }

  lemma CurrentIsSelected(c: Config, w: World)
    requires DiskInv(c, w) && HandleInv(c, w) && w.phase.Idle? && !w.h.poisoned
    ensures w.Current().sb == w.h.sb
  {
    hide DiskInv, StagedOk, SnapOk, Contents;
  }

  // ---- publication ----------------------------------------------------------------------------------------

  /** Steps that leave file and states alone and put the handle back on the current tables. */
  lemma RebasedKeepsReaders(c: Config, w: World, w2: World)
    requires ReadersInv(c, w)
    requires w2.disk.volatile == w.disk.volatile && w2.Current() == w.Current()
    requires w2.readers == w.readers && w2.horizon == w.horizon
    requires StillStaging(w2) ==> w2.h.tables == w.Current().tables || (StillStaging(w) && w2.h.tables == w.h.tables)
    ensures ReadersInv(c, w2)
  {
    hide SnapOk, Kept, Contents;
    forall s | s in w.readers && w.horizon <= s.sb.seqno ensures Kept(s, w.Current().tables) {
      assert ReaderOk(c, w.disk.volatile, w.Current(), s);
    }
  }

  lemma FlipKeepsReaders(c: Config, w: World, w2: World, ok: bool)
    requires c.p.Lawful() && DiskInv(c, w) && HandleInv(c, w) && ReadersInv(c, w) && FlipStep(c, w, w2, ok)
    ensures ReadersInv(c, w2)
  {
    hide SnapOk, Durable, Slots, DecodeSlot, EncodeSlot, Contents, Kept, DiskInv, HandleInv, FlipStep;
    FlipBounds(c, w, w2, ok);
    var a, b := w.disk.volatile, w2.disk.volatile;
    var s0 := Successor(w, w.phase.next, w.phase.free);
    forall s | s in w2.readers && w2.horizon <= s.sb.seqno ensures ReaderOk(c, b, w2.Current(), s) {
      if s in w.readers {
        assert ReaderOk(c, a, w.fallback, s);
        UnseenWrite(c, a, b, w.fallback, s);
        KeptInSuccessor(s, w.h);
        assert Kept(s, w2.Current().tables);
      } else {
        KeptBySelf(s0);
        assert ReaderOk(c, a, s0, s0);
        UnseenWrite(c, a, b, s0, s0);
      }
    }
  }

  /** What the slot write does to the bytes readers see, and the state it publishes. */
  lemma FlipBounds(c: Config, w: World, w2: World, ok: bool)
    requires c.p.Lawful() && DiskInv(c, w) && HandleInv(c, w) && FlipStep(c, w, w2, ok)
    ensures w.phase.Barred?
    ensures var a, b, s0 := w.disk.volatile, w2.disk.volatile, Successor(w, w.phase.next, w.phase.free);
      && |a| <= |b| && (forall i :: REGION_START <= i < |a| ==> a[i] == b[i])
      && w.Current() == w.fallback && w.fallback.sb.seqno < s0.sb.seqno && w.fallback.sb.tail <= s0.sb.tail <= |a|
      && SnapOk(c, s0) && Contents(a, s0.tables.dir) == s0.contents
      && ((w2.Current() == w.fallback && w2.readers == w.readers) || (w2.Current() == s0 && w2.readers == w.readers + [s0]))
      && s0.tables == NextTables(w.h) && w2.horizon == w.horizon && StillStaging(w) && !StillStaging(w2)
  {
    hide SnapOk, Durable, Slots, DecodeSlot, EncodeSlot, StagedOk, Contents, Semantic, SlotOutcome, Committable;
    var s0 := Successor(w, w.phase.next, w.phase.free);
    SuccessorOk(c, w);
    SnapRepresentable(c, s0);
    DecodeInvertsEncode(c.p, w.phase.next);
    assert w.Current() == w.fallback && w2.Current() in {w.fallback, s0};
  }

  lemma SnapRepresentable(c: Config, s: Snapshot)
    requires SnapOk(c, s)
    ensures Representable(s.sb)
  {
  }

  lemma KeptInSuccessor(s: Snapshot, h: Handle)
    requires Kept(s, h.tables)
    ensures Kept(s, NextTables(h))
  {
    forall e | e in MemberClaims(s.tables.dir) ensures KeptExtent(e, s.sb.seqno, NextTables(h)) {
      assert KeptExtent(e, s.sb.seqno, h.tables);
    }
  }

  // ---- hole punching ------------------------------------------------------------------------------------------

  lemma {:induction false} Repeated(s: seq<Extent>, i: nat, j: nat)
    requires i < j < |s| && s[i] == s[j]
    ensures multiset(s)[s[i]] >= 2
  {
    assert s == s[..j] + s[j..];
    assert s[i] in s[..j] && s[j] in s[j..];
    assert multiset(s) == multiset(s[..j]) + multiset(s[j..]);
  }

  lemma {:induction false} PackedOnce(l: seq<Extent>, x: Extent)
    requires Packed(l)
    ensures multiset(l)[x] <= 1
  {
    if |l| > 0 {
      var rest := l[..|l| - 1];
      assert l == rest + [l[|l| - 1]];
      assert Packed(rest) by {
        forall i | 0 <= i < |rest| ensures rest[i].len > 0 && rest[i].off == AlignUp(LayoutEnd(rest[..i])) {
          assert rest[..i] == l[..i];
        }
      }
      PackedOnce(rest, x);
      if x == l[|l| - 1] && x in rest {
        var i :| 0 <= i < |rest| && rest[i] == x;
        PackedOrder(l, i, |l| - 1);
      }
      assert multiset(l) == multiset(rest) + multiset{l[|l| - 1]};
    }
  }

  function ExtentOf(f: Freed): Extent { Extent(f.off, f.len) }

  predicate OtherClaim(t: Tables, dirExtent: seq<Extent>, f: Freed, x: Extent) {
    x in MemberClaims(t.dir) || x in dirExtent || exists g :: g in t.free && g != f && ExtentOf(g) == x
  }

  lemma FreeTwiceClaimed(free: seq<Freed>, f: Freed, g: Freed)
    requires f in free && g in free && f != g && ExtentOf(f) == ExtentOf(g)
    ensures multiset(FreeClaims(free))[ExtentOf(f)] >= 2
  {
    var i :| 0 <= i < |free| && free[i] == f;
    var j :| 0 <= j < |free| && free[j] == g;
    if i < j { Repeated(FreeClaims(free), i, j); } else { Repeated(FreeClaims(free), j, i); }
  }

  lemma TwiceClaimed(t: Tables, dirExtent: seq<Extent>, f: Freed)
    requires f in t.free && OtherClaim(t, dirExtent, f, ExtentOf(f))
    ensures ClaimBag(t, dirExtent)[ExtentOf(f)] >= 2
  {
    var x := ExtentOf(f);
    var i :| 0 <= i < |t.free| && t.free[i] == f;
    assert FreeClaims(t.free)[i] == x;
    if x !in MemberClaims(t.dir) && x !in dirExtent {
      var g :| g in t.free && g != f && ExtentOf(g) == x;
      FreeTwiceClaimed(t.free, f, g);
    }
  }

  /** A free extent shares no byte with any live claim, nor with any other free extent. */
  lemma FreeIsDisjoint(t: Tables, dirExtent: seq<Extent>, tail: nat, f: Freed, x: Extent)
    requires Placed(t, dirExtent, tail) && f in t.free && OtherClaim(t, dirExtent, f, x)
    ensures End(x) <= f.off || f.off + f.len <= x.off
  {
    hide Packed, TailOf;
    var l: seq<Extent> :| Packed(l) && TailOf(l, tail) && multiset(l) == ClaimBag(t, dirExtent);
    var y := ExtentOf(f);
    if x == y {
      TwiceClaimed(t, dirExtent, f);
      PackedOnce(l, x);
      assert false;
    }
    var i :| 0 <= i < |t.free| && t.free[i] == f;
    assert FreeClaims(t.free)[i] == y;
    if g :| g in t.free && g != f && ExtentOf(g) == x {
      var j :| 0 <= j < |t.free| && t.free[j] == g;
      assert FreeClaims(t.free)[j] == x;
    }
    assert x in multiset(l) && y in multiset(l);
    ClaimsDisjoint(l, x, y);
  }

  /** An extent is punched once its grace is over, and also, whatever the grace, at the last sequence number. */
  lemma GraceEndsExactly(f: Freed, seqno: nat, grace: nat)
    requires seqno <= U64_MAX
    ensures OldEnough(f, seqno, grace) <==> f.seqno + grace <= seqno || seqno == U64_MAX
    ensures Spared(seqno, grace) <= seqno
    ensures f.seqno <= seqno && OldEnough(f, seqno, grace) ==> f.seqno <= Spared(seqno, grace)
    ensures seqno < U64_MAX ==> Spared(seqno, grace) == if grace <= seqno then seqno - grace else 0
  {
  }

  /** So at the last number a punch reaches an extent that the state one commit back, well inside the
      window, still reads. */
  lemma NoGraceAtLast(h: Handle)
    requires h.sb.seqno == U64_MAX && h.tables.free == [Freed(8192, 4096, U64_MAX)]
    ensures KeptExtent(Extent(8192, 4096), U64_MAX - 1, h.tables)
    ensures U64_MAX <= U64_MAX - 1 + 4 && Punchable(h, h.tables.free[0], 4)
  {
    assert h.tables.free[0] in h.tables.free;
  }

  /** Punching with a grace window touches no extent of any reader inside the window. */
  lemma PunchMissesReader(c: Config, w: World, f: Freed, grace: nat, s: Snapshot, e: Extent)
    requires w.fallbackSlot <= 1 && AtCurrent(c, w) && Kept(s, w.h.tables) && e in MemberClaims(s.tables.dir)
    requires SnapOk(c, w.Current()) && Punchable(w.h, f, grace) && Spared(w.h.sb.seqno, grace) <= s.sb.seqno
    ensures End(e) <= f.off || f.off + f.len <= e.off
  {
    hide DirOk, FreeOk, Placed;
    var t := w.h.tables;
    FreedBeforeSpared(c, w, f, grace);
    assert KeptExtent(e, s.sb.seqno, t);
    if x :| x in MemberClaims(t.dir) && x.off == e.off && e.len <= x.len {
      FreeIsDisjoint(t, DirExtent(w.h.sb), w.h.tail, f, x);
    } else {
      var g :| g in t.free && g.off == e.off && e.len <= g.len && s.sb.seqno < g.seqno;
      FreeIsDisjoint(t, DirExtent(w.h.sb), w.h.tail, f, ExtentOf(g));
    }
  }

  lemma FreedBeforeSpared(c: Config, w: World, f: Freed, grace: nat)
    requires w.fallbackSlot <= 1 && AtCurrent(c, w) && SnapOk(c, w.Current()) && Punchable(w.h, f, grace)
    ensures f.seqno <= Spared(w.h.sb.seqno, grace)
  {
    hide DirOk, Placed;
    GraceEndsExactly(f, w.h.sb.seqno, grace);
  }

  lemma PunchWindow(f: Freed)
    requires PunchLo(f) < PunchHi(f)
    ensures f.off <= PunchLo(f) && PunchHi(f) <= f.off + f.len
  {
  }

  lemma PunchBytes(c: Config, w: World, w2: World, f: Freed, grace: nat, ok: bool)
    requires DiskOk(w.disk) && PunchStep(c, w, w2, f, grace, ok)
    ensures |w.disk.volatile| <= |w2.disk.volatile|
    ensures forall i :: 0 <= i < |w.disk.volatile| && (i < PunchLo(f) || PunchHi(f) <= i) ==> w2.disk.volatile[i] == w.disk.volatile[i]
  {
    hide SlotOutcome;
  }

  lemma PunchKeepsReaders(c: Config, w: World, w2: World, f: Freed, grace: nat, ok: bool)
    requires c.p.Lawful() && DiskInv(c, w) && HandleInv(c, w) && ReadersInv(c, w) && PunchStep(c, w, w2, f, grace, ok)
    ensures ReadersInv(c, w2)
  {
    hide SnapOk, Durable, Slots, StagedOk, Kept, Wrote, Punchable, Contents;
    var a, b := w.disk.volatile, w2.disk.volatile;
    PunchBytes(c, w, w2, f, grace, ok);
    PunchWindow(f) by { assert Punchable(w.h, f, grace); PunchableWindow(w.h, f, grace); }
    forall s | s in w.readers && w2.horizon <= s.sb.seqno ensures ReaderOk(c, b, w.Current(), s) {
      forall e, i | e in MemberClaims(s.tables.dir) && e.off <= i < End(e) && i < |a| ensures a[i] == b[i] {
        PunchMissesReader(c, w, f, grace, s, e);
      }
      ReaderFrame(c, a, b, w.Current(), s);
    }
  }

  lemma PunchableWindow(h: Handle, f: Freed, grace: nat)
    requires Punchable(h, f, grace)
    ensures PunchLo(f) < PunchHi(f)
  {
  }

  /** ... nor anything the durable state names, because the caller acknowledged it first. */
  lemma PunchKeepsInv(c: Config, w: World, w2: World, f: Freed, grace: nat, ok: bool)
    requires c.p.Lawful() && DiskInv(c, w) && HandleInv(c, w) && ReadersInv(c, w) && PunchStep(c, w, w2, f, grace, ok)
    ensures DiskInv(c, w2) && HandleInv(c, w2)
  {
    hide SnapOk, Reads, DecodeSlot, EncodeSlot, StagedOk, Kept, Punchable, Contents, SlotOutcome;
    var s := w.fallback;
    assert w.Current() == s;
    PunchableWindow(w.h, f, grace);
    PunchWindow(f);
    FreeInRegion(c, w, f, grace);
    forall i | PunchLo(f) <= i < PunchHi(f) ensures !NamedAt(s, i) {
      if e :| e in MemberClaims(s.tables.dir) && e.off <= i < End(e) {
        PunchMissesReader(c, w, f, grace, s, e);
      }
      if s.sb.dirOff <= i < s.sb.tail {
        PunchMissesDirectory(c, w, f, grace, i);
      }
    }
    UnnamedWriteKeepsDisk(c, w, w2, PunchLo(f), Zeros(PunchHi(f) - PunchLo(f)), ok);
  }

  lemma UnnamedWriteKeepsDisk(c: Config, w: World, w2: World, off: nat, data: seq<Byte>, ok: bool)
    requires DiskInv(c, w) && w.attempt.None? && Wrote(c.p, w.disk, off, data, ok, w2.disk)
    requires off >= REGION_START && forall i :: off <= i < off + |data| ==> !NamedAt(w.fallback, i)
    requires w2.fallback == w.fallback && w2.fallbackSlot == w.fallbackSlot && w2.attempt == w.attempt
    ensures DiskInv(c, w2)
  {
    hide SnapOk, Reads, NamedAt, DecodeSlot, EncodeSlot, SlotOutcome;
    SlotBytesEqual(w.disk.volatile, w2.disk.volatile, 0);
    SlotBytesEqual(w.disk.volatile, w2.disk.volatile, 1);
  }

  lemma FreeInRegion(c: Config, w: World, f: Freed, grace: nat)
    requires w.fallbackSlot <= 1 && AtCurrent(c, w) && Punchable(w.h, f, grace)
    ensures REGION_START <= f.off
  {
    hide DirOk, Placed;
  }

  lemma PunchMissesDirectory(c: Config, w: World, f: Freed, grace: nat, i: int)
    requires DiskInv(c, w) && HandleInv(c, w) && w.phase.Idle? && !w.h.poisoned && Punchable(w.h, f, grace)
    requires w.h.sb.dirOff <= i < w.h.sb.tail
    ensures i < f.off || f.off + f.len <= i
  {
    hide DirOk, FreeOk, Placed, Durable, Slots;
    SemanticBounds(w.h.sb);
    FreeIsDisjoint(w.h.tables, DirExtent(w.h.sb), w.h.tail, f, Extent(w.h.sb.dirOff, w.h.sb.dirStored));
  }
}
