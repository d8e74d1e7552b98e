/** Staging (`src/container.rs`): the in-memory directory a writer edits before a commit, as
    functions on its tables, and what every edit keeps. */
module Staging {
  import opened Bytes
  import opened Host
  import opened Directory
  import opened Layout

  // ---- the ordered map ---------------------------------------------------------------------

  /** How many entries come before `name`. */
  function Position(dir: seq<Entry>, name: Name): (k: nat)
    ensures k <= |dir|
    ensures forall i :: 0 <= i < k ==> Less(dir[i].name, name)
    ensures k < |dir| ==> !Less(dir[k].name, name)
  {
    if |dir| == 0 || !Less(dir[0].name, name) then 0 else 1 + Position(dir[1..], name)
  }

  predicate Contains(dir: seq<Entry>, name: Name) {
    var k := Position(dir, name);
    k < |dir| && dir[k].name == name
  }

  function Lookup(dir: seq<Entry>, name: Name): Option<Member> {
    if Contains(dir, name) then Some(dir[Position(dir, name)].member) else None
  }

  /** `BTreeMap::insert`. */
  function PutEntryIn(dir: seq<Entry>, e: Entry): seq<Entry> {
    var k := Position(dir, e.name);
    if Contains(dir, e.name) then dir[..k] + [e] + dir[k + 1..] else dir[..k] + [e] + dir[k..]
  }

  /** `BTreeMap::remove`. */
  function DropEntry(dir: seq<Entry>, name: Name): seq<Entry> {
    var k := Position(dir, name);
    if Contains(dir, name) then dir[..k] + dir[k + 1..] else dir
  }

  lemma {:induction false} AscendingFar(dir: seq<Entry>, i: nat, j: nat)
    requires NamesAscend(dir) && i < j < |dir|
    ensures Less(dir[i].name, dir[j].name)
    decreases j
  {
    assert Less(dir[j - 1].name, dir[j - 1 + 1].name);
    if i < j - 1 {
      AscendingFar(dir, i, j - 1);
      LessTransitive(dir[i].name, dir[j - 1].name, dir[j].name);
    }
  }

  lemma PositionUnique(dir: seq<Entry>, name: Name, k: nat)
    requires NamesAscend(dir) && k < |dir| && dir[k].name == name
    ensures Position(dir, name) == k && Contains(dir, name)
  {
    var p := Position(dir, name);
    LessIrreflexive(name);
    if p < k { AscendingFar(dir, p, k); }
  }

  lemma PutKeepsAscending(dir: seq<Entry>, e: Entry)
    requires NamesAscend(dir)
    ensures NamesAscend(PutEntryIn(dir, e))
  {
    var k := Position(dir, e.name);
    var r := PutEntryIn(dir, e);
    forall i | 0 <= i < |r| - 1 ensures Less(r[i].name, r[i + 1].name) {
      if i + 1 < k {
        assert Less(dir[i].name, dir[i + 1].name);
      } else if i + 1 == k {
        assert r[i + 1] == e;
      } else if i == k {
        if Contains(dir, e.name) {
          AscendingFar(dir, k, k + 1);
        } else {
          assert r[i + 1] == dir[k];
          LessTotal(dir[k].name, e.name);
        }
      } else if Contains(dir, e.name) {
        AscendingFar(dir, i, i + 1);
      } else {
        AscendingFar(dir, i - 1, i);
      }
    }
  }

  lemma DropKeepsAscending(dir: seq<Entry>, name: Name)
    requires NamesAscend(dir)
    ensures NamesAscend(DropEntry(dir, name))
  {
    var k := Position(dir, name);
    var r := DropEntry(dir, name);
    forall i | 0 <= i < |r| - 1 ensures Less(r[i].name, r[i + 1].name) {
      if !Contains(dir, name) || i + 1 < k {
        AscendingFar(dir, i, i + 1);
      } else if i + 1 == k {
        AscendingFar(dir, i, i + 2);
      } else {
        AscendingFar(dir, i + 1, i + 2);
      }
    }
  }

  /** The ordered list is a map: after an insert the name reads back the new member and every other
      name reads what it did. */
  lemma LookupAfterPut(dir: seq<Entry>, e: Entry, name: Name)
    requires NamesAscend(dir)
    ensures Lookup(PutEntryIn(dir, e), name) == if name == e.name then Some(e.member) else Lookup(dir, name)
  {
    hide NamesAscend, PutEntryIn, Less, Position;
    var k := Position(dir, e.name);
    var r := PutEntryIn(dir, e);
    PutKeepsAscending(dir, e);
    PutIndexes(dir, e);
    if name == e.name {
      PositionUnique(r, name, k);
    } else if Contains(dir, name) {
      var j := Position(dir, name);
      PositionUnique(r, name, if j < k || Contains(dir, e.name) then j else j + 1);
    } else if Contains(r, name) {
      var j := Position(r, name);
      PositionUnique(dir, name, if j < k || Contains(dir, e.name) then j else j - 1);
    }
  }

  lemma PutIndexes(dir: seq<Entry>, e: Entry)
    ensures var k := Position(dir, e.name); var r := PutEntryIn(dir, e);
      && |r| == |dir| + (if Contains(dir, e.name) then 0 else 1)
      && k < |r| && r[k] == e
      && (forall i :: 0 <= i < k ==> r[i] == dir[i])
      && (forall i :: k < i < |r| ==> r[i] == dir[if Contains(dir, e.name) then i else i - 1])
  {
    hide Position;
  }

  /** Where each entry of the edited list came from. */
  lemma PutEntryAt(dir: seq<Entry>, e: Entry, i: nat)
    requires i < |PutEntryIn(dir, e)|
    ensures var k := Position(dir, e.name);
            var j := if i < k || Contains(dir, e.name) then i else i - 1;
            if i == k then PutEntryIn(dir, e)[i] == e else 0 <= j < |dir| && PutEntryIn(dir, e)[i] == dir[j]
  {
  }

  lemma LookupAfterDrop(dir: seq<Entry>, gone: Name, name: Name)
    requires NamesAscend(dir)
    ensures Lookup(DropEntry(dir, gone), name) == if name == gone then None else Lookup(dir, name)
  {
    var k := Position(dir, gone);
    var r := DropEntry(dir, gone);
    DropKeepsAscending(dir, gone);
    if Contains(r, name) {
      var j := Position(r, name);
      var j' := if Contains(dir, gone) && j >= k then j + 1 else j;
      assert dir[j'] == r[j];
      PositionUnique(dir, name, j');
      if name == gone { PositionUnique(dir, gone, j'); }
    }
    if name != gone && Contains(dir, name) {
      var j := Position(dir, name);
      var j' := if Contains(dir, gone) && j > k then j - 1 else j;
      assert r[j'] == dir[j];
      PositionUnique(r, name, j');
    }
  }

  // ---- the staged edits -----------------------------------------------------------------------

  function FreedAt(es: seq<Extent>, seqno: nat): (r: seq<Freed>)
    ensures |r| == |es|
    ensures forall i :: 0 <= i < |es| ==> r[i] == Freed(es[i].off, es[i].len, seqno)
  {
    seq(|es|, i requires 0 <= i < |es| => Freed(es[i].off, es[i].len, seqno))
  }

  function ExtentsOf(dir: seq<Entry>, name: Name): seq<Extent> {
    match Lookup(dir, name) case Some(m) => m.extents case None => []
  }

  /** `stage_entry`: the member's old extents, if any, are freed by the coming commit. */
  function StagePut(t: Tables, name: Name, m: Member, nextSeq: nat): Tables {
    Tables(PutEntryIn(t.dir, Entry(name, m)), t.free + FreedAt(ExtentsOf(t.dir, name), nextSeq))
  }

  /** `remove`. */
  function StageDrop(t: Tables, name: Name, nextSeq: nat): Tables {
    Tables(DropEntry(t.dir, name), t.free + FreedAt(ExtentsOf(t.dir, name), nextSeq))
  }

  /** A member staged whole. */
  function FreshMember(off: nat, len: nat, xsum: nat): Member {
    Member(if len == 0 then [] else [Extent(off, len)], len, xsum)
  }

  /** Whether an append lands against the member's last extent. */
  predicate Coalesces(m: Member, tail: nat) {
    |m.extents| > 0 && End(m.extents[|m.extents| - 1]) == tail
  }

  /** `append_stream`'s directory edit. */
  function GrownMember(m: Member, tail: nat, len: nat, xsum: nat): Member {
    var n := |m.extents|;
    Member(
      if Coalesces(m, tail) then m.extents[n - 1 := Extent(m.extents[n - 1].off, m.extents[n - 1].len + len)]
      else m.extents + [Extent(AlignUp(tail), len)],
      m.len + len, xsum)
  }

  function AppendAt(m: Member, tail: nat): nat {
    if Coalesces(m, tail) then tail else AlignUp(tail)
  }

  /** An append lengthens the last extent in place exactly when it ends at the tail; otherwise it adds one extent
      at the next multiple of the alignment. */
  lemma GrowsInPlaceOrAligned(m: Member, tail: nat, len: nat, xsum: nat)
    ensures var es, n := GrownMember(m, tail, len, xsum).extents, |m.extents|;
            if n > 0 && m.extents[n - 1].off + m.extents[n - 1].len == tail
            then AppendAt(m, tail) == tail
                 && es == m.extents[..n - 1] + [Extent(m.extents[n - 1].off, m.extents[n - 1].len + len)]
            else tail <= AppendAt(m, tail) < tail + 4096 && AppendAt(m, tail) % 4096 == 0
                 && es == m.extents + [Extent(AppendAt(m, tail), len)]
  {
  }

  function StageGrow(t: Tables, name: Name, tail: nat, len: nat, xsum: nat): Tables
    requires Contains(t.dir, name)
  {
    var m := t.dir[Position(t.dir, name)].member;
    Tables(PutEntryIn(t.dir, Entry(name, GrownMember(m, tail, len, xsum))), t.free)
  }

  // ---- what every edit keeps --------------------------------------------------------------------

  /** Staged tables fit for publication with the staging cursor at `tail`. */
  ghost predicate StagedOk(p: Platform, t: Tables, dirExtent: seq<Extent>, tail: nat, nextSeq: nat) {
    && REGION_START <= tail <= U64_MAX
    && DirOk(p, t.dir, tail) && FreeOk(t.free, tail, nextSeq)
    && Placed(t, dirExtent, tail)
  }

  lemma EntryOkMono(p: Platform, e: Entry, a: nat, b: nat)
    requires EntryOk(p, e, a) && a <= b <= U64_MAX
    ensures EntryOk(p, e, b)
  {
    forall x | x in e.member.extents ensures x.len > 0 && InRegion(x.off, x.len, b) {
      assert InRegion(x.off, x.len, a);
    }
  }

  lemma PutKeepsDirOk(p: Platform, dir: seq<Entry>, e: Entry, tail: nat, tail2: nat)
    requires DirOk(p, dir, tail) && tail <= tail2 <= U64_MAX && EntryOk(p, e, tail2)
    ensures DirOk(p, PutEntryIn(dir, e), tail2)
  {
    PutKeepsAscending(dir, e);
    forall x | x in PutEntryIn(dir, e) ensures EntryOk(p, x, tail2) {
      if x != e {
        assert x in dir;
        EntryOkMono(p, x, tail, tail2);
      }
    }
  }

  lemma FreeOkMono(free: seq<Freed>, a: nat, b: nat, seqno: nat, seqno2: nat)
    requires FreeOk(free, a, seqno) && a <= b <= U64_MAX && seqno <= seqno2
    ensures FreeOk(free, b, seqno2)
  {
    forall f | f in free ensures f.len > 0 && InRegion(f.off, f.len, b) && f.seqno <= seqno2 {
      assert InRegion(f.off, f.len, a);
    }
  }

  lemma FreeingKeepsFreeOk(p: Platform, t: Tables, name: Name, tail: nat, tail2: nat, nextSeq: nat)
    requires DirOk(p, t.dir, tail) && FreeOk(t.free, tail, nextSeq) && tail <= tail2 <= U64_MAX
    ensures FreeOk(t.free + FreedAt(ExtentsOf(t.dir, name), nextSeq), tail2, nextSeq)
  {
    FreeOkMono(t.free, tail, tail2, nextSeq, nextSeq);
    var es := ExtentsOf(t.dir, name);
    if Contains(t.dir, name) {
      var e := t.dir[Position(t.dir, name)];
      assert EntryOk(p, e, tail);
      EntryOkMono(p, e, tail, tail2);
    }
    var freed := FreedAt(es, nextSeq);
    forall f | f in freed ensures f.len > 0 && InRegion(f.off, f.len, tail2) {
      var i :| 0 <= i < |freed| && freed[i] == f;
      assert es[i] in es;
    }
  }

  // ---- claims under an edit -----------------------------------------------------------------------

  lemma ClaimsSplit(dir: seq<Entry>, k: nat)
    requires k < |dir|
    ensures multiset(MemberClaims(dir))
         == multiset(MemberClaims(dir[..k])) + multiset(dir[k].member.extents) + multiset(MemberClaims(dir[k + 1..]))
  {
    assert dir == dir[..k] + dir[k..];
    MemberClaimsConcat(dir[..k], dir[k..]);
    assert dir[k..][0] == dir[k] && dir[k..][1..] == dir[k + 1..];
  }

  lemma ClaimsAfterPut(dir: seq<Entry>, e: Entry)
    ensures multiset(MemberClaims(PutEntryIn(dir, e))) + multiset(ExtentsOf(dir, e.name))
         == multiset(MemberClaims(dir)) + multiset(e.member.extents)
  {
    hide MemberClaims, Position;
    var k := Position(dir, e.name);
    var r := PutEntryIn(dir, e);
    ClaimsSplit(r, k);
    PutParts(dir, e);
    if Contains(dir, e.name) { ClaimsSplit(dir, k); } else { ClaimsCut(dir, k); }
  }

  lemma PutParts(dir: seq<Entry>, e: Entry)
    ensures var k := Position(dir, e.name); var r := PutEntryIn(dir, e);
      && k < |r| && r[..k] == dir[..k] && r[k] == e
      && r[k + 1..] == if Contains(dir, e.name) then dir[k + 1..] else dir[k..]
  {
    hide Position;
  }

  lemma ClaimsCut(dir: seq<Entry>, k: nat)
    requires k <= |dir|
    ensures multiset(MemberClaims(dir)) == multiset(MemberClaims(dir[..k])) + multiset(MemberClaims(dir[k..]))
  {
    assert dir == dir[..k] + dir[k..];
    MemberClaimsConcat(dir[..k], dir[k..]);
  }

  lemma ClaimsAfterDrop(dir: seq<Entry>, name: Name)
    ensures multiset(MemberClaims(DropEntry(dir, name))) + multiset(ExtentsOf(dir, name)) == multiset(MemberClaims(dir))
  {
    hide MemberClaims, Position;
    var k := Position(dir, name);
    if Contains(dir, name) {
      ClaimsSplit(dir, k);
      MemberClaimsConcat(dir[..k], dir[k + 1..]);
    }
  }

  lemma {:induction false} FreeClaimsAppend(free: seq<Freed>, es: seq<Extent>, seqno: nat)
    ensures multiset(FreeClaims(free + FreedAt(es, seqno))) == multiset(FreeClaims(free)) + multiset(es)
  {
    assert FreeClaims(free + FreedAt(es, seqno)) == FreeClaims(free) + es;
  }

  /** The claims of an edited directory: the old claims plus what was allocated. */
  lemma BagAfterPut(t: Tables, dirExtent: seq<Extent>, name: Name, m: Member, nextSeq: nat)
    ensures ClaimBag(StagePut(t, name, m, nextSeq), dirExtent) == ClaimBag(t, dirExtent) + multiset(m.extents)
  {
    var t2 := StagePut(t, name, m, nextSeq);
    var gone := ExtentsOf(t.dir, name);
    ClaimsAfterPut(t.dir, Entry(name, m));
    FreeClaimsAppend(t.free, gone, nextSeq);
    Regroup(multiset(MemberClaims(t2.dir)), multiset(gone), multiset(MemberClaims(t.dir)), multiset(m.extents),
            multiset(FreeClaims(t.free)), multiset(dirExtent));
  }

  lemma Regroup(now: multiset<Extent>, freed: multiset<Extent>, before: multiset<Extent>, added: multiset<Extent>,
                free: multiset<Extent>, rest: multiset<Extent>)
    requires now + freed == before + added
    ensures now + (free + freed) + rest == before + free + rest + added
  {
    assert now + (free + freed) + rest == (now + freed) + free + rest;
  }

  lemma PutKeepsPlaced(t: Tables, dirExtent: seq<Extent>, name: Name, len: nat, xsum: nat, tail: nat, nextSeq: nat)
    requires Placed(t, dirExtent, tail)
    ensures Placed(StagePut(t, name, FreshMember(AlignUp(tail), len, xsum), nextSeq), dirExtent, AlignUp(tail) + len)
  {
    hide StagePut, ClaimBag, AlignUp, Packed, TailOf, FreshMember;
    var l: seq<Extent> :| Packed(l) && TailOf(l, tail) && multiset(l) == ClaimBag(t, dirExtent);
    var m := FreshMember(AlignUp(tail), len, xsum);
    BagAfterPut(t, dirExtent, name, m, nextSeq);
    PackedFresh(l, tail, len, xsum);
    assert multiset(l + m.extents) == multiset(l) + multiset(m.extents);
  }

  lemma PackedFresh(l: seq<Extent>, tail: nat, len: nat, xsum: nat)
    requires Packed(l) && TailOf(l, tail)
    ensures Packed(l + FreshMember(AlignUp(tail), len, xsum).extents)
    ensures TailOf(l + FreshMember(AlignUp(tail), len, xsum).extents, AlignUp(tail) + len)
  {
    hide Packed;
    if len > 0 {
      PackedAppend(l, tail, len);
    } else {
      AlignUpTwice(LayoutEnd(l));
      assert l + [] == l;
    }
  }

  lemma DropKeepsPlaced(t: Tables, dirExtent: seq<Extent>, name: Name, tail: nat, nextSeq: nat)
    requires Placed(t, dirExtent, tail)
    ensures Placed(StageDrop(t, name, nextSeq), dirExtent, tail)
  {
    var l: seq<Extent> :| Packed(l) && TailOf(l, tail) && multiset(l) == ClaimBag(t, dirExtent);
    var t2 := StageDrop(t, name, nextSeq);
    ClaimsAfterDrop(t.dir, name);
    FreeClaimsAppend(t.free, ExtentsOf(t.dir, name), nextSeq);
    Regroup(multiset(MemberClaims(t2.dir)), multiset(ExtentsOf(t.dir, name)), multiset(MemberClaims(t.dir)), multiset{},
            multiset(FreeClaims(t.free)), multiset(dirExtent));
    assert ClaimBag(t2, dirExtent) == ClaimBag(t, dirExtent);
  }

  lemma BagAfterGrow(t: Tables, dirExtent: seq<Extent>, name: Name, m2: Member)
    requires Contains(t.dir, name)
    ensures ClaimBag(Tables(PutEntryIn(t.dir, Entry(name, m2)), t.free), dirExtent) + multiset(ExtentsOf(t.dir, name))
         == ClaimBag(t, dirExtent) + multiset(m2.extents)
  {
    ClaimsAfterPut(t.dir, Entry(name, m2));
    var now, before := multiset(MemberClaims(PutEntryIn(t.dir, Entry(name, m2)))), multiset(MemberClaims(t.dir));
    var free, rest := multiset(FreeClaims(t.free)), multiset(dirExtent);
    assert now + free + rest + multiset(ExtentsOf(t.dir, name)) == (now + multiset(ExtentsOf(t.dir, name))) + free + rest;
  }

  /** The claim that a coalescing append grows is the one that ends at the staging cursor. */
  lemma LastExtentPlaced(t: Tables, dirExtent: seq<Extent>, l: seq<Extent>, k: nat)
    requires multiset(l) == ClaimBag(t, dirExtent)
    requires k < |t.dir| && |t.dir[k].member.extents| > 0
    ensures t.dir[k].member.extents[|t.dir[k].member.extents| - 1] in l
  {
    var n := |t.dir[k].member.extents|;
    MemberClaimsAt(t.dir, k, n - 1);
    assert t.dir[k].member.extents[n - 1] in multiset(l);
  }

  lemma SwapLast(l: seq<Extent>, es: seq<Extent>, grown: Extent)
    requires |l| > 0 && |es| > 0 && l[|l| - 1] == es[|es| - 1]
    ensures multiset(l[|l| - 1 := grown]) + multiset(es) == multiset(l) + multiset(es[|es| - 1 := grown])
  {
  }

  /** A coalescing append stretches the last extent of the layout. */
  lemma StretchLast(l: seq<Extent>, m: Member, tail: nat, len: nat, xsum: nat) returns (l2: seq<Extent>)
    requires Packed(l) && TailOf(l, tail) && len > 0
    requires Coalesces(m, tail) && m.extents[|m.extents| - 1] in l
    ensures Packed(l2) && TailOf(l2, tail + len)
    ensures multiset(l2) + multiset(m.extents) == multiset(l) + multiset(GrownMember(m, tail, len, xsum).extents)
  {
    hide Packed, AlignUp, TailOf, LayoutEnd;
    var i :| 0 <= i < |l| && l[i] == m.extents[|m.extents| - 1];
    var grown := Extent(l[i].off, l[i].len + len);
    PackedGrow(l, tail, i, len);
    l2 := l[i := grown];
    SwapLast(l, m.extents, grown);
  }

  lemma GrowLayout(l: seq<Extent>, m: Member, tail: nat, len: nat, xsum: nat) returns (l2: seq<Extent>)
    requires Packed(l) && TailOf(l, tail) && len > 0
    requires |m.extents| > 0 ==> m.extents[|m.extents| - 1] in l
    ensures Packed(l2) && TailOf(l2, AppendAt(m, tail) + len)
    ensures multiset(l2) + multiset(m.extents) == multiset(l) + multiset(GrownMember(m, tail, len, xsum).extents)
  {
    hide Packed, AlignUp, TailOf, LayoutEnd;
    if Coalesces(m, tail) {
      l2 := StretchLast(l, m, tail, len, xsum);
    } else {
      PackedAppend(l, tail, len);
      l2 := l + [Extent(AlignUp(tail), len)];
    }
  }

  lemma GrowKeepsPlaced(t: Tables, dirExtent: seq<Extent>, name: Name, len: nat, xsum: nat, tail: nat)
    requires Placed(t, dirExtent, tail) && Contains(t.dir, name) && len > 0
    ensures Placed(StageGrow(t, name, tail, len, xsum), dirExtent, AppendAt(t.dir[Position(t.dir, name)].member, tail) + len)
  {
    hide Packed, TailOf, ClaimBag, GrownMember, AppendAt, AlignUp, PutEntryIn, Position;
    var l: seq<Extent> :| Packed(l) && TailOf(l, tail) && multiset(l) == ClaimBag(t, dirExtent);
    var k := Position(t.dir, name);
    var m := t.dir[k].member;
    var m2 := GrownMember(m, tail, len, xsum);
    if |m.extents| > 0 { LastExtentPlaced(t, dirExtent, l, k); }
    var l2 := GrowLayout(l, m, tail, len, xsum);
    BagAfterGrow(t, dirExtent, name, m2);
    Cancel(multiset(l2), ClaimBag(StageGrow(t, name, tail, len, xsum), dirExtent), multiset(m.extents));
  }

  lemma Cancel(a: multiset<Extent>, b: multiset<Extent>, c: multiset<Extent>)
    requires a + c == b + c
    ensures a == b
  {
    assert a == a + c - c && b == b + c - c;
  }

  // ---- each staged operation keeps the tables publishable ------------------------------------------

  lemma PutKeepsStagedOk(p: Platform, t: Tables, dirExtent: seq<Extent>, tail: nat, nextSeq: nat, name: Name, len: nat, xsum: nat)
    requires StagedOk(p, t, dirExtent, tail, nextSeq)
    requires ValidName(name) && p.utf8(name) && xsum <= U32_MAX && AlignUp(tail) + len <= U64_MAX
    ensures StagedOk(p, StagePut(t, name, FreshMember(AlignUp(tail), len, xsum), nextSeq), dirExtent, AlignUp(tail) + len, nextSeq)
  {
    var m := FreshMember(AlignUp(tail), len, xsum);
    var tail2 := AlignUp(tail) + len;
    assert ExtentBytes(m.extents) == len by {
      if len > 0 { assert m.extents[..0] == []; }
    }
    assert EntryOk(p, Entry(name, m), tail2);
    PutKeepsDirOk(p, t.dir, Entry(name, m), tail, tail2);
    FreeingKeepsFreeOk(p, t, name, tail, tail2, nextSeq);
    PutKeepsPlaced(t, dirExtent, name, len, xsum, tail, nextSeq);
  }

  lemma DropKeepsStagedOk(p: Platform, t: Tables, dirExtent: seq<Extent>, tail: nat, nextSeq: nat, name: Name)
    requires StagedOk(p, t, dirExtent, tail, nextSeq)
    ensures StagedOk(p, StageDrop(t, name, nextSeq), dirExtent, tail, nextSeq)
  {
    DropKeepsAscending(t.dir, name);
    FreeingKeepsFreeOk(p, t, name, tail, tail, nextSeq);
    DropKeepsPlaced(t, dirExtent, name, tail, nextSeq);
  }

  lemma GrownEntryOk(p: Platform, e: Entry, tail: nat, len: nat, xsum: nat)
    requires EntryOk(p, e, tail) && len > 0 && xsum <= U32_MAX && REGION_START <= tail
    requires AppendAt(e.member, tail) + len <= U64_MAX && e.member.len + len <= U64_MAX
    requires Coalesces(e.member, tail) || |e.member.extents| < MAX_MEMBER_EXTENTS
    ensures EntryOk(p, Entry(e.name, GrownMember(e.member, tail, len, xsum)), AppendAt(e.member, tail) + len)
  {
    var m := e.member;
    var m2 := GrownMember(m, tail, len, xsum);
    var tail2 := AppendAt(m, tail) + len;
    EntryOkMono(p, e, tail, tail2);
    GrownBytes(m, tail, len, xsum);
    forall x | x in m2.extents ensures x.len > 0 && InRegion(x.off, x.len, tail2) {
      if x in m.extents {
      } else if Coalesces(m, tail) {
        var last := m.extents[|m.extents| - 1];
        assert last in m.extents && x == Extent(last.off, last.len + len);
      } else {
        assert x == Extent(AlignUp(tail), len);
      }
    }
  }

  lemma GrowKeepsStagedOk(p: Platform, t: Tables, dirExtent: seq<Extent>, tail: nat, nextSeq: nat, name: Name, len: nat, xsum: nat)
    requires StagedOk(p, t, dirExtent, tail, nextSeq)
    requires Contains(t.dir, name) && len > 0 && xsum <= U32_MAX
    requires var m := t.dir[Position(t.dir, name)].member;
             && AppendAt(m, tail) + len <= U64_MAX && m.len + len <= U64_MAX
             && (Coalesces(m, tail) || |m.extents| < MAX_MEMBER_EXTENTS)
    ensures var m := t.dir[Position(t.dir, name)].member;
            StagedOk(p, StageGrow(t, name, tail, len, xsum), dirExtent, AppendAt(m, tail) + len, nextSeq)
  {
    var e := t.dir[Position(t.dir, name)];
    var tail2 := AppendAt(e.member, tail) + len;
    GrownEntryOk(p, e, tail, len, xsum);
    PutKeepsDirOk(p, t.dir, Entry(name, GrownMember(e.member, tail, len, xsum)), tail, tail2);
    FreeOkMono(t.free, tail, tail2, nextSeq, nextSeq);
    GrowKeepsPlaced(t, dirExtent, name, len, xsum, tail);
  }

  lemma GrownBytes(m: Member, tail: nat, len: nat, xsum: nat)
    ensures ExtentBytes(GrownMember(m, tail, len, xsum).extents) == ExtentBytes(m.extents) + len
  {
    var r := GrownMember(m, tail, len, xsum).extents;
    var n := |m.extents|;
    if Coalesces(m, tail) {
      assert r[..n - 1] == m.extents[..n - 1];
    } else {
      assert r[..n] == m.extents;
    }
  }
}
