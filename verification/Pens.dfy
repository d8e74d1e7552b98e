/** Member handles: what the container relies on of the one it lists, whatever the others do. */
module Pens {
  import opened Bytes
  import opened Host
  import opened Directory
  import opened Layout
  import opened Superblocks
  import opened Device
  import opened Staging
  import opened Publication
  import opened Durability
  import opened DurabilitySteps
  import opened Readers
  import opened Checksums

  /** Tokens are fresh, and the listed handle sits at the aligned cursor of a container that accepts changes,
      its bytes inside the file. That they are still the bytes written through it is not promised. */
  ghost predicate PensInv(c: Config, w: World) {
    && (forall t :: t in w.pens ==> t.opening < w.opening || (t.opening == w.opening && t.token <= w.h.nextToken))
    && (w.h.openMember.Some? ==>
          w.phase.Idle? && !w.h.poisoned && w.Listed() in w.pens && NextSeq(w.h) <= U64_MAX
          && Listable(c, w.pens[w.Listed()], w.h.tail, |w.disk.volatile|))
  }

  predicate Listable(c: Config, pen: Pen, tail: nat, fileLen: nat) {
    && pen.off == AlignUp(tail) && pen.At() <= U64_MAX
    && ValidName(pen.name) && c.p.utf8(pen.name)
    && (|pen.content| > 0 ==> pen.At() <= fileLen)
  }

  lemma BirthPens(c: Config)
    ensures PensInv(c, BirthWorld(c))
  {
  }

  /** Steps that hand out no handle, take none back but the listed one, and move neither cursor nor sequence
      while a member is open. */
  lemma PensStay(c: Config, w: World, w2: World)
    requires PensInv(c, w)
    requires w2.pens == w.pens && w2.opening == w.opening && w2.h.nextToken == w.h.nextToken
    requires w2.h.openMember.Some? ==>
      && w2.h.openMember == w.h.openMember && w2.phase == w.phase && w2.h.poisoned == w.h.poisoned
      && w2.h.tail == w.h.tail && w2.h.sb == w.h.sb && |w.disk.volatile| <= |w2.disk.volatile|
    ensures PensInv(c, w2)
  {
    hide ValidName, AlignUp;
  }

  lemma BeginKeepsPens(c: Config, w: World, w2: World, name: Name)
    requires PensInv(c, w) && BeginStep(c, w, w2, name)
    ensures PensInv(c, w2)
  {
    hide ValidName, AlignUp;
  }

  lemma PenKeepsPens(c: Config, w: World, w2: World, t: PenId, data: seq<Byte>, ok: bool)
    requires DiskOk(w.disk) && PensInv(c, w) && PenStep(c, w, w2, t, data, ok)
    ensures PensInv(c, w2)
  {
    hide ValidName, AlignUp, SlotOutcome, DiskOk;
  }

  lemma ReleaseKeepsPens(c: Config, w: World)
    requires PensInv(c, w) && w.h.openMember.Some?
    ensures PensInv(c, Released(w))
  {
    hide ValidName, AlignUp;
  }

  lemma ReopenKeepsPens(c: Config, w: World, w2: World)
    requires PensInv(c, w) && ReopenStep(c, w, w2)
    ensures PensInv(c, w2)
  {
    hide Open;
  }

  lemma CrashKeepsPens(c: Config, w: World, w2: World, img: seq<Byte>)
    requires DiskOk(w.disk) && CrashStep(c, w, w2, img)
    ensures PensInv(c, w2)
  {
    hide Open, CrashImage, Contents;
  }
}
