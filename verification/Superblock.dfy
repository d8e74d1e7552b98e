/** The two superblock slots (`src/container.rs`): encoding, the decode that separates "torn" from
    "authentic but unintelligible", semantic validation, and the choice between two claims. */
module Superblocks {
  import opened Bytes
  import opened Host
  import opened Directory

  const MAGIC: seq<Byte> := [84, 68, 66, 68, 82, 70, 84, 49]  // "TDBDRFT1"
  const EPOCH: Byte := 1
  const HEAD_LEN: nat := 52
  const SB_LEN: nat := 56

  datatype Superblock = Superblock(
    seqno: nat, dirOff: nat, dirStored: nat, dirRaw: nat, nEntries: nat, dirXsum: nat, tail: nat, dirCodec: nat)

  const BIRTH: Superblock := Superblock(0, REGION_START, 0, 0, 0, 0, REGION_START, 0)

  /** The widths of the wire fields. */
  predicate Representable(sb: Superblock) {
    && sb.seqno <= U64_MAX && sb.dirOff <= U64_MAX && sb.tail <= U64_MAX
    && sb.dirStored <= U32_MAX && sb.dirRaw <= U32_MAX && sb.nEntries <= U32_MAX && sb.dirXsum <= U32_MAX
    && sb.dirCodec < 256
  }

  /** `validate_semantics`. */
  predicate Semantic(sb: Superblock) {
    if sb.seqno == 0 then sb == BIRTH
    else
      && sb.dirStored <= MAX_DIR_STORED && sb.dirRaw <= MAX_DIR_RAW && sb.nEntries <= MAX_MEMBERS
      && sb.dirCodec <= 1
      && (sb.dirCodec == 0 ==> sb.dirStored == sb.dirRaw)
      && sb.dirOff + sb.dirStored <= U64_MAX
      && sb.dirStored != 0 && sb.dirRaw != 0
      && sb.dirOff >= REGION_START && sb.dirOff % ALIGN == 0
      && sb.dirOff + sb.dirStored == sb.tail
  }

  // ---- encoding -------------------------------------------------------------------------

  function Head(sb: Superblock): (h: seq<Byte>)
    ensures |h| == HEAD_LEN
  {
    MAGIC + Le(sb.seqno, 8) + Le(sb.dirOff, 8) + Le(sb.dirStored, 4) + Le(sb.dirRaw, 4)
    + Le(sb.nEntries, 4) + Le(sb.dirXsum, 4) + Le(sb.tail, 8) + [sb.dirCodec % 256, EPOCH, 0, 0]
  }

  function EncodeSlot(p: Platform, sb: Superblock): seq<Byte>
  {
    Head(sb) + p.digest4(Head(sb)) + Zeros(SLOT_LEN - SB_LEN)
  }

  /** `Ok(None)`: the checksum does not cover the bytes, so the slot makes no claim. `Err`: the
      checksum passes over something this build does not understand. */
  function DecodeSlot(p: Platform, slot: seq<Byte>): Outcome<Option<Superblock>> {
    if |slot| < SB_LEN then Ok(None)
    else if slot[HEAD_LEN..SB_LEN] != p.digest4(slot[..HEAD_LEN]) then Ok(None)
    else if slot[0..8] != MAGIC then Err
    else if slot[49] != EPOCH then Err
    else if slot[50..52] != [0, 0] then Err
    else if exists i :: SB_LEN <= i < |slot| && slot[i] != 0 then Err
    else
      var sb := Superblock(FromLe(slot[8..16]), FromLe(slot[16..24]), FromLe(slot[24..28]), FromLe(slot[28..32]),
                           FromLe(slot[32..36]), FromLe(slot[36..40]), FromLe(slot[40..48]), slot[48]);
      if Semantic(sb) then Ok(Some(sb)) else Err
  }

  /** Bytes 52 to 56 are the digest of the 52 bytes before them. */
  predicate Covered(p: Platform, slot: seq<Byte>) {
    |slot| >= 56 && slot[52..56] == p.digest4(slot[..52])
  }

  /** The slots this build accepts for `sb`: its own 56 bytes, padded with zeros. */
  predicate Spells(p: Platform, slot: seq<Byte>, sb: Superblock) {
    && Representable(sb) && Semantic(sb) && |slot| >= 56
    && slot == Head(sb) + p.digest4(Head(sb)) + Zeros(|slot| - 56)
  }

  /** Which of the three answers a slot gets, whatever its bytes: no claim exactly when its digest
      misses, the claim exactly when the slot is what this build writes for that claim, and a
      refusal for everything else that carries its digest. */
  lemma DecodeIsExact(p: Platform, slot: seq<Byte>)
    requires p.Lawful()
    ensures DecodeSlot(p, slot) == Ok(None) <==> !(|slot| >= 56 && slot[52..56] == p.digest4(slot[..52]))
    ensures forall sb :: DecodeSlot(p, slot) == Ok(Some(sb)) <==> Spells(p, slot, sb)
    ensures DecodeSlot(p, slot) == Err <==> Covered(p, slot) && !exists sb :: Spells(p, slot, sb)
  {
    hide Semantic, Platform.Lawful;
    forall sb ensures DecodeSlot(p, slot) == Ok(Some(sb)) <==> Spells(p, slot, sb) {
      if DecodeSlot(p, slot) == Ok(Some(sb)) { ClaimSpells(p, slot, sb); }
      if Spells(p, slot, sb) { SpelledClaims(p, slot, sb); }
    }
    if DecodeSlot(p, slot).Ok? && DecodeSlot(p, slot).value.Some? {
      assert Spells(p, slot, DecodeSlot(p, slot).value.value);
    }
  }

  /** Which claims are taken once encoded: the birth claim alone at sequence zero; above it those whose directory is
      not empty, within the ceilings, aligned, inside the region and ends at the tail. */
  lemma TakesExactlyPlaced(p: Platform, sb: Superblock)
    requires p.Lawful() && Representable(sb)
    ensures DecodeSlot(p, EncodeSlot(p, sb)) == Ok(Some(sb)) <==>
              if sb.seqno == 0 then sb == Superblock(0, 8192, 0, 0, 0, 0, 8192, 0)
              else
                && 8192 <= sb.dirOff && sb.dirOff % 4096 == 0 && sb.dirOff + sb.dirStored == sb.tail
                && 0 < sb.dirStored <= 64 * 1024 * 1024 && 0 < sb.dirRaw <= 256 * 1024 * 1024 && sb.nEntries <= 1_000_000
                && (sb.dirCodec == 1 || (sb.dirCodec == 0 && sb.dirStored == sb.dirRaw))
  {
    hide DecodeSlot, EncodeSlot;
    DecodeInvertsEncode(p, sb);
  }

  lemma TornClaimsNothing(p: Platform, slot: seq<Byte>)
    requires p.Lawful()
    ensures !Covered(p, slot) ==> DecodeSlot(p, slot) == Ok(None)
  {
    hide Spells;
    DecodeIsExact(p, slot);
  }

  lemma ClaimSpells(p: Platform, slot: seq<Byte>, sb: Superblock)
    requires p.Lawful() && DecodeSlot(p, slot) == Ok(Some(sb))
    ensures Spells(p, slot, sb)
  {
    hide Semantic, Platform.Lawful, Head, FromLe;
    ClaimFields(p, slot, sb);
    HeadOf(slot, sb);
    assert slot[56..] == Zeros(|slot| - 56);
    assert slot == slot[..52] + slot[52..56] + slot[56..];
  }

  lemma ClaimFields(p: Platform, slot: seq<Byte>, sb: Superblock)
    requires DecodeSlot(p, slot) == Ok(Some(sb))
    ensures Representable(sb) && |slot| >= 56
    ensures slot[8..16] == Le(sb.seqno, 8) && slot[16..24] == Le(sb.dirOff, 8)
    ensures slot[24..28] == Le(sb.dirStored, 4) && slot[28..32] == Le(sb.dirRaw, 4) && slot[32..36] == Le(sb.nEntries, 4)
    ensures slot[36..40] == Le(sb.dirXsum, 4) && slot[40..48] == Le(sb.tail, 8) && slot[48] == sb.dirCodec
  {
    hide Semantic, FromLe, Le;
    Pow256Values();
    FieldBack(slot[8..16]);
    FieldBack(slot[16..24]);
    FieldBack(slot[24..28]);
    FieldBack(slot[28..32]);
    FieldBack(slot[32..36]);
    FieldBack(slot[36..40]);
    FieldBack(slot[40..48]);
  }

  lemma HeadOf(slot: seq<Byte>, sb: Superblock)
    requires |slot| >= 56 && sb.dirCodec < 256
    requires slot[0..8] == MAGIC && slot[8..16] == Le(sb.seqno, 8) && slot[16..24] == Le(sb.dirOff, 8)
    requires slot[24..28] == Le(sb.dirStored, 4) && slot[28..32] == Le(sb.dirRaw, 4) && slot[32..36] == Le(sb.nEntries, 4)
    requires slot[36..40] == Le(sb.dirXsum, 4) && slot[40..48] == Le(sb.tail, 8)
    requires slot[48] == sb.dirCodec && slot[49] == EPOCH && slot[50..52] == [0, 0]
    ensures Head(sb) == slot[..52]
  {
    hide Le;
    assert slot[..52] == slot[0..8] + slot[8..16] + slot[16..24] + slot[24..28] + slot[28..32]
                         + slot[32..36] + slot[36..40] + slot[40..48] + [slot[48], slot[49]] + slot[50..52];
  }

  lemma SpelledClaims(p: Platform, slot: seq<Byte>, sb: Superblock)
    requires p.Lawful() && Spells(p, slot, sb)
    ensures DecodeSlot(p, slot) == Ok(Some(sb))
  {
    hide Semantic;
    var head := Head(sb);
    var rest := p.digest4(head) + Zeros(|slot| - 56);
    assert |p.digest4(head)| == 4;
    assert slot == head + rest;
    assert slot[..52] == head && slot[52..56] == p.digest4(head);
    HeadFields(sb, rest);
    forall i | SB_LEN <= i < |slot| ensures slot[i] == 0 { }
    FieldsBack(sb);
  }

  lemma FieldsBack(sb: Superblock)
    requires Representable(sb)
    ensures FromLe(Le(sb.seqno, 8)) == sb.seqno && FromLe(Le(sb.dirOff, 8)) == sb.dirOff
    ensures FromLe(Le(sb.dirStored, 4)) == sb.dirStored && FromLe(Le(sb.dirRaw, 4)) == sb.dirRaw
    ensures FromLe(Le(sb.nEntries, 4)) == sb.nEntries && FromLe(Le(sb.dirXsum, 4)) == sb.dirXsum
    ensures FromLe(Le(sb.tail, 8)) == sb.tail
  {
    Pow256Values();
    FromLeInvertsLe(sb.seqno, 8);
    FromLeInvertsLe(sb.dirOff, 8);
    FromLeInvertsLe(sb.dirStored, 4);
    FromLeInvertsLe(sb.dirRaw, 4);
    FromLeInvertsLe(sb.nEntries, 4);
    FromLeInvertsLe(sb.dirXsum, 4);
    FromLeInvertsLe(sb.tail, 8);
  }

  lemma HeadFields(sb: Superblock, rest: seq<Byte>)
    requires sb.dirCodec < 256
    ensures var s := Head(sb) + rest;
      && s[0..8] == MAGIC && s[8..16] == Le(sb.seqno, 8) && s[16..24] == Le(sb.dirOff, 8)
      && s[24..28] == Le(sb.dirStored, 4) && s[28..32] == Le(sb.dirRaw, 4) && s[32..36] == Le(sb.nEntries, 4)
      && s[36..40] == Le(sb.dirXsum, 4) && s[40..48] == Le(sb.tail, 8)
      && s[48] == sb.dirCodec && s[49] == EPOCH && s[50..52] == [0, 0]
  {
  }

  lemma EncodeSlotLength(p: Platform, sb: Superblock)
    requires p.Lawful()
    ensures |EncodeSlot(p, sb)| == SLOT_LEN
  {
    assert |p.digest4(Head(sb))| == 4;
  }

  /** A slot decodes to exactly the claim that was encoded when the claim is semantically valid,
      and is refused -- never mistaken for a torn slot -- when it is not. */
  lemma DecodeInvertsEncode(p: Platform, sb: Superblock)
    requires p.Lawful() && Representable(sb)
    ensures |EncodeSlot(p, sb)| == SLOT_LEN
    ensures DecodeSlot(p, EncodeSlot(p, sb)) == if Semantic(sb) then Ok(Some(sb)) else Err
  {
    var head, slot := Head(sb), EncodeSlot(p, sb);
    var rest := p.digest4(head) + Zeros(SLOT_LEN - SB_LEN);
    assert |p.digest4(head)| == 4;
    assert slot == head + rest;
    assert slot[..HEAD_LEN] == head && slot[HEAD_LEN..SB_LEN] == p.digest4(head);
    HeadFields(sb, rest);
    forall i | SB_LEN <= i < |slot| ensures slot[i] == 0 { }
    FieldsBack(sb);
  }

  // ---- selection --------------------------------------------------------------------------

  /** `select_superblock`: the newer claim wins; two different claims at one sequence refuse. */
  function Select(first: Option<Superblock>, second: Option<Superblock>): (r: Outcome<(Superblock, nat)>)
    ensures r.Ok? ==> Some(r.value.0) == (if r.value.1 == 0 then first else second) && r.value.1 <= 1
    ensures r.Ok? ==> forall c :: Some(c) == first || Some(c) == second ==> c.seqno < r.value.0.seqno || c == r.value.0
    ensures r.Err? <==> first == None == second
                        || (first.Some? && second.Some? && first != second && first.value.seqno == second.value.seqno)
  {
    match (first, second)
    case (Some(left), Some(right)) =>
      if left.seqno == right.seqno && left != right then Err
      else if right.seqno > left.seqno then Ok((right, 1))
      else Ok((left, 0))
    case (Some(left), None) => Ok((left, 0))
    case (None, Some(right)) => Ok((right, 1))
    case (None, None) => Err
  }

  function SlotBytes(file: seq<Byte>, slot: nat): seq<Byte>
    requires |file| >= REGION_START && slot <= 1
  {
    file[slot * SLOT_LEN..slot * SLOT_LEN + SLOT_LEN]
  }

  /** Slot decoding and selection over a whole file image. */
  function SelectIn(p: Platform, file: seq<Byte>): Outcome<(Superblock, nat)> {
    if |file| < REGION_START then Err
    else
      var a :- DecodeSlot(p, SlotBytes(file, 0));
      var b :- DecodeSlot(p, SlotBytes(file, 1));
      Select(a, b)
  }
}
