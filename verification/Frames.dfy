/** The block frame: header, payload and tail checksum, and what a reader accepts of one. */
module Frames {
  import opened Bytes
  import opened Host

  const BLOCK_TAG: nat := 0xA5
  const BLOCK_HDR_LEN: nat := 16
  const BLOCK_XSUM_LEN: nat := 4
  const BLOCK_OVERHEAD: nat := BLOCK_HDR_LEN + BLOCK_XSUM_LEN
  const CODEC_ZSTD_DICT: nat := 2

  const SEG_HDR_LEN: nat := 48
  const SEG_MAX_LIMIT: nat := U32_MAX
  const BLOCK_PAYLOAD_MAX: nat := SEG_MAX_LIMIT - SEG_HDR_LEN - BLOCK_OVERHEAD

  /** Where a piece lives: its block, its offset in the decompressed block, and its length. */
  datatype Loc = Loc(blockId: nat, inOff: nat, raw: nat)

  datatype BlockHdr = BlockHdr(blockId: nat, codec: nat, raw: nat, stored: nat, r16: seq<Byte>) {
    function FrameLen(): nat { BLOCK_OVERHEAD + stored }
  }

  /** Admission of persisted sizes and counts, fixed when the fold is opened. */
  datatype ReadLimits = ReadLimits(maxStored: nat, maxDecoded: nat, maxBlocks: nat) {
    predicate Usable() { 0 < maxStored && 0 < maxDecoded && 0 < maxBlocks <= U32_MAX }
    predicate Admit(stored: nat, decoded: nat) { stored <= maxStored && decoded <= maxDecoded }
    predicate AdmitBlocks(n: nat) { n <= maxBlocks }
  }

  function Xsum(p: Platform, prefix: seq<Byte>): seq<Byte> { p.digest4(prefix) }

  function R16(p: Platform, raw: seq<Byte>): seq<Byte> {
    if |p.digest4(raw)| >= 2 then p.digest4(raw)[..2] else []
  }

  function ParseHdr(b: seq<Byte>, hasDict: bool): Outcome<BlockHdr> {
    if |b| < BLOCK_HDR_LEN then Err
    else if b[0] != BLOCK_TAG then Err
    else if b[1] > CODEC_ZSTD_DICT then Err
    else
      var raw := FromLe(b[2..6]);
      var stored := FromLe(b[6..10]);
      if raw == 0 then Err
      else if stored > raw then Err
      else if b[1] == CODEC_STORED && raw != stored then Err
      else if b[1] == CODEC_ZSTD_DICT && !hasDict then Err
      else Ok(BlockHdr(FromLe(b[12..16]), b[1], raw, stored, b[10..12]))
  }

  /** Accept a whole frame: a good header, all its bytes, and a matching tail checksum. */
  function VerifyFrame(p: Platform, frame: seq<Byte>, hasDict: bool): Outcome<BlockHdr> {
    var hdr :- ParseHdr(frame, hasDict);
    var end := hdr.FrameLen() - BLOCK_XSUM_LEN;
    if |frame| < hdr.FrameLen() then Err
    else if Xsum(p, frame[..end]) != frame[end..end + BLOCK_XSUM_LEN] then Err
    else Ok(hdr)
  }

  /** A block as the writer frames it: its raw bytes and the payload the codec chose for them. */
  datatype Frame = Frame(id: nat, codec: nat, raw: seq<Byte>, payload: seq<Byte>) {
    predicate Fits() {
      && id <= U32_MAX
      && codec <= CODEC_ZSTD
      && 0 < |raw| <= U32_MAX
      && |payload| <= |raw|
      && (codec == CODEC_STORED ==> payload == raw)
    }

    ghost predicate Decodes(p: Platform) { CodecDecode(p, codec, payload, |raw|) == Ok(raw) }

    function Len(): nat { BLOCK_OVERHEAD + |payload| }

    function Hdr(p: Platform): BlockHdr { BlockHdr(id, codec, |raw|, |payload|, R16(p, raw)) }
  }

  function HdrBytes(p: Platform, f: Frame): (b: seq<Byte>)
    requires f.Fits()
  {
    [BLOCK_TAG, f.codec] + Le(|f.raw|, 4) + Le(|f.payload|, 4) + R16(p, f.raw) + Le(f.id, 4)
  }

  function FrameBytes(p: Platform, f: Frame): seq<Byte>
    requires f.Fits()
  {
    var prefix := HdrBytes(p, f) + f.payload;
    prefix + Xsum(p, prefix)
  }

  /** Build a frame into an empty buffer; refused when empty or when a length exceeds its u32 field. */
  method EncodeFrame(p: Platform, f: Frame) returns (r: Outcome<seq<Byte>>)
    requires f.id <= U32_MAX && f.codec <= CODEC_ZSTD
    requires |f.payload| <= |f.raw| && (f.codec == CODEC_STORED ==> f.payload == f.raw)
    ensures r == if f.Fits() then Ok(FrameBytes(p, f)) else Err
  {
    if |f.raw| == 0 { return Err; }
    if |f.raw| > U32_MAX || |f.payload| > U32_MAX { return Err; }
    var out: seq<Byte> := [BLOCK_TAG];
    out := out + [f.codec];
    out := out + Le(|f.raw|, 4);
    out := out + Le(|f.payload|, 4);
    out := out + R16(p, f.raw);
    out := out + Le(f.id, 4);
    assert out == HdrBytes(p, f);
    out := out + f.payload;
    out := out + Xsum(p, out);
    return Ok(out);
  }

  lemma Le4(v: nat)
    requires v <= U32_MAX
    ensures FromLe(Le(v, 4)) == v
  {
    Pow256Values();
    FromLeInvertsLe(v, 4);
  }

  lemma FrameLength(p: Platform, f: Frame)
    requires p.Lawful() && f.Fits()
    ensures |HdrBytes(p, f)| == BLOCK_HDR_LEN && |FrameBytes(p, f)| == f.Len()
    ensures FrameBytes(p, f)[..BLOCK_HDR_LEN] == HdrBytes(p, f)
  {
    assert |p.digest4(f.raw)| == 4;
    assert |p.digest4(HdrBytes(p, f) + f.payload)| == 4;
  }

  /** Whatever follows it, a header the writer laid down parses back to its own fields. */
  lemma ParseInvertsHdr(p: Platform, f: Frame, b: seq<Byte>, hasDict: bool)
    requires p.Lawful() && f.Fits()
    requires |b| >= BLOCK_HDR_LEN && b[..BLOCK_HDR_LEN] == HdrBytes(p, f)
    ensures ParseHdr(b, hasDict) == Ok(f.Hdr(p))
  {
    FrameLength(p, f);
    var h := HdrBytes(p, f);
    Le4(|f.raw|); Le4(|f.payload|); Le4(f.id);
    assert b[2..6] == h[2..6] == Le(|f.raw|, 4);
    assert b[6..10] == h[6..10] == Le(|f.payload|, 4);
    assert b[10..12] == h[10..12] == R16(p, f.raw);
    assert b[12..16] == h[12..16] == Le(f.id, 4);
    assert b[0] == h[0] && b[1] == h[1];
  }

  lemma VerifyInvertsFrame(p: Platform, f: Frame, hasDict: bool)
    requires p.Lawful() && f.Fits()
    ensures VerifyFrame(p, FrameBytes(p, f), hasDict) == Ok(f.Hdr(p))
  {
    FrameLength(p, f);
    var b := FrameBytes(p, f);
    ParseInvertsHdr(p, f, b, hasDict);
    var end := f.Len() - BLOCK_XSUM_LEN;
    var prefix := HdrBytes(p, f) + f.payload;
    assert b[..end] == prefix;
    assert b[end..end + BLOCK_XSUM_LEN] == Xsum(p, prefix);
  }

  /** The header fields a frame may carry. */
  predicate Headed(h: BlockHdr, hasDict: bool) {
    && h.blockId <= U32_MAX && 0 < h.raw <= U32_MAX && h.stored <= h.raw && |h.r16| == 2
    && (h.codec == 0 || h.codec == 1 || (h.codec == 2 && hasDict))
    && (h.codec == 0 ==> h.stored == h.raw)
  }

  /** The sixteen header bytes of `h`. */
  function Headline(h: BlockHdr): seq<Byte> {
    [0xA5, if h.codec < 256 then h.codec else 0] + Le(h.raw, 4) + Le(h.stored, 4) + h.r16 + Le(h.blockId, 4)
  }

  /** The bytes begin with a frame for `h`: its sixteen header bytes, `h.stored` more, and the digest of all those. */
  predicate Framed(p: Platform, b: seq<Byte>, h: BlockHdr, hasDict: bool) {
    && Headed(h, hasDict) && |b| >= 20 + h.stored
    && b[..16] == Headline(h)
    && b[16 + h.stored..20 + h.stored] == p.digest4(b[..16 + h.stored])
  }

  /** A header is accepted exactly when its fields may be carried and its bytes spell them. */
  lemma ParsesExactlyHeaders(b: seq<Byte>, h: BlockHdr, hasDict: bool)
    ensures ParseHdr(b, hasDict) == Ok(h) <==> Headed(h, hasDict) && |b| >= 16 && b[..16] == Headline(h)
  {
    hide Le, FromLe;
    Pow256Values();
    if |b| >= BLOCK_HDR_LEN {
      FieldBack(b[2..6]);
      FieldBack(b[6..10]);
      FieldBack(b[12..16]);
      assert b[..16] == [b[0], b[1]] + b[2..6] + b[6..10] + b[10..12] + b[12..16];
    }
    if Headed(h, hasDict) && |b| >= 16 && b[..16] == Headline(h) {
      var head := Headline(h);
      Le4(h.raw); Le4(h.stored); Le4(h.blockId);
      assert b[0] == b[..16][0] && b[1] == b[..16][1];
      assert b[2..6] == b[..16][2..6] == head[2..6] == Le(h.raw, 4);
      assert b[6..10] == b[..16][6..10] == head[6..10] == Le(h.stored, 4);
      assert b[10..12] == b[..16][10..12] == head[10..12] == h.r16;
      assert b[12..16] == b[..16][12..16] == head[12..16] == Le(h.blockId, 4);
    }
  }

  /** Verification accepts exactly the frames that are what they declare, digest included. */
  lemma VerifiesExactlyFrames(p: Platform, b: seq<Byte>, h: BlockHdr, hasDict: bool)
    ensures VerifyFrame(p, b, hasDict) == Ok(h) <==> Framed(p, b, h, hasDict)
  {
    hide ParseHdr, Headline;
    ParsesExactlyHeaders(b, h, hasDict);
  }

  // ---- reading one block ----------------------------------------------------------------

  /** The bytes at `[at, at + n)` of a segment; a short read is an error. */
  function ReadExact(segment: seq<Byte>, at: nat, n: nat): Outcome<seq<Byte>> {
    if at + n <= |segment| then Ok(segment[at..at + n]) else Err
  }

  /** The decompressed bytes of the block a directory entry names, through every check of a read. */
  function ReadBlock(p: Platform, limits: ReadLimits, segment: seq<Byte>, off: nat, id: nat): Outcome<seq<Byte>> {
    if off < SEG_HDR_LEN then Err
    else
      var hb :- ReadExact(segment, off, BLOCK_HDR_LEN);
      var hdr :- ParseHdr(hb, false);
      if hdr.blockId != id then Err
      else if !limits.Admit(hdr.stored, hdr.raw) then Err
      else if off + hdr.FrameLen() > SEG_MAX_LIMIT then Err
      else
        var frame :- ReadExact(segment, off, hdr.FrameLen());
        var verified :- VerifyFrame(p, frame, false);
        var payload := frame[BLOCK_HDR_LEN..BLOCK_HDR_LEN + hdr.stored];
        var raw :- CodecDecode(p, hdr.codec, payload, hdr.raw);
        if R16(p, raw) != hdr.r16 then Err else Ok(raw)
  }

  /** A block reads as `raw` exactly when a whole frame of that id stands at `off`, within the limits and the
      segment bound, and its payload decompresses to bytes that carry the header's own check of them. */
  lemma ReadsExactlyBlocks(p: Platform, limits: ReadLimits, segment: seq<Byte>, off: nat, id: nat, raw: seq<Byte>)
    ensures ReadBlock(p, limits, segment, off, id) == Ok(raw)
            <==> SEG_HDR_LEN <= off <= |segment|
                 && exists h :: Framed(p, segment[off..], h, false) && Delivers(p, limits, segment[off..], h, off, id, raw)
  {
    hide Framed, CodecDecode, Headed, ParseHdr, R16;
    if SEG_HDR_LEN <= off <= |segment| {
      var b := segment[off..];
      if ReadBlock(p, limits, segment, off, id) == Ok(raw) {
        var h := ParseHdr(ReadExact(segment, off, BLOCK_HDR_LEN).value, false).value;
        WholeFrame(p, b, h);
        SameBytes(segment, off, h.stored);
        CheckOfRaw(p, b, h, raw);
        assert Framed(p, b, h, false) && Delivers(p, limits, b, h, off, id, raw);
      }
      if h :| Framed(p, b, h, false) && Delivers(p, limits, b, h, off, id, raw) {
        WholeFrame(p, b, h);
        SameBytes(segment, off, h.stored);
        CheckOfRaw(p, b, h, raw);
      }
    }
  }

  lemma SameBytes(segment: seq<Byte>, off: nat, stored: nat)
    requires off + 20 + stored <= |segment|
    ensures var b, frame := segment[off..], segment[off..off + 20 + stored];
            segment[off..off + 16] == b[..16] && frame == b[..20 + stored] && frame[16..16 + stored] == b[16..16 + stored]
  {
  }

  lemma CheckOfRaw(p: Platform, b: seq<Byte>, h: BlockHdr, raw: seq<Byte>)
    requires Framed(p, b, h, false)
    ensures R16(p, raw) == h.r16 <==> |p.digest4(raw)| >= 2 && p.digest4(raw)[..2] == h.r16
  {
  }

  predicate Delivers(p: Platform, limits: ReadLimits, b: seq<Byte>, h: BlockHdr, off: nat, id: nat, raw: seq<Byte>) {
    && h.blockId == id && limits.Admit(h.stored, h.raw) && off + 20 + h.stored <= SEG_MAX_LIMIT
    && 16 + h.stored <= |b| && CodecDecode(p, h.codec, b[16..16 + h.stored], h.raw) == Ok(raw)
    && |p.digest4(raw)| >= 2 && p.digest4(raw)[..2] == h.r16
  }

  /** Whether a frame stands at the front of some bytes, asked of its header and of the frame cut to its length. */
  lemma WholeFrame(p: Platform, b: seq<Byte>, h: BlockHdr)
    ensures Framed(p, b, h, false) ==>
              |b| >= 20 + h.stored && ParseHdr(b[..16], false) == VerifyFrame(p, b[..20 + h.stored], false) == Ok(h)
    ensures (|b| >= 20 + h.stored && ParseHdr(b[..16], false) == Ok(h)
             && VerifyFrame(p, b[..20 + h.stored], false).Ok?) ==> Framed(p, b, h, false)
  {
    hide ParseHdr, Headline, Headed;
    if |b| >= 20 + h.stored {
      var c := b[..20 + h.stored];
      assert b[..16] == c[..16] == b[..16][..16] && b[..16 + h.stored] == c[..16 + h.stored];
      assert b[16 + h.stored..20 + h.stored] == c[16 + h.stored..20 + h.stored];
      ParsesExactlyHeaders(b[..16], h, false);
      ParsesExactlyHeaders(c, h, false);
    }
  }

  /** A frame standing in a segment reads back as exactly the block it was built from. */
  lemma FrameReadsBack(p: Platform, limits: ReadLimits, segment: seq<Byte>, off: nat, f: Frame)
    requires p.Lawful() && f.Fits() && f.Decodes(p)
    requires SEG_HDR_LEN <= off && off + f.Len() <= |segment| && off + f.Len() <= SEG_MAX_LIMIT
    requires segment[off..off + f.Len()] == FrameBytes(p, f)
    requires limits.Admit(|f.payload|, |f.raw|)
    ensures ReadBlock(p, limits, segment, off, f.id) == Ok(f.raw)
  {
    hide ParseHdr, VerifyFrame, Xsum;
    FrameLength(p, f);
    var hb := segment[off..off + BLOCK_HDR_LEN];
    assert hb == segment[off..off + f.Len()][..BLOCK_HDR_LEN];
    ParseInvertsHdr(p, f, hb, false);
    VerifyInvertsFrame(p, f, false);
    assert FrameBytes(p, f)[BLOCK_HDR_LEN..BLOCK_HDR_LEN + |f.payload|] == f.payload;
  }
}
