/** What the container takes from outside: hashes, checksums, a compressor, UTF-8 validity, and
    the runtime admission limits. Nothing is known about them beyond `Lawful`. */
module Host {
  import opened Bytes

  datatype Platform = Platform(
    digest4: seq<Byte> -> seq<Byte>,               // first four bytes of BLAKE3
    crc: seq<Byte> -> nat,                         // crc32
    crcCombine: (nat, nat, nat) -> nat,            // crc of a ++ b from crc a, crc b, |b|
    compress: seq<Byte> -> seq<Byte>,              // zstd
    decompress: (seq<Byte>, nat) -> Outcome<seq<Byte>>,
    utf8: seq<Byte> -> bool)
  {
    ghost predicate Lawful() {
      && (forall b {:trigger digest4(b)} :: |digest4(b)| == 4)
      && (forall b {:trigger crc(b)} :: crc(b) <= U32_MAX)
      && (forall a, b, n {:trigger crcCombine(a, b, n)} :: crcCombine(a, b, n) <= U32_MAX)
      && (forall a, b {:trigger crc(a + b)} :: crc(a + b) == crcCombine(crc(a), crc(b), |b|))
      && (forall raw {:trigger compress(raw)} :: compress(raw) != [] && decompress(compress(raw), |raw|) == Ok(raw))
      && digest4(Zeros(52)) != Zeros(4)
    }
  }

  function Wrap(raw: seq<Byte>): seq<Byte> { [0] + raw }

  function Unwrap(b: seq<Byte>): Outcome<seq<Byte>> { if |b| > 0 then Ok(b[1..]) else Err }

  /** A platform of no use but to show what follows. */
  function Plain(): Platform {
    Platform(_ => [1, 1, 1, 1], _ => 0, (_, _, _) => 0, raw => Wrap(raw), (b, _) => Unwrap(b), _ => true)
  }

  /** The law asks nothing contradictory: a constant checksum and a one-byte wrapper meet it. */
  lemma LawIsConsistent()
    ensures Plain().Lawful()
  {
    hide Zeros, Wrap, Unwrap;
    forall raw: seq<Byte>
      ensures Plain().compress(raw) != [] && Plain().decompress(Plain().compress(raw), |raw|) == Ok(raw)
    {
      Unwraps(raw);
    }
    ZerosAreZero();
  }

  lemma Unwraps(raw: seq<Byte>)
    ensures Wrap(raw) != [] && Unwrap(Wrap(raw)) == Ok(raw)
  {
  }

  lemma ZerosAreZero()
    ensures Zeros(4) != [1, 1, 1, 1]
  {
    assert Zeros(4)[0] == 0;
  }

  const CODEC_STORED: nat := 0
  const CODEC_ZSTD: nat := 1

  /** `codec::encode`: the compressed form only when it is strictly smaller. */
  function CodecEncode(p: Platform, raw: seq<Byte>): (r: (nat, seq<Byte>))
    ensures |r.1| <= |raw|
    ensures r.0 <= CODEC_ZSTD
    ensures r.0 == CODEC_STORED ==> r.1 == raw
  {
    var c := p.compress(raw);
    if |c| >= |raw| then (CODEC_STORED, raw) else (CODEC_ZSTD, c)
  }

  /** `codec::decode` without a dictionary. */
  function CodecDecode(p: Platform, codec: nat, payload: seq<Byte>, rawLen: nat): Outcome<seq<Byte>> {
    if codec == CODEC_STORED then
      if |payload| == rawLen then Ok(payload) else Err
    else if codec == CODEC_ZSTD then
      var out :- p.decompress(payload, rawLen);
      if |out| == rawLen then Ok(out) else Err
    else Err
  }

  /** The shorter of the two forms is kept, and the bytes as they are on a tie. */
  lemma KeepsTheShorter(p: Platform, raw: seq<Byte>)
    ensures CodecEncode(p, raw) == if |p.compress(raw)| < |raw| then (1, p.compress(raw)) else (0, raw)
  {
  }

  /** What decodes, and to what: never to any length but the declared one. */
  lemma DecodesExactly(p: Platform, codec: nat, payload: seq<Byte>, rawLen: nat, raw: seq<Byte>)
    ensures CodecDecode(p, codec, payload, rawLen) == Ok(raw) <==>
              |raw| == rawLen && ((codec == 0 && raw == payload) || (codec == 1 && p.decompress(payload, rawLen) == Ok(raw)))
  {
  }

  lemma CodecDecodeInvertsEncode(p: Platform, raw: seq<Byte>)
    requires p.Lawful()
    ensures CodecDecode(p, CodecEncode(p, raw).0, CodecEncode(p, raw).1, |raw|) == Ok(raw)
  {
    var c := p.compress(raw);
    assert p.decompress(c, |raw|) == Ok(raw);
  }

  /** `ReadLimits`: runtime admission, checked on read and never on write. */
  datatype Limits = Limits(maxStored: nat, maxDecoded: nat, maxDirectoryEntries: nat)
}
