/** The wire format: an 8-byte header and a payload. */
module Protocol {
  import opened Wrappers

  type byte = b: int | 0 <= b < 0x100

  const MAGIC_0: byte := 0xC5
  const MAGIC_1: byte := 0x53
  const VERSION: byte := 1
  const HEADER_LEN := 8
  const U32_MAX := 0xFFFF_FFFF

  datatype FrameError =
    | InvalidMagic
    | UnsupportedVersion(version: byte)
    | TooShort
    | TooLarge(len: nat)
    | LengthMismatch(expected: nat, actual: nat)

  datatype Frame = Frame(frameType: byte, payload: seq<byte>)

  // ----- Big-endian lengths ----------------------------------------------------

  function BeBytes(n: nat): (bs: seq<byte>)
    requires n <= U32_MAX
    ensures |bs| == 4
  {
    [n / 0x100 / 0x100 / 0x100, n / 0x100 / 0x100 % 0x100, n / 0x100 % 0x100, n % 0x100]
  }

  function BeValue(bs: seq<byte>): (n: nat)
    requires |bs| == 4
    ensures n <= U32_MAX
  {
    var high: nat, low: nat := bs[0], bs[3];
    var second: nat, third: nat := bs[1], bs[2];
    ((high * 0x100 + second) * 0x100 + third) * 0x100 + low
  }

  lemma BeInverse(n: nat)
    requires n <= U32_MAX
    ensures BeValue(BeBytes(n)) == n
  {
  }

  lemma BeInverseBytes(bs: seq<byte>)
    requires |bs| == 4
    ensures BeBytes(BeValue(bs)) == bs
  {
    var high: nat, second: nat := bs[0], bs[1];
    var upper := high * 0x100 + second;
    var third: nat := bs[2];
    assert BeValue(bs) / 0x100 == upper * 0x100 + third;
    assert (upper * 0x100 + third) / 0x100 == upper;
  }

  // ----- The codec ---------------------------------------------------------------

  predicate Encodable(f: Frame) {
    |f.payload| <= U32_MAX
  }

  function Encoding(f: Frame): (bs: seq<byte>)
    requires Encodable(f)
    ensures |bs| == HEADER_LEN + |f.payload|
  {
    [MAGIC_0, MAGIC_1, VERSION, f.frameType] + BeBytes(|f.payload|) + f.payload
  }

  /** Serialising appends field after field, or refuses a payload a u32 cannot measure. */
  method ToBytes(f: Frame) returns (r: Result<seq<byte>, FrameError>)
    ensures r == if Encodable(f) then Ok(Encoding(f)) else Err(TooLarge(|f.payload|))
  {
    var len := |f.payload|;
    if len > U32_MAX {
      return Err(TooLarge(len));
    }
    var out: seq<byte> := [];
    out := out + [MAGIC_0];
    out := out + [MAGIC_1];
    out := out + [VERSION];
    out := out + [f.frameType];
    out := out + BeBytes(len);
    out := out + f.payload;
    assert out == Encoding(f);
    return Ok(out);
  }

  function FromBytes(data: seq<byte>): Result<Frame, FrameError> {
    if |data| < HEADER_LEN then Err(TooShort)
    else if data[0] != MAGIC_0 || data[1] != MAGIC_1 then Err(InvalidMagic)
    else if data[2] != VERSION then Err(UnsupportedVersion(data[2]))
    else
      var expected := BeValue(data[4..8]);
      var available := |data| - HEADER_LEN;
      if available != expected then Err(LengthMismatch(expected, available))
      else Ok(Frame(data[3], data[HEADER_LEN..]))
  }

  /** Decoding an encoding gives the frame back, for every type byte and every payload a u32 can measure. */
  lemma DecodeEncode(f: Frame)
    requires Encodable(f)
    ensures FromBytes(Encoding(f)) == Ok(f)
  {
    BeInverse(|f.payload|);
    var bs := Encoding(f);
    assert bs[4..8] == BeBytes(|f.payload|);
    assert bs[8..] == f.payload;
  }

  /** Bytes that decode are the encoding of what they decode to: there is one encoding per frame. */
  lemma EncodeDecode(data: seq<byte>)
    requires FromBytes(data).Ok?
    ensures Encodable(FromBytes(data).value) && Encoding(FromBytes(data).value) == data
  {
    BeInverseBytes(data[4..8]);
    assert data == data[0..4] + data[4..8] + data[8..];
    assert data[0..4] == [data[0], data[1], data[2], data[3]];
  }

  /** No encoding is a proper prefix of another, so frames can follow each other on a stream. */
  lemma PrefixFree(f: Frame, g: Frame)
    requires Encodable(f) && Encodable(g) && Encoding(f) <= Encoding(g)
    ensures f == g
  {
    var a, b := Encoding(f), Encoding(g);
    assert b[..|a|] == a;
    BeInverse(|f.payload|);
    BeInverse(|g.payload|);
    assert a[4..8] == BeBytes(|f.payload|) && b[4..8] == BeBytes(|g.payload|);
    assert a[4..8] == b[4..8];
    assert a == b;
    DecodeEncode(f);
    DecodeEncode(g);
  }

  // ----- The layout, byte by byte ----------------------------------------------------

  function Quad(first: int, second: int, third: int, last: int): int {
    first * 16_777_216 + second * 65_536 + third * 256 + last
  }

  /**
   The wire layout in numbers: two magic bytes, version 1, the type, the payload's
   length with the most significant byte first, the payload.
   */
  lemma Layout(f: Frame)
    requires |f.payload| < 0x1_0000_0000
    ensures Encodable(f)
    ensures var bs := Encoding(f);
      && |bs| == 8 + |f.payload|
      && bs[0] == 0xC5 && bs[1] == 0x53 && bs[2] == 1 && bs[3] == f.frameType
      && Quad(bs[4], bs[5], bs[6], bs[7]) == |f.payload|
      && bs[8..] == f.payload
  {
    BeInverse(|f.payload|);
    assert Encoding(f)[4..8] == BeBytes(|f.payload|);
  }

  /** A payload that a u32 cannot measure has no encoding. */
  lemma TooLargeIsRefused(f: Frame)
    ensures Encodable(f) <==> |f.payload| <= 4_294_967_295
  {
  }

  /** What decoding says of any bytes, in the order in which it looks. */
  lemma Decoded(data: seq<byte>)
    ensures |data| < 8 ==> FromBytes(data) == Err(TooShort)
    ensures |data| >= 8 && !(data[0] == 0xC5 && data[1] == 0x53) ==> FromBytes(data) == Err(InvalidMagic)
    ensures |data| >= 8 && data[0] == 0xC5 && data[1] == 0x53 && data[2] != 1 ==>
      FromBytes(data) == Err(UnsupportedVersion(data[2]))
    ensures |data| >= 8 && data[0] == 0xC5 && data[1] == 0x53 && data[2] == 1 ==>
      var expected := Quad(data[4], data[5], data[6], data[7]);
      FromBytes(data) ==
        if |data| == 8 + expected then Ok(Frame(data[3], data[8..])) else Err(LengthMismatch(expected, |data| - 8))
  {
    if |data| >= 8 {
      assert data[4..8] == [data[4], data[5], data[6], data[7]];
    }
  }
}
