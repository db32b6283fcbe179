/** Byte strings and the big-endian integers that every header of the protocol is made of
    (`int.to_bytes(width, "big")`, `int.from_bytes(b, "big")`, `struct.pack("!I", n)`). */
module ByteCodec {

  type byte = x: int | 0 <= x < 256

  type Bytes = seq<byte>

  function Pow256(width: nat): (p: nat)
    ensures p > 0
  {
    if width == 0 then 1 else 256 * Pow256(width - 1)
  }

  function BigEndian(n: nat, width: nat): (b: Bytes)
    requires n < Pow256(width)
    ensures |b| == width
  {
    if width == 0 then [] else BigEndian(n / 256, width - 1) + [n % 256]
  }

  function FromBigEndian(b: Bytes): (n: nat)
    ensures n < Pow256(|b|)
  {
    if b == [] then 0 else 256 * FromBigEndian(b[..|b| - 1]) + b[|b| - 1]
  }

  /** Decoding undoes encoding. */
  lemma {:induction false} DecodeEncode(n: nat, width: nat)
    requires n < Pow256(width)
    ensures FromBigEndian(BigEndian(n, width)) == n
  {
    if width > 0 {
      DecodeEncode(n / 256, width - 1);
      var b := BigEndian(n, width);
      assert b[..|b| - 1] == BigEndian(n / 256, width - 1);
    }
  }

  /** Encoding undoes decoding: no two byte strings of one width stand for one number. */
  lemma {:induction false} EncodeDecode(b: Bytes)
    ensures BigEndian(FromBigEndian(b), |b|) == b
  {
    if b != [] {
      var init, last := b[..|b| - 1], b[|b| - 1];
      EncodeDecode(init);
      LastDigit(FromBigEndian(init), last);
      assert b == init + [last];
    }
  }

  lemma LastDigit(n: nat, last: byte)
    ensures (256 * n + last) / 256 == n && (256 * n + last) % 256 == last
  {
  }

  /** The first byte weighs most: the encoding is big-endian. */
  lemma {:induction false} LeadingByte(first: byte, rest: Bytes)
    ensures FromBigEndian([first] + rest) == first * Pow256(|rest|) + FromBigEndian(rest)
  {
    var b := [first] + rest;
    if rest == [] {
      assert b[..0] == [];
    } else {
      var init := rest[..|rest| - 1];
      LeadingByte(first, init);
      assert b[..|b| - 1] == [first] + init;
      assert first * (256 * Pow256(|init|)) == 256 * (first * Pow256(|init|));
    }
  }
}
