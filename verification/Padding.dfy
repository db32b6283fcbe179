/** `padding.py`: a plaintext travels as a four-byte length, the bytes themselves, and zeros up to a
    fixed bucket size. */
module Padding {
  import opened ByteCodec
  import opened Wrappers

  const BUCKETS: seq<nat> := [32, 64, 128, 256, 512, 1024, 2048, 4096, 8192]
  const LARGEST: nat := 8192
  const LENGTH_PREFIX_SIZE: nat := 4
  const MAX_PLAINTEXT_SIZE: nat := 0xFFFFFFFF

  datatype PaddingError = TooLong | NoLengthPrefix | LengthExceedsMessage

  /** The first bucket that fits, scanning from the smallest. */
  function FirstFit(size: nat, buckets: seq<nat>): Option<nat> {
    if buckets == [] then None
    else if size <= buckets[0] then Some(buckets[0])
    else FirstFit(size, buckets[1..])
  }

  function BucketFor(size: nat): nat {
    match FirstFit(size, BUCKETS)
    case Some(b) => b
    case None => (size + LARGEST - 1) / LARGEST * LARGEST
  }

  function Zeros(n: nat): (z: Bytes)
    ensures |z| == n
  {
    seq(n, _ => 0)
  }

  lemma PrefixFits(n: nat)
    requires n <= MAX_PLAINTEXT_SIZE
    ensures n < Pow256(LENGTH_PREFIX_SIZE)
  {
    assert Pow256(4) == 256 * (256 * (256 * (256 * Pow256(0))));
  }

  function Pad(text: Bytes): Result<Bytes, PaddingError> {
    if |text| > MAX_PLAINTEXT_SIZE then Failure(TooLong) else
    PrefixFits(|text|);
    var framed := BigEndian(|text|, LENGTH_PREFIX_SIZE) + text;
    BucketHolds(|framed|);
    Success(framed + Zeros(BucketFor(|framed|) - |framed|))
  }

  function Unpad(padded: Bytes): Result<Bytes, PaddingError> {
    if |padded| < LENGTH_PREFIX_SIZE then Failure(NoLengthPrefix) else
    var end := LENGTH_PREFIX_SIZE + FromBigEndian(padded[..LENGTH_PREFIX_SIZE]);
    if end > |padded| then Failure(LengthExceedsMessage)
    else Success(padded[LENGTH_PREFIX_SIZE..end])
  }

  // ----- properties

  /** The sizes a padded message may have. */
  predicate Admissible(size: nat) {
    size in BUCKETS || (size > LARGEST && size % LARGEST == 0)
  }

  lemma FirstFitScans(size: nat)
    ensures FirstFit(size, BUCKETS) ==
            if size <= 32 then Some(32) else if size <= 64 then Some(64) else if size <= 128 then Some(128)
            else if size <= 256 then Some(256) else if size <= 512 then Some(512) else if size <= 1024 then Some(1024)
            else if size <= 2048 then Some(2048) else if size <= 4096 then Some(4096)
            else if size <= 8192 then Some(8192) else None
  {
    ScanFrom(size, 0); ScanFrom(size, 1); ScanFrom(size, 2); ScanFrom(size, 3); ScanFrom(size, 4);
    ScanFrom(size, 5); ScanFrom(size, 6); ScanFrom(size, 7); ScanFrom(size, 8);
  }

  lemma ScanFrom(size: nat, i: nat)
    requires i < |BUCKETS|
    ensures FirstFit(size, BUCKETS[i..]) ==
            if size <= BUCKETS[i] then Some(BUCKETS[i]) else FirstFit(size, BUCKETS[i + 1..])
    ensures BUCKETS[0..] == BUCKETS && FirstFit(size, BUCKETS[|BUCKETS|..]) == None
  {
    assert BUCKETS[i..][1..] == BUCKETS[i + 1..];
  }

  /** The bucket holds the framed message, is admissible, and is less than twice its size. */
  lemma BucketHolds(size: nat)
    ensures size <= BucketFor(size)
    ensures Admissible(BucketFor(size))
    ensures BucketFor(size) <= (if 2 * size - 1 < 32 then 32 else 2 * size - 1)
  {
    FirstFitScans(size);
    if size > LARGEST {
      var q := (size + LARGEST - 1) / LARGEST;
      assert q * LARGEST <= size + LARGEST - 1 < (q + 1) * LARGEST;
      assert (q * LARGEST) % LARGEST == 0;
    }
  }

  /** No admissible size that holds the framed message is smaller than the bucket chosen. */
  lemma BucketIsLeast(size: nat, other: nat)
    requires Admissible(other) && size <= other
    ensures BucketFor(size) <= other
  {
    FirstFitScans(size);
    if size > LARGEST {
      var q := (size + LARGEST - 1) / LARGEST;
      var p := other / LARGEST;
      assert other == p * LARGEST + other % LARGEST;
      assert q * LARGEST <= size + LARGEST - 1;
    }
  }

  lemma BucketIsMonotone(small: nat, large: nat)
    requires small <= large
    ensures BucketFor(small) <= BucketFor(large)
  {
    BucketHolds(large);
    BucketIsLeast(small, BucketFor(large));
  }

  /** Every plaintext the length prefix can describe survives padding and unpadding unchanged, and what
      follows it is zeros. */
  lemma PadRoundTrip(text: Bytes)
    ensures |text| <= MAX_PLAINTEXT_SIZE ==> Pad(text).Success? && Unpad(Pad(text).value) == Success(text)
    ensures |text| <= MAX_PLAINTEXT_SIZE ==>
              forall i | LENGTH_PREFIX_SIZE + |text| <= i < |Pad(text).value| :: Pad(text).value[i] == 0
    ensures |text| > MAX_PLAINTEXT_SIZE ==> Pad(text) == Failure(TooLong)
  {
    if |text| <= MAX_PLAINTEXT_SIZE {
      PrefixFits(|text|);
      var prefix := BigEndian(|text|, LENGTH_PREFIX_SIZE);
      DecodeEncode(|text|, LENGTH_PREFIX_SIZE);
      var p := Pad(text).value;
      assert p[..LENGTH_PREFIX_SIZE] == prefix;
      assert p[LENGTH_PREFIX_SIZE..LENGTH_PREFIX_SIZE + |text|] == text;
    }
  }

  /** What an eavesdropper sees: the least admissible size for the message, growing with its length,
      and equal for any two messages that share a bucket. */
  lemma PaddedLength(a: Bytes, b: Bytes)
    requires |a| <= |b| <= MAX_PLAINTEXT_SIZE
    ensures Pad(a).Success? && Pad(b).Success? && |Pad(a).value| <= |Pad(b).value|
    ensures Admissible(|Pad(a).value|)
    ensures |Pad(a).value| <= (if 2 * (|a| + 4) - 1 < 32 then 32 else 2 * (|a| + 4) - 1)
    ensures forall size: nat | Admissible(size) && |a| + LENGTH_PREFIX_SIZE <= size :: |Pad(a).value| <= size
    ensures |b| + LENGTH_PREFIX_SIZE <= |Pad(a).value| ==> |Pad(b).value| == |Pad(a).value|
  {
    BucketHolds(|a| + LENGTH_PREFIX_SIZE);
    BucketHolds(|b| + LENGTH_PREFIX_SIZE);
    BucketIsMonotone(|a| + LENGTH_PREFIX_SIZE, |b| + LENGTH_PREFIX_SIZE);
    forall size: nat | Admissible(size) && |a| + LENGTH_PREFIX_SIZE <= size ensures |Pad(a).value| <= size {
      BucketIsLeast(|a| + LENGTH_PREFIX_SIZE, size);
    }
    if |b| + LENGTH_PREFIX_SIZE <= |Pad(a).value| {
      BucketIsLeast(|b| + LENGTH_PREFIX_SIZE, |Pad(a).value|);
    }
  }

  /** Unpadding succeeds exactly on a length prefix followed by at least that many bytes. */
  lemma UnpadAccepts(padded: Bytes, text: Bytes)
    ensures Unpad(padded) == Success(text) <==>
            |text| <= MAX_PLAINTEXT_SIZE && BigEndianPrefix(|text|) + text <= padded
    ensures Unpad(padded) == Failure(NoLengthPrefix) <==> |padded| < 4
  {
    if Unpad(padded) == Success(text) {
      var prefix := padded[..LENGTH_PREFIX_SIZE];
      assert Pow256(4) == 256 * (256 * (256 * (256 * Pow256(0))));
      EncodeDecode(prefix);
      assert padded[..LENGTH_PREFIX_SIZE + |text|] == prefix + text;
    }
    if |text| <= MAX_PLAINTEXT_SIZE && BigEndianPrefix(|text|) + text <= padded {
      PrefixFits(|text|);
      DecodeEncode(|text|, LENGTH_PREFIX_SIZE);
      assert padded[..LENGTH_PREFIX_SIZE] == BigEndianPrefix(|text|);
      assert padded[LENGTH_PREFIX_SIZE..LENGTH_PREFIX_SIZE + |text|]
          == (BigEndianPrefix(|text|) + text)[LENGTH_PREFIX_SIZE..];
    }
  }

  function BigEndianPrefix(n: nat): Bytes
    requires n <= MAX_PLAINTEXT_SIZE
  {
    PrefixFits(n);
    BigEndian(n, LENGTH_PREFIX_SIZE)
  }
}
