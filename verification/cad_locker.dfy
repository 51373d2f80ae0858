/**
 * The definitions shared by the builder and the stub: the repeating-key XOR cipher, the
 * 16-byte footer that ends every protected executable, and the configuration constants.
 */
module CadLocker {

  import opened CLib

  /** Exactly eight bytes: the magic field of the footer. */
  type Bytes8 = s: seq<byte> | |s| == 8 witness [0, 0, 0, 0, 0, 0, 0, 0]

  const TwoTo64: int := 0x1_0000_0000_0000_0000

  /** The values a uint64_t can hold. */
  type U64 = x: int | 0 <= x < TwoTo64

  // ---------------------------------------------------------------- configuration

  /** XOR_KEY: the bytes of the text "MySecretCADKey2024!@#$", without its terminating NUL. */
  const XorKey: seq<byte> := [
    0x4D, 0x79, 0x53, 0x65, 0x63, 0x72, 0x65, 0x74,   // M y S e c r e t
    0x43, 0x41, 0x44, 0x4B, 0x65, 0x79,               // C A D K e y
    0x32, 0x30, 0x32, 0x34, 0x21, 0x40, 0x23, 0x24    // 2 0 2 4 ! @ # $
  ]
  const XorKeyLen: nat := 22

  /** MAGIC_MARKER: the bytes of "CADLOCK" followed by a NUL. */
  const MagicMarkerText: string := "CADLOCK"
  const MagicMarker: Bytes8 := [0x43, 0x41, 0x44, 0x4C, 0x4F, 0x43, 0x4B, 0x00]
  const MagicMarkerLen: nat := 8

  /** The number of launches the stub allows; 0 would mean unlimited. */
  const MaxLaunchCount: int := 5

  /** payload_size (8 bytes) followed by the magic marker (8 bytes). */
  const FooterSize: nat := 16

  /** The key has XOR_KEY_LEN bytes, so every index i % XOR_KEY_LEN lies inside it. */
  lemma XorKeyHasKeyLength()
    ensures |XorKey| == XorKeyLen
  {
  }

  /** The magic is "CADLOCK" in ASCII followed by one NUL byte. */
  lemma MagicSpellsCadlock()
    ensures |MagicMarker| == MagicMarkerLen == |MagicMarkerText| + 1
    ensures forall i :: 0 <= i < |MagicMarkerText| ==> MagicMarker[i] as int == MagicMarkerText[i] as int
    ensures MagicMarker[7] == 0
  {
  }

  // ---------------------------------------------------------------- cipher

  /** The key byte that meets byte i of a buffer: XOR_KEY[i % XOR_KEY_LEN]. */
  function KeyByte(i: nat): byte
  {
    XorKey[i % XorKeyLen]
  }

  /** The cipher applied to a whole buffer: byte i is XORed with key byte i mod XOR_KEY_LEN. */
  function Xored(data: seq<byte>): (r: seq<byte>)
    ensures |r| == |data|
  {
    seq(|data|, i requires 0 <= i < |data| => data[i] ^ KeyByte(i))
  }

  /** xor_crypt: enciphers (or deciphers) the buffer in place. */
  method XorCrypt(data: array<byte>)
    modifies data
    ensures data[..] == Xored(old(data[..]))
  {
    ghost var original := data[..];
    var i := 0;
    while i < data.Length
      invariant 0 <= i <= data.Length && |original| == data.Length
      invariant forall j :: 0 <= j < i ==> data[j] == original[j] ^ KeyByte(j)
      invariant forall j :: i <= j < data.Length ==> data[j] == original[j]
    {
      data[i] := data[i] ^ KeyByte(i);
      i := i + 1;
    }
    assert data[..] == Xored(original);
  }

  /** The cipher is its own inverse: deciphering what was enciphered gives back the original bytes. */
  lemma XoredIsInvolution(data: seq<byte>)
    ensures Xored(Xored(data)) == data
  {
    forall i | 0 <= i < |data|
      ensures Xored(Xored(data))[i] == data[i]
    {
      var k := KeyByte(i);
      assert (data[i] ^ k) ^ k == data[i];
    }
  }

  // ---------------------------------------------------------------- little-endian integers

  function Pow256(n: nat): (r: nat)
    ensures r > 0
  {
    if n == 0 then 1 else 256 * Pow256(n - 1)
  }

  /** The n bytes that represent v in memory on a little-endian machine (least significant first). */
  function LeBytes(v: nat, n: nat): (r: seq<byte>)
    ensures |r| == n
  {
    if n == 0 then [] else [ByteOf(v % 256)] + LeBytes(v / 256, n - 1)
  }

  /** The unsigned value that the little-endian bytes bs represent. */
  function LeValue(bs: seq<byte>): (r: nat)
    ensures r < Pow256(|bs|)
  {
    if bs == [] then 0 else bs[0] as nat + 256 * LeValue(bs[1..])
  }

  /** Reading back the bytes written for v gives v, for every v that fits in n bytes. */
  lemma {:induction false} LeValueOfLeBytes(v: nat, n: nat)
    requires v < Pow256(n)
    ensures LeValue(LeBytes(v, n)) == v
  {
    if n > 0 {
      var low, high := v % 256, v / 256;
      assert high < Pow256(n - 1);
      LeValueOfLeBytes(high, n - 1);
      var bs := LeBytes(v, n);
      assert bs[1..] == LeBytes(high, n - 1);
      ByteOfHolds(low);
      assert LeValue(bs) == low + 256 * high;
    }
  }

  /** Writing out the value that bytes represent gives back the same bytes. */
  lemma {:induction false} LeBytesOfLeValue(bs: seq<byte>)
    ensures LeBytes(LeValue(bs), |bs|) == bs
  {
    if bs != [] {
      var v := LeValue(bs);
      var high := LeValue(bs[1..]);
      LeBytesOfLeValue(bs[1..]);
      DigitsOfValue(v, bs[0] as nat, high);
      ByteOfHolds(bs[0] as nat);
      SameValueSameByte(ByteOf(bs[0] as nat), bs[0]);
      assert LeBytes(v, |bs|) == [bs[0]] + LeBytes(high, |bs| - 1);
    }
  }

  /** The bit x % 2 as a byte. */
  function LowBit(x: nat): (b: byte)
    ensures b as int == x % 2
  {
    if x % 2 == 1 then 1 else 0
  }

  /** The byte that holds the unsigned value x (below 256), built from its binary digits. */
  function ByteOf(x: nat): byte
    requires x < 256
  {
    if x == 0 then 0 else (ByteOf(x / 2) << 1) | LowBit(x)
  }

  /** The byte built for x holds x. */
  lemma {:induction false} ByteOfHolds(x: nat)
    requires x < 256
    ensures ByteOf(x) as int == x
  {
    if x > 0 {
      ByteOfHolds(x / 2);
      ShiftInBit(ByteOf(x / 2), LowBit(x));
    }
  }

  /** Shifting a byte below 128 left by one and setting bit 0 doubles its value and adds the bit. */
  lemma ShiftInBit(b: byte, bit: byte)
    requires b as int < 128 && bit as int < 2
    ensures ((b << 1) | bit) as int == 2 * (b as int) + bit as int
  {
  }

  /** Two bytes with the same value are the same byte. */
  lemma SameValueSameByte(a: byte, b: byte)
    requires a as int == b as int
    ensures a == b
  {
  }

  /** The base-256 digits of low + 256 * high. */
  lemma DigitsOfValue(v: nat, low: nat, high: nat)
    requires low < 256 && v == low + 256 * high
    ensures v % 256 == low && v / 256 == high
  {
  }

  lemma EightBytesHoldU64()
    ensures Pow256(8) == TwoTo64
  {
  }

  // ---------------------------------------------------------------- footer

  /** CADLockerFooter: a packed struct of a 64-bit payload size and the 8-byte magic field. */
  datatype Footer = Footer(payloadSize: U64, magic: Bytes8)

  /** The 16 bytes of the struct as fwrite emits them: payload_size little-endian, then magic. */
  function EncodeFooter(f: Footer): (r: seq<byte>)
    ensures |r| == FooterSize
    ensures r[..8] == LeBytes(f.payloadSize, 8) && r[8..] == f.magic
  {
    LeBytes(f.payloadSize, 8) + f.magic
  }

  /** The struct that fread fills from 16 bytes. */
  function DecodeFooter(bs: seq<byte>): (f: Footer)
    requires |bs| == FooterSize
    ensures f.magic == bs[8..]
  {
    EightBytesHoldU64();
    Footer(LeValue(bs[..8]), bs[8..])
  }

  /** Decoding an encoded footer gives back the same payload size and magic, for every 64-bit size. */
  lemma FooterRoundTrip(f: Footer)
    ensures DecodeFooter(EncodeFooter(f)) == f
  {
    EightBytesHoldU64();
    LeValueOfLeBytes(f.payloadSize, 8);
    assert EncodeFooter(f)[..8] == LeBytes(f.payloadSize, 8);
  }

  /** Every 16-byte block is the encoding of the footer decoded from it. */
  lemma FooterBytesRoundTrip(bs: seq<byte>)
    requires |bs| == FooterSize
    ensures EncodeFooter(DecodeFooter(bs)) == bs
  {
    LeBytesOfLeValue(bs[..8]);
    assert bs == bs[..8] + bs[8..];
  }
}
