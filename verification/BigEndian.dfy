/** Fixed-width big-endian integers, the only integer encoding on the onion wire. */
module BigEndian {
  import opened Common

  function Pow256(n: nat): (p: nat)
    ensures p > 0
  {
    if n == 0 then 1 else 256 * Pow256(n - 1)
  }

  function Encode(n: nat, width: nat): (s: Bytes)
    ensures |s| == width
    decreases n, width
  {
    if width == 0 then [] else Encode(n / 256, width - 1) + [n % 256]
  }

  function Decode(s: Bytes): (n: nat)
    ensures n < Pow256(|s|)
  {
    if s == [] then 0 else 256 * Decode(s[..|s| - 1]) + s[|s| - 1]
  }

  lemma {:induction false} DecodeEncode(n: nat, width: nat)
    requires n < Pow256(width)
    ensures Decode(Encode(n, width)) == n
    decreases width
  {
    if width > 0 {
      DecodeEncode(n / 256, width - 1);
      var s := Encode(n, width);
      assert s[..width - 1] == Encode(n / 256, width - 1);
    }
  }

  lemma {:induction false} EncodeDecode(s: Bytes)
    ensures Encode(Decode(s), |s|) == s
  {
    if s != [] {
      EncodeDecode(s[..|s| - 1]);
      assert Decode(s) / 256 == Decode(s[..|s| - 1]);
    }
  }

  lemma Widths()
    ensures Pow256(2) == 0x1_0000
    ensures Pow256(4) == 0x1_0000_0000
    ensures Pow256(8) == 0x1_0000_0000_0000_0000
  {
  }

  /** The first byte weighs most. */
  lemma {:induction false} FirstByteWeighsMost(b: byte, rest: Bytes)
    ensures Decode([b] + rest) == b * Pow256(|rest|) + Decode(rest)
    decreases |rest|
  {
    if rest == [] {
      assert [b] + rest == [b] && [b][..0] == [];
    } else {
      var n := |rest| - 1;
      FirstByteWeighsMost(b, rest[..n]);
      assert ([b] + rest)[..n + 1] == [b] + rest[..n] && ([b] + rest)[n + 1] == rest[n];
      assert 256 * (b * Pow256(n)) == b * (256 * Pow256(n));
    }
  }

  function U16(n: u16): (s: Bytes)
    ensures |s| == 2
  {
    Encode(n, 2)
  }

  function U32(n: u32): (s: Bytes)
    ensures |s| == 4
  {
    Encode(n, 4)
  }

  function U64(n: u64): (s: Bytes)
    ensures |s| == 8
  {
    Encode(n, 8)
  }

  function ReadU16(s: Bytes): u16
    requires |s| == 2
  {
    Widths();
    Decode(s)
  }

  function ReadU32(s: Bytes): u32
    requires |s| == 4
  {
    Widths();
    Decode(s)
  }

  function ReadU64(s: Bytes): u64
    requires |s| == 8
  {
    Widths();
    Decode(s)
  }

  lemma U16RoundTrip(n: u16)
    ensures ReadU16(U16(n)) == n
  {
    Widths();
    DecodeEncode(n, 2);
  }

  lemma U32RoundTrip(n: u32)
    ensures ReadU32(U32(n)) == n
  {
    Widths();
    DecodeEncode(n, 4);
  }

  lemma U64RoundTrip(n: u64)
    ensures ReadU64(U64(n)) == n
  {
    Widths();
    DecodeEncode(n, 8);
  }

  lemma U16Exact(s: Bytes)
    requires |s| == 2
    ensures U16(ReadU16(s)) == s
  {
    EncodeDecode(s);
  }

  lemma U32Exact(s: Bytes)
    requires |s| == 4
    ensures U32(ReadU32(s)) == s
  {
    EncodeDecode(s);
  }

  lemma U64Exact(s: Bytes)
    requires |s| == 8
    ensures U64(ReadU64(s)) == s
  {
    EncodeDecode(s);
  }
}
