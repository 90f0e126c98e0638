/** Unsigned integers of a fixed number of bytes, least significant byte first. */
module LittleEndian {
  import opened ByteTables

  type u32 = n: int | 0 <= n < 0x1_0000_0000
  type u64 = n: int | 0 <= n < 0x1_0000_0000_0000_0000

  function Limit(k: nat): nat {
    if k == 0 then 1 else 256 * Limit(k - 1)
  }

  function Encode(n: nat, k: nat): (s: seq<bv8>)
    ensures |s| == k
  {
    if k == 0 then [] else [ByteOf(n % 256)] + Encode(n / 256, k - 1)
  }

  function Decode(s: seq<bv8>): (n: nat)
    ensures n < Limit(|s|)
  {
    if s == [] then 0 else NumberOf(s[0]) + 256 * Decode(s[1..])
  }

  lemma {:induction false} DecodeEncode(n: nat, k: nat)
    requires n < Limit(k)
    ensures Decode(Encode(n, k)) == n
  {
    hide ByteOf, NumberOf;
    if k > 0 {
      DecodeEncode(n / 256, k - 1);
      NumberOfByte(n % 256);
      assert Encode(n, k)[1..] == Encode(n / 256, k - 1);
    }
  }

  lemma Limits()
    ensures Limit(4) == 0x1_0000_0000 && Limit(8) == 0x1_0000_0000_0000_0000
  {}

  function Bytes32(n: u32): (s: seq<bv8>)
    ensures |s| == 4
  {
    Encode(n, 4)
  }

  function Bytes64(n: u64): (s: seq<bv8>)
    ensures |s| == 8
  {
    Encode(n, 8)
  }

  function Word32(s: seq<bv8>): u32
    requires |s| == 4
  {
    Limits();
    Decode(s)
  }

  function Word64(s: seq<bv8>): u64
    requires |s| == 8
  {
    Limits();
    Decode(s)
  }

  lemma Word32Bytes(n: u32)
    ensures Word32(Bytes32(n)) == n
  {
    Limits();
    DecodeEncode(n, 4);
  }

  lemma Word64Bytes(n: u64)
    ensures Word64(Bytes64(n)) == n
  {
    Limits();
    DecodeEncode(n, 8);
  }

  /** The bytes of a word count for 1, 2^8, 2^16 and 2^24. */
  lemma Word32Value(s: seq<bv8>)
    requires |s| == 4
    ensures Word32(s)
      == NumberOf(s[0]) + 0x100 * NumberOf(s[1]) + 0x1_0000 * NumberOf(s[2]) + 0x100_0000 * NumberOf(s[3])
  {
    hide NumberOf;
    assert s[3..][1..] == [] && s[2..][1..] == s[3..] && s[1..][1..] == s[2..];
    assert Decode(s[3..]) == NumberOf(s[3]);
    assert Decode(s[2..]) == NumberOf(s[2]) + 256 * Decode(s[3..]);
    assert Decode(s[1..]) == NumberOf(s[1]) + 256 * Decode(s[2..]);
  }

  lemma Word64Value(s: seq<bv8>)
    requires |s| == 8
    ensures Word64(s) == Word32(s[..4]) + 0x1_0000_0000 * Word32(s[4..])
  {
    hide NumberOf;
    Limits();
    DecodeSplit(s, 4);
  }

  lemma {:induction false} DecodeSplit(s: seq<bv8>, k: nat)
    requires k <= |s|
    ensures Decode(s) == Decode(s[..k]) + Limit(k) * Decode(s[k..])
  {
    hide NumberOf;
    if k == 0 {
      assert s[..0] == [] && s[0..] == s;
    } else {
      DecodeSplit(s[1..], k - 1);
      assert s[..k][1..] == s[1..][..k - 1] && s[1..][k - 1..] == s[k..];
      var x, y := Decode(s[1..][..k - 1]), Decode(s[k..]);
      assert Decode(s[..k]) == NumberOf(s[0]) + 256 * x;
      assert Decode(s) == NumberOf(s[0]) + 256 * (x + Limit(k - 1) * y);
      Scaled(Limit(k - 1), y);
    }
  }

  lemma Scaled(a: nat, b: nat)
    ensures 256 * (a * b) == 256 * a * b
  {}

  /** The lowest byte of a number comes first. */
  lemma LowestFirst32(n: u32)
    ensures Bytes32(n)
      == [ByteOf(n % 0x100), ByteOf(n / 0x100 % 0x100), ByteOf(n / 0x1_0000 % 0x100), ByteOf(n / 0x100_0000)]
  {
    hide ByteOf;
    assert Encode(n / 0x100_0000, 1) == [ByteOf(n / 0x100_0000)];
    assert Encode(n / 0x1_0000, 2) == [ByteOf(n / 0x1_0000 % 0x100)] + Encode(n / 0x100_0000, 1);
    assert Encode(n / 0x100, 3) == [ByteOf(n / 0x100 % 0x100)] + Encode(n / 0x1_0000, 2);
  }

  lemma {:induction false} EncodeDecode(s: seq<bv8>)
    ensures Encode(Decode(s), |s|) == s
  {
    hide ByteOf, NumberOf;
    if s != [] {
      EncodeDecode(s[1..]);
      ByteOfNumber(s[0]);
      assert Decode(s) % 256 == NumberOf(s[0]) && Decode(s) / 256 == Decode(s[1..]);
    }
  }

  lemma LowestFirst64(n: u64)
    ensures Bytes64(n) == Bytes32(n % 0x1_0000_0000) + Bytes32(n / 0x1_0000_0000)
  {
    hide Encode, Decode;
    var low, high := n % 0x1_0000_0000, n / 0x1_0000_0000;
    var s := Bytes32(low) + Bytes32(high);
    assert s[..4] == Bytes32(low) && s[4..] == Bytes32(high);
    Limits();
    DecodeEncode(low, 4);
    DecodeEncode(high, 4);
    DecodeSplit(s, 4);
    EncodeDecode(s);
  }
}
