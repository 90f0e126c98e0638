/** File names and their indices. */
module ArchiveNames {
  import opened ArchivePayload
  import opened ByteTables
  import opened LittleEndian
  import opened Stripes
  import XxHash32
  import XxHash32Differs
  import XxHash32Values

  /** A character of a name in two bytes. */
  type wchar = c: int | 0 <= c < 0x1_0000

  const SLASH: wchar := 0x2F
  const BACKSLASH: wchar := 0x5C

  function WideBytes(name: seq<wchar>): (s: seq<bv8>)
    ensures |s| == 2 * |name|
  {
    if name == [] then [] else Encode(name[0], 2) + WideBytes(name[1..])
  }

  function Slashed(c: wchar): wchar { if c == BACKSLASH then SLASH else c }

  /** Forward slashes and small letters; lower is towlower of the locale. */
  function Normal(lower: wchar -> wchar, name: seq<wchar>): (s: seq<wchar>)
    ensures |s| == |name|
  {
    seq<wchar>(|name|, i requires 0 <= i < |name| => lower(Slashed(name[i])))
  }

  function NameIndex(lower: wchar -> wchar, name: seq<wchar>): u32 { Hash(WideBytes(Normal(lower, name))) }

  method HashOf(data: seq<bv8>) returns (h: u32)
    ensures h == Hash(data)
  {
    hide XxHash32.XXH32, HashNumber;
    var r := XxHash32.Hash(data, 0);
    h := HashNumber(r);
  }

  method GenerateNameIndex(lower: wchar -> wchar, filename: seq<wchar>) returns (index: u32)
    ensures index == NameIndex(lower, filename)
  {
    hide Hash, WideBytes;
    var name := new wchar[|filename|](i requires 0 <= i < |filename| => filename[i]);
    for i := 0 to name.Length
      invariant forall k | 0 <= k < name.Length :: name[k] == if k < i then Slashed(filename[k]) else filename[k]
    {
      if name[i] == BACKSLASH {
        name[i] := SLASH;
      }
    }
    for i := 0 to name.Length
      invariant forall k | 0 <= k < name.Length ::
        name[k] == if k < i then lower(Slashed(filename[k])) else Slashed(filename[k])
    {
      name[i] := lower(name[i]);
    }
    assert name[..] == Normal(lower, filename);
    index := HashOf(WideBytes(name[..]));
  }

  /** Names that differ only in their slashes have the same index. */
  lemma SlashesAgree(lower: wchar -> wchar, a: seq<wchar>, b: seq<wchar>)
    requires |a| == |b| && forall i | 0 <= i < |a| :: Slashed(a[i]) == Slashed(b[i])
    ensures NameIndex(lower, a) == NameIndex(lower, b)
  {
    hide Hash, WideBytes;
    assert Normal(lower, a) == Normal(lower, b);
  }

  /** So do names that differ only in their slashes and in capital and small letters. */
  lemma LettersAgree(lower: wchar -> wchar, a: seq<wchar>, b: seq<wchar>)
    requires |a| == |b| && forall i | 0 <= i < |a| :: lower(Slashed(a[i])) == lower(Slashed(b[i]))
    ensures NameIndex(lower, a) == NameIndex(lower, b)
  {
    hide Hash, WideBytes;
    assert Normal(lower, a) == Normal(lower, b);
  }

  /** The lower byte of a character comes first. */
  lemma LowerByteFirst(c: wchar, name: seq<wchar>)
    ensures WideBytes([c] + name) == [ByteOf(c % 256), ByteOf(c / 256)] + WideBytes(name)
  {
    hide ByteOf;
    assert ([c] + name)[1..] == name;
    assert Encode(c / 256, 1) == [ByteOf(c / 256)];
  }

  /** The index of the empty name is the published XXH32 of no byte with the seed 0. */
  lemma EmptyName(lower: wchar -> wchar)
    ensures NameIndex(lower, []) == 0x02CC5D05
  {
    hide XxHash32.XXH32;
    assert WideBytes(Normal(lower, [])) == [];
    XxHash32Values.NoByte();
  }

  // ---------- names with different indices ----------

  lemma {:induction false} WideConcat(a: seq<wchar>, b: seq<wchar>)
    ensures WideBytes(a + b) == WideBytes(a) + WideBytes(b)
  {
    hide Encode;
    if a == [] {
      assert [] + b == b;
    } else {
      WideConcat(a[1..], b);
      assert (a + b)[1..] == a[1..] + b;
    }
  }

  lemma PairBytes(s: seq<wchar>)
    requires |s| == 2
    ensures WideBytes(s) == Encode(s[0], 2) + Encode(s[1], 2)
  {
    hide Encode;
    assert WideBytes(s[1..]) == Encode(s[1], 2) + WideBytes([]);
  }

  lemma PairSame(s: seq<wchar>, t: seq<wchar>)
    requires |s| == |t| == 2
    ensures WideBytes(s) == WideBytes(t) <==> s == t
  {
    hide Encode, Decode, WideBytes;
    PairBytes(s);
    PairBytes(t);
    assert Limit(2) == 0x1_0000;
    DecodeEncode(s[0], 2);
    DecodeEncode(s[1], 2);
    DecodeEncode(t[0], 2);
    DecodeEncode(t[1], 2);
    assert WideBytes(s)[..2] == Encode(s[0], 2) && WideBytes(s)[2..] == Encode(s[1], 2);
    assert WideBytes(t)[..2] == Encode(t[0], 2) && WideBytes(t)[2..] == Encode(t[1], 2);
  }

  lemma NumberBack(h: bv32)
    ensures XxHash32.Word32(HashNumber(h)) == h
  {}

  lemma WideParts(s: seq<wchar>, k: nat)
    requires k + 2 <= |s|
    ensures WideBytes(s) == WideBytes(s[..k]) + WideBytes(s[k..k + 2]) + WideBytes(s[k + 2..])
  {
    hide WideBytes;
    assert s == s[..k] + s[k..k + 2] + s[k + 2..];
    WideConcat(s[..k] + s[k..k + 2], s[k + 2..]);
    WideConcat(s[..k], s[k..k + 2]);
  }

  /** Wide names that differ in one pair of characters differ in the four bytes of the pair. */
  lemma PairDiffers(s: seq<wchar>, t: seq<wchar>, k: nat)
    requires |s| == |t| && k + 2 <= |s| && s[..k] == t[..k] && s[k..k + 2] != t[k..k + 2] && s[k + 2..] == t[k + 2..]
    ensures DifferAt(WideBytes(s), WideBytes(t), 2 * k, 4)
  {
    hide WideBytes, DifferAt;
    WideParts(s, k);
    WideParts(t, k);
    PairSame(s[k..k + 2], t[k..k + 2]);
    DifferBetween(WideBytes(s[..k]), WideBytes(s[k..k + 2]), WideBytes(t[k..k + 2]), WideBytes(s[k + 2..]));
  }

  /** Names of the same length that still differ after this in one pair of characters at an even place, and nowhere
      else, never have the same index. */
  lemma IndicesDiffer(lower: wchar -> wchar, a: seq<wchar>, b: seq<wchar>, k: nat)
    requires |a| == |b| && k % 2 == 0 && k + 2 <= |a|
    requires var s, t := Normal(lower, a), Normal(lower, b);
      s[..k] == t[..k] && s[k..k + 2] != t[k..k + 2] && s[k + 2..] == t[k + 2..]
    ensures NameIndex(lower, a) != NameIndex(lower, b)
  {
    hide XxHash32.XXH32, XxHash32.Word32, WideBytes, Normal, HashNumber, DifferAt;
    var s, t := Normal(lower, a), Normal(lower, b);
    PairDiffers(s, t, k);
    XxHash32Differs.WordChanged(WideBytes(s), WideBytes(t), 2 * k, 0);
    NumberBack(XxHash32.XXH32(WideBytes(s), 0));
    NumberBack(XxHash32.XXH32(WideBytes(t), 0));
  }
}
