/** CAes256 of VFSLib: one-shot encryption and decryption as the archive uses them. */
module CryptHelper {
  import opened AesDecrypter
  import opened AesEncrypter
  import opened AesImpl
  import opened AesSpec
  import opened ByteTables
  import opened Cbc
  import opened Chunking
  import opened Columns

  // ---------- hexadecimal text ----------

  function Upper(c: char): char {
    if 'a' <= c <= 'z' then c - 'a' + 'A' else c
  }

  /** The letter arithmetic of convert_ascii on unsigned integers, of which the last eight bits are kept. */
  function Letter(c: char): bv8
    requires c < 128 as char
  {
    var n := Upper(c) as int;
    ByteOf((if n >= 'A' as int then n - 'A' as int + 10 else n - '0' as int) % 256)
  }

  function HexByte(c: char, d: char): bv8
    requires c < 128 as char && d < 128 as char
  {
    (Letter(c) << 4) | Letter(d)
  }

  predicate IsHex(c: char) { '0' <= c <= '9' || 'A' <= c <= 'F' || 'a' <= c <= 'f' }

  /** The value of a hexadecimal digit, in capital letters or small ones. */
  function HexDigit(c: char): (d: nat)
    requires IsHex(c)
    ensures d < 16
  {
    if c <= '9' then c as int - '0' as int else if c <= 'F' then c as int - 'A' as int + 10 else c as int - 'a' as int + 10
  }

  /** The byte of two hexadecimal digits is the number they denote. */
  lemma HexValue(c: char, d: char)
    requires IsHex(c) && IsHex(d)
    ensures NumberOf(HexByte(c, d)) == 16 * HexDigit(c) + HexDigit(d)
  {
    hide ByteOf, NumberOf;
    assert Letter(c) == ByteOf(HexDigit(c)) && Letter(d) == ByteOf(HexDigit(d));
    NumberOfByte(HexDigit(c));
    NumberOfByte(HexDigit(d));
    Nibbles(Letter(c), Letter(d));
  }

  lemma Nibbles(x: bv8, y: bv8)
    requires NumberOf(x) < 16 && NumberOf(y) < 16
    ensures NumberOf((x << 4) | y) == 16 * NumberOf(x) + NumberOf(y)
  {}

  predicate IsAscii(src: string) {
    forall i | 0 <= i < |src| :: src[i] < 128 as char
  }

  method ConvertAscii(src: string) returns (dest: seq<bv8>)
    requires IsAscii(src)
    ensures |dest| == |src| / 2
    ensures forall k | 0 <= k < |dest| :: dest[k] == HexByte(src[2 * k], src[2 * k + 1])
    ensures forall k | 0 <= k < |dest| && IsHex(src[2 * k]) && IsHex(src[2 * k + 1]) ::
      NumberOf(dest[k]) == 16 * HexDigit(src[2 * k]) + HexDigit(src[2 * k + 1])
  {
    hide HexByte;
    dest := [];
    var len := |src| / 2;
    for cnt := 0 to len
      invariant |dest| == cnt
      invariant forall k | 0 <= k < cnt :: dest[k] == HexByte(src[2 * k], src[2 * k + 1])
    {
      dest := dest + [HexByte(src[2 * cnt], src[2 * cnt + 1])];
    }
    forall k | 0 <= k < |dest| && IsHex(src[2 * k]) && IsHex(src[2 * k + 1])
      ensures NumberOf(dest[k]) == 16 * HexDigit(src[2 * k]) + HexDigit(src[2 * k + 1])
    {
      HexValue(src[2 * k], src[2 * k + 1]);
    }
  }

  ghost function IvOf(iv: string): Block
    requires |iv| == 2 * BLOCK && IsAscii(iv)
  {
    BlockOf(seq(BLOCK, k requires 0 <= k < BLOCK => HexByte(iv[2 * k], iv[2 * k + 1])))
  }

  // ---------- encryption and decryption ----------

  ghost function CipherText(key: seq<bv8>, iv: Block, data: seq<bv8>): seq<bv8>
    requires |key| == 4 * KEY_WORDS
  {
    Encrypted(ExpandedKey(key), iv, Taken(data), true, 0).out
  }

  /** Nothing when the padding is not valid. */
  ghost function PlainText(key: seq<bv8>, iv: Block, data: seq<bv8>): seq<bv8>
    requires |key| == 4 * KEY_WORDS
  {
    var dk := DecryptKeys(ExpandedKey(key));
    var d := Decrypted(dk, iv, Taken(data));
    var p := Process(DecStep(dk), d).out;
    if |d.pending| == BLOCK && |p| >= BLOCK && Unpadded(true, p).0 then Unpadded(true, p).1 else []
  }

  lemma CipherLength(key: seq<bv8>, iv: Block, data: seq<bv8>)
    requires |key| == 4 * KEY_WORDS
    ensures |CipherText(key, iv, data)| == |Taken(data)| / BLOCK * BLOCK + BLOCK
  {
    hide ExpandedKey, EncStep, DecStep, DecryptKeys;
    RoundTrip(ExpandedKey(key), iv, Taken(data), true, 0);
  }

  /** Decrypting the encryption gives the data back exactly when both sizes fit an int. */
  lemma PlainOfCipher(key: seq<bv8>, iv: Block, data: seq<bv8>)
    requires |key| == 4 * KEY_WORDS
    ensures PlainText(key, iv, CipherText(key, iv, data)) == data <==> |data| < INT_LIMIT - BLOCK
  {
    hide ExpandedKey, EncStep, DecStep, DecryptKeys, Unpadded, Padding;
    var c := CipherText(key, iv, data);
    CipherLength(key, iv, data);
    RoundTrip(ExpandedKey(key), iv, Taken(data), true, 0);
    if |c| < INT_LIMIT {
      assert PlainText(key, iv, c) == Taken(data);
    } else {
      assert Decrypted(DecryptKeys(ExpandedKey(key)), iv, []).pending == [];
    }
  }

  /** The message with its padding, in cipher block chaining. */
  lemma CipherTextCbc(key: seq<bv8>, iv: Block, data: seq<bv8>)
    requires |key| == 4 * KEY_WORDS
    ensures
      var m := Taken(data) + Padding(true, 0, |Taken(data)| % BLOCK);
      CbcEncrypted(ExpandedKey(key), iv, m, CipherText(key, iv, data))
  {
    hide ExpandedKey, EncStep, CbcEncrypted;
    PadSizeBounds(true, 0, |Taken(data)| % BLOCK);
    EncryptsCbc(ExpandedKey(key), iv, Taken(data) + Padding(true, 0, |Taken(data)| % BLOCK));
  }

  /** Whole blocks are decrypted in cipher block chaining, and the padding is removed if it is valid. */
  lemma PlainTextCbc(key: seq<bv8>, iv: Block, data: seq<bv8>) returns (m: seq<bv8>)
    requires |key| == 4 * KEY_WORDS && 0 < |data| < INT_LIMIT && |data| % BLOCK == 0
    ensures CbcDecrypted(DecryptKeys(ExpandedKey(key)), iv, data, m) && |m| >= BLOCK
    ensures PlainText(key, iv, data) == if Unpadded(true, m).0 then Unpadded(true, m).1 else []
  {
    hide ExpandedKey, DecStep, DecryptKeys, CbcDecrypted, Feed, Unpadded, Process;
    var dk := DecryptKeys(ExpandedKey(key));
    DecryptsCbc(dk, iv, data);
    m := Process(DecStep(dk), Decrypted(dk, iv, data)).out;
    CbcSize(dk, iv, data, m);
  }

  lemma CbcSize(dk: seq<Column>, iv: Block, cipher: seq<bv8>, m: seq<bv8>)
    requires CbcDecrypted(dk, iv, cipher, m)
    ensures |m| == |cipher|
  {}

  lemma CipherTextInSteps(key: seq<bv8>, iv: Block, data: seq<bv8>)
    requires |key| == 4 * KEY_WORDS
    ensures
      var step := EncStep(ExpandedKey(key));
      var e := Feed(step, false, Stream(iv, [], []), Taken(data));
      |e.pending| < BLOCK && CipherText(key, iv, data) == Feed(step, false, e, Padding(true, 0, |e.pending|)).out
  {
    hide ExpandedKey, EncStep, Padding;
    var step, start := EncStep(ExpandedKey(key)), Stream(iv, [], []);
    FeedPending(step, start, Taken(data));
    FeedConcat(step, false, start, Taken(data), Padding(true, 0, |Taken(data)| % BLOCK));
  }

  lemma SameIv(iv: string, bytes: seq<bv8>)
    requires |iv| == 2 * BLOCK && IsAscii(iv) && |bytes| == BLOCK
    requires forall k | 0 <= k < |bytes| :: bytes[k] == HexByte(iv[2 * k], iv[2 * k + 1])
    ensures BlockOf(bytes) == IvOf(iv)
  {
    hide HexByte, BlockOf;
    assert bytes == seq(BLOCK, k requires 0 <= k < BLOCK => HexByte(iv[2 * k], iv[2 * k + 1]));
  }

  /** An encrypter with its initialisation vector and key set. */
  method NewEncrypter(t: Tables, iv: string, key: seq<bv8>) returns (aes: Encrypter)
    requires Correct(t) && |key| == 4 * KEY_WORDS && |iv| == 2 * BLOCK && IsAscii(iv)
    ensures fresh(aes) && fresh(aes.keyExpanded) && fresh(aes.chunk) && fresh(aes.buffer) && fresh(aes.buffer.data)
    ensures aes.Valid() && aes.ivSet && aes.keySet && !aes.calculated
    ensures aes.paddingEnabled && aes.paddingPkcs7 && aes.extraBlocks == 0
    ensures aes.State() == Stream(IvOf(iv), [], []) && aes.Step() == EncStep(ExpandedKey(key))
  {
    hide ExpandedKey, EncStep, HexByte, BlockOf, BlockOfWords, Correct, IvOf, KeyColumns, IsAscii;
    var ivBytes := ConvertAscii(iv);
    SameIv(iv, ivBytes);
    aes := new Encrypter(t);
    var accepted := aes.SetPadding(true, true, 0);
    aes.SetIv(ivBytes);
    aes.SetKey(key);
  }

  method Encrypt(t: Tables, data: seq<bv8>, iv: string, key: seq<bv8>) returns (r: seq<bv8>)
    requires Correct(t) && |key| == 4 * KEY_WORDS && |iv| == 2 * BLOCK && IsAscii(iv)
    ensures r == CipherText(key, IvOf(iv), data)
    ensures
      var m := Taken(data) + Padding(true, 0, |Taken(data)| % BLOCK);
      CbcEncrypted(ExpandedKey(key), IvOf(iv), m, r)
  {
    hide ExpandedKey, EncStep, BlockOfWords, Padding, Correct, Feed, CipherText, IvOf, KeyColumns, IsAscii, CbcEncrypted;
    CipherTextCbc(key, IvOf(iv), data);
    var aes := NewEncrypter(t, iv, key);
    var added := aes.Add(Taken(data));
    CipherTextInSteps(key, IvOf(iv), data);
    var calculated := aes.Calculate();
    r := aes.buffer.data[..aes.buffer.size];
  }

  /** A decrypter with its initialisation vector and key set. */
  method NewDecrypter(t: Tables, iv: string, key: seq<bv8>) returns (aes: Decrypter)
    requires Correct(t) && |key| == 4 * KEY_WORDS && |iv| == 2 * BLOCK && IsAscii(iv)
    ensures fresh(aes) && fresh(aes.keyExpanded) && fresh(aes.chunk) && fresh(aes.buffer) && fresh(aes.buffer.data)
    ensures aes.Valid() && aes.ivSet && aes.keySet && !aes.calculated && aes.paddingEnabled && aes.paddingPkcs7
    ensures aes.State() == Stream(IvOf(iv), [], []) && aes.Step() == DecStep(DecryptKeys(ExpandedKey(key)))
  {
    hide ExpandedKey, DecStep, HexByte, BlockOf, BlockOfWords, Correct, IvOf, KeyColumns, IsAscii;
    var ivBytes := ConvertAscii(iv);
    SameIv(iv, ivBytes);
    aes := new Decrypter(t);
    aes.SetPadding(true, true);
    aes.SetIv(ivBytes);
    aes.SetKey(key);
  }

  method Decrypt(t: Tables, data: seq<bv8>, iv: string, key: seq<bv8>) returns (r: seq<bv8>)
    requires Correct(t) && |key| == 4 * KEY_WORDS && |iv| == 2 * BLOCK && IsAscii(iv)
    ensures r == PlainText(key, IvOf(iv), data)
  {
    hide ExpandedKey, DecStep, BlockOfWords, Unpadded, Correct, Feed, IvOf, KeyColumns, Process, IsAscii;
    var aes := NewDecrypter(t, iv, key);
    var added := aes.Add(Taken(data));
    ghost var st := aes.State();
    assert st == Decrypted(DecryptKeys(ExpandedKey(key)), IvOf(iv), Taken(data));
    var ok := aes.Calculate();
    r := if ok then aes.buffer.data[..aes.buffer.size] else [];
  }
}
