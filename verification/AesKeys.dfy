/** The AES-256 key expansion and its transformation for decryption, in place on the word array. */
module AesKeys {
  import opened AesImpl
  import opened AesSpec
  import opened AesTables
  import opened ByteTables
  import opened Columns
  import opened GaloisField
  import opened Quads
  import opened SBoxes
  import opened Words

  function GetWord(data: seq<bv8>, i: nat): bv32
    requires i + 4 <= |data|
  {
    Word(data[i], data[i + 1], data[i + 2], data[i + 3])
  }

  /** The first n words are in place. */
  ghost predicate Expanded(ke: seq<bv32>, key: seq<bv8>, n: nat)
    requires |key| == 4 * KEY_WORDS
  {
    |ke| == SCHEDULE_WORDS && n <= SCHEDULE_WORDS && forall i: nat | i < n :: OfWord(ke[i]) == KeyColumn(key, i)
  }

  /** Store word i. */
  method SetKeyWord(ke: array<bv32>, ghost key: seq<bv8>, i: nat, w: bv32)
    requires |key| == 4 * KEY_WORDS && Expanded(ke[..], key, i)
    requires i < SCHEDULE_WORDS && OfWord(w) == KeyColumn(key, i)
    modifies ke
    ensures Expanded(ke[..], key, i + 1)
  {
    hide OfWord, KeyColumn;
    ghost var before := ke[..];
    ke[i] := w;
    assert ke[..] == before[i := w];
  }

  lemma FirstWord(key: seq<bv8>, i: nat)
    requires |key| == 4 * KEY_WORDS && i < KEY_WORDS
    ensures OfWord(GetWord(key, 4 * i)) == KeyColumn(key, i)
  {}

  /** The three forms of a word after the first eight. */
  lemma KeyColumnStep(key: seq<bv8>, i: nat)
    requires |key| == 4 * KEY_WORDS && KEY_WORDS <= i
    ensures i % 4 != 0 ==> KeyColumn(key, i) == AddColumns(KeyColumn(key, i - 8), KeyColumn(key, i - 1))
    ensures i % 8 == 0 ==>
      KeyColumn(key, i)
      == AddColumns(KeyColumn(key, i - 8), AddColumns(SubColumn(RotWord(KeyColumn(key, i - 1))), Rcon(i / 8)))
    ensures i % 8 == 4 ==> KeyColumn(key, i) == AddColumns(KeyColumn(key, i - 8), SubColumn(KeyColumn(key, i - 1)))
  {
    hide AddColumns, SubColumn, RotWord, Rcon;
    assert i % 4 != 0 ==> i % 8 != 0 && i % 8 != 4;
  }

  /** A word that is the sum of the one before it and the one a key length before it. */
  lemma PlainWord(ke: seq<bv32>, key: seq<bv8>, i: nat)
    requires |key| == 4 * KEY_WORDS && Expanded(ke, key, i)
    requires KEY_WORDS <= i < SCHEDULE_WORDS && i % 4 != 0
    ensures OfWord(AddWords(ke[i - 8], ke[i - 1])) == KeyColumn(key, i)
  {
    hide OfWord, AddWords, AddColumns, KeyColumn;
    KeyColumnStep(key, i);
    OfSum(ke[i - 8], ke[i - 1]);
  }

  /** Every eighth word: the word before it is rotated, substituted and added to a round constant. */
  lemma RotatedWord(t: Tables, ke: seq<bv32>, key: seq<bv8>, i: nat)
    requires Correct(t) && |key| == 4 * KEY_WORDS && Expanded(ke, key, i)
    requires KEY_WORDS <= i < SCHEDULE_WORDS && i % KEY_WORDS == 0
    ensures
      var temp := ke[i - 1];
      OfWord(AddWords(ke[i - 8], AddWords(BoxWord(t.sbox, Byte1(temp), Byte2(temp), Byte3(temp), Byte0(temp)),
                                          t.rcon[i / 8 - 1])))
      == KeyColumn(key, i)
  {
    hide AddWords, AddColumns, BoxWord, Byte0, Byte1, Byte2, Byte3, Rcon, Word, SBox, SBoxEntry, ToWord, KeyColumn;
    KeyColumnStep(key, i);
    var temp := ke[i - 1];
    var w := BoxWord(t.sbox, Byte1(temp), Byte2(temp), Byte3(temp), Byte0(temp));
    SBoxColumn(t, Byte1(temp), Byte2(temp), Byte3(temp), Byte0(temp));
    OfSum(w, t.rcon[i / 8 - 1]);
    OfSum(ke[i - 8], AddWords(w, t.rcon[i / 8 - 1]));
    assert t.rcon[i / 8 - 1] == ToWord(Rcon(i / 8 - 1 + 1));
    WordColumn(0, Rcon(i / 8));
  }

  /** The words half a key length after those are substituted only. */
  lemma SubstitutedWord(t: Tables, ke: seq<bv32>, key: seq<bv8>, i: nat)
    requires Correct(t) && |key| == 4 * KEY_WORDS && Expanded(ke, key, i)
    requires KEY_WORDS <= i < SCHEDULE_WORDS && i % KEY_WORDS == 4
    ensures
      var temp := ke[i - 1];
      OfWord(AddWords(ke[i - 8], BoxWord(t.sbox, Byte0(temp), Byte1(temp), Byte2(temp), Byte3(temp))))
      == KeyColumn(key, i)
  {
    hide AddWords, AddColumns, BoxWord, Byte0, Byte1, Byte2, Byte3, SBox, SBoxEntry, KeyColumn;
    KeyColumnStep(key, i);
    var temp := ke[i - 1];
    var w := BoxWord(t.sbox, Byte0(temp), Byte1(temp), Byte2(temp), Byte3(temp));
    SBoxColumn(t, Byte0(temp), Byte1(temp), Byte2(temp), Byte3(temp));
    OfSum(ke[i - 8], w);
  }

  /** Three plain words from word i on. */
  method SetPlainWords(ke: array<bv32>, ghost key: seq<bv8>, i: nat)
    requires |key| == 4 * KEY_WORDS && Expanded(ke[..], key, i)
    requires KEY_WORDS <= i && i + 3 <= SCHEDULE_WORDS && i % 4 == 1
    modifies ke
    ensures Expanded(ke[..], key, i + 3)
  {
    hide AddWords, KeyColumn, OfWord;
    for j := i to i + 3
      invariant Expanded(ke[..], key, j)
    {
      PlainWord(ke[..], key, j);
      SetKeyWord(ke, key, j, AddWords(ke[j - 8], ke[j - 1]));
    }
  }

  /** The words of row i / 4, starting with a rotated word. */
  method ExpandRotatedRow(t: Tables, ke: array<bv32>, ghost key: seq<bv8>, i: nat)
    requires Correct(t) && |key| == 4 * KEY_WORDS && Expanded(ke[..], key, i)
    requires KEY_WORDS <= i && i + 4 <= SCHEDULE_WORDS && i % KEY_WORDS == 0
    modifies ke
    ensures Expanded(ke[..], key, i + 4)
  {
    hide AddWords, KeyColumn, OfWord, BoxWord, SBoxEntry, ToWord;
    var temp := ke[i - 1];
    RotatedWord(t, ke[..], key, i);
    SetKeyWord(ke, key, i, AddWords(ke[i - 8], AddWords(
      BoxWord(t.sbox, Byte1(temp), Byte2(temp), Byte3(temp), Byte0(temp)), t.rcon[i / 8 - 1])));
    SetPlainWords(ke, key, i + 1);
  }

  /** The words of row i / 4, starting with a word that is only substituted. */
  method ExpandSubstitutedRow(t: Tables, ke: array<bv32>, ghost key: seq<bv8>, i: nat)
    requires Correct(t) && |key| == 4 * KEY_WORDS && Expanded(ke[..], key, i)
    requires KEY_WORDS <= i && i + 4 <= SCHEDULE_WORDS && i % KEY_WORDS == 4
    modifies ke
    ensures Expanded(ke[..], key, i + 4)
  {
    hide AddWords, KeyColumn, OfWord, BoxWord, SBoxEntry, ToWord;
    var temp := ke[i - 1];
    SubstitutedWord(t, ke[..], key, i);
    SetKeyWord(ke, key, i, AddWords(ke[i - 8],
      BoxWord(t.sbox, Byte0(temp), Byte1(temp), Byte2(temp), Byte3(temp))));
    SetPlainWords(ke, key, i + 1);
  }

  method ExtractEncryptKey256(t: Tables, key: seq<bv8>, ke: array<bv32>)
    requires Correct(t) && |key| == 4 * KEY_WORDS && ke.Length == SCHEDULE_WORDS
    modifies ke
    ensures KeyColumns(ke[..]) == ExpandedKey(key)
  {
    hide AddWords, KeyColumn, OfWord, Correct, GetWord;
    for cnt := 0 to KEY_WORDS
      invariant Expanded(ke[..], key, cnt)
    {
      FirstWord(key, cnt);
      SetKeyWord(ke, key, cnt, GetWord(key, 4 * cnt));
    }
    for cnt := 0 to 7
      invariant Expanded(ke[..], key, 8 * cnt + 8 - (if cnt < 7 then 0 else 4))
    {
      ExpandRotatedRow(t, ke, key, 8 * cnt + 8);
      if cnt == 7 - 1 {
        break;
      }
      ExpandSubstitutedRow(t, ke, key, 8 * cnt + 12);
    }
  }

  // ---------- the keys of the equivalent inverse cipher ----------

  /** The decryption tables after the S-box: InvMixColumns of the bytes of w. */
  function InvMixWord(t: Tables, w: bv32): bv32
    requires |t.sbox| == 256 && |t.d0| == 256 && |t.d1| == 256 && |t.d2| == 256 && |t.d3| == 256
  {
    AddFour(Lookup(t.d0, LowByte(Lookup(t.sbox, Byte0(w)))), Lookup(t.d1, LowByte(Lookup(t.sbox, Byte1(w)))),
            Lookup(t.d2, LowByte(Lookup(t.sbox, Byte2(w)))), Lookup(t.d3, LowByte(Lookup(t.sbox, Byte3(w)))))
  }

  function LowByte(w: bv32): bv8 { (w & 0xFF) as bv8 }

  lemma SBoxByte(t: Tables, b: bv8)
    requires Correct(t)
    ensures LowByte(Lookup(t.sbox, b)) == SBox(b) && InvSBox(SBox(b)) == b
  {
    hide SBox, Rep, InvSBox;
    RepByte(SBox(b));
    InvSBoxSBox(b);
    assert t.sbox[NumberOf(b)] == SBoxEntry(b);
  }

  lemma InvMixWordColumn(t: Tables, w: bv32)
    requires Correct(t)
    ensures OfWord(InvMixWord(t, w)) == InvMixColumn(OfWord(w))
  {
    hide SBox, InvSBox, ToWord, AddFour, LowByte, D0, D1, D2, D3, InvMixColumn, Sum4, Byte0, Byte1, Byte2, Byte3;
    var b0, b1, b2, b3 := Byte0(w), Byte1(w), Byte2(w), Byte3(w);
    SBoxByte(t, b0); SBoxByte(t, b1); SBoxByte(t, b2); SBoxByte(t, b3);
    FourWords(Lookup(t.d0, LowByte(Lookup(t.sbox, b0))), Lookup(t.d1, LowByte(Lookup(t.sbox, b1))),
              Lookup(t.d2, LowByte(Lookup(t.sbox, b2))), Lookup(t.d3, LowByte(Lookup(t.sbox, b3))),
              D0(b0), D1(b1), D2(b2), D3(b3));
    DecryptEntries(b0, b1, b2, b3);
  }

  /** The place, among the round keys in reverse order, of word j. */
  function ReversedIndex(j: nat): (i: nat)
    requires j < SCHEDULE_WORDS
    ensures i < SCHEDULE_WORDS
  {
    4 * (ROUNDS - j / 4) + j % 4
  }

  lemma ReversedIndexIn(start: nat, j: nat)
    requires start % 4 == 0 && start <= j < start + 4 <= SCHEDULE_WORDS
    ensures ReversedIndex(j) == j + 4 * ROUNDS - 2 * start
  {}

  /** The round keys in reverse order, the inner ones transformed by f below word n. */
  ghost predicate TransformedBelow<T>(f: T -> T, ke: seq<T>, before: seq<T>, n: nat) {
    && |ke| == SCHEDULE_WORDS && |before| == SCHEDULE_WORDS
    && forall j: nat | j < SCHEDULE_WORDS ::
        ke[j] == var w := before[ReversedIndex(j)]; if 4 <= j < n then f(w) else w
  }

  function InvMixWords(t: Tables): bv32 -> bv32
    requires |t.sbox| == 256 && |t.d0| == 256 && |t.d1| == 256 && |t.d2| == 256 && |t.d3| == 256
  {
    w => InvMixWord(t, w)
  }

  lemma TransformedKey(t: Tables, before: seq<bv32>, after: seq<bv32>)
    requires Correct(t) && TransformedBelow(InvMixWords(t), after, before, 4 * ROUNDS)
    ensures KeyColumns(after) == DecryptKeys(KeyColumns(before))
  {
    hide InvMixWord, OfWord, InvMixColumn, SBoxEntry, D0Entry, D1Entry, D2Entry, D3Entry;
    var dk, ks := DecryptKeys(KeyColumns(before)), KeyColumns(before);
    forall j: nat | j < SCHEDULE_WORDS ensures KeyColumns(after)[j] == dk[j] {
      InvMixWordColumn(t, before[ReversedIndex(j)]);
      assert dk[j] == InverseKeyAt(InvMixColumn, ks, ROUNDS, j);
    }
  }

  /** Exchange the four words from a on with those from b on. */
  method SwapRoundKeys<T>(ke: array<T>, a: nat, b: nat)
    requires a + 4 <= b && b + 4 <= ke.Length
    modifies ke
    ensures forall j | 0 <= j < ke.Length && !(a <= j < a + 4) && !(b <= j < b + 4) :: ke[j] == old(ke[j])
    ensures forall j | a <= j < a + 4 :: ke[j] == old(ke[j + b - a])
    ensures forall j | b <= j < b + 4 :: ke[j] == old(ke[j - b + a])
  {
    ke[a], ke[b] := ke[b], ke[a];
    ke[a + 1], ke[b + 1] := ke[b + 1], ke[a + 1];
    ke[a + 2], ke[b + 2] := ke[b + 2], ke[a + 2];
    ke[a + 3], ke[b + 3] := ke[b + 3], ke[a + 3];
  }

  /** The round keys outside [start, end] are in their reversed places, the others untouched. */
  ghost predicate ReversedOutside<T>(ke: seq<T>, before: seq<T>, start: int, end: int) {
    && |ke| == SCHEDULE_WORDS && |before| == SCHEDULE_WORDS
    && forall j: nat | j < SCHEDULE_WORDS ::
        ke[j] == if j < start || j >= end + 4 then before[ReversedIndex(j)] else before[j]
  }

  lemma ReversedStep<T>(before: seq<T>, now: seq<T>, next: seq<T>, start: int, end: int)
    requires ReversedOutside(now, before, start, end) && |next| == SCHEDULE_WORDS
    requires 0 <= start && start + 4 <= end && start + end == 4 * ROUNDS && start % 4 == 0
    requires forall j | 0 <= j < SCHEDULE_WORDS && !(start <= j < start + 4) && !(end <= j < end + 4) :: next[j] == now[j]
    requires forall j | start <= j < start + 4 :: next[j] == now[j + end - start]
    requires forall j | end <= j < end + 4 :: next[j] == now[j - end + start]
    ensures ReversedOutside(next, before, start + 4, end - 4)
  {
    hide ReversedIndex;
    forall j: nat | j < SCHEDULE_WORDS
      ensures next[j] == if j < start + 4 || j >= end then before[ReversedIndex(j)] else before[j]
    {
      if start <= j < start + 4 {
        ReversedIndexIn(start, j);
      } else if end <= j < end + 4 {
        ReversedIndexIn(end, j);
      }
    }
  }

  /** The middle round key is in its place. */
  lemma ReversedAll<T>(before: seq<T>, ke: seq<T>, start: int)
    requires ReversedOutside(ke, before, start, start) && 2 * start == 4 * ROUNDS
    ensures forall j: nat | j < SCHEDULE_WORDS :: ke[j] == before[ReversedIndex(j)]
  {}

  /** Invert the order of the round keys. */
  method ReverseRoundKeys<T>(ke: array<T>)
    requires ke.Length == SCHEDULE_WORDS
    modifies ke
    ensures forall j: nat | j < SCHEDULE_WORDS :: ke[j] == old(ke[..])[ReversedIndex(j)]
  {
    ghost var before := ke[..];
    var start, end := 0, 4 * ROUNDS;
    while start < end
      invariant start + end == 4 * ROUNDS && start % 4 == 0 && 0 <= start <= end + 4
      invariant ReversedOutside(ke[..], before, start, end)
    {
      hide ReversedIndex;
      ghost var now := ke[..];
      SwapRoundKeys(ke, start, end);
      ReversedStep(before, now, ke[..], start, end);
      start, end := start + 4, end - 4;
    }
    ReversedAll(before, ke[..], start);
  }

  /** Replace word n by w, its transform. */
  method TransformNext<T>(ke: array<T>, ghost f: T -> T, ghost before: seq<T>, n: nat, w: T)
    requires 4 <= n < SCHEDULE_WORDS && TransformedBelow(f, ke[..], before, n) && w == f(ke[n])
    modifies ke
    ensures TransformedBelow(f, ke[..], before, n + 1)
  {
    ke[n] := w;
  }

  method TransformRoundKey<T>(ke: array<T>, f: T -> T, ghost before: seq<T>, n: nat)
    requires ke.Length == SCHEDULE_WORDS && 4 <= n && n + 4 <= SCHEDULE_WORDS
    requires TransformedBelow(f, ke[..], before, n)
    modifies ke
    ensures TransformedBelow(f, ke[..], before, n + 4)
  {
    hide TransformedBelow;
    TransformNext(ke, f, before, n, f(ke[n]));
    TransformNext(ke, f, before, n + 1, f(ke[n + 1]));
    TransformNext(ke, f, before, n + 2, f(ke[n + 2]));
    TransformNext(ke, f, before, n + 3, f(ke[n + 3]));
  }

  lemma UntransformedYet<T>(f: T -> T, ke: seq<T>, before: seq<T>)
    requires |ke| == SCHEDULE_WORDS && |before| == SCHEDULE_WORDS
    requires forall j: nat | j < SCHEDULE_WORDS :: ke[j] == before[ReversedIndex(j)]
    ensures TransformedBelow(f, ke, before, 4)
  {}

  /** Invert the order of the round keys and transform all but the first and the last. */
  method InvertRoundKeys<T>(ke: array<T>, f: T -> T)
    requires ke.Length == SCHEDULE_WORDS
    modifies ke
    ensures TransformedBelow(f, ke[..], old(ke[..]), 4 * ROUNDS)
  {
    hide TransformedBelow, ReversedIndex;
    ghost var before := ke[..];
    ReverseRoundKeys(ke);
    UntransformedYet(f, ke[..], before);
    for cnt := 1 to ROUNDS
      invariant TransformedBelow(f, ke[..], before, 4 * cnt)
    {
      TransformRoundKey(ke, f, before, 4 * cnt);
    }
  }

  method ExtractDecryptKey(t: Tables, ke: array<bv32>)
    requires Correct(t) && ke.Length == SCHEDULE_WORDS
    modifies ke
    ensures KeyColumns(ke[..]) == DecryptKeys(KeyColumns(old(ke[..])))
  {
    ghost var before := ke[..];
    InvertRoundKeys(ke, InvMixWords(t));
    TransformedKey(t, before, ke[..]);
  }
}
