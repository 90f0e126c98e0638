/** AES256_Encrypt_Impl: incremental encryption in CBC mode. */
module AesEncrypter {
  import opened AesImpl
  import opened AesKeys
  import opened AesSpec
  import opened ByteTables
  import opened Cbc
  import opened Chunking
  import opened DataBuffers
  import opened Words

  /** The exceptions of the source. */
  datatype Outcome = Success | Thrown(message: string)

  const IV_NOT_SET := Thrown("AES-256 initialisation vector has not been set")
  const KEY_NOT_SET := Thrown("AES-256 cipher key has not been set")
  const BAD_BLOCK_COUNT := Thrown("Number of additional blocks in padding must be 0 to 15")
  const NOT_BLOCK_SIZE := Thrown("You must provide data with a block size of 16 when padding is disabled")

  class Encrypter {
    const tables: Tables
    const keyExpanded: array<bv32>
    const chunk: array<bv8>
    const buffer: DataBuffer
    var chunkFilled: nat
    var iv1: bv32
    var iv2: bv32
    var iv3: bv32
    var iv4: bv32
    var ivSet: bool
    var keySet: bool
    var calculated: bool
    var paddingEnabled: bool
    var paddingPkcs7: bool
    var extraBlocks: uint

    ghost predicate Wellformed()
      reads this, buffer
    {
      && Correct(tables) && keyExpanded.Length == SCHEDULE_WORDS && chunk.Length == BLOCK
      && chunkFilled <= BLOCK && buffer.Valid() && buffer.data != chunk
      && keyExpanded as object != chunk && keyExpanded as object != buffer.data
    }

    /** Between calls the chunk is never full. */
    ghost predicate Valid()
      reads this, buffer
    {
      Wellformed() && chunkFilled < BLOCK
    }

    /** What has been taken in: the chaining value, the bytes of the incomplete block and the output. */
    ghost function State(): Stream<Block>
      requires Wellformed()
      reads this, chunk, buffer, buffer.data
    {
      Stream(BlockOfWords(iv1, iv2, iv3, iv4), chunk[..chunkFilled], buffer.Contents())
    }

    ghost function Step(): Step<Block>
      reads keyExpanded
    {
      EncStep(KeyColumns(keyExpanded[..]))
    }

    /** The state from which the next call works: results that were already fetched are dropped. */
    ghost function Begun(): Stream<Block>
      requires Valid()
      reads this, chunk, buffer, buffer.data
    {
      if calculated then State().(pending := [], out := []) else State()
    }

    constructor (t: Tables)
      requires Correct(t)
      ensures Valid() && fresh(keyExpanded) && fresh(chunk) && fresh(buffer) && fresh(buffer.data)
      ensures tables == t && !calculated && !ivSet && !keySet
      ensures paddingEnabled && paddingPkcs7 && extraBlocks == 0
      ensures State().pending == [] && State().out == []
    {
      tables := t;
      keyExpanded := new bv32[SCHEDULE_WORDS];
      chunk := new bv8[BLOCK](_ => 0);
      buffer := new DataBuffer();
      chunkFilled := 0;
      ivSet, keySet, calculated := false, false, false;
      paddingEnabled, paddingPkcs7, extraBlocks := true, true, 0;
    }

    method Reset()
      requires Valid()
      modifies this`calculated, this`chunkFilled, chunk, buffer
      ensures Valid() && !calculated && buffer.data == old(buffer.data)
      ensures State() == old(State()).(pending := [], out := [])
    {
      calculated := false;
      forall i | 0 <= i < BLOCK {
        chunk[i] := 0;
      }
      chunkFilled := 0;
      buffer.SetSize(0);
    }

    method SetIv(iv: seq<bv8>)
      requires Valid() && |iv| == BLOCK
      modifies this`iv1, this`iv2, this`iv3, this`iv4, this`ivSet
      ensures Valid() && ivSet && State() == old(State()).(chain := BlockOf(iv))
    {
      iv1, iv2, iv3, iv4 := GetWord(iv, 0), GetWord(iv, 4), GetWord(iv, 8), GetWord(iv, 12);
      ivSet := true;
      BlockOfChunk(iv);
    }

    /** The settings are stored even when the number of blocks is refused. */
    method SetPadding(value: bool, usePkcs7: bool, blocks: uint) returns (r: Outcome)
      requires Valid()
      modifies this`paddingEnabled, this`paddingPkcs7, this`extraBlocks
      ensures Valid() && State() == old(State())
      ensures paddingEnabled == value && paddingPkcs7 == usePkcs7 && extraBlocks == blocks
      ensures r == if blocks > 15 then BAD_BLOCK_COUNT else Success
    {
      paddingEnabled, paddingPkcs7, extraBlocks := value, usePkcs7, blocks;
      return if extraBlocks > 15 then BAD_BLOCK_COUNT else Success;
    }

    method SetKey(key: seq<bv8>)
      requires Valid() && |key| == 4 * KEY_WORDS
      modifies this`keySet, keyExpanded
      ensures Valid() && keySet && State() == old(State())
      ensures Step() == EncStep(ExpandedKey(key))
    {
      hide EncStep;
      keySet := true;
      ExtractEncryptKey256(tables, key, keyExpanded);
    }

    /** Encrypt the sixteen bytes of the chunk. */
    method ProcessChunk()
      requires Wellformed()
      modifies this`iv1, this`iv2, this`iv3, this`iv4, buffer, buffer.data
      ensures Wellformed() && (buffer.data == old(buffer.data) || fresh(buffer.data))
      ensures chunk[..] == old(chunk[..])
      ensures
        var chain := BlockOfWords(old(iv1), old(iv2), old(iv3), old(iv4));
        var c := Encrypt(KeyColumns(keyExpanded[..]), AddBlocks(chain, BlockOf(chunk[..])));
        BlockOfWords(iv1, iv2, iv3, iv4) == c && buffer.Contents() == old(buffer.Contents()) + BytesOf(c)
    {
      hide Encrypt, BlockOfWords, GetWord, WordBytes4, AddWords, AddBlocks, BlockOf, KeyColumns, Correct, BytesOf;
      ghost var ke, c := keyExpanded[..], chunk[..];
      var w0, w1, w2, w3 := GetWord(chunk[..], 0), GetWord(chunk[..], 4), GetWord(chunk[..], 8), GetWord(chunk[..], 12);
      var x0, x1, x2, x3 := AddWords(iv1, w0), AddWords(iv2, w1), AddWords(iv3, w2), AddWords(iv4, w3);
      BlockOfChunk(c);
      BlockSum(iv1, iv2, iv3, iv4, w0, w1, w2, w3);
      var s0, s1, s2, s3 := EncryptBlock(tables, keyExpanded, x0, x1, x2, x3);
      BytesOfWords(s0, s1, s2, s3);
      buffer.Append16(WordBytes4(s0) + WordBytes4(s1) + WordBytes4(s2) + WordBytes4(s3));
      iv1, iv2, iv3, iv4 := s0, s1, s2, s3;
    }

    /** Append n bytes of data, from pos on, to the chunk. */
    method FillChunk(data: seq<bv8>, pos: nat, n: nat)
      requires Wellformed() && pos + n <= |data| && chunkFilled + n <= BLOCK
      modifies this`chunkFilled, chunk
      ensures Wellformed()
      ensures State() == old(State()).(pending := old(State().pending) + data[pos..pos + n])
    {
      ghost var before := chunk[..chunkFilled];
      forall i | 0 <= i < n {
        chunk[chunkFilled + i] := data[pos + i];
      }
      chunkFilled := chunkFilled + n;
      assert chunk[..chunkFilled] == before + data[pos..pos + n];
    }

    /** Process the chunk if it is full. */
    method FlushChunk()
      requires Wellformed()
      modifies this`chunkFilled, this`iv1, this`iv2, this`iv3, this`iv4, buffer, buffer.data
      ensures Valid() && (buffer.data == old(buffer.data) || fresh(buffer.data))
      ensures State() == Flush(Step(), old(State()))
    {
      hide BlockOfWords, EncStep, Correct, KeyColumns, Encrypt, AddBlocks, BlockOf, BytesOf, Process;
      if chunkFilled == BLOCK {
        assert chunk[..chunkFilled] == chunk[..];
        OneEncrypted(KeyColumns(keyExpanded[..]), State(), chunk[..]);
        ProcessChunk();
        chunkFilled := 0;
      }
    }

    method Add(data: seq<bv8>) returns (r: Outcome)
      requires Valid()
      modifies this`calculated, this`chunkFilled, this`iv1, this`iv2, this`iv3, this`iv4, chunk, buffer, buffer.data
      ensures Valid() && (buffer.data == old(buffer.data) || fresh(buffer.data)) && !calculated
      ensures Step() == old(Step())
      ensures r == if !ivSet then IV_NOT_SET else if !keySet then KEY_NOT_SET else Success
      ensures State() == if r.Success? then Feed(Step(), false, old(Begun()), data) else old(Begun())
    {
      hide BlockOfWords, EncStep, Correct, KeyColumns, Flush, Feed;
      if calculated {
        Reset();
      }
      if !ivSet {
        return IV_NOT_SET;
      }
      if !keySet {
        return KEY_NOT_SET;
      }
      ghost var step, begun := Step(), State();
      var pos := 0;
      while pos < |data|
        invariant Valid() && (buffer.data == old(buffer.data) || fresh(buffer.data)) && !calculated
        invariant pos <= |data| && Step() == step
        invariant Feed(step, false, begun, data) == Feed(step, false, State(), data[pos..])
      {
        var left := |data| - pos;
        var space := BLOCK - chunkFilled;
        var used := if space < left then space else left;
        FeedTaken(step, State(), data, pos, used);
        FillChunk(data, pos, used);
        pos := pos + used;
        FlushChunk();
      }
      assert data[pos..] == [];
      FeedNothing(step, State());
      return Success;
    }

    /** Complete the chunk with PKCS#7 padding and process it. */
    method ProcessPadding()
      requires Valid()
      modifies this`chunkFilled, this`iv1, this`iv2, this`iv3, this`iv4, chunk, buffer, buffer.data
      ensures Valid() && (buffer.data == old(buffer.data) || fresh(buffer.data))
      ensures State() == Feed(Step(), false, old(State()), Padding(true, 0, old(chunkFilled)))
    {
      hide BlockOfWords, EncStep, Correct, KeyColumns, Feed, ByteOf, Encrypt, AddBlocks, BlockOf, BytesOf, Process;
      ghost var step, st := Step(), State();
      var padSize := BLOCK - chunkFilled;
      ghost var padding := Padding(true, 0, chunkFilled);
      forall i | chunkFilled <= i < BLOCK {
        chunk[i] := ByteOf(padSize);
      }
      assert chunk[..] == st.pending + padding;
      OneEncrypted(KeyColumns(keyExpanded[..]), st, chunk[..]);
      ProcessChunk();
      chunkFilled := 0;
      FeedCompleting(step, st, padding);
    }

    /** Add the padding of TLS. */
    method AddPadding() returns (r: Outcome)
      requires Valid() && !calculated
      modifies this`calculated, this`chunkFilled, this`iv1, this`iv2, this`iv3, this`iv4, chunk, buffer, buffer.data
      ensures Valid() && (buffer.data == old(buffer.data) || fresh(buffer.data)) && !calculated
      ensures Step() == old(Step())
      ensures r == if !ivSet then IV_NOT_SET else if !keySet then KEY_NOT_SET else Success
      ensures State() ==
        if r.Success? then Feed(Step(), false, old(State()), Padding(false, extraBlocks, old(chunkFilled)))
        else old(State())
    {
      hide BlockOfWords, EncStep, Correct, KeyColumns, Feed, ByteOf;
      var padSize: uint := BLOCK - chunkFilled;
      padSize := (padSize + BLOCK * extraBlocks % UINT_LIMIT) % UINT_LIMIT;
      var padding := Run(padSize, ByteOf((padSize - 1) % 256));
      WrappedSum(BLOCK - chunkFilled, BLOCK * extraBlocks);
      assert Taken(padding) == Padding(false, extraBlocks, chunkFilled);
      r := Add(Taken(padding));
    }

    /** The initialisation vector and the key must be set again after each result. */
    method Forget()
      requires Valid()
      modifies this`calculated, this`ivSet, this`keySet, keyExpanded
      ensures Valid() && calculated && !ivSet && !keySet
      ensures State() == old(State())
      ensures forall i | 0 <= i < SCHEDULE_WORDS :: keyExpanded[i] == 0
    {
      hide BlockOfWords, Correct;
      calculated := true;
      ivSet := false;
      keySet := false;
      forall i | 0 <= i < SCHEDULE_WORDS {
        keyExpanded[i] := 0;
      }
    }

    /** What calculate() answers, from the state before it. */
    ghost function CalculateOutcome(): Outcome
      requires Valid()
      reads this, chunk, buffer, buffer.data
    {
      if !paddingEnabled then (if Begun().pending != [] then NOT_BLOCK_SIZE else Success)
      else if paddingPkcs7 then Success
      else if !ivSet then IV_NOT_SET
      else if !keySet then KEY_NOT_SET
      else Success
    }

    method Calculate() returns (r: Outcome)
      requires Valid()
      modifies this`calculated, this`chunkFilled, this`iv1, this`iv2, this`iv3, this`iv4, this`ivSet, this`keySet
      modifies chunk, buffer, buffer.data, keyExpanded
      ensures Valid() && (buffer.data == old(buffer.data) || fresh(buffer.data))
      ensures r == old(CalculateOutcome())
      ensures r.Success? ==> calculated && !ivSet && !keySet && forall i | 0 <= i < SCHEDULE_WORDS :: keyExpanded[i] == 0
      ensures r.Thrown? ==> !calculated && ivSet == old(ivSet) && keySet == old(keySet) && Step() == old(Step())
      ensures State() ==
        if r.Success? && paddingEnabled then
          Feed(old(Step()), false, old(Begun()), Padding(paddingPkcs7, extraBlocks, old(|Begun().pending|)))
        else old(Begun())
    {
      hide BlockOfWords, EncStep, Correct, KeyColumns, Feed, ByteOf;
      if calculated {
        Reset();
      }
      if paddingEnabled {
        if paddingPkcs7 {
          ProcessPadding();
        } else {
          var added := AddPadding();
          if added.Thrown? {
            return added;
          }
        }
      } else {
        if chunkFilled > 0 {
          return NOT_BLOCK_SIZE;
        }
      }
      Forget();
      return Success;
    }
  }

  lemma WrappedSum(a: nat, b: nat)
    ensures (a + b % UINT_LIMIT) % UINT_LIMIT == (a + b) % UINT_LIMIT
  {}

  lemma FeedNothing<S>(step: Step<S>, st: Stream<S>)
    ensures Feed(step, false, st, []) == st
  {}

  /** The part of data taken in by one round of the loop. */
  lemma FeedTaken<S>(step: Step<S>, st: Stream<S>, data: seq<bv8>, pos: nat, used: nat)
    requires 0 < used && pos + used <= |data| && |st.pending| + used <= BLOCK
    ensures
      var filled := st.(pending := st.pending + data[pos..pos + used]);
      Feed(step, false, st, data[pos..]) == Feed(step, false, Flush(step, filled), data[pos + used..])
  {
    hide Flush;
    var taken := data[pos..pos + used];
    assert data[pos..] == taken + data[pos + used..];
    FeedConcat(step, false, st, taken, data[pos + used..]);
    FeedUpTo(step, st, taken);
  }

  lemma FeedUpTo<S>(step: Step<S>, st: Stream<S>, taken: seq<bv8>)
    requires taken != [] && |st.pending| + |taken| <= BLOCK
    ensures Feed(step, false, st, taken) == Flush(step, st.(pending := st.pending + taken))
  {
    if |st.pending| + |taken| == BLOCK {
      FeedCompleting(step, st, taken);
    } else {
      FeedPartial(step, false, st, taken);
    }
  }
}
