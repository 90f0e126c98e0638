/** AES256_Decrypt_Impl: incremental decryption in CBC mode. With padding enabled the last full block is
    held back until it is known whether more data follows. */
module AesDecrypter {
  import opened AesEncrypter
  import opened AesImpl
  import opened AesKeys
  import opened AesSpec
  import opened ByteTables
  import opened Cbc
  import opened Chunking
  import opened DataBuffers
  import opened Words

  class Decrypter {
    const tables: Tables
    const keyExpanded: array<bv32>
    const chunk: array<bv8>
    const buffer: DataBuffer
    var chunkFilled: nat
    var iv1: bv32
    var iv2: bv32
    var iv3: bv32
    var iv4: bv32
    var ivSet: bool
    var keySet: bool
    var calculated: bool
    var paddingEnabled: bool
    var paddingPkcs7: bool

    ghost predicate Valid()
      reads this, buffer
    {
      && Correct(tables) && keyExpanded.Length == SCHEDULE_WORDS && chunk.Length == BLOCK
      && chunkFilled <= BLOCK && buffer.Valid() && buffer.data != chunk
      && keyExpanded as object != chunk && keyExpanded as object != buffer.data
    }

    /** What has been taken in: the chaining value, the bytes held and the output. */
    ghost function State(): Stream<Block>
      requires Valid()
      reads this, chunk, buffer, buffer.data
    {
      Stream(BlockOfWords(iv1, iv2, iv3, iv4), chunk[..chunkFilled], buffer.Contents())
    }

    ghost function Step(): Step<Block>
      reads keyExpanded
    {
      DecStep(KeyColumns(keyExpanded[..]))
    }

    /** The state from which the next call works: results that were already fetched are dropped. */
    ghost function Begun(): Stream<Block>
      requires Valid()
      reads this, chunk, buffer, buffer.data
    {
      if calculated then State().(pending := [], out := []) else State()
    }

    constructor (t: Tables)
      requires Correct(t)
      ensures Valid() && fresh(keyExpanded) && fresh(chunk) && fresh(buffer) && fresh(buffer.data)
      ensures tables == t && !calculated && !ivSet && !keySet
      ensures paddingEnabled && paddingPkcs7
      ensures State().pending == [] && State().out == []
    {
      tables := t;
      keyExpanded := new bv32[SCHEDULE_WORDS];
      chunk := new bv8[BLOCK](_ => 0);
      buffer := new DataBuffer();
      chunkFilled := 0;
      ivSet, keySet, calculated := false, false, false;
      paddingEnabled, paddingPkcs7 := true, true;
    }

    method Reset()
      requires Valid()
      modifies this`calculated, this`chunkFilled, chunk, buffer
      ensures Valid() && !calculated && buffer.data == old(buffer.data)
      ensures State() == old(State()).(pending := [], out := [])
    {
      calculated := false;
      forall i | 0 <= i < BLOCK {
        chunk[i] := 0;
      }
      chunkFilled := 0;
      buffer.SetSize(0);
    }

    method SetIv(iv: seq<bv8>)
      requires Valid() && |iv| == BLOCK
      modifies this`iv1, this`iv2, this`iv3, this`iv4, this`ivSet
      ensures Valid() && ivSet && State() == old(State()).(chain := BlockOf(iv))
    {
      iv1, iv2, iv3, iv4 := GetWord(iv, 0), GetWord(iv, 4), GetWord(iv, 8), GetWord(iv, 12);
      ivSet := true;
      BlockOfChunk(iv);
    }

    method SetPadding(value: bool, usePkcs7: bool)
      requires Valid()
      modifies this`paddingEnabled, this`paddingPkcs7
      ensures Valid() && State() == old(State())
      ensures paddingEnabled == value && paddingPkcs7 == usePkcs7
    {
      paddingEnabled, paddingPkcs7 := value, usePkcs7;
    }

    method SetKey(key: seq<bv8>)
      requires Valid() && |key| == 4 * KEY_WORDS
      modifies this`keySet, keyExpanded
      ensures Valid() && keySet && State() == old(State())
      ensures Step() == DecStep(DecryptKeys(ExpandedKey(key)))
    {
      hide DecStep, DecryptKeys, KeyColumns;
      keySet := true;
      ExtractEncryptKey256(tables, key, keyExpanded);
      ExtractDecryptKey(tables, keyExpanded);
    }

    /** Decrypt the sixteen bytes of the chunk. */
    method ProcessChunk()
      requires Valid()
      modifies this`iv1, this`iv2, this`iv3, this`iv4, buffer, buffer.data
      ensures Valid() && (buffer.data == old(buffer.data) || fresh(buffer.data))
      ensures chunk[..] == old(chunk[..])
      ensures
        var chain, c := BlockOfWords(old(iv1), old(iv2), old(iv3), old(iv4)), BlockOf(chunk[..]);
        var p := AddBlocks(Decrypt(KeyColumns(keyExpanded[..]), c), chain);
        BlockOfWords(iv1, iv2, iv3, iv4) == c && buffer.Contents() == old(buffer.Contents()) + BytesOf(p)
    {
      hide Decrypt, BlockOfWords, GetWord, WordBytes4, AddWords, AddBlocks, BlockOf, KeyColumns, Correct, BytesOf;
      ghost var c := chunk[..];
      var w0, w1, w2, w3 := GetWord(chunk[..], 0), GetWord(chunk[..], 4), GetWord(chunk[..], 8), GetWord(chunk[..], 12);
      BlockOfChunk(c);
      var s0, s1, s2, s3 := DecryptBlock(tables, keyExpanded, w0, w1, w2, w3);
      BlockSum(s0, s1, s2, s3, iv1, iv2, iv3, iv4);
      s0, s1, s2, s3 := AddWords(s0, iv1), AddWords(s1, iv2), AddWords(s2, iv3), AddWords(s3, iv4);
      BytesOfWords(s0, s1, s2, s3);
      buffer.Append16(WordBytes4(s0) + WordBytes4(s1) + WordBytes4(s2) + WordBytes4(s3));
      iv1, iv2, iv3, iv4 := w0, w1, w2, w3;
    }

    /** Append n bytes of data, from pos on, to the chunk. */
    method FillChunk(data: seq<bv8>, pos: nat, n: nat)
      requires Valid() && pos + n <= |data| && chunkFilled + n <= BLOCK
      modifies this`chunkFilled, chunk
      ensures Valid()
      ensures State() == old(State()).(pending := old(State().pending) + data[pos..pos + n])
    {
      ghost var before := chunk[..chunkFilled];
      forall i | 0 <= i < n {
        chunk[chunkFilled + i] := data[pos + i];
      }
      chunkFilled := chunkFilled + n;
      assert chunk[..chunkFilled] == before + data[pos..pos + n];
    }

    /** Process the full chunk. */
    method FlushChunk()
      requires Valid() && chunkFilled == BLOCK
      modifies this`chunkFilled, this`iv1, this`iv2, this`iv3, this`iv4, buffer, buffer.data
      ensures Valid() && (buffer.data == old(buffer.data) || fresh(buffer.data)) && chunkFilled == 0
      ensures State() == Process(Step(), old(State()))
    {
      hide BlockOfWords, DecStep, Correct, KeyColumns, Decrypt, AddBlocks, BlockOf, BytesOf, Process;
      assert chunk[..chunkFilled] == chunk[..];
      OneDecrypted(KeyColumns(keyExpanded[..]), State(), chunk[..]);
      ProcessChunk();
      chunkFilled := 0;
    }

    /** The loop may go round once without taking in a byte, when the chunk it starts with is full. */
    method Add(data: seq<bv8>) returns (r: Outcome)
      requires Valid()
      modifies this`calculated, this`chunkFilled, this`iv1, this`iv2, this`iv3, this`iv4, chunk, buffer, buffer.data
      ensures Valid() && (buffer.data == old(buffer.data) || fresh(buffer.data)) && !calculated
      ensures Step() == old(Step())
      ensures r == if !ivSet then IV_NOT_SET else if !keySet then KEY_NOT_SET else Success
      ensures State() == if r.Success? then Feed(Step(), paddingEnabled, old(Begun()), data) else old(Begun())
    {
      hide BlockOfWords, DecStep, Correct, KeyColumns, Process, Feed;
      if calculated {
        Reset();
      }
      if !ivSet {
        return IV_NOT_SET;
      }
      if !keySet {
        return KEY_NOT_SET;
      }
      ghost var step, begun := Step(), State();
      var pos := 0;
      while pos < |data|
        invariant Valid() && (buffer.data == old(buffer.data) || fresh(buffer.data)) && !calculated
        invariant pos <= |data| && Step() == step
        invariant Feed(step, paddingEnabled, begun, data) == Feed(step, paddingEnabled, State(), data[pos..])
        decreases |data| - pos, chunkFilled
      {
        var left := |data| - pos;
        var space := BLOCK - chunkFilled;
        var used := if space < left then space else left;
        FeedTakenHeld(step, paddingEnabled, State(), data, pos, used);
        FillChunk(data, pos, used);
        pos := pos + used;
        if chunkFilled == BLOCK {
          if !paddingEnabled || pos < |data| {
            FlushChunk();
          }
        }
      }
      assert data[pos..] == [];
      FeedNoMore(step, paddingEnabled, State());
      return Success;
    }

    /** The last full chunk is processed and its padding removed. */
    method CalculatePadded() returns (ok: bool)
      requires Valid() && chunkFilled == BLOCK
      modifies this`chunkFilled, this`iv1, this`iv2, this`iv3, this`iv4, buffer, buffer.data
      ensures Valid() && (buffer.data == old(buffer.data) || fresh(buffer.data))
      ensures State().pending == [] && State().chain == Process(Step(), old(State())).chain
      ensures |Process(Step(), old(State())).out| >= BLOCK
      ensures (ok, State().out) == Unpadded(paddingPkcs7, Process(Step(), old(State())).out)
    {
      hide BlockOfWords, DecStep, Correct, KeyColumns, NumberOf;
      ok := true;
      ProcessedLength(keyExpanded[..], State());
      FlushChunk();
      var currentSize := buffer.size;
      if currentSize > 0 {
        var padByte := NumberOf(buffer.data[currentSize - 1]);
        if paddingPkcs7 {
          if padByte == 0 || padByte > BLOCK {
            ok := false;
          } else {
            buffer.SetSize(currentSize - padByte);
          }
        } else {
          padByte := padByte + 1;
          if currentSize < padByte {
            ok := false;
          } else {
            buffer.SetSize(currentSize - padByte);
          }
        }
      } else {
        ok := false;
      }
    }

    /** What calculate() answers and leaves as output, from the state before it. */
    ghost function CalculateResult(): (bool, seq<bv8>)
      requires Valid()
      reads this, chunk, buffer, buffer.data, keyExpanded
    {
      var st := Begun();
      if !paddingEnabled then (st.pending == [], st.out)
      else if |st.pending| == BLOCK && |Process(Step(), st).out| >= BLOCK then
        Unpadded(paddingPkcs7, Process(Step(), st).out)
      else (false, st.out)
    }

    method Calculate() returns (ok: bool)
      requires Valid()
      modifies this`calculated, this`chunkFilled, this`iv1, this`iv2, this`iv3, this`iv4, this`ivSet, this`keySet
      modifies chunk, buffer, buffer.data, keyExpanded
      ensures Valid() && (buffer.data == old(buffer.data) || fresh(buffer.data))
      ensures (ok, State().out) == old(CalculateResult())
      ensures calculated && !ivSet && !keySet && forall i | 0 <= i < SCHEDULE_WORDS :: keyExpanded[i] == 0
    {
      hide BlockOfWords, DecStep, Correct, KeyColumns, Process, Unpadded;
      if calculated {
        Reset();
      }
      ok := true;
      if paddingEnabled {
        if chunkFilled == BLOCK {
          ok := CalculatePadded();
        } else {
          ok := false;
        }
      } else {
        if chunkFilled > 0 {
          ok := false;
        }
      }
      Forget();
    }

    /** The initialisation vector and the key must be set again after each result. */
    method Forget()
      requires Valid()
      modifies this`calculated, this`ivSet, this`keySet, keyExpanded
      ensures Valid() && calculated && !ivSet && !keySet
      ensures State() == old(State())
      ensures forall i | 0 <= i < SCHEDULE_WORDS :: keyExpanded[i] == 0
    {
      hide BlockOfWords, Correct;
      calculated := true;
      ivSet := false;
      keySet := false;
      forall i | 0 <= i < SCHEDULE_WORDS {
        keyExpanded[i] := 0;
      }
    }
  }

  /** One round of the loop: the part of data taken in, and the full chunk unless it is held back. */
  lemma FeedTakenHeld<S>(step: Step<S>, held: bool, st: Stream<S>, data: seq<bv8>, pos: nat, used: nat)
    requires pos < |data| && |st.pending| <= BLOCK
    requires used == if BLOCK - |st.pending| < |data| - pos then BLOCK - |st.pending| else |data| - pos
    ensures
      var filled := st.(pending := st.pending + data[pos..pos + used]);
      var next := if |filled.pending| == BLOCK && (!held || pos + used < |data|) then Process(step, filled) else filled;
      Feed(step, held, st, data[pos..]) == Feed(step, held, next, data[pos + used..])
  {
    hide Process;
    var taken, rest := data[pos..pos + used], data[pos + used..];
    var filled := st.(pending := st.pending + taken);
    if used == 0 {
      assert filled.pending == st.pending;
      FeedAfterFull(step, held, st, rest);
    } else {
      assert data[pos..] == taken + rest;
      FeedConcat(step, held, st, taken, rest);
      if held || |filled.pending| < BLOCK {
        FeedPartial(step, held, st, taken);
        if |filled.pending| == BLOCK && rest != [] {
          FeedAfterFull(step, held, filled, rest);
        }
      } else {
        FeedCompleting(step, st, taken);
      }
    }
  }

  lemma FeedNoMore<S>(step: Step<S>, held: bool, st: Stream<S>)
    ensures Feed(step, held, st, []) == st
  {}

  lemma ProcessedLength(ke: seq<bv32>, st: Stream<Block>)
    ensures |Process(DecStep(KeyColumns(ke)), st).out| >= BLOCK
  {
    hide BytesOf, Decrypt, BlockOf;
  }
}
