/** Byte streams cut into blocks of sixteen. S is the chaining state; a step turns a chaining state and
    a full block into the next chaining state and sixteen bytes of output. */
module Chunking {

  const BLOCK := 16
  const INT_LIMIT := 0x8000_0000
  const UINT_LIMIT := 0x1_0000_0000

  type uint = n: int | 0 <= n < UINT_LIMIT

  /** A size of 2^31 or more turns negative on its way to add(), which then takes nothing in. */
  function Taken(data: seq<bv8>): seq<bv8> {
    if |data| < INT_LIMIT then data else []
  }

  datatype Stream<S> = Stream(chain: S, pending: seq<bv8>, out: seq<bv8>)

  type Step<!S> = (S, seq<bv8>) -> (S, seq<bv8>)

  function Process<S>(step: Step<S>, st: Stream<S>): Stream<S> {
    var (c, o) := step(st.chain, st.pending);
    Stream(c, [], st.out + o)
  }

  function Flush<S>(step: Step<S>, st: Stream<S>): Stream<S> {
    if |st.pending| == BLOCK then Process(step, st) else st
  }

  /** Take in one byte; a full block is processed only when another byte follows it. */
  function PushHeld<S>(step: Step<S>, st: Stream<S>, b: bv8): Stream<S> {
    var p := Flush(step, st);
    p.(pending := p.pending + [b])
  }

  /** Take in one byte; a block is processed as soon as it is full. */
  function PushEager<S>(step: Step<S>, st: Stream<S>, b: bv8): Stream<S> {
    Flush(step, PushHeld(step, st, b))
  }

  function Push<S>(step: Step<S>, held: bool, st: Stream<S>, b: bv8): Stream<S> {
    if held then PushHeld(step, st, b) else PushEager(step, st, b)
  }

  function Feed<S>(step: Step<S>, held: bool, st: Stream<S>, data: seq<bv8>): Stream<S>
    decreases |data|
  {
    if data == [] then st
    else Feed(step, held, Push(step, held, st, data[0]), data[1..])
  }

  /** Feeding a concatenation is feeding the parts in order. */
  lemma {:induction false} FeedConcat<S>(step: Step<S>, held: bool, st: Stream<S>, a: seq<bv8>, b: seq<bv8>)
    ensures Feed(step, held, st, a + b) == Feed(step, held, Feed(step, held, st, a), b)
    decreases |a|
  {
    if a == [] {
      assert a + b == b;
    } else {
      var p := Push(step, held, st, a[0]);
      FeedConcat(step, held, p, a[1..], b);
      assert (a + b)[0] == a[0] && (a + b)[1..] == a[1..] + b;
    }
  }

  /** Bytes that do not complete a block are only stored; held back, they may also complete it. */
  lemma {:induction false} FeedPartial<S>(step: Step<S>, held: bool, st: Stream<S>, data: seq<bv8>)
    requires |st.pending| + |data| < BLOCK || (held && |st.pending| + |data| == BLOCK)
    ensures Feed(step, held, st, data) == st.(pending := st.pending + data)
    decreases |data|
  {
    if data == [] {
      assert st.pending + data == st.pending;
    } else {
      var p := st.(pending := st.pending + [data[0]]);
      FeedPartial(step, held, p, data[1..]);
      assert st.pending + data == p.pending + data[1..];
    }
  }

  /** Bytes that complete a block. */
  lemma FeedCompleting<S>(step: Step<S>, st: Stream<S>, data: seq<bv8>)
    requires data != [] && |st.pending| + |data| == BLOCK
    ensures Feed(step, false, st, data) == Process(step, st.(pending := st.pending + data))
  {
    var n := |data| - 1;
    FeedConcat(step, false, st, data[..n], data[n..]);
    FeedPartial(step, false, st, data[..n]);
    var p := st.(pending := st.pending + data[..n]);
    assert data == data[..n] + data[n..];
    assert p.pending + [data[n]] == st.pending + data;
    assert data[n..][1..] == [];
    assert Feed(step, false, p, data[n..]) == PushEager(step, p, data[n]);
  }

  /** A full block still pending is processed by the first byte that follows it. */
  lemma FeedAfterFull<S>(step: Step<S>, held: bool, st: Stream<S>, data: seq<bv8>)
    requires data != []
    ensures Feed(step, held, st, data) == Feed(step, held, Flush(step, st), data)
  {}

  /** The first full block of an eager stream with nothing pending. */
  lemma FeedBlockEager<S>(step: Step<S>, st: Stream<S>, block: seq<bv8>)
    requires st.pending == [] && |block| == BLOCK
    ensures Feed(step, false, st, block) == Process(step, st.(pending := block))
  {
    FeedCompleting(step, st, block);
    assert [] + block == block;
  }

  /** A full block after whole blocks of a held-back stream. */
  lemma FeedBlockHeld<S>(step: Step<S>, st: Stream<S>, block: seq<bv8>)
    requires |st.pending| == 0 || |st.pending| == BLOCK
    requires |block| == BLOCK
    ensures Feed(step, true, st, block) == Flush(step, st).(pending := block)
  {
    FeedAfterFull(step, true, st, block);
    FeedPartial(step, true, Flush(step, st), block);
    assert [] + block == block;
  }

  /** Whatever is taken in is pending or has been put out, a block for a block. */
  lemma {:induction false} FeedLength<S(!new)>(step: Step<S>, held: bool, st: Stream<S>, data: seq<bv8>)
    requires BlockSized(step) && |st.pending| <= BLOCK
    ensures
      var r := Feed(step, held, st, data);
      |r.out| + |r.pending| == |st.out| + |st.pending| + |data| && |r.pending| <= BLOCK
    decreases |data|
  {
    if data != [] {
      FeedLength(step, held, Push(step, held, st, data[0]), data[1..]);
    }
  }

  ghost predicate BlockSized<S(!new)>(step: Step<S>) {
    forall c: S, b: seq<bv8> | |b| == BLOCK :: |step(c, b).1| == BLOCK
  }

  // ---------- a step and its inverse ----------

  /** Decrypting what one encryption step put out gives the block back and leaves the chains equal. */
  ghost predicate Undoes<S(!new)>(enc: Step<S>, dec: Step<S>) {
    forall c: S, b: seq<bv8> | |b| == BLOCK ::
      var (c', o) := enc(c, b);
      |o| == BLOCK && dec(c, o) == (c', b)
  }

  /** Whole blocks fed to an eager encrypter, and its output to a decrypter that holds back the last
      block: flushing the decrypter gives the blocks. */
  lemma {:induction false} WholeBlocks<S(!new)>(enc: Step<S>, dec: Step<S>, chain: S, data: seq<bv8>)
    requires Undoes(enc, dec) && |data| % BLOCK == 0
    ensures
      var e := Feed(enc, false, Stream(chain, [], []), data);
      var d := Feed(dec, true, Stream(chain, [], []), e.out);
      && e.pending == [] && |e.out| == |data|
      && |d.pending| == (if data == [] then 0 else BLOCK)
      && Flush(dec, d) == Stream(e.chain, [], data)
    decreases |data|
  {
    if data != [] {
      var n := |data| - BLOCK;
      var start := Stream(chain, [], []);
      var front, block := data[..n], data[n..];
      WholeBlocks(enc, dec, chain, front);
      var e0 := Feed(enc, false, start, front);
      var d0 := Feed(dec, true, start, e0.out);
      assert data == front + block;
      FeedConcat(enc, false, start, front, block);
      FeedBlockEager(enc, e0, block);
      var (c', o) := enc(e0.chain, block);
      FeedConcat(dec, true, start, e0.out, o);
      FeedBlockHeld(dec, d0, o);
      assert dec(e0.chain, o) == (c', block);
    }
  }
}
