/** XXH32 of 3rd/xxHash: the one-shot function, the streaming state and the tail they share. */
module XxHash32 {
  import opened Stripes

  const PRIME1: bv32 := 2654435761
  const PRIME2: bv32 := 2246822519
  const PRIME3: bv32 := 3266489917
  const PRIME4: bv32 := 668265263
  const PRIME5: bv32 := 374761393

  const STRIPE := 16
  const TWO32 := 0x1_0000_0000

  function Word32(n: nat): bv32
    requires n < TWO32
  {
    n as bv32
  }

  function Low32(n: nat): bv32 { Word32(n % TWO32) }

  function Read32(b: seq<bv8>): bv32
    requires |b| == 4
  {
    (b[0] as bv32) | ((b[1] as bv32) << 8) | ((b[2] as bv32) << 16) | ((b[3] as bv32) << 24)
  }

  function Rotl(x: bv32, r: nat): bv32
    requires 0 < r < 32
  {
    (x << r) | (x >> (32 - r))
  }

  function Plus(x: bv32, y: bv32): bv32 { x + y }

  function Times(x: bv32, factor: bv32): bv32 { x * factor }

  function Round(acc: bv32, input: bv32): bv32 { Times(Rotl(Plus(acc, Times(input, PRIME2)), 13), PRIME1) }

  datatype Lanes = Lanes(v1: bv32, v2: bv32, v3: bv32, v4: bv32)

  function Start(seed: bv32): Lanes {
    Lanes(seed + PRIME1 + PRIME2, seed + PRIME2, seed + 0, seed - PRIME1)
  }

  function RoundAll(v: Lanes, stripe: seq<bv8>): Lanes {
    if |stripe| != STRIPE then v
    else Lanes(Round(v.v1, Read32(stripe[..4])), Round(v.v2, Read32(stripe[4..8])),
               Round(v.v3, Read32(stripe[8..12])), Round(v.v4, Read32(stripe[12..])))
  }

  function Merge(v: Lanes): bv32 {
    Plus(Plus(Plus(Rotl(v.v1, 1), Rotl(v.v2, 7)), Rotl(v.v3, 12)), Rotl(v.v4, 18))
  }

  function Fold13(h: bv32): bv32 { h ^ (h >> 13) }

  function Fold15(h: bv32): bv32 { h ^ (h >> 15) }

  function Fold16(h: bv32): bv32 { h ^ (h >> 16) }

  function Avalanche(h: bv32): bv32 { Fold16(Times(Fold13(Times(Fold15(h), PRIME2)), PRIME3)) }

  // ---------- the tail ----------

  function Wide(b: bv8): bv32 { b as bv32 }

  function Process1(h: bv32, b: bv8): bv32 { Times(Rotl(Plus(h, Times(Wide(b), PRIME5)), 11), PRIME1) }

  function Process4(h: bv32, b: seq<bv8>): bv32
    requires |b| == 4
  {
    Times(Rotl(Plus(h, Times(Read32(b), PRIME3)), 17), PRIME4)
  }

  /** Words while there are any, then bytes. */
  function Tail(h: bv32, p: seq<bv8>): bv32
    decreases |p|
  {
    if |p| >= 4 then Tail(Process4(h, p[..4]), p[4..])
    else if |p| > 0 then Tail(Process1(h, p[0]), p[1..])
    else h
  }

  function Short(seed: bv32): bv32 { seed + PRIME5 }

  function AddLength(h: bv32, len: bv32): bv32 { Plus(h, len) }

  /** The whole stripes. */
  function Head(data: seq<bv8>, seed: bv32): bv32 {
    if |data| >= STRIPE then Merge(Consume(RoundAll, STRIPE, Start(seed), data)) else Short(seed)
  }

  /** The hash of a byte string: whole stripes, the length, the tail. */
  function XXH32(data: seq<bv8>, seed: bv32): bv32 {
    Avalanche(Tail(AddLength(Head(data, seed), Low32(|data|)), Rest(STRIPE, data)))
  }

  method TakeWord(h: bv32, p: seq<bv8>) returns (h': bv32, p': seq<bv8>)
    requires |p| >= 4
    ensures p' == p[4..] && Tail(h', p') == Tail(h, p)
  {
    hide Process4;
    h', p' := Process4(h, p[..4]), p[4..];
  }

  method TakeByte(h: bv32, p: seq<bv8>) returns (h': bv32, p': seq<bv8>)
    requires 0 < |p| < 4
    ensures p' == p[1..] && Tail(h', p') == Tail(h, p)
  {
    hide Process1;
    h', p' := Process1(h, p[0]), p[1..];
  }

  lemma TailEnd(h: bv32, p: seq<bv8>)
    requires p == []
    ensures Tail(h, p) == h
  {}

  /** The switch of XXH32_finalize: a statement is reached from its own label and, by falling through,
      from those above it in the same group. */
  method Finalize(h32: bv32, ptr: seq<bv8>, len: nat) returns (r: bv32)
    requires |ptr| >= len % 16
    ensures r == Avalanche(Tail(h32, ptr[..len % 16]))
  {
    hide Avalanche, Tail, Process1, Process4;
    var k := len % 16;
    var h, p := h32, ptr[..k];
    if k in {12, 8, 4} {
      if k in {12} { h, p := TakeWord(h, p); }
      if k in {12, 8} { h, p := TakeWord(h, p); }
      h, p := TakeWord(h, p);
      TailEnd(h, p);
      return Avalanche(h);
    } else if k in {13, 9, 5} {
      if k in {13} { h, p := TakeWord(h, p); }
      if k in {13, 9} { h, p := TakeWord(h, p); }
      h, p := TakeWord(h, p);
      h, p := TakeByte(h, p);
      TailEnd(h, p);
      return Avalanche(h);
    } else if k in {14, 10, 6} {
      if k in {14} { h, p := TakeWord(h, p); }
      if k in {14, 10} { h, p := TakeWord(h, p); }
      h, p := TakeWord(h, p);
      h, p := TakeByte(h, p);
      h, p := TakeByte(h, p);
      TailEnd(h, p);
      return Avalanche(h);
    } else {
      if k in {15} { h, p := TakeWord(h, p); }
      if k in {15, 11} { h, p := TakeWord(h, p); }
      if k in {15, 11, 7} { h, p := TakeWord(h, p); }
      if k in {15, 11, 7, 3} { h, p := TakeByte(h, p); }
      if k in {15, 11, 7, 3, 2} { h, p := TakeByte(h, p); }
      if k in {15, 11, 7, 3, 2, 1} { h, p := TakeByte(h, p); }
      TailEnd(h, p);
      return Avalanche(h);
    }
  }

  // ---------- one shot ----------

  /** XXH32_endian_align. */
  method Hash(input: seq<bv8>, seed: bv32) returns (r: bv32)
    ensures r == XXH32(input, seed)
  {
    hide RoundAll, Merge, Start, Tail, Avalanche, AddLength, Short, Consume;
    var p, h32 := 0, 0;
    if |input| >= STRIPE {
      var v;
      assert input[p..] == input;
      v, p := Absorb(RoundAll, STRIPE, Start(seed), input, p);
      h32 := Merge(v);
    } else {
      h32 := Short(seed);
    }
    RestLength(input);
    assert input[p..] == Rest(STRIPE, input);
    assert input[p..][..|input| % 16] == input[p..];
    r := Finalize(AddLength(h32, Low32(|input|)), input[p..], |input| % 16);
  }

  lemma RestLength(data: seq<bv8>)
    ensures |Rest(STRIPE, data)| == |data| % STRIPE
    decreases |data|
  {}

  // ---------- segments ----------

  /** XXH32_state_t. The fields fed and seed only record what the state stands for. */
  class State {
    var totalLen32: nat
    var largeLen: bool
    var v: Lanes
    const mem: array<bv8>
    var memsize: nat
    ghost var fed: seq<bv8>
    ghost var seed: bv32

    ghost predicate Valid()
      reads this, mem
    {
      && mem.Length == STRIPE && memsize < STRIPE
      && v == Consume(RoundAll, STRIPE, Start(seed), fed)
      && mem[..memsize] == Rest(STRIPE, fed)
      && totalLen32 == |fed| % TWO32
      && (largeLen <==> |fed| >= STRIPE)
    }

    /** XXH32_reset. */
    constructor (seed: bv32)
      ensures Valid() && fed == [] && this.seed == seed && fresh(mem)
    {
      totalLen32, largeLen, memsize := 0, false, 0;
      v := Start(seed);
      mem := new bv8[STRIPE](_ => 0);
      fed, this.seed := [], seed;
    }

    /** XXH32_update. */
    method Update(input: seq<bv8>)
      requires Valid()
      modifies this, mem
      ensures Valid() && fed == old(fed) + input && seed == old(seed)
    {
      hide RoundAll, Start, Consume, Rest;
      ConsumeMore(RoundAll, STRIPE, Start(seed), fed, input);
      CountMore(|fed|, |input|);
      totalLen32 := (totalLen32 + |input|) % TWO32;
      largeLen := largeLen || |input| >= STRIPE || totalLen32 >= STRIPE;
      fed := fed + input;
      v, memsize := AbsorbSegment(RoundAll, STRIPE, v, mem, memsize, input);
    }

    /** XXH32_digest: large_len stays set when the 32-bit length wraps around. */
    method Digest() returns (r: bv32)
      requires Valid()
      ensures r == XXH32(fed, seed)
    {
      hide RoundAll, Merge, Tail, Avalanche, Rest, AddLength, Low32;
      var h32 := if largeLen then Merge(v) else Short(v.v3);
      SameLow(|fed|);
      h32 := AddLength(h32, Low32(totalLen32));
      assert mem[..][..memsize % 16] == mem[..memsize];
      r := Finalize(h32, mem[..], memsize);
    }
  }

  /** The length modulo 2^32 alone tells whether a first stripe has just been completed. */
  lemma CountMore(n: nat, more: nat)
    ensures (n % TWO32 + more) % TWO32 == (n + more) % TWO32
    ensures n + more >= STRIPE <==> n >= STRIPE || more >= STRIPE || (n + more) % TWO32 >= STRIPE
  {}

  lemma SameLow(n: nat)
    ensures Low32(n % TWO32) == Low32(n)
  {}

  /** Reset, updates with the segments in order, digest. */
  method HashSegments(segments: seq<seq<bv8>>, seed: bv32) returns (r: bv32)
    ensures r == XXH32(Joined(segments), seed)
  {
    var state := new State(seed);
    for i := 0 to |segments|
      invariant state.Valid() && fresh(state) && fresh(state.mem) && state.seed == seed
      invariant state.fed == Joined(segments[..i])
    {
      assert segments[..i + 1][..i] == segments[..i];
      state.Update(segments[i]);
    }
    assert segments[..|segments|] == segments;
    r := state.Digest();
  }
}
