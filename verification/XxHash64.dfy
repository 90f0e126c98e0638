/** XXH64 of 3rd/xxHash: the one-shot function, the streaming state and the tail they share. */
module XxHash64 {
  import opened Stripes
  import XxHash32

  const PRIME1: bv64 := 11400714785074694791
  const PRIME2: bv64 := 14029467366897019727
  const PRIME3: bv64 := 1609587929392839161
  const PRIME4: bv64 := 9650029242287828579
  const PRIME5: bv64 := 2870177450012600261

  const STRIPE := 32
  const TWO64 := 0x1_0000_0000_0000_0000

  function Word64(n: nat): bv64
    requires n < TWO64
  {
    n as bv64
  }

  function Low64(n: nat): bv64 { Word64(n % TWO64) }

  function Read32(b: seq<bv8>): bv64
    requires |b| == 4
  {
    XxHash32.Read32(b) as bv64
  }

  function Join(low: bv32, high: bv32): bv64 { (low as bv64) | ((high as bv64) << 32) }

  function Read64(b: seq<bv8>): bv64
    requires |b| == 8
  {
    Join(XxHash32.Read32(b[..4]), XxHash32.Read32(b[4..]))
  }

  function Rotl(x: bv64, r: nat): bv64
    requires 0 < r < 64
  {
    (x << r) | (x >> (64 - r))
  }

  function Plus(x: bv64, y: bv64): bv64 { x + y }

  function Times(x: bv64, factor: bv64): bv64 { x * factor }

  function Xor(x: bv64, y: bv64): bv64 { x ^ y }

  function Round(acc: bv64, input: bv64): bv64 { Times(Rotl(Plus(acc, Times(input, PRIME2)), 31), PRIME1) }

  datatype Lanes = Lanes(v1: bv64, v2: bv64, v3: bv64, v4: bv64)

  function Start(seed: bv64): Lanes {
    Lanes(seed + PRIME1 + PRIME2, seed + PRIME2, seed + 0, seed - PRIME1)
  }

  function RoundAll(v: Lanes, stripe: seq<bv8>): Lanes {
    if |stripe| != STRIPE then v
    else Lanes(Round(v.v1, Read64(stripe[..8])), Round(v.v2, Read64(stripe[8..16])),
               Round(v.v3, Read64(stripe[16..24])), Round(v.v4, Read64(stripe[24..])))
  }

  function MergeRound(acc: bv64, val: bv64): bv64 { Plus(Times(Xor(acc, Round(0, val)), PRIME1), PRIME4) }

  function Rotations(v: Lanes): bv64 {
    Plus(Plus(Plus(Rotl(v.v1, 1), Rotl(v.v2, 7)), Rotl(v.v3, 12)), Rotl(v.v4, 18))
  }

  function Merge(v: Lanes): bv64 {
    MergeRound(MergeRound(MergeRound(MergeRound(Rotations(v), v.v1), v.v2), v.v3), v.v4)
  }

  function Fold29(h: bv64): bv64 { h ^ (h >> 29) }

  function Fold32(h: bv64): bv64 { h ^ (h >> 32) }

  function Fold33(h: bv64): bv64 { h ^ (h >> 33) }

  function Avalanche(h: bv64): bv64 { Fold32(Times(Fold29(Times(Fold33(h), PRIME2)), PRIME3)) }

  // ---------- the tail ----------

  function Wide(b: bv8): bv64 { b as bv64 }

  function Process1(h: bv64, b: bv8): bv64 { Times(Rotl(Xor(h, Times(Wide(b), PRIME5)), 11), PRIME1) }

  function Process4(h: bv64, b: seq<bv8>): bv64
    requires |b| == 4
  {
    Plus(Times(Rotl(Xor(h, Times(Read32(b), PRIME1)), 23), PRIME2), PRIME3)
  }

  function Process8(h: bv64, b: seq<bv8>): bv64
    requires |b| == 8
  {
    Plus(Times(Rotl(Xor(h, Round(0, Read64(b))), 27), PRIME1), PRIME4)
  }

  /** Double words while there are any, then a word, then bytes. */
  function Tail(h: bv64, p: seq<bv8>): bv64
    decreases |p|
  {
    if |p| >= 8 then Tail(Process8(h, p[..8]), p[8..])
    else if |p| >= 4 then Tail(Process4(h, p[..4]), p[4..])
    else if |p| > 0 then Tail(Process1(h, p[0]), p[1..])
    else h
  }

  function Short(seed: bv64): bv64 { seed + PRIME5 }

  function AddLength(h: bv64, len: bv64): bv64 { Plus(h, len) }

  /** The whole stripes. */
  function Head(data: seq<bv8>, seed: bv64): bv64 {
    if |data| >= STRIPE then Merge(Consume(RoundAll, STRIPE, Start(seed), data)) else Short(seed)
  }

  /** The hash of a byte string: whole stripes, the length, the tail. */
  function XXH64(data: seq<bv8>, seed: bv64): bv64 {
    Avalanche(Tail(AddLength(Head(data, seed), Low64(|data|)), Rest(STRIPE, data)))
  }

  method TakeLong(h: bv64, p: seq<bv8>) returns (h': bv64, p': seq<bv8>)
    requires |p| >= 8
    ensures p' == p[8..] && Tail(h', p') == Tail(h, p)
  {
    hide Process8;
    h', p' := Process8(h, p[..8]), p[8..];
  }

  method TakeWord(h: bv64, p: seq<bv8>) returns (h': bv64, p': seq<bv8>)
    requires 4 <= |p| < 8
    ensures p' == p[4..] && Tail(h', p') == Tail(h, p)
  {
    hide Process4;
    h', p' := Process4(h, p[..4]), p[4..];
  }

  method TakeByte(h: bv64, p: seq<bv8>) returns (h': bv64, p': seq<bv8>)
    requires 0 < |p| < 4
    ensures p' == p[1..] && Tail(h', p') == Tail(h, p)
  {
    hide Process1;
    h', p' := Process1(h, p[0]), p[1..];
  }

  lemma TailEnd(h: bv64, p: seq<bv8>)
    requires p == []
    ensures Tail(h, p) == h
  {}

  /** The switch of XXH64_finalize: a statement is reached from its own label and, by falling through,
      from those above it in the same group. */
  method Finalize(h64: bv64, ptr: seq<bv8>, len: nat) returns (r: bv64)
    requires |ptr| >= len % 32
    ensures r == Avalanche(Tail(h64, ptr[..len % 32]))
  {
    hide Avalanche, Tail, Process1, Process4, Process8;
    var k := len % 32;
    var h, p := h64, ptr[..k];
    if k in {24, 16, 8} {
      if k in {24} { h, p := TakeLong(h, p); }
      if k in {24, 16} { h, p := TakeLong(h, p); }
      if k in {24, 16, 8} { h, p := TakeLong(h, p); }
      TailEnd(h, p);
      return Avalanche(h);
    } else if k in {28, 20, 12, 4} {
      if k in {28} { h, p := TakeLong(h, p); }
      if k in {28, 20} { h, p := TakeLong(h, p); }
      if k in {28, 20, 12} { h, p := TakeLong(h, p); }
      h, p := TakeWord(h, p);
      TailEnd(h, p);
      return Avalanche(h);
    } else if k in {25, 17, 9} {
      if k in {25} { h, p := TakeLong(h, p); }
      if k in {25, 17} { h, p := TakeLong(h, p); }
      if k in {25, 17, 9} { h, p := TakeLong(h, p); }
      h, p := TakeByte(h, p);
      TailEnd(h, p);
      return Avalanche(h);
    } else if k in {29, 21, 13, 5} {
      if k in {29} { h, p := TakeLong(h, p); }
      if k in {29, 21} { h, p := TakeLong(h, p); }
      if k in {29, 21, 13} { h, p := TakeLong(h, p); }
      h, p := TakeWord(h, p);
      h, p := TakeByte(h, p);
      TailEnd(h, p);
      return Avalanche(h);
    } else if k in {26, 18, 10} {
      if k in {26} { h, p := TakeLong(h, p); }
      if k in {26, 18} { h, p := TakeLong(h, p); }
      if k in {26, 18, 10} { h, p := TakeLong(h, p); }
      h, p := TakeByte(h, p);
      h, p := TakeByte(h, p);
      TailEnd(h, p);
      return Avalanche(h);
    } else if k in {30, 22, 14, 6} {
      if k in {30} { h, p := TakeLong(h, p); }
      if k in {30, 22} { h, p := TakeLong(h, p); }
      if k in {30, 22, 14} { h, p := TakeLong(h, p); }
      h, p := TakeWord(h, p);
      h, p := TakeByte(h, p);
      h, p := TakeByte(h, p);
      TailEnd(h, p);
      return Avalanche(h);
    } else if k in {27, 19, 11} {
      if k in {27} { h, p := TakeLong(h, p); }
      if k in {27, 19} { h, p := TakeLong(h, p); }
      if k in {27, 19, 11} { h, p := TakeLong(h, p); }
      h, p := TakeByte(h, p);
      h, p := TakeByte(h, p);
      h, p := TakeByte(h, p);
      TailEnd(h, p);
      return Avalanche(h);
    } else {
      if k in {31} { h, p := TakeLong(h, p); }
      if k in {31, 23} { h, p := TakeLong(h, p); }
      if k in {31, 23, 15} { h, p := TakeLong(h, p); }
      if k in {31, 23, 15, 7} { h, p := TakeWord(h, p); }
      if k in {31, 23, 15, 7, 3} { h, p := TakeByte(h, p); }
      if k in {31, 23, 15, 7, 3, 2} { h, p := TakeByte(h, p); }
      if k in {31, 23, 15, 7, 3, 2, 1} { h, p := TakeByte(h, p); }
      TailEnd(h, p);
      return Avalanche(h);
    }
  }

  // ---------- one shot ----------

  /** XXH64_endian_align. */
  method Hash(input: seq<bv8>, seed: bv64) returns (r: bv64)
    ensures r == XXH64(input, seed)
  {
    hide RoundAll, Merge, Start, Tail, Avalanche, AddLength, Short, Consume;
    var p, h64 := 0, 0;
    if |input| >= STRIPE {
      var v;
      assert input[p..] == input;
      v, p := Absorb(RoundAll, STRIPE, Start(seed), input, p);
      h64 := Merge(v);
    } else {
      h64 := Short(seed);
    }
    RestLength(input);
    assert input[p..] == Rest(STRIPE, input);
    assert input[p..][..|input| % 32] == input[p..];
    r := Finalize(AddLength(h64, Low64(|input|)), input[p..], |input| % 32);
  }

  lemma RestLength(data: seq<bv8>)
    ensures |Rest(STRIPE, data)| == |data| % STRIPE
    decreases |data|
  {}

  // ---------- segments ----------

  /** XXH64_state_t. The fields fed and seed only record what the state stands for. */
  class State {
    var totalLen: nat
    var v: Lanes
    const mem: array<bv8>
    var memsize: nat
    ghost var fed: seq<bv8>
    ghost var seed: bv64

    ghost predicate Valid()
      reads this, mem
    {
      && mem.Length == STRIPE && memsize < STRIPE
      && v == Consume(RoundAll, STRIPE, Start(seed), fed)
      && mem[..memsize] == Rest(STRIPE, fed)
      && totalLen == |fed| % TWO64 && memsize == totalLen % 32
    }

    /** XXH64_reset. */
    constructor (seed: bv64)
      ensures Valid() && fed == [] && this.seed == seed && fresh(mem)
    {
      totalLen, memsize := 0, 0;
      v := Start(seed);
      mem := new bv8[STRIPE](_ => 0);
      fed, this.seed := [], seed;
    }

    /** XXH64_update. */
    method Update(input: seq<bv8>)
      requires Valid()
      modifies this, mem
      ensures Valid() && fed == old(fed) + input && seed == old(seed)
    {
      hide RoundAll, Start, Consume, Rest;
      ConsumeMore(RoundAll, STRIPE, Start(seed), fed, input);
      CountMore(|fed|, |input|);
      totalLen := (totalLen + |input|) % TWO64;
      fed := fed + input;
      RestLength(fed);
      v, memsize := AbsorbSegment(RoundAll, STRIPE, v, mem, memsize, input);
    }

    /** XXH64_digest: the hash as long as the length does not wrap around to less than a stripe. */
    method Digest() returns (r: bv64)
      requires Valid()
      ensures |fed| < TWO64 || |fed| % TWO64 >= STRIPE ==> r == XXH64(fed, seed)
    {
      hide RoundAll, Merge, Tail, Avalanche, Rest, AddLength, Low64;
      var h64 := if totalLen >= STRIPE then Merge(v) else Short(v.v3);
      SameLow(|fed|);
      h64 := AddLength(h64, Low64(totalLen));
      assert mem[..][..memsize] == mem[..memsize];
      r := Finalize(h64, mem[..], totalLen);
    }
  }

  lemma CountMore(n: nat, more: nat)
    ensures (n % TWO64 + more) % TWO64 == (n + more) % TWO64
    ensures (n + more) % TWO64 % STRIPE == (n + more) % STRIPE
  {}

  lemma SameLow(n: nat)
    ensures Low64(n % TWO64) == Low64(n)
  {}

  /** Reset, updates with the segments in order, digest. */
  method HashSegments(segments: seq<seq<bv8>>, seed: bv64) returns (r: bv64)
    requires |Joined(segments)| < TWO64
    ensures r == XXH64(Joined(segments), seed)
  {
    var state := new State(seed);
    for i := 0 to |segments|
      invariant state.Valid() && fresh(state) && fresh(state.mem) && state.seed == seed
      invariant state.fed == Joined(segments[..i])
    {
      assert segments[..i + 1][..i] == segments[..i];
      state.Update(segments[i]);
    }
    assert segments[..|segments|] == segments;
    r := state.Digest();
  }
}
