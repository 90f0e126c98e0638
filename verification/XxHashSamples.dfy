/** The bytes that xxhsum hashes to check itself: the highest byte of a number that is squared again and again. */
module XxHashSamples {

  const PRIME: bv32 := 2654435761

  function Square(x: bv32): bv32 { x * x }

  function Top(x: bv32): bv8 { (x >> 24) as bv8 }

  function Generated(number: bv32, n: nat): (s: seq<bv8>)
    ensures |s| == n
    decreases n
  {
    if n == 0 then [] else [Top(number)] + Generated(Square(number), n - 1)
  }

  function Zeros(n: nat): (s: seq<bv8>)
    ensures |s| == n
  {
    if n == 0 then [] else [0] + Zeros(n - 1)
  }

  /** The first 16 bytes. */
  const FIRST: seq<bv8> :=
    [0x9E, 0xFF, 0x1F, 0x4B, 0x5E, 0x53, 0x2F, 0xDD, 0xB5, 0x54, 0x4D, 0x2A, 0x95, 0x2B, 0x57, 0xAE]

  /** The next 12; those after them are 0. */
  const SECOND: seq<bv8> := [0x5D, 0xBA, 0x74, 0xE9, 0xD3, 0xA6, 0x4C, 0x98, 0x30, 0x60, 0xC0, 0x80]

  lemma {:induction false} GeneratedOnes(n: nat)
    ensures Generated(1, n) == Zeros(n)
  {
    if n > 0 {
      GeneratedOnes(n - 1);
    }
  }

  lemma {:induction false} GeneratedPrefix(number: bv32, n: nat, more: nat)
    ensures Generated(number, n + more)[..n] == Generated(number, n)
    decreases n
  {
    hide Square, Top;
    if n > 0 {
      GeneratedPrefix(Square(number), n - 1, more);
      assert Generated(number, n + more)[..n]
        == [Top(number)] + Generated(Square(number), n - 1 + more)[..n - 1];
    }
  }

  lemma Four(g0: bv32, g1: bv32, g2: bv32, g3: bv32, g4: bv32, n: nat)
    requires Square(g0) == g1 && Square(g1) == g2 && Square(g2) == g3 && Square(g3) == g4
    ensures Generated(g0, 4 + n) == [Top(g0), Top(g1), Top(g2), Top(g3)] + Generated(g4, n)
  {
    hide Square, Top;
    assert Generated(g0, 4 + n) == [Top(g0)] + Generated(g1, 3 + n);
    assert Generated(g1, 3 + n) == [Top(g1)] + Generated(g2, 2 + n);
    assert Generated(g2, 2 + n) == [Top(g2)] + Generated(g3, 1 + n);
    assert Generated(g3, 1 + n) == [Top(g3)] + Generated(g4, n);
  }

  lemma Generated0(n: nat)
    ensures Generated(2654435761, 4 + n) == [0x9E, 0xFF, 0x1F, 0x4B] + Generated(1586123521, n)
  {
    hide Generated;
    Four(2654435761, 4293315681, 527875265, 1259866497, 1586123521, n);
  }

  lemma Generated4(n: nat)
    ensures Generated(1586123521, 4 + n) == [0x5E, 0x53, 0x2F, 0xDD] + Generated(3051171841, n)
  {
    hide Generated;
    Four(1586123521, 1409132033, 798968833, 3721304065, 3051171841, n);
  }

  lemma Generated8(n: nat)
    ensures Generated(3051171841, 4 + n) == [0xB5, 0x54, 0x4D, 0x2A] + Generated(2513633281, n)
  {
    hide Generated;
    Four(3051171841, 1421500417, 1299496961, 719945729, 2513633281, n);
  }

  lemma Generated12(n: nat)
    ensures Generated(2513633281, 4 + n) == [0x95, 0x2B, 0x57, 0xAE] + Generated(1563426817, n)
  {
    hide Generated;
    Four(2513633281, 732299265, 1464598529, 2929197057, 1563426817, n);
  }

  lemma Generated16(n: nat)
    ensures Generated(1563426817, 4 + n) == [0x5D, 0xBA, 0x74, 0xE9] + Generated(3539992577, n)
  {
    hide Generated;
    Four(1563426817, 3126853633, 1958739969, 3917479937, 3539992577, n);
  }

  lemma Generated20(n: nat)
    ensures Generated(3539992577, 4 + n) == [0xD3, 0xA6, 0x4C, 0x98] + Generated(805306369, n)
  {
    hide Generated;
    Four(3539992577, 2785017857, 1275068417, 2550136833, 805306369, n);
  }

  lemma Generated24(n: nat)
    ensures Generated(805306369, 4 + n) == [0x30, 0x60, 0xC0, 0x80] + Generated(1, n)
  {
    hide Generated;
    Four(805306369, 1610612737, 3221225473, 2147483649, 1, n);
  }

  lemma GeneratedFirst(n: nat)
    ensures Generated(PRIME, 16 + n) == FIRST + Generated(1563426817, n)
  {
    hide Generated;
    Generated0(12 + n);
    Generated4(8 + n);
    Generated8(4 + n);
    Generated12(n);
  }

  lemma GeneratedSecond(n: nat)
    ensures Generated(1563426817, 12 + n) == SECOND + Zeros(n)
  {
    hide Generated, Zeros;
    Generated16(8 + n);
    Generated20(4 + n);
    Generated24(n);
    GeneratedOnes(n);
  }

  lemma {:induction false} MoreZeros(m: nat, n: nat)
    ensures Zeros(m + n) == Zeros(m) + Zeros(n)
  {
    if m > 0 {
      MoreZeros(m - 1, n);
    }
  }

  /** The bytes of a short sample. */
  lemma Brief(n: nat)
    requires n <= 16
    ensures Generated(PRIME, n) == FIRST[..n]
  {
    hide Generated;
    GeneratedPrefix(PRIME, n, 16 - n);
    GeneratedFirst(0);
    assert (FIRST + Generated(1563426817, 0))[..n] == FIRST[..n];
  }

  /** The bytes of a longer sample. */
  lemma Long(n: nat)
    ensures Generated(PRIME, 32 + n) == FIRST + (SECOND + Zeros(4) + Zeros(n))
  {
    hide Generated, Zeros;
    GeneratedFirst(16 + n);
    GeneratedSecond(4 + n);
    MoreZeros(4, n);
  }
}
