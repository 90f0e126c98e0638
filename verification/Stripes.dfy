/** Folding a byte string stripe by stripe, in one go or in segments. A is the type of the accumulators. */
module Stripes {

  /** The bytes of a list of segments. */
  function Joined(segments: seq<seq<bv8>>): seq<bv8> {
    if segments == [] then [] else Joined(segments[..|segments| - 1]) + segments[|segments| - 1]
  }

  /** The accumulators after all whole stripes of w bytes. */
  function Consume<A>(f: (A, seq<bv8>) -> A, w: nat, acc: A, data: seq<bv8>): A
    requires w > 0
    decreases |data|
  {
    if |data| < w then acc else Consume(f, w, f(acc, data[..w]), data[w..])
  }

  /** The bytes after the last whole stripe. */
  function Rest(w: nat, data: seq<bv8>): (r: seq<bv8>)
    requires w > 0
    ensures |r| < w
    decreases |data|
  {
    if |data| < w then data else Rest(w, data[w..])
  }

  /** Segments: what is left of the bytes so far is put in front of the next ones. */
  lemma {:induction false} ConsumeMore<A>(f: (A, seq<bv8>) -> A, w: nat, acc: A, data: seq<bv8>, more: seq<bv8>)
    requires w > 0
    ensures Consume(f, w, acc, data + more) == Consume(f, w, Consume(f, w, acc, data), Rest(w, data) + more)
    ensures Rest(w, data + more) == Rest(w, Rest(w, data) + more)
    decreases |data|
  {
    if |data| >= w {
      assert (data + more)[..w] == data[..w] && (data + more)[w..] == data[w..] + more;
      ConsumeMore(f, w, f(acc, data[..w]), data[w..], more);
    }
  }

  /** Two inputs of the same length that differ in the n bytes from p on, and nowhere else. */
  predicate DifferAt(a: seq<bv8>, b: seq<bv8>, p: nat, n: nat) {
    && |a| == |b| && p + n <= |a|
    && a[..p] == b[..p] && a[p..p + n] != b[p..p + n] && a[p + n..] == b[p + n..]
  }

  lemma DifferBetween(front: seq<bv8>, x: seq<bv8>, y: seq<bv8>, back: seq<bv8>)
    requires |x| == |y| && x != y
    ensures DifferAt(front + x + back, front + y + back, |front|, |x|)
  {
    var a, b, p, k := front + x + back, front + y + back, |front|, |front| + |x|;
    assert a[..p] == front && b[..p] == front;
    assert a[p..k] == x && b[p..k] == y;
    assert a[k..] == back && b[k..] == back;
  }

  lemma DifferAfter(a: seq<bv8>, b: seq<bv8>, p: nat, n: nat, from: nat)
    requires DifferAt(a, b, p, n) && from <= p
    ensures DifferAt(a[from..], b[from..], p - from, n) && a[..from] == b[..from]
  {
    var k := p - from;
    assert a[from..][..k] == a[..p][from..] && b[from..][..k] == b[..p][from..];
    assert a[from..][k..k + n] == a[p..p + n] && b[from..][k..k + n] == b[p..p + n];
    assert a[from..][k + n..] == a[p + n..] && b[from..][k + n..] == b[p + n..];
    assert a[..from] == a[..p][..from] && b[..from] == b[..p][..from];
  }

  lemma DifferBefore(a: seq<bv8>, b: seq<bv8>, p: nat, n: nat, to: nat)
    requires DifferAt(a, b, p, n) && p + n <= to <= |a|
    ensures DifferAt(a[..to], b[..to], p, n) && a[to..] == b[to..]
  {
    var k := p + n;
    assert a[..to][..p] == a[..p] && b[..to][..p] == b[..p];
    assert a[..to][p..k] == a[p..k] && b[..to][p..k] == b[p..k];
    assert a[..to][k..] == a[k..][..to - k] && b[..to][k..] == b[k..][..to - k];
    assert a[to..] == a[k..][to - k..] && b[to..] == b[k..][to - k..];
  }

  lemma DifferIn(a: seq<bv8>, b: seq<bv8>, p: nat, n: nat, from: nat, to: nat)
    requires DifferAt(a, b, p, n) && from <= p && p + n <= to <= |a|
    ensures DifferAt(a[from..to], b[from..to], p - from, n)
    ensures a[..from] == b[..from] && a[to..] == b[to..]
  {
    hide DifferAt;
    assert |a| == |b| by { InRange(a, b, p, n); }
    DifferAfter(a, b, p, n, from);
    DifferBefore(a, b, p, n, to);
    DifferAfter(a[..to], b[..to], p, n, from);
    assert a[..to][from..] == a[from..to] && b[..to][from..] == b[from..to];
  }

  lemma PartKept(a: seq<bv8>, b: seq<bv8>, p: nat, n: nat, at: nat, k: nat)
    requires DifferAt(a, b, p, n) && at + k <= |a| && (at + k <= p || p + n <= at)
    ensures a[at..at + k] == b[at..at + k]
  {
    if at + k <= p {
      assert a[at..at + k] == a[..p][at..at + k];
      assert b[at..at + k] == b[..p][at..at + k];
    } else {
      var i := at - (p + n);
      assert a[at..at + k] == a[p + n..][i..i + k];
      assert b[at..at + k] == b[p + n..][i..i + k];
    }
  }

  /** Of the parts of n bytes that do not straddle, only the one at p differs. */
  lemma PartDiffers(a: seq<bv8>, b: seq<bv8>, p: nat, n: nat, at: nat)
    requires DifferAt(a, b, p, n) && at + n <= |a| && (at == p || at + n <= p || p + n <= at)
    ensures a[at..at + n] == b[at..at + n] <==> at != p
  {
    if at != p {
      PartKept(a, b, p, n, at, n);
    }
  }

  lemma InRange(a: seq<bv8>, b: seq<bv8>, p: nat, n: nat)
    requires DifferAt(a, b, p, n)
    ensures |a| == |b| && 0 < n && p + n <= |a|
  {}

  /** How many bytes the whole stripes of n bytes have. */
  function Whole(w: nat, n: nat): (m: nat)
    requires w > 0
    ensures m <= n < m + w
  {
    if n < w then 0 else w + Whole(w, n - w)
  }

  /** Only the whole stripes count for the accumulators, and the rest is what follows them. */
  lemma {:induction false} ConsumeWhole<A>(f: (A, seq<bv8>) -> A, w: nat, acc: A, a: seq<bv8>, b: seq<bv8>)
    requires w > 0 && |a| == |b| && a[..Whole(w, |a|)] == b[..Whole(w, |a|)]
    ensures Consume(f, w, acc, a) == Consume(f, w, acc, b)
    ensures Rest(w, a) == a[Whole(w, |a|)..]
    decreases |a|
  {
    if |a| >= w {
      var m := Whole(w, |a|);
      assert a[..w] == a[..m][..w] == b[..w];
      assert a[w..][..m - w] == a[..m][w..] == b[w..][..m - w];
      ConsumeWhole(f, w, f(acc, a[..w]), a[w..], b[w..]);
    }
  }

  /** Every stripe keeps the relation r between two accumulators. */
  ghost predicate Keeps<A(!new)>(f: (A, seq<bv8>) -> A, w: nat, r: (A, A) -> bool) {
    forall x, y, s | |s| == w && r(x, y) :: r(f(x, s), f(y, s))
  }

  /** The stripes s and t make equal accumulators related. */
  ghost predicate Splits<A(!new)>(f: (A, seq<bv8>) -> A, r: (A, A) -> bool, s: seq<bv8>, t: seq<bv8>) {
    forall x :: r(f(x, s), f(x, t))
  }

  lemma {:induction false} ConsumeKeeps<A(!new)>(
      f: (A, seq<bv8>) -> A, w: nat, r: (A, A) -> bool, x: A, y: A, data: seq<bv8>)
    requires w > 0 && Keeps(f, w, r) && r(x, y)
    ensures r(Consume(f, w, x, data), Consume(f, w, y, data))
    decreases |data|
  {
    if |data| >= w {
      ConsumeKeeps(f, w, r, f(x, data[..w]), f(y, data[..w]), data[w..]);
    }
  }

  lemma StripeBefore(w: nat, a: seq<bv8>, b: seq<bv8>, p: nat)
    requires 0 < w <= p && |a| == |b| && p + w <= |a|
    requires a[..p] == b[..p] && a[p + w..] == b[p + w..]
    ensures a[..w] == b[..w] && a[w..][..p - w] == b[w..][..p - w] && a[w..][p..] == b[w..][p..]
    ensures a[w..][p - w..p] == a[p..p + w] && b[w..][p - w..p] == b[p..p + w]
  {
    assert a[..w] == a[..p][..w] == b[..w];
    assert a[w..][..p - w] == a[..p][w..] == b[w..][..p - w];
    assert a[w..][p..] == a[p + w..] && b[w..][p..] == b[p + w..];
  }

  /** Inputs that differ in one stripe alone, which makes the accumulators related. */
  lemma {:induction false} ConsumeOneStripe<A(!new)>(
      f: (A, seq<bv8>) -> A, w: nat, r: (A, A) -> bool, acc: A, a: seq<bv8>, b: seq<bv8>, p: nat)
    requires w > 0 && Keeps(f, w, r)
    requires |a| == |b| && p == Whole(w, p) && p + w <= |a|
    requires a[..p] == b[..p] && a[p + w..] == b[p + w..]
    requires Splits(f, r, a[p..p + w], b[p..p + w])
    ensures r(Consume(f, w, acc, a), Consume(f, w, acc, b)) && Rest(w, a) == Rest(w, b)
    decreases |a|
  {
    hide Keeps;
    if p == 0 {
      assert a[p..p + w] == a[..w] && b[p..p + w] == b[..w];
      assert r(f(acc, a[..w]), f(acc, b[..w]));
      ConsumeKeeps(f, w, r, f(acc, a[..w]), f(acc, b[..w]), a[w..]);
    } else {
      hide Splits;
      StripeBefore(w, a, b, p);
      ConsumeOneStripe(f, w, r, f(acc, a[..w]), a[w..], b[w..], p - w);
    }
  }

  /** The first stripe. */
  lemma ConsumeFirst<A>(f: (A, seq<bv8>) -> A, w: nat, acc: A, stripe: seq<bv8>, data: seq<bv8>)
    requires 0 < w == |stripe|
    ensures Consume(f, w, acc, stripe + data) == Consume(f, w, f(acc, stripe), data)
    ensures Rest(w, stripe + data) == Rest(w, data)
  {}

  lemma NextStripe<A>(f: (A, seq<bv8>) -> A, w: nat, v: A, input: seq<bv8>, p: nat)
    requires w > 0 && p + w <= |input|
    ensures Consume(f, w, v, input[p..]) == Consume(f, w, f(v, input[p..p + w]), input[p + w..])
    ensures Rest(w, input[p..]) == Rest(w, input[p + w..])
  {
    assert input[p..][..w] == input[p..p + w] && input[p..][w..] == input[p + w..];
  }

  lemma NoStripe<A>(f: (A, seq<bv8>) -> A, w: nat, v: A, data: seq<bv8>)
    requires |data| < w
    ensures Consume(f, w, v, data) == v && Rest(w, data) == data
  {}

  /** The stripe loop, from position start on. */
  method Absorb<A>(f: (A, seq<bv8>) -> A, w: nat, acc: A, input: seq<bv8>, start: nat) returns (v: A, p: nat)
    requires w > 0 && start <= |input|
    ensures start <= p <= |input| && input[p..] == Rest(w, input[start..])
    ensures v == Consume(f, w, acc, input[start..])
  {
    hide Consume, Rest;
    v, p := acc, start;
    while p + w <= |input|
      invariant start <= p <= |input|
      invariant Consume(f, w, acc, input[start..]) == Consume(f, w, v, input[p..])
      invariant Rest(w, input[start..]) == Rest(w, input[p..])
    {
      NextStripe(f, w, v, input, p);
      v := f(v, input[p..p + w]);
      p := p + w;
    }
    NoStripe(f, w, v, input[p..]);
  }

  /** Copy bytes into a buffer. */
  method Fill(mem: array<bv8>, at: nat, bytes: seq<bv8>)
    requires at + |bytes| <= mem.Length
    modifies mem
    ensures mem[..at + |bytes|] == old(mem[..at]) + bytes
  {
    forall i | 0 <= i < |bytes| {
      mem[at + i] := bytes[i];
    }
    assert mem[..at] == old(mem[..at]);
  }

  /** The body shared by XXH32_update and XXH64_update: the buffer holds the bytes of an incomplete
      stripe; the segment completes it, then goes through the stripe loop, and its last bytes are kept. */
  method AbsorbSegment<A>(f: (A, seq<bv8>) -> A, w: nat, acc: A, mem: array<bv8>, size: nat, input: seq<bv8>)
      returns (v: A, memsize: nat)
    requires mem.Length == w && size < w
    modifies mem
    ensures memsize < w && mem[..memsize] == Rest(w, old(mem[..size]) + input)
    ensures v == Consume(f, w, acc, old(mem[..size]) + input)
  {
    hide Consume, Rest;
    ghost var all := mem[..size] + input;
    v, memsize := acc, size;
    if memsize + |input| < w {
      Fill(mem, memsize, input);
      memsize := memsize + |input|;
      NoStripe(f, w, v, all);
      return;
    }
    var p := 0;
    if memsize > 0 {
      p := w - memsize;
      Fill(mem, memsize, input[..p]);
      ConsumeFirst(f, w, v, mem[..], input[p..]);
      assert mem[..w] == mem[..];
      assert mem[..] + input[p..] == all;
      v := f(v, mem[..]);
      memsize := 0;
    } else {
      assert input[p..] == all;
    }
    v, p := Absorb(f, w, v, input, p);
    if p < |input| {
      Fill(mem, 0, input[p..]);
      memsize := |input| - p;
    }
  }
}
