/** Tables of words indexed by a byte, filled one entry at a time. The entries are given by arbitrary
    functions of the byte. */
module ByteTables {

  function ByteOf(i: nat): bv8
    requires i < 256
  {
    i as bv8
  }

  function NumberOf(b: bv8): (i: nat)
    ensures i < 256
  {
    b as int
  }

  lemma ByteOfNumber(b: bv8)
    ensures ByteOf(NumberOf(b)) == b
  {}

  lemma NumberOfByte(i: nat)
    requires i < 256
    ensures NumberOf(ByteOf(i)) == i
  {
    CastsAgree(i);
  }

  lemma CastsAgree(n: int)
    requires 0 <= n < 256
    ensures (n as bv8) as int == n
  {
    var b := n as bv8;
    if b as int < n {
    } else if b as int > n {
    }
  }

  lemma SameNumber(a: bv8, b: bv8)
    requires NumberOf(a) == NumberOf(b)
    ensures a == b
  {
    ByteOfNumber(a);
    ByteOfNumber(b);
  }

  lemma NumberOfZero()
    ensures NumberOf(0) == 0
  {}

  // ---------- a table whose entry for b is entry(b) ----------

  ghost predicate IsTable<T(!new)>(table: seq<T>, entry: bv8 -> T) {
    |table| == 256 && forall b: bv8 :: table[NumberOf(b)] == entry(b)
  }

  /** The entries of all bytes below cnt are in place. */
  ghost predicate TableFilled<T(!new)>(table: seq<T>, entry: bv8 -> T, cnt: nat) {
    |table| == 256 && cnt <= 256 && forall i: nat | i < cnt :: table[i] == entry(ByteOf(i))
  }

  lemma TableStep<T(!new)>(table: seq<T>, entry: bv8 -> T, cnt: nat, w: T)
    requires TableFilled(table, entry, cnt) && cnt < 256 && w == entry(ByteOf(cnt))
    ensures TableFilled(table[cnt := w], entry, cnt + 1)
  {}

  /** Store the next entry. */
  method SetEntry<T(!new)>(table: array<T>, ghost entry: bv8 -> T, cnt: nat, w: T)
    requires TableFilled(table[..], entry, cnt) && cnt < 256 && w == entry(ByteOf(cnt))
    modifies table
    ensures TableFilled(table[..], entry, cnt + 1)
  {
    TableStep(table[..], entry, cnt, w);
    ghost var t := table[..][cnt := w];
    table[cnt] := w;
    assert table[..] == t;
  }

  lemma TableDone<T(!new)>(table: seq<T>, entry: bv8 -> T)
    requires TableFilled(table, entry, 256)
    ensures IsTable(table, entry)
  {}

  lemma TableAt<T(!new)>(table: seq<T>, entry: bv8 -> T, i: nat)
    requires IsTable(table, entry) && i < 256
    ensures table[i] == entry(ByteOf(i))
  {
    NumberOfByte(i);
  }

  // ---------- a table written backwards ----------

  /** The images of all bytes below cnt hold the bytes they came from. */
  ghost predicate InverseFilled<T(!new)>(table: seq<T>, f: bv8 -> bv8, rep: bv8 -> T, cnt: nat) {
    |table| == 256 && cnt <= 256 && forall i: nat | i < cnt :: table[NumberOf(f(ByteOf(i)))] == rep(ByteOf(i))
  }

  lemma InverseStep<T(!new)>(table: seq<T>, f: bv8 -> bv8, rep: bv8 -> T, cnt: nat, x: bv8)
    requires InverseFilled(table, f, rep, cnt) && cnt < 256 && x == f(ByteOf(cnt))
    requires forall a, b | f(a) == f(b) :: a == b
    ensures InverseFilled(table[NumberOf(x) := rep(ByteOf(cnt))], f, rep, cnt + 1)
  {
    forall i: nat | i < cnt ensures NumberOf(f(ByteOf(i))) != NumberOf(x) {
      if NumberOf(f(ByteOf(i))) == NumberOf(x) {
        SameNumber(f(ByteOf(i)), x);
        NumberOfByte(i);
        NumberOfByte(cnt);
      }
    }
  }

  /** A one-to-one f with inverse g fills every entry of the table, with g. */
  lemma InverseDone<T(!new)>(table: seq<T>, f: bv8 -> bv8, g: bv8 -> bv8, rep: bv8 -> T, entry: bv8 -> T)
    requires InverseFilled(table, f, rep, 256)
    requires forall b :: f(g(b)) == b
    requires forall b :: entry(b) == rep(g(b))
    ensures IsTable(table, entry)
  {
    forall b: bv8 ensures table[NumberOf(b)] == entry(b) {
      ByteOfNumber(g(b));
      assert f(ByteOf(NumberOf(g(b)))) == b;
    }
  }

  // ---------- a table of a function of numbers and the table of its inverse ----------

  /** The values of p below cnt, and where each value from p(1) on was last seen. */
  ghost predicate SequenceFilled(table: seq<bv8>, index: seq<int>, p: nat -> bv8, cnt: nat) {
    && |table| == 256 && |index| == 256 && cnt <= 256
    && (forall i: nat | i < cnt :: table[i] == p(i))
    && (forall i: nat | 1 <= i < cnt :: index[NumberOf(p(i))] == i)
  }

  /** Store the next value and its index. */
  method SetSequence(table: array<bv8>, index: array<int>, ghost p: nat -> bv8, cnt: nat, x: bv8)
    requires SequenceFilled(table[..], index[..], p, cnt) && cnt < 256 && x == p(cnt)
    requires forall i: nat | 1 <= i < cnt :: p(i) != x
    requires table as object != index
    modifies table, index
    ensures SequenceFilled(table[..], index[..], p, cnt + 1)
  {
    forall i: nat | 1 <= i < cnt ensures NumberOf(p(i)) != NumberOf(x) {
      if NumberOf(p(i)) == NumberOf(x) {
        SameNumber(p(i), x);
      }
    }
    table[cnt] := x;
    index[NumberOf(x)] := cnt;
  }
}
