/** The extents of an archive: back to back from the first entry to the end of the file, each a whole
    number of blocks that starts with its entry. */
module ArchiveLayout {
  import opened ArchiveFormat
  import opened LittleEndian

  const TWO32 := 0x1_0000_0000
  const NO_BLOCKS: u32 := 0xFFFF_FFFF

  /** A product of two 32-bit unsigned integers. */
  function Product(a: u32, b: u32): u32 { a * b % TWO32 }

  /** An extent: its entry, whether it holds a file, and the bytes after the entry. */
  datatype Extent = Extent(entry: Entry, live: bool, body: seq<bv8>)

  function ExtentBytes(x: Extent): (s: seq<bv8>)
    ensures |s| == ENTRY_SIZE + |x.body|
  {
    EntryBytes(x.entry) + x.body
  }

  function ExtentSize(x: Extent): nat { ENTRY_SIZE + |x.body| }

  function Image(xs: seq<Extent>): seq<bv8> {
    if xs == [] then [] else ExtentBytes(xs[0]) + Image(xs[1..])
  }

  /** A whole number of blocks, below 2^32 bytes; a free extent has index 0, the payload of a live one
      fits. */
  predicate Sound(x: Extent, bpb: u32) {
    && x.entry.numBlocks * bpb == ExtentSize(x) < TWO32
    && x.entry.finalSize <= |x.body|
    && (!x.live ==> x.entry.info.index == 0)
  }

  /** The extents follow one another without gap or overlap, the first one at at. */
  predicate Tiled(xs: seq<Extent>, at: nat, bpb: u32) {
    xs != [] ==>
      && Sound(xs[0], bpb) && xs[0].entry.offset == at + ENTRY_SIZE
      && Tiled(xs[1..], at + ExtentSize(xs[0]), bpb)
  }

  /** The live extents by index. */
  function LiveOf(xs: seq<Extent>): map<u32, Extent> {
    if xs == [] then map[]
    else if xs[0].live then LiveOf(xs[1..])[xs[0].entry.info.index := xs[0]]
    else LiveOf(xs[1..])
  }

  /** Their entries. */
  function FilesOf(xs: seq<Extent>): map<u32, Entry> {
    map index | index in LiveOf(xs) :: LiveOf(xs)[index].entry
  }

  /** No two live extents have the same index. */
  predicate Distinct(xs: seq<Extent>) {
    xs != [] ==> (xs[0].live ==> xs[0].entry.info.index !in LiveOf(xs[1..])) && Distinct(xs[1..])
  }

  /** The entries of the free extents, in file order. */
  function FreeOf(xs: seq<Extent>): seq<Entry> {
    if xs == [] then [] else if xs[0].live then FreeOf(xs[1..]) else [xs[0].entry] + FreeOf(xs[1..])
  }

  // ---------- lists of extents in two parts ----------

  lemma {:induction false} ImageAppend(xs: seq<Extent>, ys: seq<Extent>)
    ensures Image(xs + ys) == Image(xs) + Image(ys)
  {
    hide ExtentBytes;
    if xs == [] {
      assert xs + ys == ys;
    } else {
      ImageAppend(xs[1..], ys);
      assert (xs + ys)[1..] == xs[1..] + ys;
    }
  }

  lemma {:induction false} TiledAppend(xs: seq<Extent>, ys: seq<Extent>, at: nat, bpb: u32)
    ensures Tiled(xs + ys, at, bpb) <==> Tiled(xs, at, bpb) && Tiled(ys, at + |Image(xs)|, bpb)
  {
    hide ExtentBytes, Sound;
    if xs == [] {
      assert xs + ys == ys;
    } else {
      TiledAppend(xs[1..], ys, at + ExtentSize(xs[0]), bpb);
      assert (xs + ys)[1..] == xs[1..] + ys;
    }
  }

  lemma {:induction false} LiveAppend(xs: seq<Extent>, ys: seq<Extent>)
    ensures LiveOf(xs + ys) == LiveOf(ys) + LiveOf(xs)
  {
    if xs == [] {
      assert xs + ys == ys;
    } else {
      LiveAppend(xs[1..], ys);
      assert (xs + ys)[1..] == xs[1..] + ys;
    }
  }

  lemma {:induction false} DistinctAppend(xs: seq<Extent>, ys: seq<Extent>)
    ensures Distinct(xs + ys) <==> Distinct(xs) && Distinct(ys) && LiveOf(xs).Keys !! LiveOf(ys).Keys
  {
    if xs == [] {
      assert xs + ys == ys;
    } else {
      DistinctAppend(xs[1..], ys);
      LiveAppend(xs[1..], ys);
      assert (xs + ys)[1..] == xs[1..] + ys;
    }
  }

  lemma {:induction false} FreeAppend(xs: seq<Extent>, ys: seq<Extent>)
    ensures FreeOf(xs + ys) == FreeOf(xs) + FreeOf(ys)
  {
    if xs == [] {
      assert xs + ys == ys;
    } else {
      FreeAppend(xs[1..], ys);
      assert (xs + ys)[1..] == xs[1..] + ys;
      SameTail([xs[0].entry], FreeOf(xs[1..]), FreeOf(ys));
    }
  }

  lemma SameTail<T>(a: seq<T>, b: seq<T>, c: seq<T>)
    ensures a + (b + c) == a + b + c
  {}

  // ---------- where an extent is ----------

  /** The list with extent i singled out. */
  lemma Split(xs: seq<Extent>, i: nat, y: Extent)
    requires i < |xs|
    ensures xs == xs[..i] + ([xs[i]] + xs[i + 1..])
    ensures xs[i := y] == xs[..i] + ([y] + xs[i + 1..])
  {}

  lemma ImageAround(a: seq<Extent>, x: Extent, b: seq<Extent>)
    ensures Image(a + ([x] + b)) == Image(a) + (ExtentBytes(x) + Image(b))
  {
    hide ExtentBytes;
    ImageAppend(a, [x] + b);
    assert ([x] + b)[1..] == b;
  }

  /** Extent i starts where its entry says. */
  lemma Placed(xs: seq<Extent>, at: nat, bpb: u32, i: nat)
    requires i < |xs| && Tiled(xs, at, bpb)
    ensures Sound(xs[i], bpb) && xs[i].entry.offset == at + |Image(xs[..i])| + ENTRY_SIZE
    ensures at + |Image(xs[..i])| + ExtentSize(xs[i]) <= at + |Image(xs)|
  {
    hide ExtentBytes, Sound;
    Split(xs, i, xs[i]);
    ImageAround(xs[..i], xs[i], xs[i + 1..]);
    TiledAppend(xs[..i], [xs[i]] + xs[i + 1..], at, bpb);
  }

  /** Of two extents, the first ends before the second starts; the last one ends with the file. */
  lemma ExtentsApart(xs: seq<Extent>, at: nat, bpb: u32, i: nat, j: nat)
    requires i < j < |xs| && Tiled(xs, at, bpb)
    ensures xs[i].entry.offset + |xs[i].body| <= xs[j].entry.offset - ENTRY_SIZE
    ensures xs[|xs| - 1].entry.offset + |xs[|xs| - 1].body| == at + |Image(xs)|
  {
    hide ExtentBytes, Sound, Tiled, Image;
    Placed(xs, at, bpb, i);
    Placed(xs, at, bpb, j);
    var ys := xs[..j];
    Split(ys, i, ys[i]);
    ImageAround(ys[..i], ys[i], ys[i + 1..]);
    assert ys[..i] == xs[..i];
    Placed(xs, at, bpb, |xs| - 1);
    Split(xs, |xs| - 1, xs[|xs| - 1]);
    ImageAround(xs[..|xs| - 1], xs[|xs| - 1], []);
    assert xs[|xs| - 1 + 1..] == [];
    NoImage();
  }

  lemma NoImage()
    ensures Image([]) == []
  {}

  lemma {:induction false} FindLive(xs: seq<Extent>, index: u32) returns (i: nat)
    requires index in LiveOf(xs)
    ensures i < |xs| && xs[i].live && xs[i].entry.info.index == index && xs[i] == LiveOf(xs)[index]
  {
    if xs[0].live && xs[0].entry.info.index == index {
      i := 0;
    } else {
      i := FindLive(xs[1..], index);
      i := i + 1;
    }
  }

  lemma {:induction false} FindFree(xs: seq<Extent>, e: Entry) returns (i: nat)
    requires e in FreeOf(xs)
    ensures i < |xs| && !xs[i].live && xs[i].entry == e
  {
    if !xs[0].live && xs[0].entry == e {
      i := 0;
    } else {
      i := FindFree(xs[1..], e);
      i := i + 1;
    }
  }

  // ---------- writing over an extent ----------

  /** Bytes written at a position of a file; a gap before it is filled with zeros. */
  function Overwrite(bytes: seq<bv8>, at: nat, data: seq<bv8>): seq<bv8> {
    if |bytes| < at then bytes + seq(at - |bytes|, _ => 0) + data
    else if |bytes| <= at + |data| then bytes[..at] + data
    else bytes[..at] + data + bytes[at + |data|..]
  }

  /** Writing an entry and a payload over extent x makes it y and changes nothing else. */
  lemma OverwriteExtent(prefix: seq<bv8>, a: seq<Extent>, x: Extent, b: seq<Extent>, y: Extent, payload: seq<bv8>)
    requires |payload| <= |x.body| && y.body == payload + x.body[|payload|..]
    ensures Overwrite(prefix + Image(a + ([x] + b)), |prefix| + |Image(a)|, EntryBytes(y.entry) + payload)
         == prefix + Image(a + ([y] + b))
  {
    hide EntryBytes, Overwrite, Image;
    ImageAround(a, x, b);
    ImageAround(a, y, b);
    OverwriteParts(prefix, Image(a), EntryBytes(x.entry), x.body, Image(b), EntryBytes(y.entry), payload,
                   ExtentBytes(x), ExtentBytes(y));
  }

  lemma OverwriteParts(
    p: seq<bv8>, a: seq<bv8>, e0: seq<bv8>, body: seq<bv8>, b: seq<bv8>, e1: seq<bv8>, payload: seq<bv8>,
    x: seq<bv8>, y: seq<bv8>)
    requires |e0| == |e1| && |payload| <= |body|
    requires x == e0 + body && y == e1 + (payload + body[|payload|..])
    ensures Overwrite(p + (a + (x + b)), |p| + |a|, e1 + payload) == p + (a + (y + b))
  {
    var all, d := p + (a + (x + b)), e1 + payload;
    var at := |p| + |a|;
    assert all[..at] == p + a;
    DropParts(p, a, e0, body, b, |e1| + |payload|);
    assert all[at + |d|..] == body[|payload|..] + b;
    Regroup(p, a, d, body[|payload|..], b);
    Regroup3(e1, payload, body[|payload|..]);
  }

  lemma DropParts(p: seq<bv8>, a: seq<bv8>, e0: seq<bv8>, body: seq<bv8>, b: seq<bv8>, n: nat)
    requires |e0| <= n <= |e0| + |body|
    ensures (p + (a + (e0 + body + b)))[|p| + |a| + n..] == body[n - |e0|..] + b
  {}

  lemma Regroup(p: seq<bv8>, a: seq<bv8>, d: seq<bv8>, r: seq<bv8>, b: seq<bv8>)
    ensures p + a + d + (r + b) == p + (a + (d + r + b))
  {}

  lemma Regroup3(a: seq<bv8>, b: seq<bv8>, c: seq<bv8>)
    ensures a + b + c == a + (b + c)
  {}

  /** Changing extent i in place: the tiling stays, and files and free extents change by that one. */
  lemma ReplaceExtent(xs: seq<Extent>, at: nat, bpb: u32, i: nat, y: Extent)
    requires i < |xs| && Tiled(xs, at, bpb) && Distinct(xs)
    requires Sound(y, bpb) && |y.body| == |xs[i].body| && y.entry.offset == xs[i].entry.offset
    requires y.live ==> y.entry.info.index !in LiveOf(xs) || (xs[i].live && y.entry.info.index == xs[i].entry.info.index)
    ensures Tiled(xs[i := y], at, bpb) && Distinct(xs[i := y]) && |Image(xs[i := y])| == |Image(xs)|
    ensures
      var without := if xs[i].live then LiveOf(xs) - {xs[i].entry.info.index} else LiveOf(xs);
      LiveOf(xs[i := y]) == if y.live then without[y.entry.info.index := y] else without
    ensures
      var without := if xs[i].live then multiset(FreeOf(xs)) else multiset(FreeOf(xs)) - multiset{xs[i].entry};
      multiset(FreeOf(xs[i := y])) == if y.live then without else without + multiset{y.entry}
  {
    hide Sound, ExtentBytes;
    var a, b := xs[..i], xs[i + 1..];
    Split(xs, i, y);
    ImageAround(a, xs[i], b);
    ImageAround(a, y, b);
    ReplaceTiling(a, b, xs[i], y, at, bpb);
    ReplaceLive(a, b, xs[i], y);
    ReplaceFree(a, b, xs[i], y);
  }

  lemma ReplaceTiling(a: seq<Extent>, b: seq<Extent>, x: Extent, y: Extent, at: nat, bpb: u32)
    requires Tiled(a + ([x] + b), at, bpb) && Sound(y, bpb)
    requires |y.body| == |x.body| && y.entry.offset == x.entry.offset
    ensures Tiled(a + ([y] + b), at, bpb)
  {
    hide Sound, ExtentBytes;
    TiledAppend(a, [x] + b, at, bpb);
    TiledAppend(a, [y] + b, at, bpb);
    assert ([x] + b)[1..] == b && ([y] + b)[1..] == b;
    hide Image;
  }

  lemma ReplaceLive(a: seq<Extent>, b: seq<Extent>, x: Extent, y: Extent)
    requires Distinct(a + ([x] + b))
    requires y.live ==>
      y.entry.info.index !in LiveOf(a + ([x] + b)) || (x.live && y.entry.info.index == x.entry.info.index)
    ensures Distinct(a + ([y] + b))
    ensures
      var live := LiveOf(a + ([x] + b));
      var without := if x.live then live - {x.entry.info.index} else live;
      LiveOf(a + ([y] + b)) == if y.live then without[y.entry.info.index := y] else without
  {
    LiveAppend(a, [x] + b);
    LiveAppend(a, [y] + b);
    DistinctAppend(a, [x] + b);
    DistinctAppend(a, [y] + b);
    assert ([x] + b)[1..] == b && ([y] + b)[1..] == b;
  }

  lemma ReplaceFree(a: seq<Extent>, b: seq<Extent>, x: Extent, y: Extent)
    ensures
      var free := multiset(FreeOf(a + ([x] + b)));
      var without := if x.live then free else free - multiset{x.entry};
      multiset(FreeOf(a + ([y] + b))) == if y.live then without else without + multiset{y.entry}
  {
    FreeAppend(a, [x] + b);
    FreeAppend(a, [y] + b);
    assert ([x] + b)[1..] == b && ([y] + b)[1..] == b;
  }

  /** A new extent at the end. */
  lemma AppendExtent(xs: seq<Extent>, at: nat, bpb: u32, y: Extent)
    requires Tiled(xs, at, bpb) && Distinct(xs) && Sound(y, bpb)
    requires y.live && y.entry.info.index !in LiveOf(xs) && y.entry.offset == at + |Image(xs)| + ENTRY_SIZE
    ensures Tiled(xs + [y], at, bpb) && Distinct(xs + [y])
    ensures Image(xs + [y]) == Image(xs) + ExtentBytes(y)
    ensures LiveOf(xs + [y]) == LiveOf(xs)[y.entry.info.index := y]
    ensures FreeOf(xs + [y]) == FreeOf(xs)
  {
    hide Sound, ExtentBytes;
    TiledAppend(xs, [y], at, bpb);
    DistinctAppend(xs, [y]);
    ImageAppend(xs, [y]);
    LiveAppend(xs, [y]);
    FreeAppend(xs, [y]);
    assert Image([y]) == ExtentBytes(y) + Image([y][1..]);
    assert LiveOf([y]) == LiveOf([y][1..])[y.entry.info.index := y];
  }
}
