/** Resolving a JSON Pointer in a value, and creating what it points to. A value inside another one is
    given by the positions of the elements and members that lead to it. */
module JsonPointerTree {
  import opened JsonPointerParser
  import opened JsonText
  import opened JsonTree

  type Path = seq<nat>

  datatype Found = At(path: Path) | NotFound

  function Size(t: Tree): nat {
    match t
    case List(ts) => |ts|
    case Record(ms) => |ms|
    case _ => 0
  }

  function Child(t: Tree, k: nat): (c: Tree)
    requires k < Size(t)
    ensures c < t
  {
    if t.List? then t.items[k] else t.members[k].value
  }

  function WithChild(t: Tree, k: nat, c: Tree): (r: Tree)
    requires k < Size(t)
    ensures Size(r) == Size(t) && Child(r, k) == c && r.List? == t.List?
  {
    if t.List? then List(t.items[k := c]) else Record(t.members[k := t.members[k].(value := c)])
  }

  predicate Leads(t: Tree, p: Path)
    decreases |p|
  {
    p != [] ==> p[0] < Size(t) && Leads(Child(t, p[0]), p[1..])
  }

  function ValueAt(t: Tree, p: Path): Tree
    requires Leads(t, p)
    decreases |p|
  {
    if p == [] then t else ValueAt(Child(t, p[0]), p[1..])
  }

  function WithValueAt(t: Tree, p: Path, v: Tree): Tree
    requires Leads(t, p)
    decreases |p|
  {
    if p == [] then v else WithChild(t, p[0], WithValueAt(Child(t, p[0]), p[1..], v))
  }

  /** The position of the first member with a name, or the number of members. */
  function FindMember(ms: seq<Member>, name: Text): (k: nat)
    ensures k <= |ms| && (k < |ms| ==> ms[k].name == name) && forall i | 0 <= i < k :: ms[i].name != name
  {
    if ms == [] || ms[0].name == name then 0 else 1 + FindMember(ms[1..], name)
  }

  // ---------- getting ----------

  /** The position of what a name refers to in a value, if there is such a thing. */
  function Resolved(t: Tree, name: Text): (r: Found)
    ensures r.At? ==> |r.path| == 1 && r.path[0] < Size(t)
  {
    match t
    case Record(ms) => if FindMember(ms, name) == |ms| then NotFound else At([FindMember(ms, name)])
    case List(ts) => if IndexOf(name) == INVALID_INDEX || IndexOf(name) >= |ts| then NotFound else At([IndexOf(name)])
    case _ => NotFound
  }

  function Onward(k: nat, r: Found): Found { if r.At? then At([k] + r.path) else r }

  function Get(t: Tree, names: seq<Text>): (r: Found)
    ensures r.At? ==> Leads(t, r.path)
    decreases |names|
  {
    if names == [] then At([])
    else
      var s := Resolved(t, names[0]);
      if s.NotFound? then s else Onward(s.path[0], Get(Child(t, s.path[0]), names[1..]))
  }

  // ---------- creating ----------

  predicate IsDash(t: Tree, name: Text) { t.List? && name == "-" }

  function Nulls(n: nat): seq<Tree> { seq(n, i => Nothing) }

  /** The value changed to what a name can refer into. */
  function Container(t: Tree, name: Text): Tree {
    if IndexOf(name) == INVALID_INDEX then (if t.Record? then t else Record([]))
    else if t.List? || t.Record? then t
    else List([])
  }

  datatype Entered = Entered(tree: Tree, k: nat, exist: bool)

  /** The value with what a name refers to, and its position. */
  function Enter(t: Tree, name: Text): (r: Entered)
    ensures r.k < Size(r.tree)
  {
    if IsDash(t, name) then Entered(List(t.items + [Nothing]), |t.items|, false)
    else
      match Container(t, name)
      case List(ts) =>
        var k := IndexOf(name);
        if k >= |ts| then Entered(List(ts + Nulls(k + 1 - |ts|)), k, false) else Entered(List(ts), k, true)
      case Record(ms) =>
        var k := FindMember(ms, name);
        if k == |ms| then Entered(Record(ms + [Member(name, Nothing)]), k, false) else Entered(Record(ms), k, true)
  }

  datatype Creation = Creation(tree: Tree, path: Path, exist: bool)

  function Create(t: Tree, names: seq<Text>): (r: Creation)
    ensures Leads(r.tree, r.path)
    decreases |names|
  {
    if names == [] then Creation(t, [], true)
    else
      var e := Enter(t, names[0]);
      var c := Create(Child(e.tree, e.k), names[1..]);
      Creation(WithChild(e.tree, e.k, c.tree), [e.k] + c.path, e.exist && c.exist)
  }

  /** Whether a name "-" meets an array on the way. */
  predicate MeetsDash(t: Tree, names: seq<Text>)
    decreases |names|
  {
    names != [] && (IsDash(t, names[0]) || var e := Enter(t, names[0]); MeetsDash(Child(e.tree, e.k), names[1..]))
  }

  lemma DashIsNoIndex()
    ensures IndexOf("-") == INVALID_INDEX
  {}

  /** What has been entered exists exactly when it can be resolved, and then nothing has changed. */
  lemma EnterResolved(t: Tree, name: Text)
    ensures var e := Enter(t, name); e.exist <==> Resolved(t, name).At?
    ensures var e := Enter(t, name); e.exist ==> e.tree == t && Resolved(t, name) == At([e.k])
    ensures var e := Enter(t, name); !e.exist ==> Child(e.tree, e.k) == Nothing
  {
    DashIsNoIndex();
  }

  /** After entering, with any value in that place, the name is resolved to it, unless it was appended to an
      array. */
  lemma EnteredResolved(t: Tree, name: Text, c: Tree)
    ensures
      var e := Enter(t, name);
      var t1 := WithChild(e.tree, e.k, c);
      if IsDash(t, name) then Resolved(t1, name).NotFound?
      else Resolved(t1, name) == At([e.k]) && !IsDash(t1, name) && Enter(t1, name) == Entered(t1, e.k, true)
  {
    DashIsNoIndex();
    var e := Enter(t, name);
    if e.tree.Record? {
      SameNames(e.tree.members, e.k, c, name);
      FoundAt(e.tree.members, name, e.k);
    }
  }

  lemma {:induction false} FoundAt(ms: seq<Member>, name: Text, k: nat)
    requires k < |ms| && ms[k].name == name && forall i | 0 <= i < k :: ms[i].name != name
    ensures FindMember(ms, name) == k
  {}

  lemma {:induction false} SameNames(ms: seq<Member>, k: nat, c: Tree, name: Text)
    requires k < |ms|
    ensures FindMember(ms[k := ms[k].(value := c)], name) == FindMember(ms, name)
  {
    var ns := ms[k := ms[k].(value := c)];
    if k > 0 && ms[0].name != name {
      assert ns[1..] == ms[1..][k - 1 := ms[k].(value := c)];
      SameNames(ms[1..], k - 1, c, name);
    } else {
      assert ns[1..] == ms[1..] || ms[0].name == name;
    }
  }

  /** Get finds what Create has returned exactly when no "-" has met an array. */
  lemma {:induction false} CreatedFound(t: Tree, names: seq<Text>)
    ensures var r := Create(t, names); Get(r.tree, names) == At(r.path) <==> !MeetsDash(t, names)
    decreases |names|
  {
    hide Enter, Resolved, IsDash;
    if names != [] {
      var e := Enter(t, names[0]);
      var c := Create(Child(e.tree, e.k), names[1..]);
      EnteredResolved(t, names[0], c.tree);
      CreatedFound(Child(e.tree, e.k), names[1..]);
      OnwardPath(e.k, Get(c.tree, names[1..]), c.path);
    }
  }

  lemma OnwardPath(k: nat, r: Found, p: Path)
    ensures Onward(k, r) == At([k] + p) <==> r == At(p)
  {
    if r.At? {
      assert ([k] + r.path)[1..] == r.path && ([k] + p)[1..] == p;
    }
  }

  /** Create answers that the value exists exactly when Get finds it before; then it returns that value and
      changes nothing. Otherwise what it returns is null. */
  lemma {:induction false} CreateExisting(t: Tree, names: seq<Text>)
    ensures var r := Create(t, names); r.exist <==> Get(t, names).At?
    ensures var r := Create(t, names); r.exist ==> r.tree == t && Get(t, names) == At(r.path)
    ensures var r := Create(t, names); !r.exist ==> ValueAt(r.tree, r.path) == Nothing
    decreases |names|
  {
    hide Enter, Resolved;
    if names != [] {
      var e := Enter(t, names[0]);
      var child := Child(e.tree, e.k);
      var c := Create(child, names[1..]);
      EnterResolved(t, names[0]);
      CreateExisting(child, names[1..]);
      OnwardPath(e.k, Get(child, names[1..]), c.path);
      assert ([e.k] + c.path)[1..] == c.path;
      if e.exist && c.exist {
        SameChild(t, e.k);
      } else if c.exist {
        NothingInNothing(names[1..]);
      }
    }
  }

  lemma SameChild(t: Tree, k: nat)
    requires k < Size(t)
    ensures WithChild(t, k, Child(t, k)) == t
  {}

  lemma NothingInNothing(names: seq<Text>)
    ensures names != [] ==> Get(Nothing, names) == NotFound
  {}

  /** A second Create finds everything in place. */
  lemma CreateTwice(t: Tree, names: seq<Text>)
    requires !MeetsDash(t, names)
    ensures var r := Create(t, names); Create(r.tree, names) == Creation(r.tree, r.path, true)
  {
    CreatedFound(t, names);
    CreateExisting(Create(t, names).tree, names);
  }

  // ---------- what is found, and what is kept ----------

  /** One name is found at a position exactly when it is the first member of that name, or the element whose index
      it is. */
  lemma GetOne(t: Tree, name: Text, k: nat)
    ensures Get(t, [name]) == At([k]) <==>
      || (t.Record? && k < |t.members| && t.members[k].name == name && forall i | 0 <= i < k :: t.members[i].name != name)
      || (t.List? && k < |t.items| && k == IndexOf(name) != INVALID_INDEX)
  {
    hide IndexOf;
    assert [name][1..] == [];
    if t.Record? && k < |t.members| && t.members[k].name == name && forall i | 0 <= i < k :: t.members[i].name != name {
      FoundAt(t.members, name, k);
    }
    assert forall i: nat :: Onward(i, At([])) == At([i] + []) && [i] + [] == [i];
  }

  /** Several names are followed one after the other. */
  lemma {:induction false} GetMore(t: Tree, names: seq<Text>, more: seq<Text>)
    ensures Get(t, names + more) ==
      (var r := Get(t, names); if r.At? then Behind(r.path, Get(ValueAt(t, r.path), more)) else r)
    decreases |names|
  {
    hide Resolved;
    if names == [] {
      assert names + more == more;
      NothingBehind(Get(t, more));
    } else {
      assert (names + more)[1..] == names[1..] + more;
      var s := Resolved(t, names[0]);
      if s.At? {
        var k := s.path[0];
        GetMore(Child(t, k), names[1..], more);
        var r := Get(Child(t, k), names[1..]);
        if r.At? {
          assert ([k] + r.path)[1..] == r.path;
          FurtherBehind(k, r.path, Get(ValueAt(Child(t, k), r.path), more));
        }
      }
    }
  }

  function Behind(p: Path, r: Found): Found { if r.At? then At(p + r.path) else r }

  lemma NothingBehind(r: Found)
    ensures Behind([], r) == r
  {}

  lemma FurtherBehind(k: nat, p: Path, r: Found)
    ensures Onward(k, Behind(p, r)) == Behind([k] + p, r)
  {
    if r.At? {
      assert [k] + (p + r.path) == [k] + p + r.path;
    }
  }

  /** Whether a name is an array index. */
  predicate IsIndex(name: Text) { IndexOf(name) != INVALID_INDEX }

  /** Elements stay, and nulls are added up to the index, or one for a "-"; a value that is no container becomes an
      array for an index. */
  lemma EnterElements(t: Tree, name: Text)
    ensures
      var e := Enter(t, name);
      e.tree.List? <==> if IsIndex(name) then !t.Record? else IsDash(t, name)
    ensures
      var e := Enter(t, name);
      var kept := if t.List? then t.items else [];
      e.tree.List? ==>
        && e.k == (if IsDash(t, name) then |t.items| else IndexOf(name))
        && kept <= e.tree.items && |e.tree.items| == (if e.k < |kept| then |kept| else e.k + 1)
        && forall i | |kept| <= i < |e.tree.items| :: e.tree.items[i] == Nothing
  {
    hide IndexOf;
    DashIsNoIndex();
  }

  /** Members stay, and one is added behind them if none has the name; everything else but an object becomes an
      object for a name that is no index. */
  lemma EnterMembers(t: Tree, name: Text)
    ensures
      var e := Enter(t, name);
      e.tree.Record? <==> if IsIndex(name) then t.Record? else !IsDash(t, name)
    ensures
      var e := Enter(t, name);
      var kept := if t.Record? then t.members else [];
      e.tree.Record? ==>
        && (e.tree.members == kept || e.tree.members == kept + [Member(name, Nothing)])
        && (e.tree.members == kept <==> exists i | 0 <= i < |kept| :: kept[i].name == name)
        && e.tree.members[e.k].name == name && forall i | 0 <= i < e.k :: e.tree.members[i].name != name
  {
    hide IndexOf;
    DashIsNoIndex();
  }

  predicate SameKind(t: Tree, u: Tree) { t.List? == u.List? && t.Record? == u.Record? }

  /** Along two paths, as far as they go together, the containers of two values are of the same kinds. */
  predicate KindsKept(t: Tree, u: Tree, q: Path, p: Path)
    decreases |q|
  {
    && SameKind(t, u)
    && (q != [] && p != [] && q[0] == p[0] && q[0] < Size(t) && q[0] < Size(u) ==>
          KindsKept(Child(t, q[0]), Child(u, q[0]), q[1..], p[1..]))
  }

  lemma EnterKeeps(t: Tree, name: Text, k: nat)
    requires SameKind(t, Enter(t, name).tree) && k < Size(t)
    ensures k < Size(Enter(t, name).tree) && Child(Enter(t, name).tree, k) == Child(t, k)
  {
    hide IndexOf, Enter;
    EnterElements(t, name);
    EnterMembers(t, name);
  }

  /** Whatever is not on the way to what Create returns is still there with its value, unless a container on the
      way has become one of the other kind. */
  lemma {:induction false} CreateKeeps(t: Tree, names: seq<Text>, q: Path)
    requires Leads(t, q) && !(q <= Create(t, names).path) && KindsKept(t, Create(t, names).tree, q, Create(t, names).path)
    ensures Leads(Create(t, names).tree, q) && ValueAt(Create(t, names).tree, q) == ValueAt(t, q)
    decreases |names|
  {
    hide Enter, IndexOf;
    if names != [] {
      var e := Enter(t, names[0]);
      var c := Create(Child(e.tree, e.k), names[1..]);
      var k := q[0];
      EnterKeeps(t, names[0], k);
      OtherChild(e.tree, e.k, c.tree, k);
      assert ([e.k] + c.path)[1..] == c.path;
      if k == e.k {
        assert q == [k] + q[1..];
        CreateKeeps(Child(t, k), names[1..], q[1..]);
      }
    }
  }

  lemma OtherChild(t: Tree, k: nat, c: Tree, i: nat)
    requires k < Size(t) && i < Size(t)
    ensures Child(WithChild(t, k, c), i) == if i == k then c else Child(t, i)
    ensures SameKind(t, WithChild(t, k, c))
  {}

  // ---------- in place ----------

  lemma {:induction false} Located(t: Tree, p: Path, v: Tree)
    requires Leads(t, p)
    ensures Leads(WithValueAt(t, p, v), p) && ValueAt(WithValueAt(t, p, v), p) == v
    decreases |p|
  {
    if p != [] {
      Located(Child(t, p[0]), p[1..], v);
    }
  }

  /** One step further down, and a change there. */
  lemma {:induction false} Deeper(t: Tree, p: Path, v: Tree, k: nat, c: Tree)
    requires Leads(t, p) && k < Size(v)
    ensures
      var t1 := WithValueAt(t, p, v);
      && Leads(t1, p + [k]) && ValueAt(t1, p + [k]) == Child(v, k)
      && WithValueAt(t1, p + [k], c) == WithValueAt(t, p, WithChild(v, k, c))
    decreases |p|
  {
    if p == [] {
      assert [] + [k] == [k] && [k][1..] == [];
    } else {
      Deeper(Child(t, p[0]), p[1..], v, k, c);
      assert (p + [k])[1..] == p[1..] + [k];
    }
  }

  lemma {:induction false} SameValue(t: Tree, p: Path)
    requires Leads(t, p)
    ensures WithValueAt(t, p, ValueAt(t, p)) == t
    decreases |p|
  {
    if p != [] {
      SameValue(Child(t, p[0]), p[1..]);
      SameChild(t, p[0]);
    }
  }

  class Root {
    var root: Tree

    constructor (root: Tree)
      ensures this.root == root
    {
      this.root := root;
    }

    /** The value v is at the path so far; what the names ahead refer to is created inside it. */
    ghost predicate Creating(t: Tree, names: seq<Text>, p: Path, exist: bool, i: nat)
      requires i <= |names|
      reads this
    {
      Leads(root, p) &&
      var r := Create(t, names);
      var c := Create(ValueAt(root, p), names[i..]);
      r == Creation(WithValueAt(root, p, c.tree), p + c.path, exist && c.exist)
    }

    /** Create what the names refer to, changing the values on the way in place. */
    method CreateValue(names: seq<Text>) returns (p: Path, exist: bool)
      modifies this
      ensures var r := Create(old(root), names); root == r.tree && p == r.path && exist == r.exist
    {
      hide Enter, Create, ValueAt, WithValueAt, Leads;
      p, exist := [], true;
      ghost var t := root;
      var i := 0;
      StartCreating(t, names);
      while i < |names|
        invariant 0 <= i <= |names| && Creating(t, names, p, exist, i)
      {
        var e := Enter(ValueAt(root, p), names[i]);
        CreateStep(root, p, names[i..]);
        assert names[i..][1..] == names[i + 1..];
        ghost var c := Create(Child(e.tree, e.k), names[i + 1..]);
        Deeper(root, p, e.tree, e.k, c.tree);
        assert p + ([e.k] + c.path) == p + [e.k] + c.path;
        root := WithValueAt(root, p, e.tree);
        p := p + [e.k];
        exist := exist && e.exist;
        i := i + 1;
      }
      EndCreating(root, p, names[i..]);
    }

    /** Find what the names refer to. */
    method GetValue(names: seq<Text>) returns (r: Found)
      ensures r == Get(root, names)
    {
      hide Get, Resolved, ValueAt, Leads;
      var p: Path := [];
      var i := 0;
      StartGetting(root, names);
      while i < |names|
        invariant 0 <= i <= |names| && Leads(root, p)
        invariant Get(root, names) == Behind(p, Get(ValueAt(root, p), names[i..]))
      {
        var v := ValueAt(root, p);
        var s := Resolved(v, names[i]);
        GetStep(v, names[i..]);
        if s.NotFound? {
          return NotFound;
        }
        assert names[i..][1..] == names[i + 1..];
        GoDeeper(root, p, s.path[0]);
        BehindMore(p, s.path[0], Get(Child(v, s.path[0]), names[i + 1..]));
        p := p + [s.path[0]];
        i := i + 1;
      }
      EndGetting(ValueAt(root, p), names[i..], p);
      r := At(p);
    }
  }

  lemma StartCreating(t: Tree, names: seq<Text>)
    ensures Leads(t, []) && ValueAt(t, []) == t && names[0..] == names
    ensures var c := Create(t, names); c == Creation(WithValueAt(t, [], c.tree), [] + c.path, true && c.exist)
  {}

  lemma CreateStep(root: Tree, p: Path, names: seq<Text>)
    requires Leads(root, p) && names != []
    ensures
      var e := Enter(ValueAt(root, p), names[0]);
      var c := Create(Child(e.tree, e.k), names[1..]);
      Create(ValueAt(root, p), names) == Creation(WithChild(e.tree, e.k, c.tree), [e.k] + c.path, e.exist && c.exist)
  {
    hide Enter, ValueAt;
  }

  lemma EndCreating(root: Tree, p: Path, names: seq<Text>)
    requires Leads(root, p) && names == []
    ensures
      var c := Create(ValueAt(root, p), names);
      c.exist && WithValueAt(root, p, c.tree) == root && p + c.path == p
  {
    SameValue(root, p);
    assert p + [] == p;
  }

  lemma StartGetting(t: Tree, names: seq<Text>)
    ensures Leads(t, []) && ValueAt(t, []) == t && names[0..] == names && Get(t, names) == Behind([], Get(t, names))
  {}

  lemma GetStep(t: Tree, names: seq<Text>)
    requires names != []
    ensures
      var s := Resolved(t, names[0]);
      Get(t, names) == if s.NotFound? then s else Onward(s.path[0], Get(Child(t, s.path[0]), names[1..]))
  {
    hide Resolved;
  }

  lemma GoDeeper(t: Tree, p: Path, k: nat)
    requires Leads(t, p) && k < Size(ValueAt(t, p))
    ensures Leads(t, p + [k]) && ValueAt(t, p + [k]) == Child(ValueAt(t, p), k)
  {
    SameValue(t, p);
    Deeper(t, p, ValueAt(t, p), k, Child(ValueAt(t, p), k));
  }

  lemma BehindMore(p: Path, k: nat, r: Found)
    ensures Behind(p, Onward(k, r)) == Behind(p + [k], r)
  {}

  lemma EndGetting(t: Tree, names: seq<Text>, p: Path)
    requires names == []
    ensures Behind(p, Get(t, names)) == At(p)
  {}
}
