/** What merging means: seen through name paths, the merged tree is the union of the
    two trees in which the overlay's properties win. */
module FdtUnion {
  import opened Wrappers
  import opened Bytes
  import opened FdtTree
  import opened FdtEditTheorems
  import opened FdtOverlay

  type Name = seq<byte>

  /** First child with exactly this name. */
  function Kid(ks: seq<Tree>, name: Name): (r: Option<Tree>)
    ensures r.Some? ==> r.value in ks && r.value.name == name
    ensures r.None? ==> forall i :: 0 <= i < |ks| ==> ks[i].name != name
  {
    if ks == [] then None else if ks[0].name == name then Some(ks[0]) else Kid(ks[1..], name)
  }

  /** Value of the first property with this name. */
  function Val(ps: seq<PropVal>, name: Name): Option<seq<byte>> {
    var i := PropIndex(ps, name);
    if i < |ps| then Some(ps[i].val) else None
  }

  function Find(t: Tree, path: seq<Name>): Option<Tree>
    decreases |path|
  {
    if path == [] then Some(t)
    else match Kid(t.kids, path[0])
      case None => None
      case Some(k) => Find(k, path[1..])
  }

  function ValAt(t: Tree, path: seq<Name>, name: Name): Option<seq<byte>> {
    match Find(t, path)
    case None => None
    case Some(n) => Val(n.props, name)
  }

  function Empty(name: Name): Tree {
    Tree(name, [], [])
  }

  predicate DistinctKids(ks: seq<Tree>) {
    forall i, j :: 0 <= i < j < |ks| ==> ks[i].name != ks[j].name
  }

  predicate DistinctProps(ps: seq<PropVal>) {
    forall i, j :: 0 <= i < j < |ps| ==> ps[i].name != ps[j].name
  }

  /** No node names a child or a property twice. */
  ghost predicate NamesOnce(o: Tree)
    decreases o
  {
    DistinctProps(o.props) && DistinctKids(o.kids) && forall j :: 0 <= j < |o.kids| ==> NamesOnce(o.kids[j])
  }

  /** The first sibling that answers to a name has exactly that name, if there is one. */
  predicate Exact(ks: seq<Tree>, name: Name) {
    KidIndex(ks, name) < |ks| ==> ks[KidIndex(ks, name)].name == name
  }

  /** The child loop meets no other sibling that answers to the name of an overlay child. */
  predicate Level(ks: seq<Tree>, os: seq<Tree>)
    decreases os
  {
    os == [] ||
    (Exact(ks, os[0].name) && Level(if KidIndex(ks, os[0].name) == |ks| then [Empty(os[0].name)] + ks else ks, os[1..]))
  }

  /** The merge meets none on any level. */
  ghost predicate Faithful(n: Tree, o: Tree)
    decreases o
  {
    Level(n.kids, o.kids) && forall j :: 0 <= j < |o.kids| ==> Faithful(Base(n.kids, o.kids[j].name), o.kids[j])
  }

  /** The node that an overlay child is merged into. */
  function Base(ks: seq<Tree>, name: Name): Tree {
    match Kid(ks, name)
    case Some(k) => k
    case None => Empty(name)
  }

  // ---------------------------------------------------------------- properties

  lemma ValWith(n: Tree, name: Name, val: seq<byte>, q: Name)
    ensures Val(WithProp(n, name, val).props, q) == if q == name then Some(val) else Val(n.props, q)
  {
    var i := PropIndex(n.props, name);
    var m := WithProp(n, name, val);
    PropIndexIs(m.props, q, if i < |n.props| then PropIndex(n.props, q) else if q == name then 0 else 1 + PropIndex(n.props, q));
  }

  lemma {:induction false} PropIndexIs(ps: seq<PropVal>, q: Name, i: nat)
    requires i <= |ps| && (i < |ps| ==> ps[i].name == q)
    requires forall k :: 0 <= k < i ==> ps[k].name != q
    ensures PropIndex(ps, q) == i
  {
  }

  /** The overlay's properties win, the others stay. */
  lemma {:induction false} MergePropsVal(n: Tree, ps: seq<PropVal>, q: Name)
    requires DistinctProps(ps)
    ensures var m := MergeProps(n, ps);
      && m.name == n.name && m.kids == n.kids
      && Val(m.props, q) == if Val(ps, q).Some? then Val(ps, q) else Val(n.props, q)
    decreases ps
  {
    if ps != [] {
      var n1 := WithProp(n, ps[0].name, ps[0].val);
      ValWith(n, ps[0].name, ps[0].val, q);
      assert DistinctProps(ps[1..]);
      MergePropsVal(n1, ps[1..], q);
      var i := PropIndex(ps[1..], q);
      if ps[0].name == q {
        assert forall k :: 0 <= k < |ps[1..]| ==> ps[1..][k] == ps[k + 1];
      }
    }
  }

  // ---------------------------------------------------------------- children

  lemma {:induction false} KidAt(ks: seq<Tree>, name: Name, i: nat)
    requires i < |ks| && ks[i].name == name && forall k :: 0 <= k < i ==> ks[k].name != name
    ensures Kid(ks, name) == Some(ks[i])
  {
    if i > 0 {
      assert forall k :: 0 <= k < i - 1 ==> ks[1..][k] == ks[k + 1];
      KidAt(ks[1..], name, i - 1);
    }
  }

  lemma {:induction false} KidAbsent(ks: seq<Tree>, name: Name)
    requires forall k :: 0 <= k < |ks| ==> ks[k].name != name
    ensures Kid(ks, name) == None
  {
  }

  lemma {:induction false} KidReplaced(ks: seq<Tree>, i: nat, x: Tree, q: Name)
    requires i < |ks| && x.name == ks[i].name && q != x.name
    ensures Kid(ks[i := x], q) == Kid(ks, q)
  {
    if i == 0 {
      assert ks[0 := x][1..] == ks[1..];
    } else {
      assert ks[i := x][1..] == ks[1..][i - 1 := x];
      KidReplaced(ks[1..], i - 1, x, q);
    }
  }

  lemma {:induction false} MergeName(n: Tree, o: Tree)
    ensures Merge(n, o).name == n.name
    decreases o, 1
  {
    MergePropsName(n, o.props);
    MergeKidsName(MergeProps(n, o.props), o.kids);
  }

  lemma {:induction false} MergePropsName(n: Tree, ps: seq<PropVal>)
    ensures MergeProps(n, ps).name == n.name && MergeProps(n, ps).kids == n.kids
    decreases ps
  {
    if ps != [] {
      MergePropsName(WithProp(n, ps[0].name, ps[0].val), ps[1..]);
    }
  }

  lemma {:induction false} MergeKidsName(n: Tree, ks: seq<Tree>)
    ensures MergeKids(n, ks).name == n.name && MergeKids(n, ks).props == n.props
    decreases ks, 0
  {
    if ks != [] {
      var (m, i) := WithChild(n, ks[0].name);
      MergeKidsName(m.(kids := m.kids[i := Merge(m.kids[i], ks[0])]), ks[1..]);
    }
  }

  /** One overlay child. */
  function Joined(n: Tree, k: Tree): Tree {
    var (m, i) := WithChild(n, k.name);
    m.(kids := m.kids[i := Merge(m.kids[i], k)])
  }

  lemma NameEqSelf(name: Name)
    ensures NameEq(name, name)
  {
  }

  lemma NoneBefore(ks: seq<Tree>, name: Name)
    ensures forall l :: 0 <= l < KidIndex(ks, name) ==> ks[l].name != name
  {
    forall l | 0 <= l < KidIndex(ks, name) ensures ks[l].name != name {
      NameEqSelf(ks[l].name);
    }
  }

  /** One overlay child: if the first sibling that answers to its name has that name,
      exactly the child of that name is merged into. */
  lemma MergeOne(n: Tree, k: Tree, q: Name)
    requires Exact(n.kids, k.name)
    ensures Kid(Joined(n, k).kids, q) == if q == k.name then Some(Merge(Base(n.kids, k.name), k)) else Kid(n.kids, q)
  {
    hide NameEq, Merge;
    var (m, i) := WithChild(n, k.name);
    var x := Merge(m.kids[i], k);
    MergeName(m.kids[i], k);
    var n1 := Joined(n, k);
    var found := KidIndex(n.kids, k.name);
    NoneBefore(n.kids, k.name);
    if found < |n.kids| {
      KidAt(n.kids, k.name, found);
    } else {
      KidAbsent(n.kids, k.name);
      assert m.kids[1..] == n.kids;
    }
    if q == k.name {
      KidAt(n1.kids, q, i);
    } else {
      KidReplaced(m.kids, i, x, q);
    }
  }

  /** Otherwise a sibling of another name is merged into, and the child of that name, if
      there is one, is left alone. */
  lemma MergeOther(n: Tree, k: Tree)
    requires !Exact(n.kids, k.name)
    ensures Kid(Joined(n, k).kids, k.name) == Kid(n.kids, k.name)
  {
    hide NameEq, Merge;
    var i := KidIndex(n.kids, k.name);
    MergeName(n.kids[i], k);
    KidReplaced(n.kids, i, Merge(n.kids[i], k), k.name);
  }

  /** An overlay child ends up under its own name if and only if nothing else answers to
      the name first, or the name was there already. */
  lemma OwnNameIff(n: Tree, k: Tree)
    ensures Kid(Joined(n, k).kids, k.name).Some? <==> Exact(n.kids, k.name) || Kid(n.kids, k.name).Some?
  {
    hide NameEq, Joined, KidIndex;
    if Exact(n.kids, k.name) {
      MergeOne(n, k, k.name);
    } else {
      MergeOther(n, k);
    }
  }

  predicate SameNames(ks: seq<Tree>, js: seq<Tree>) {
    |ks| == |js| && forall i :: 0 <= i < |ks| ==> ks[i].name == js[i].name
  }

  lemma {:induction false} SameIndex(ks: seq<Tree>, js: seq<Tree>, name: Name)
    requires SameNames(ks, js)
    ensures KidIndex(ks, name) == KidIndex(js, name)
  {
    hide NameEq;
    if ks != [] && !NameEq(ks[0].name, name) {
      SameIndex(ks[1..], js[1..], name);
    }
  }

  /** Whether a level is met without ambiguity depends on the names alone. */
  lemma {:induction false} SameLevel(ks: seq<Tree>, js: seq<Tree>, os: seq<Tree>, ps: seq<Tree>)
    requires SameNames(ks, js) && SameNames(os, ps)
    ensures Level(ks, os) == Level(js, ps)
    decreases os
  {
    hide NameEq, KidIndex;
    if os != [] {
      var name := os[0].name;
      SameIndex(ks, js, name);
      if KidIndex(ks, name) == |ks| {
        SameLevel([Empty(name)] + ks, [Empty(name)] + js, os[1..], ps[1..]);
      } else {
        SameLevel(ks, js, os[1..], ps[1..]);
      }
    }
  }

  lemma JoinedNames(n: Tree, k: Tree)
    ensures SameNames(Joined(n, k).kids, if KidIndex(n.kids, k.name) == |n.kids| then [Empty(k.name)] + n.kids else n.kids)
  {
    hide NameEq, Merge;
    var (m, i) := WithChild(n, k.name);
    MergeName(m.kids[i], k);
  }

  lemma JoinedLevel(n: Tree, os: seq<Tree>)
    requires os != [] && Level(n.kids, os)
    ensures Exact(n.kids, os[0].name) && Level(Joined(n, os[0]).kids, os[1..])
  {
    hide KidIndex, Joined;
    JoinedNames(n, os[0]);
    SameLevel(Joined(n, os[0]).kids, if KidIndex(n.kids, os[0].name) == |n.kids| then [Empty(os[0].name)] + n.kids else n.kids, os[1..], os[1..]);
  }

  /** All overlay children: each is merged into the child of its own name. */
  lemma {:induction false} MergeKidsKid(n: Tree, ks: seq<Tree>, q: Name)
    requires DistinctKids(ks) && Level(n.kids, ks)
    ensures Kid(MergeKids(n, ks).kids, q) ==
      match Kid(ks, q)
      case Some(k) => Some(Merge(Base(n.kids, q), k))
      case None => Kid(n.kids, q)
    decreases ks
  {
    hide Level, Merge, NameEq, KidIndex;
    if ks != [] {
      JoinedLevel(n, ks);
      MergeOne(n, ks[0], q);
      var rest := ks[1..];
      assert forall j :: 0 <= j < |rest| ==> rest[j] == ks[j + 1];
      MergeKidsKid(Joined(n, ks[0]), rest, q);
    }
  }

  // ---------------------------------------------------------------- the union

  lemma FindNothing(name: Name, path: seq<Name>)
    requires path != []
    ensures Find(Empty(name), path) == None
  {
  }

  /** A node is in the merged tree exactly when it is in one of the trees, and a property
      there has the overlay's value if the overlay has one, and the base's otherwise. */
  ghost predicate UnionAt(n: Tree, o: Tree, path: seq<Name>, q: Name) {
    && (Find(Merge(n, o), path).Some? <==> Find(n, path).Some? || Find(o, path).Some?)
    && ValAt(Merge(n, o), path, q) == if ValAt(o, path, q).Some? then ValAt(o, path, q) else ValAt(n, path, q)
  }

  /** Without ambiguity merging is the recursive right-biased union. */
  lemma {:induction false} MergeIsUnion(n: Tree, o: Tree, path: seq<Name>, q: Name)
    requires Faithful(n, o) && NamesOnce(o)
    ensures UnionAt(n, o, path, q)
    decreases |path|
  {
    hide Level, NameEq, KidIndex, MergeProps, MergeKids;
    var m := MergeProps(n, o.props);
    if path == [] {
      MergePropsVal(n, o.props, q);
      MergeKidsName(m, o.kids);
    } else {
      MergePropsName(n, o.props);
      MergeKidsKid(m, o.kids, path[0]);
      match Kid(o.kids, path[0])
      case None =>
      case Some(k) =>
        var j :| 0 <= j < |o.kids| && o.kids[j] == k;
        MergeIsUnion(Base(n.kids, path[0]), k, path[1..], q);
        if Kid(n.kids, path[0]).None? && path[1..] != [] {
          FindNothing(path[0], path[1..]);
        }
    }
  }

  // ---------------------------------------------------------------- exactly when

  /** The same nodes in the same places. */
  ghost predicate SameShape(o: Tree, o': Tree)
    decreases o
  {
    && o.name == o'.name && |o.kids| == |o'.kids|
    && forall j :: 0 <= j < |o.kids| ==> SameShape(o.kids[j], o'.kids[j])
  }

  /** Merging is the union for every overlay with these nodes, whatever its properties. */
  ghost predicate AlwaysUnion(n: Tree, o: Tree) {
    forall o': Tree, path: seq<Name>, q: Name :: SameShape(o, o') && NamesOnce(o') ==> UnionAt(n, o', path, q)
  }

  lemma {:induction false} ShapeFaithful(n: Tree, o: Tree, o': Tree)
    requires SameShape(o, o') && Faithful(n, o)
    ensures Faithful(n, o')
    decreases o
  {
    hide Level, KidIndex, NameEq;
    assert forall j :: 0 <= j < |o.kids| ==> SameShape(o.kids[j], o'.kids[j]) && o.kids[j].name == o'.kids[j].name;
    SameLevel(n.kids, n.kids, o.kids, o'.kids);
    forall j | 0 <= j < |o'.kids| ensures Faithful(Base(n.kids, o'.kids[j].name), o'.kids[j]) {
      ShapeFaithful(Base(n.kids, o.kids[j].name), o.kids[j], o'.kids[j]);
    }
  }

  /** The overlay without its properties. */
  function Bare(o: Tree): (r: Tree)
    ensures r.name == o.name && r.props == [] && |r.kids| == |o.kids|
    ensures forall j :: 0 <= j < |o.kids| ==> r.kids[j] == Bare(o.kids[j])
    decreases o, 0
  {
    Tree(o.name, [], BareAll(o.kids))
  }

  function BareAll(ks: seq<Tree>): (r: seq<Tree>)
    ensures |r| == |ks| && forall j :: 0 <= j < |ks| ==> r[j] == Bare(ks[j])
    decreases ks
  {
    if ks == [] then [] else [Bare(ks[0])] + BareAll(ks[1..])
  }

  lemma {:induction false} BareShape(o: Tree)
    requires NamesOnce(o)
    ensures SameShape(o, Bare(o)) && NamesOnce(Bare(o))
    decreases o
  {
    forall j | 0 <= j < |o.kids| ensures SameShape(o.kids[j], Bare(o).kids[j]) && NamesOnce(Bare(o).kids[j]) {
      BareShape(o.kids[j]);
    }
    assert forall j :: 0 <= j < |o.kids| ==> Bare(o).kids[j].name == o.kids[j].name;
  }

  /** The bare overlay with one child replaced. */
  function Only(o: Tree, j: nat, k: Tree): Tree
    requires j < |o.kids|
  {
    Tree(o.name, [], BareAll(o.kids)[j := k])
  }

  lemma OnlyShape(o: Tree, j: nat, k: Tree)
    requires j < |o.kids| && NamesOnce(o) && SameShape(o.kids[j], k) && NamesOnce(k)
    ensures SameShape(o, Only(o, j, k)) && NamesOnce(Only(o, j, k))
  {
    var r := Only(o, j, k);
    forall i | 0 <= i < |o.kids| ensures SameShape(o.kids[i], r.kids[i]) && NamesOnce(r.kids[i]) && r.kids[i].name == o.kids[i].name {
      if i != j {
        BareShape(o.kids[i]);
      }
    }
  }

  /** Overlay children without properties change those of no child. */
  lemma {:induction false} BareKeeps(n: Tree, ks: seq<Tree>, q: Name)
    requires forall j :: 0 <= j < |ks| ==> ks[j].props == []
    ensures var r := Kid(MergeKids(n, ks).kids, q);
      r.Some? ==> r.value.props == Base(n.kids, q).props
    decreases ks
  {
    hide NameEq, Merge, KidIndex;
    if ks != [] {
      JoinedProps(n, ks[0], q);
      BareKeeps(Joined(n, ks[0]), ks[1..], q);
    }
  }

  lemma JoinedProps(n: Tree, k: Tree, q: Name)
    requires k.props == []
    ensures Base(Joined(n, k).kids, q).props == Base(n.kids, q).props
  {
    hide NameEq, KidIndex;
    var (m, i) := WithChild(n, k.name);
    MergeName(m.kids[i], k);
    MergeKidsName(m.kids[i], k.kids);
    var x := Merge(m.kids[i], k);
    assert x.props == m.kids[i].props;
    KidSwapped(m.kids, i, x, q);
    if KidIndex(n.kids, k.name) == |n.kids| {
      assert m.kids[1..] == n.kids;
      if q == k.name {
        NoneBefore(n.kids, k.name);
        KidAbsent(n.kids, k.name);
      }
    }
  }

  lemma {:induction false} KidSwapped(ks: seq<Tree>, i: nat, x: Tree, q: Name)
    requires i < |ks| && x.name == ks[i].name && x.props == ks[i].props
    ensures Base(ks[i := x], q).props == Base(ks, q).props
  {
    if i > 0 && ks[0].name != q {
      assert ks[i := x][1..] == ks[1..][i - 1 := x];
      KidSwapped(ks[1..], i - 1, x, q);
    } else if ks[0].name != q {
      assert ks[0 := x][1..] == ks[1..];
    }
  }

  /** The first overlay child for which another sibling answers. */
  lemma {:induction false} FirstOther(n: Tree, ks: seq<Tree>) returns (j: nat)
    requires !Level(n.kids, ks)
    ensures j < |ks| && Level(n.kids, ks[..j]) && !Exact(MergeKids(n, ks[..j]).kids, ks[j].name)
    decreases ks
  {
    hide NameEq, Merge, KidIndex;
    if !Exact(n.kids, ks[0].name) {
      j := 0;
      assert ks[..0] == [];
    } else {
      JoinedNames(n, ks[0]);
      SameLevel(Joined(n, ks[0]).kids, if KidIndex(n.kids, ks[0].name) == |n.kids| then [Empty(ks[0].name)] + n.kids else n.kids, ks[1..], ks[1..]);
      var i := FirstOther(Joined(n, ks[0]), ks[1..]);
      j := i + 1;
      assert ks[..j][0] == ks[0] && ks[..j][1..] == ks[1..][..i] && ks[j] == ks[1..][i];
      SameLevel(Joined(n, ks[0]).kids, if KidIndex(n.kids, ks[0].name) == |n.kids| then [Empty(ks[0].name)] + n.kids else n.kids, ks[1..][..i], ks[1..][..i]);
    }
  }

  lemma {:induction false} MergeKidsConcat(n: Tree, a: seq<Tree>, b: seq<Tree>)
    ensures MergeKids(n, a + b) == MergeKids(MergeKids(n, a), b)
    decreases a
  {
    hide Merge, NameEq, KidIndex;
    if a == [] {
      assert a + b == b;
    } else {
      assert (a + b)[1..] == a[1..] + b;
      MergeKidsConcat(Joined(n, a[0]), a[1..], b);
    }
  }

  /** An ambiguous level: a property on the child that another sibling answers for does not
      arrive under the child's own name. */
  lemma MarkLevel(n: Tree, o: Tree) returns (o': Tree, path: seq<Name>, q: Name)
    requires NamesOnce(o) && !Level(n.kids, o.kids)
    ensures SameShape(o, o') && NamesOnce(o') && !UnionAt(n, o', path, q)
  {
    hide Level, Merge, MergeKids, NameEq, KidIndex, Exact, Joined, UnionAt, Val, NamesOnce, SameShape, Kid;
    var ks := BareAll(o.kids);
    SameLevel(n.kids, n.kids, o.kids, ks);
    var j := FirstOther(n, ks);
    var k := ks[j];
    var before := MergeKids(n, ks[..j]);
    q := [1];
    var v := if Val(Base(n.kids, k.name).props, q) == Some([0]) then [1] else [0];
    var k' := k.(props := [PropVal(q, v)]);
    OnceParts(o, j);
    BareShape(o.kids[j]);
    MarkedShape(o.kids[j], k, k');
    o', path := Only(o, j, k'), [k.name];
    OnlyShape(o, j, k');
    assert o'.kids == ks[..j] + ([k'] + ks[j + 1..]);
    MergeKidsConcat(n, ks[..j], [k'] + ks[j + 1..]);
    var after := Joined(before, k');
    assert Merge(n, o') == MergeKids(after, ks[j + 1..]) by {
      MergeBare(n, o');
      MergeFirst(before, k', ks[j + 1..]);
    }
    MergeOther(before, k');
    BareKeeps(n, ks[..j], k.name);
    BareKeeps(after, ks[j + 1..], k.name);
    NoValue(q);
    OnlyKid(o, j, k');
    OneValue(n, o', k.name, k', q, v);
  }

  lemma OnceParts(o: Tree, j: nat)
    requires NamesOnce(o) && j < |o.kids|
    ensures NamesOnce(o.kids[j]) && DistinctKids(o.kids)
  {
  }

  lemma OnlyKid(o: Tree, j: nat, k: Tree)
    requires NamesOnce(o) && j < |o.kids| && k.name == o.kids[j].name
    ensures Kid(Only(o, j, k).kids, k.name) == Some(k)
  {
    KidAt(Only(o, j, k).kids, k.name, j);
  }

  lemma FindOne(t: Tree, name: Name)
    ensures Find(t, [name]) == Kid(t.kids, name)
  {
    assert [name][1..] == [];
  }

  lemma OneValue(n: Tree, o: Tree, name: Name, k: Tree, q: Name, v: seq<byte>)
    requires Kid(o.kids, name) == Some(k) && k.props == [PropVal(q, v)]
    requires Val(Base(Merge(n, o).kids, name).props, q) != Some(v)
    ensures !UnionAt(n, o, [name], q)
  {
    hide Merge, Find;
    FindOne(o, name);
    FindOne(Merge(n, o), name);
    assert PropIndex(k.props, q) == 0;
  }

  lemma NoValue(q: Name)
    ensures Val([], q) == None
  {
  }

  lemma MarkedShape(o: Tree, k: Tree, k': Tree)
    requires SameShape(o, k) && NamesOnce(k) && k' == k.(props := k'.props) && |k'.props| == 1
    ensures SameShape(o, k') && NamesOnce(k')
  {
  }

  lemma MergeBare(n: Tree, o: Tree)
    requires o.props == []
    ensures Merge(n, o) == MergeKids(n, o.kids)
  {
  }

  lemma MergeFirst(n: Tree, k: Tree, ks: seq<Tree>)
    ensures MergeKids(n, [k] + ks) == MergeKids(Joined(n, k), ks)
  {
    hide Merge, NameEq, KidIndex;
    assert ([k] + ks)[1..] == ks;
  }

  /** An ambiguity anywhere shows for some properties of the overlay. */
  lemma {:induction false} Mark(n: Tree, o: Tree) returns (o': Tree, path: seq<Name>, q: Name)
    requires NamesOnce(o) && !Faithful(n, o)
    ensures SameShape(o, o') && NamesOnce(o') && !UnionAt(n, o', path, q)
    decreases o
  {
    hide Level, Merge, MergeKids, NameEq, KidIndex, UnionAt;
    if !Level(n.kids, o.kids) {
      o', path, q := MarkLevel(n, o);
    } else {
      var j :| 0 <= j < |o.kids| && !Faithful(Base(n.kids, o.kids[j].name), o.kids[j]);
      var name := o.kids[j].name;
      var k', below;
      k', below, q := Mark(Base(n.kids, name), o.kids[j]);
      o', path := Only(o, j, k'), [name] + below;
      OnlyShape(o, j, k');
      SameLevel(n.kids, n.kids, o.kids, o'.kids);
      OnlyKid(o, j, k');
      UnionBelow(n, o', name, k', below, q);
    }
  }

  lemma UnionBelow(n: Tree, o: Tree, name: Name, k: Tree, path: seq<Name>, q: Name)
    requires o.props == [] && DistinctKids(o.kids) && Level(n.kids, o.kids) && Kid(o.kids, name) == Some(k)
    ensures UnionAt(n, o, [name] + path, q) <==> UnionAt(Base(n.kids, name), k, path, q)
  {
    hide Level, Merge, MergeKids, NameEq, KidIndex;
    MergeBare(n, o);
    MergeKidsKid(n, o.kids, name);
    assert ([name] + path)[0] == name && ([name] + path)[1..] == path;
    if Kid(n.kids, name).None? && path != [] {
      FindNothing(name, path);
    }
  }

  /** Merging is the recursive right-biased union, whatever the overlay's properties, if
      and only if on every level the first sibling that answers to the name of an overlay
      child has that very name. */
  lemma MergeUnionIff(n: Tree, o: Tree)
    requires NamesOnce(o)
    ensures AlwaysUnion(n, o) <==> Faithful(n, o)
  {
    hide UnionAt, Faithful, NamesOnce, SameShape;
    if Faithful(n, o) {
      forall o': Tree, path: seq<Name>, q: Name | SameShape(o, o') && NamesOnce(o') ensures UnionAt(n, o', path, q) {
        ShapeFaithful(n, o, o');
        MergeIsUnion(n, o', path, q);
      }
    } else {
      var o', path, q := Mark(n, o);
    }
  }

  /** For one: an overlay's `c` is merged into the base's `c@0`, and no node of its own
      name comes to be. */
  lemma AmbiguousMerge(c: byte, n: Tree, o: Tree)
    requires c != '@' as int
    requires n == Tree([], [], [Empty([c, '@' as int, 48])]) && o == Tree([], [], [Empty([c])])
    ensures !Faithful(n, o) && Find(o, [[c]]).Some? && Find(Merge(n, o), [[c]]).None?
  {
    var k := o.kids[0];
    assert NameEq(n.kids[0].name, k.name);
    assert KidIndex(n.kids, k.name) == 0;
    MergeOther(n, k);
    MergeBare(n, o);
    assert o.kids == [k] + [];
    MergeFirst(n, k, []);
    KidAbsent(n.kids, k.name);
    FindOne(o, [c]);
    FindOne(Merge(n, o), [c]);
  }
}
