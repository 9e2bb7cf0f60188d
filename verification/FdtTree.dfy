/** The device tree that a structure block denotes, and the scans over its items
    that the library's readers perform. */
module FdtTree {
  import opened Wrappers
  import opened Bytes

  datatype PropVal = PropVal(name: seq<byte>, val: seq<byte>)

  datatype Tree = Tree(name: seq<byte>, props: seq<PropVal>, kids: seq<Tree>)

  /** One tagged item, free of offsets and padding. A property whose name offset
      does not denote a string has no name. */
  datatype Item =
    | IBegin(node: seq<byte>)
    | IEnd
    | IProp(name: Option<seq<byte>>, val: seq<byte>)
    | INop

  // ---------------------------------------------------------------- serialisation

  function PropItem(p: PropVal): Item {
    IProp(Some(p.name), p.val)
  }

  function SerProps(ps: seq<PropVal>): (r: seq<Item>)
    ensures |r| == |ps|
  {
    if ps == [] then [] else [PropItem(ps[0])] + SerProps(ps[1..])
  }

  function Ser(t: Tree): (r: seq<Item>)
    ensures |r| >= 2 && r[0] == IBegin(t.name)
    decreases t
  {
    [IBegin(t.name)] + Body(t)
  }

  /** Everything in a node after its begin tag. */
  function Body(t: Tree): (r: seq<Item>)
    ensures r != []
    decreases t, 0
  {
    SerProps(t.props) + (SerKids(t.kids) + [IEnd])
  }

  function SerKids(ks: seq<Tree>): (r: seq<Item>)
    ensures ks != [] ==> r != [] && r[0] == IBegin(ks[0].name)
    decreases ks
  {
    if ks == [] then [] else Ser(ks[0]) + SerKids(ks[1..])
  }

  lemma Join<T>(a: seq<T>, b: seq<T>, c: seq<T>)
    ensures (a + b) + c == a + (b + c)
  {
  }

  lemma Join4<T>(a: seq<T>, b: seq<T>, c: seq<T>, d: seq<T>)
    ensures a + (b + c) + d == a + (b + (c + d))
  {
  }

  lemma {:induction false} SerKidsConcat(a: seq<Tree>, b: seq<Tree>)
    ensures SerKids(a + b) == SerKids(a) + SerKids(b)
  {
    if a == [] {
      assert a + b == b;
    } else {
      SerKidsConcat(a[1..], b);
      assert (a + b)[1..] == a[1..] + b;
      Join(Ser(a[0]), SerKids(a[1..]), SerKids(b));
    }
  }

  lemma {:induction false} SerPropsConcat(a: seq<PropVal>, b: seq<PropVal>)
    ensures SerProps(a + b) == SerProps(a) + SerProps(b)
  {
    if a == [] {
      assert a + b == b;
    } else {
      SerPropsConcat(a[1..], b);
      assert (a + b)[1..] == a[1..] + b;
      Join([PropItem(a[0])], SerProps(a[1..]), SerProps(b));
    }
  }

  // ---------------------------------------------------------------- scans

  /** What is left after the item that closes the current node, `d` levels up. */
  function Close(x: seq<Item>, d: nat): Option<seq<Item>> {
    if x == [] then None
    else match x[0]
      case IBegin(_) => Close(x[1..], d + 1)
      case IEnd => if d == 0 then Some(x[1..]) else Close(x[1..], d - 1)
      case _ => Close(x[1..], d)
  }

  /** The items from the first property called `name` among those that open a body. */
  function FindProp(x: seq<Item>, name: seq<byte>): Option<seq<Item>> {
    if x == [] then None
    else match x[0]
      case IProp(n, _) => if n == Some(name) then Some(x) else FindProp(x[1..], name)
      case INop => FindProp(x[1..], name)
      case _ => None
  }

  /** A node name answers to `want` in full, or up to its unit address. */
  predicate NameEq(name: seq<byte>, want: seq<byte>) {
    && want <= name
    && (|name| == |want| || ('@' as int !in want && name[|want|] == '@' as int))
  }

  /** The items from the first direct child that answers to `want`. */
  function FindSub(x: seq<Item>, d: nat, want: seq<byte>): Option<seq<Item>> {
    if x == [] then None
    else match x[0]
      case IBegin(n) => if d == 0 && NameEq(n, want) then Some(x) else FindSub(x[1..], d + 1, want)
      case IEnd => if d == 0 then None else FindSub(x[1..], d - 1, want)
      case _ => FindSub(x[1..], d, want)
  }

  /** What is left after the properties that open a body. */
  function AfterProps(x: seq<Item>): seq<Item> {
    if x != [] && (x[0].IProp? || x[0].INop?) then AfterProps(x[1..]) else x
  }

  // ---------------------------------------------------------------- no-ops do not matter

  function Strip(x: seq<Item>): seq<Item> {
    if x == [] then []
    else if x[0].INop? then Strip(x[1..])
    else [x[0]] + Strip(x[1..])
  }

  function StripAll(o: Option<seq<Item>>): Option<seq<Item>> {
    match o
    case None => None
    case Some(x) => Some(Strip(x))
  }

  lemma {:induction false} StripConcat(a: seq<Item>, b: seq<Item>)
    ensures Strip(a + b) == Strip(a) + Strip(b)
  {
    if a == [] {
      assert a + b == b;
    } else {
      StripConcat(a[1..], b);
      assert (a + b)[1..] == a[1..] + b;
      Join([a[0]], Strip(a[1..]), Strip(b));
    }
  }

  lemma {:induction false} StripClose(x: seq<Item>, d: nat)
    ensures Close(Strip(x), d) == StripAll(Close(x, d))
  {
    if x != [] {
      assert !x[0].INop? ==> Strip(x)[1..] == Strip(x[1..]);
      match x[0]
      case IBegin(_) => StripClose(x[1..], d + 1);
      case IEnd => if d > 0 { StripClose(x[1..], d - 1); }
      case _ => StripClose(x[1..], d);
    }
  }

  lemma {:induction false} StripFindProp(x: seq<Item>, name: seq<byte>)
    ensures FindProp(Strip(x), name) == StripAll(FindProp(x, name))
  {
    if x != [] {
      assert !x[0].INop? ==> Strip(x)[1..] == Strip(x[1..]);
      StripFindProp(x[1..], name);
    }
  }

  lemma {:induction false} StripFindSub(x: seq<Item>, d: nat, want: seq<byte>)
    ensures FindSub(Strip(x), d, want) == StripAll(FindSub(x, d, want))
  {
    if x != [] {
      assert !x[0].INop? ==> Strip(x)[1..] == Strip(x[1..]);
      match x[0]
      case IBegin(_) => StripFindSub(x[1..], d + 1, want);
      case IEnd => if d > 0 { StripFindSub(x[1..], d - 1, want); }
      case _ => StripFindSub(x[1..], d, want);
    }
  }

  lemma {:induction false} StripAfterProps(x: seq<Item>)
    ensures AfterProps(Strip(x)) == Strip(AfterProps(x))
  {
    if x != [] && (x[0].IProp? || x[0].INop?) {
      assert !x[0].INop? ==> Strip(x)[1..] == Strip(x[1..]);
      StripAfterProps(x[1..]);
    }
  }

  // ---------------------------------------------------------------- scans over trees

  lemma {:induction false} CloseProps(ps: seq<PropVal>, x: seq<Item>, d: nat)
    ensures Close(SerProps(ps) + x, d) == Close(x, d)
  {
    if ps == [] {
      assert SerProps(ps) + x == x;
    } else {
      assert (SerProps(ps) + x)[1..] == SerProps(ps[1..]) + x;
      CloseProps(ps[1..], x, d);
    }
  }

  lemma {:induction false} CloseBody(t: Tree, x: seq<Item>, d: nat)
    ensures d > 0 ==> Close(Body(t) + x, d) == Close(x, d - 1)
    ensures d == 0 ==> Close(Body(t) + x, d) == Some(x)
    decreases t, 0
  {
    Join4(SerProps(t.props), SerKids(t.kids), [IEnd], x);
    CloseProps(t.props, SerKids(t.kids) + ([IEnd] + x), d);
    CloseKids(t.kids, [IEnd] + x, d);
    assert ([IEnd] + x)[1..] == x;
  }

  lemma {:induction false} CloseKids(ks: seq<Tree>, x: seq<Item>, d: nat)
    ensures Close(SerKids(ks) + x, d) == Close(x, d)
    decreases ks
  {
    if ks == [] {
      assert SerKids(ks) + x == x;
    } else {
      var y := SerKids(ks[1..]) + x;
      assert SerKids(ks) + x == [IBegin(ks[0].name)] + (Body(ks[0]) + y);
      assert ([IBegin(ks[0].name)] + (Body(ks[0]) + y))[1..] == Body(ks[0]) + y;
      CloseBody(ks[0], y, d + 1);
      CloseKids(ks[1..], x, d);
    }
  }

  /** Index of the first property called `name`, or the number of properties. */
  function PropIndex(ps: seq<PropVal>, name: seq<byte>): (i: nat)
    ensures i <= |ps|
    ensures i < |ps| ==> ps[i].name == name
    ensures forall k :: 0 <= k < i ==> ps[k].name != name
  {
    if ps == [] || ps[0].name == name then 0 else 1 + PropIndex(ps[1..], name)
  }

  ghost predicate NoProp(x: seq<Item>) {
    x != [] && (x[0].IBegin? || x[0].IEnd?)
  }

  lemma {:induction false} FindPropTree(ps: seq<PropVal>, x: seq<Item>, name: seq<byte>)
    requires NoProp(x)
    ensures FindProp(SerProps(ps) + x, name) ==
      if PropIndex(ps, name) < |ps| then Some(SerProps(ps[PropIndex(ps, name)..]) + x) else None
  {
    if ps == [] {
      assert SerProps(ps) + x == x;
    } else {
      assert (SerProps(ps) + x)[1..] == SerProps(ps[1..]) + x;
      FindPropTree(ps[1..], x, name);
      var i := PropIndex(ps[1..], name);
      assert ps[1..][i..] == ps[i + 1..];
    }
  }

  lemma {:induction false} AfterPropsTree(ps: seq<PropVal>, x: seq<Item>)
    requires NoProp(x)
    ensures AfterProps(SerProps(ps) + x) == x
  {
    if ps == [] {
      assert SerProps(ps) + x == x;
    } else {
      assert (SerProps(ps) + x)[1..] == SerProps(ps[1..]) + x;
      AfterPropsTree(ps[1..], x);
    }
  }

  /** Index of the first child that answers to `want`, or the number of children. */
  function KidIndex(ks: seq<Tree>, want: seq<byte>): (i: nat)
    ensures i <= |ks|
    ensures i < |ks| ==> NameEq(ks[i].name, want)
    ensures forall k :: 0 <= k < i ==> !NameEq(ks[k].name, want)
  {
    if ks == [] || NameEq(ks[0].name, want) then 0 else 1 + KidIndex(ks[1..], want)
  }

  lemma {:induction false} SkipProps(ps: seq<PropVal>, x: seq<Item>, d: nat, want: seq<byte>)
    ensures FindSub(SerProps(ps) + x, d, want) == FindSub(x, d, want)
  {
    if ps == [] {
      assert SerProps(ps) + x == x;
    } else {
      assert (SerProps(ps) + x)[1..] == SerProps(ps[1..]) + x;
      SkipProps(ps[1..], x, d, want);
    }
  }

  lemma {:induction false} SkipBody(t: Tree, x: seq<Item>, d: nat, want: seq<byte>)
    requires d > 0
    ensures FindSub(Body(t) + x, d, want) == FindSub(x, d - 1, want)
    decreases t, 0
  {
    Join4(SerProps(t.props), SerKids(t.kids), [IEnd], x);
    SkipProps(t.props, SerKids(t.kids) + ([IEnd] + x), d, want);
    SkipKids(t.kids, [IEnd] + x, d, want);
    assert ([IEnd] + x)[1..] == x;
  }

  lemma {:induction false} SkipKids(ks: seq<Tree>, x: seq<Item>, d: nat, want: seq<byte>)
    requires d > 0
    ensures FindSub(SerKids(ks) + x, d, want) == FindSub(x, d, want)
    decreases ks
  {
    if ks == [] {
      assert SerKids(ks) + x == x;
    } else {
      var y := SerKids(ks[1..]) + x;
      assert SerKids(ks) + x == [IBegin(ks[0].name)] + (Body(ks[0]) + y);
      assert ([IBegin(ks[0].name)] + (Body(ks[0]) + y))[1..] == Body(ks[0]) + y;
      SkipBody(ks[0], y, d + 1, want);
      SkipKids(ks[1..], x, d, want);
    }
  }

  lemma {:induction false} FindSubKids(ks: seq<Tree>, x: seq<Item>, want: seq<byte>)
    requires x != [] && x[0].IEnd?
    ensures FindSub(SerKids(ks) + x, 0, want) ==
      if KidIndex(ks, want) < |ks| then Some(SerKids(ks[KidIndex(ks, want)..]) + x) else None
  {
    if ks == [] {
      assert SerKids(ks) + x == x;
    } else {
      var y := SerKids(ks[1..]) + x;
      assert SerKids(ks) + x == [IBegin(ks[0].name)] + (Body(ks[0]) + y);
      assert ([IBegin(ks[0].name)] + (Body(ks[0]) + y))[1..] == Body(ks[0]) + y;
      SkipBody(ks[0], y, 1, want);
      FindSubKids(ks[1..], x, want);
      var i := KidIndex(ks[1..], want);
      assert ks[1..][i..] == ks[i + 1..];
    }
  }

  lemma FindSubBody(t: Tree, x: seq<Item>, want: seq<byte>)
    ensures FindSub(Body(t) + x, 0, want) ==
      var i := KidIndex(t.kids, want);
      if i < |t.kids| then Some(SerKids(t.kids[i..]) + ([IEnd] + x)) else None
  {
    Join4(SerProps(t.props), SerKids(t.kids), [IEnd], x);
    SkipProps(t.props, SerKids(t.kids) + ([IEnd] + x), 0, want);
    FindSubKids(t.kids, [IEnd] + x, want);
  }

  lemma FindPropBody(t: Tree, x: seq<Item>, name: seq<byte>)
    ensures var i := PropIndex(t.props, name);
      var y := SerKids(t.kids) + ([IEnd] + x);
      && Body(t) + x == SerProps(t.props) + y
      && FindProp(Body(t) + x, name) == (if i < |t.props| then Some(SerProps(t.props[i..]) + y) else None)
      && AfterProps(Body(t) + x) == y
      && y != []
  {
    var y := SerKids(t.kids) + ([IEnd] + x);
    Join4(SerProps(t.props), SerKids(t.kids), [IEnd], x);
    assert NoProp(y);
    FindPropTree(t.props, y, name);
    AfterPropsTree(t.props, y);
  }

  // ---------------------------------------------------------------- paths and edits

  /** A node below `t`, as the child indices that lead to it. */
  type Path = seq<nat>

  predicate Has(t: Tree, p: Path) {
    p == [] || (p[0] < |t.kids| && Has(t.kids[p[0]], p[1..]))
  }

  function Sub(t: Tree, p: Path): Tree
    requires Has(t, p)
  {
    if p == [] then t else Sub(t.kids[p[0]], p[1..])
  }

  /** `t` with the node at `p` replaced. */
  function Graft(t: Tree, p: Path, n: Tree): Tree
    requires Has(t, p)
  {
    if p == [] then n
    else t.(kids := t.kids[p[0] := Graft(t.kids[p[0]], p[1..], n)])
  }

  /** `t` without the node at `p`. */
  function Prune(t: Tree, p: Path): Tree
    requires Has(t, p) && p != []
  {
    if |p| == 1 then t.(kids := t.kids[..p[0]] + t.kids[p[0] + 1..])
    else t.(kids := t.kids[p[0] := Prune(t.kids[p[0]], p[1..])])
  }

  /** The items before and after the node at `p`. */
  function Before(t: Tree, p: Path): seq<Item>
    requires Has(t, p)
  {
    if p == [] then []
    else [IBegin(t.name)] + SerProps(t.props) + SerKids(t.kids[..p[0]]) + Before(t.kids[p[0]], p[1..])
  }

  function After(t: Tree, p: Path): seq<Item>
    requires Has(t, p)
  {
    if p == [] then []
    else After(t.kids[p[0]], p[1..]) + (SerKids(t.kids[p[0] + 1..]) + [IEnd])
  }

  lemma SerSplit(t: Tree, i: nat)
    requires i < |t.kids|
    ensures Ser(t) == ([IBegin(t.name)] + SerProps(t.props) + SerKids(t.kids[..i])) + Ser(t.kids[i]) + (SerKids(t.kids[i + 1..]) + [IEnd])
  {
    assert t.kids == t.kids[..i] + t.kids[i..];
    SerKidsConcat(t.kids[..i], t.kids[i..]);
    assert t.kids[i..][1..] == t.kids[i + 1..];
    var a, b, c := SerKids(t.kids[..i]), Ser(t.kids[i]), SerKids(t.kids[i + 1..]);
    assert SerKids(t.kids) == a + (b + c);
    Regroup([IBegin(t.name)], SerProps(t.props), a, b, c, [IEnd]);
  }

  lemma Regroup<T>(h: seq<T>, p: seq<T>, a: seq<T>, b: seq<T>, c: seq<T>, e: seq<T>)
    ensures h + (p + ((a + (b + c)) + e)) == (h + p + a) + b + (c + e)
  {
  }

  lemma Nest<T>(a: seq<T>, x: seq<T>, y: seq<T>, z: seq<T>, c: seq<T>)
    ensures a + (x + y + z) + c == (a + x) + y + (z + c)
  {
  }

  /** A node's items sit whole inside the items of the tree, and grafting another
      node replaces exactly them. */
  lemma {:induction false} SerGraft(t: Tree, p: Path, n: Tree)
    requires Has(t, p)
    ensures Ser(t) == Before(t, p) + Ser(Sub(t, p)) + After(t, p)
    ensures Ser(Graft(t, p, n)) == Before(t, p) + Ser(n) + After(t, p)
    decreases |p|
  {
    if p != [] {
      var i, k := p[0], t.kids[p[0]];
      SerGraft(k, p[1..], n);
      SerSplit(t, i);
      var a := [IBegin(t.name)] + SerProps(t.props) + SerKids(t.kids[..i]);
      var c := SerKids(t.kids[i + 1..]) + [IEnd];
      Nest(a, Before(k, p[1..]), Ser(Sub(k, p[1..])), After(k, p[1..]), c);
      var t' := Graft(t, p, n);
      assert t'.kids[..i] == t.kids[..i] && t'.kids[i + 1..] == t.kids[i + 1..];
      SerSplit(t', i);
      Nest(a, Before(k, p[1..]), Ser(n), After(k, p[1..]), c);
    }
  }

  lemma {:induction false} SerPrune(t: Tree, p: Path)
    requires Has(t, p) && p != []
    ensures Ser(Prune(t, p)) == Before(t, p) + After(t, p)
    decreases |p|
  {
    var i, k := p[0], t.kids[p[0]];
    var a := [IBegin(t.name)] + SerProps(t.props) + SerKids(t.kids[..i]);
    var c := SerKids(t.kids[i + 1..]) + [IEnd];
    var t' := Prune(t, p);
    if |p| == 1 {
      SerKidsConcat(t.kids[..i], t.kids[i + 1..]);
      assert p[1..] == [];
      assert Before(t, p) == a + [] && After(t, p) == [] + c;
      RegroupTwo([IBegin(t.name)], SerProps(t.props), SerKids(t.kids[..i]), SerKids(t.kids[i + 1..]), [IEnd]);
    } else {
      SerPrune(k, p[1..]);
      assert t'.kids[..i] == t.kids[..i] && t'.kids[i + 1..] == t.kids[i + 1..];
      SerSplit(t', i);
      NestTwo(a, Before(k, p[1..]), After(k, p[1..]), c);
    }
  }

  lemma RegroupTwo<T>(h: seq<T>, p: seq<T>, a: seq<T>, c: seq<T>, e: seq<T>)
    ensures h + (p + ((a + c) + e)) == (h + p + a) + (c + e)
  {
  }

  lemma NestTwo<T>(a: seq<T>, x: seq<T>, z: seq<T>, c: seq<T>)
    ensures a + (x + z) + c == (a + x) + (z + c)
  {
  }

  // ---------------------------------------------------------------- decoding is unique

  lemma {:induction false} SerPropsUnique(p: seq<PropVal>, q: seq<PropVal>, x: seq<Item>, y: seq<Item>)
    requires NoProp(x) && NoProp(y) && SerProps(p) + x == SerProps(q) + y
    ensures p == q && x == y
  {
    PropsShape(p, x);
    PropsShape(q, y);
    if p != [] && q != [] {
      assert PropItem(p[0]) == PropItem(q[0]);
      SerPropsUnique(p[1..], q[1..], x, y);
      assert p == [p[0]] + p[1..] && q == [q[0]] + q[1..];
    }
  }

  lemma PropsShape(ps: seq<PropVal>, x: seq<Item>)
    requires NoProp(x)
    ensures ps == [] ==> SerProps(ps) + x == x
    ensures ps != [] ==> (SerProps(ps) + x)[0] == PropItem(ps[0]) && (SerProps(ps) + x)[1..] == SerProps(ps[1..]) + x
  {
    if ps == [] {
      assert SerProps(ps) + x == x;
    } else {
      Join([PropItem(ps[0])], SerProps(ps[1..]), x);
    }
  }

  lemma BodyShape(t: Tree, x: seq<Item>)
    ensures Body(t) + x == SerProps(t.props) + (SerKids(t.kids) + ([IEnd] + x))
    ensures NoProp(SerKids(t.kids) + ([IEnd] + x))
  {
    Join4(SerProps(t.props), SerKids(t.kids), [IEnd], x);
  }

  lemma {:induction false} BodyUnique(a: Tree, b: Tree, x: seq<Item>, y: seq<Item>)
    requires Body(a) + x == Body(b) + y
    ensures a.props == b.props && a.kids == b.kids && x == y
    decreases a, 0
  {
    BodyShape(a, x);
    BodyShape(b, y);
    SerPropsUnique(a.props, b.props, SerKids(a.kids) + ([IEnd] + x), SerKids(b.kids) + ([IEnd] + y));
    KidsUnique(a.kids, b.kids, x, y);
  }

  lemma KidsShape(ks: seq<Tree>, x: seq<Item>)
    requires ks != []
    ensures SerKids(ks) + x == [IBegin(ks[0].name)] + (Body(ks[0]) + (SerKids(ks[1..]) + x))
  {
  }

  lemma {:induction false} KidsUnique(a: seq<Tree>, b: seq<Tree>, x: seq<Item>, y: seq<Item>)
    requires SerKids(a) + ([IEnd] + x) == SerKids(b) + ([IEnd] + y)
    ensures a == b && x == y
    decreases a
  {
    var l, r := SerKids(a) + ([IEnd] + x), SerKids(b) + ([IEnd] + y);
    if a == [] || b == [] {
      assert a == [] ==> l[0] == IEnd;
      assert b == [] ==> r[0] == IEnd;
      assert a == b == [];
      assert l[1..] == x && r[1..] == y;
    } else {
      KidsShape(a, [IEnd] + x);
      KidsShape(b, [IEnd] + y);
      var u, v := SerKids(a[1..]) + ([IEnd] + x), SerKids(b[1..]) + ([IEnd] + y);
      assert l[0] == IBegin(a[0].name) && r[0] == IBegin(b[0].name);
      assert l[1..] == Body(a[0]) + u && r[1..] == Body(b[0]) + v;
      BodyUnique(a[0], b[0], u, v);
      KidsUnique(a[1..], b[1..], x, y);
      assert a == [a[0]] + a[1..] && b == [b[0]] + b[1..];
    }
  }

  /** At most one tree serialises to a given item sequence. */
  lemma SerUnique(a: Tree, b: Tree)
    requires Ser(a) == Ser(b)
    ensures a == b
  {
    assert Ser(a)[0] == IBegin(a.name) && Ser(b)[0] == IBegin(b.name);
    assert Ser(a)[1..] == Body(a) + [] && Ser(b)[1..] == Body(b) + [];
    BodyUnique(a, b, [], []);
  }

  /** Every begin item of a tree's serialisation opens the node at some path. */
  lemma {:induction false} PathTo(t: Tree, n: nat) returns (p: Path)
    requires n < |Ser(t)| && Ser(t)[n].IBegin?
    ensures Has(t, p) && |Before(t, p)| == n
    decreases t
  {
    if n == 0 {
      p := [];
    } else {
      var a := [IBegin(t.name)] + SerProps(t.props);
      SerPropsPlain(t.props);
      assert Ser(t) == a + (SerKids(t.kids) + [IEnd]);
      assert n >= |a|;
      assert n < |a| + |SerKids(t.kids)|;
      assert Ser(t)[n] == SerKids(t.kids)[n - |a|];
      var i, m := KidTo(t.kids, n - |a|);
      var q := PathTo(t.kids[i], m);
      p := [i] + q;
      assert p[1..] == q;
    }
  }

  lemma {:induction false} SerPropsPlain(ps: seq<PropVal>)
    ensures forall i :: 0 <= i < |ps| ==> SerProps(ps)[i].IProp?
  {
    if ps != [] {
      SerPropsPlain(ps[1..]);
    }
  }

  lemma {:induction false} KidTo(ks: seq<Tree>, n: nat) returns (i: nat, m: nat)
    requires n < |SerKids(ks)|
    ensures i < |ks| && m < |Ser(ks[i])| && n == |SerKids(ks[..i])| + m
    ensures SerKids(ks)[n] == Ser(ks[i])[m]
  {
    if n < |Ser(ks[0])| {
      i, m := 0, n;
    } else {
      var j, l := KidTo(ks[1..], n - |Ser(ks[0])|);
      i, m := j + 1, l;
      assert ks[..i][0] == ks[0] && ks[..i][1..] == ks[1..][..j];
    }
  }
}
