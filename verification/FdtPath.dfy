/** fdt_get_path and fdt_path_offset: the path that one writes is the path that the
    other resolves. */
module FdtPath {
  import opened Wrappers
  import opened Bytes
  import opened FdtFormat
  import opened FdtTree
  import opened FdtRead
  import opened FdtEdit
  import opened FdtEditTheorems
  import opened FdtEditResults
  import opened FdtMerge

  const SLASH: int := '/' as int

  // ---------------------------------------------------------------- writing a path

  /** The path under construction without its last component: `p--` until `buf[p-1]` is a slash. */
  function Pop(buf: seq<byte>): (r: seq<byte>)
    ensures |r| <= |buf|
  {
    if |buf| <= 1 then []
    else if buf[|buf| - 2] == SLASH then buf[..|buf| - 1]
    else Pop(buf[..|buf| - 1])
  }

  /** The components written so far and how many there are. */
  datatype Stack = Stack(buf: seq<byte>, pdepth: nat)

  function PopTo(k: Stack, depth: int): (r: Stack)
    ensures |r.buf| <= |k.buf|
    decreases k.pdepth
  {
    if k.pdepth > depth && k.pdepth > 0 then PopTo(Stack(Pop(k.buf), k.pdepth - 1), depth) else k
  }

  /** The components after visiting a node called `name` at `depth`. */
  function Visit(k: Stack, depth: int, name: seq<byte>, buflen: int): Stack {
    var k1 := PopTo(k, depth);
    if k1.pdepth >= depth && |k1.buf| + |name| + 1 <= buflen
    then Stack(k1.buf + name + [SLASH], k1.pdepth + 1) else k1
  }

  /** A path or a negated error. */
  datatype Got = Got(err: int, path: seq<byte>)

  /** The loop of fdt_get_path. */
  function GetPathLoop(s: seq<byte>, node: int, at: Place, k: Stack, buflen: int): Got
    decreases if at.offset >= 0 && at.depth >= 0 then 1 + (if at.offset < |s| then |s| - at.offset else 0) else 0
  {
    hide NextTag, U32, NulFrom;
    if at.offset < 0 || at.offset > node then
      Got(if at.offset == -NOTFOUND || at.offset >= 0 then -BADOFFSET
          else if at.offset == -BADOFFSET then -BADSTRUCTURE else at.offset, [])
    else if at.depth < 0 || CheckNodeOffset(s, at.offset) < 0 then Got(-BADOFFSET, [])
    else
      var name := if at.offset + 4 <= |s| then NodeName(s, at.offset) else [];
      var k' := Visit(k, at.depth, name, buflen);
      if at.offset == node then
        if k'.pdepth < at.depth + 1 then Got(-NOSPACE, [])
        else Got(0, if |k'.buf| > 1 then k'.buf[..|k'.buf| - 1] else k'.buf)
      else GetPathLoop(s, node, NextNode(s, at.offset, at.depth), k', buflen)
  }

  /** fdt_get_path: the path as stored before its NUL. */
  function GetPath(s: seq<byte>, node: int, buflen: int): Got {
    if buflen < 2 then Got(-NOSPACE, []) else GetPathLoop(s, node, Place(0, 0), Stack([], 0), buflen)
  }

  // ---------------------------------------------------------------- resolving a path

  /** First slash at or after `i`, or the end. */
  function SlashFrom(path: seq<byte>, i: nat): (e: nat)
    requires i <= |path|
    ensures i <= e <= |path|
    decreases |path| - i
  {
    if i == |path| || path[i] == SLASH then i else SlashFrom(path, i + 1)
  }

  /** The loop of fdt_path_offset_namelen from character `i`, at the node `offset`. */
  function PathOffsetFrom(s: seq<byte>, path: seq<byte>, i: nat, offset: int): int
    requires i <= |path|
    decreases |path| - i
  {
    if i == |path| then offset
    else if path[i] == SLASH then PathOffsetFrom(s, path, i + 1, offset)
    else
      var e := SlashFrom(path, i);
      var sub := SubnodeOffset(s, offset, path[i..e]);
      if sub < 0 then sub else PathOffsetFrom(s, path, e, sub)
  }

  /** fdt_path_offset of an absolute path. */
  function PathOffset(s: seq<byte>, path: seq<byte>): int
    requires path != [] && path[0] == SLASH
  {
    PathOffsetFrom(s, path, 0, 0)
  }

  const ALIASES: seq<byte> := [SLASH] + Text("aliases")

  /** The string stored at `at`. */
  function StringIn(s: seq<byte>, at: nat): seq<byte>
    requires at <= |s|
  {
    s[at..NulFrom(s, at)]
  }

  /** fdt_get_alias_namelen: the property of that name of the node /aliases, or an error. */
  function AliasAt(b: Blob, name: seq<byte>): (p: int)
    requires Sound(b)
    ensures p >= 0 ==> p + 12 <= |Struct(b)|
  {
    hide NextTag, U32, Align4, GetProp, PathOffsetFrom, Clip;
    var s := Struct(b);
    var node := PathOffset(s, ALIASES);
    if node < 0 then node
    else
      var p := GetProp(s, Strings(b), node, name);
      NextTagFacts(s, p);
      p
  }

  /** fdt_path_offset. A path that does not start at the root starts at an alias, whose
      value is again a path: `None` when that goes on for more than `fuel` aliases. */
  function Lookup(b: Blob, path: seq<byte>, fuel: nat): Option<int>
    requires Sound(b)
    decreases fuel
  {
    hide PathOffsetFrom, AliasAt, StringIn, Clip;
    if path != [] && path[0] == SLASH then Some(PathOffset(Struct(b), path))
    else
      var e := SlashFrom(path, 0);
      var p := AliasAt(b, path[..e]);
      if p < 0 then Some(-BADPATH)
      else if fuel == 0 then None
      else match Lookup(b, StringIn(Struct(b), p + 12), fuel - 1)
        case None => None
        case Some(at) => Some(PathOffsetFrom(Struct(b), path, e, at))
  }

  // ---------------------------------------------------------------- the path of a node

  /** Names from the root to the node at `p`. */
  function Names(t: Tree, p: Path): (r: seq<seq<byte>>)
    requires Has(t, p)
    ensures |r| == |p| + 1 && r[0] == t.name
  {
    [t.name] + if p == [] then [] else Names(t.kids[p[0]], p[1..])
  }

  /** Names each followed by a slash. */
  function Full(ns: seq<seq<byte>>): seq<byte> {
    if ns == [] then [] else ns[0] + [SLASH] + Full(ns[1..])
  }

  predicate SlashFree(ns: seq<seq<byte>>) {
    forall i :: 0 <= i < |ns| ==> SLASH !in ns[i]
  }

  lemma {:induction false} FullConcat(a: seq<seq<byte>>, b: seq<seq<byte>>)
    ensures Full(a + b) == Full(a) + Full(b)
  {
    if a == [] {
      assert a + b == b;
    } else {
      FullConcat(a[1..], b);
      assert (a + b)[1..] == a[1..] + b;
    }
  }

  lemma FullSnoc(ns: seq<seq<byte>>, m: seq<byte>)
    ensures Full(ns + [m]) == Full(ns) + m + [SLASH]
  {
    FullConcat(ns, [m]);
    assert [m][1..] == [];
  }

  /** Popping takes off exactly the last component. */
  lemma PopSnoc(ns: seq<seq<byte>>, m: seq<byte>)
    requires SLASH !in m && ns != []
    ensures Pop(Full(ns + [m])) == Full(ns)
  {
    FullSnoc(ns, m);
    var n, l := ns[..|ns| - 1], ns[|ns| - 1];
    assert ns == n + [l];
    FullSnoc(n, l);
    var f := Full(ns);
    assert f[|f| - 1] == SLASH;
    PopName(f, m, [SLASH]);
  }

  lemma {:induction false} PopName(f: seq<byte>, m: seq<byte>, tail: seq<byte>)
    requires SLASH !in m && f != [] && f[|f| - 1] == SLASH && |tail| == 1
    ensures Pop(f + m + tail) == f
    decreases |m|
  {
    var b := f + m + tail;
    if m == [] {
      assert b[|b| - 2] == SLASH && b[..|b| - 1] == f;
    } else {
      var m', c := m[..|m| - 1], m[|m| - 1];
      assert b[|b| - 2] == c;
      assert b[..|b| - 1] == f + m' + [c];
      PopName(f, m', [c]);
    }
  }

  /** The stack that holds the names `ns`. */
  function Holding(ns: seq<seq<byte>>): Stack {
    Stack(Full(ns), |ns|)
  }

  lemma {:induction false} PopToHolding(ns: seq<seq<byte>>, depth: nat)
    requires SlashFree(ns) && depth > 0
    ensures PopTo(Holding(ns), depth) == Holding(if depth < |ns| then ns[..depth] else ns)
    decreases |ns|
  {
    if |ns| > depth {
      var n, m := ns[..|ns| - 1], ns[|ns| - 1];
      assert ns == n + [m];
      PopSnoc(n, m);
      PopToHolding(n, depth);
      assert n[..depth] == ns[..depth];
    }
  }

  /** A step of the walk: deeper components go, and the name is added if it fits and
      all names above it are there. */
  function Step1(ns: seq<seq<byte>>, depth: nat, name: seq<byte>, buflen: int): (r: seq<seq<byte>>)
  {
    var up := if depth < |ns| then ns[..depth] else ns;
    if |up| >= depth && |Full(up)| + |name| + 1 <= buflen then up + [name] else up
  }

  lemma VisitStep(ns: seq<seq<byte>>, depth: nat, name: seq<byte>, buflen: int)
    requires SlashFree(ns) && SLASH !in name && (depth > 0 || ns == [])
    ensures Visit(Holding(ns), depth, name, buflen) == Holding(Step1(ns, depth, name, buflen))
    ensures SlashFree(Step1(ns, depth, name, buflen))
  {
    if depth > 0 {
      PopToHolding(ns, depth);
    }
    var up := if depth < |ns| then ns[..depth] else ns;
    FullSnoc(up, name);
  }

  // ---------------------------------------------------------------- the walk over items

  function Up(ns: seq<seq<byte>>, d: nat): seq<seq<byte>> {
    if d < |ns| then ns[..d] else ns
  }

  /** The walk down to the begin item that has `n` items left: the names then held, and
      the depth. `d` nodes are open. */
  function PathWalk(x: seq<Item>, d: nat, ns: seq<seq<byte>>, n: nat, buflen: int): Option<(seq<seq<byte>>, nat)> {
    if x == [] then None
    else match x[0]
      case IBegin(m) =>
        var ns' := Step1(ns, d, m, buflen);
        if |x| == n then Some((ns', d)) else PathWalk(x[1..], d + 1, ns', n, buflen)
      case IEnd => if d <= 1 then None else PathWalk(x[1..], d - 1, ns, n, buflen)
      case _ => PathWalk(x[1..], d, ns, n, buflen)
  }

  ghost predicate NamesSlashFree(toks: seq<Token>) {
    forall i :: 0 <= i < |toks| && toks[i].BeginNode? ==> SLASH !in toks[i].name
  }

  function Verdict(w: (seq<seq<byte>>, nat)): Got {
    var (ns, depth) := w;
    if |ns| < depth + 1 then Got(-NOSPACE, [])
    else
      var f := Full(ns);
      Got(0, if |f| > 1 then f[..|f| - 1] else f)
  }

  lemma SuffixOrder(toks: seq<Token>, rest: seq<Token>, u: seq<Token>, st: seq<byte>)
    requires Suffix(rest, toks) && Suffix(u, toks) && |u| <= |rest| && u != []
    ensures At(toks, rest) <= At(toks, u) && (At(toks, rest) == At(toks, u) <==> rest == u)
    ensures rest[0].BeginNode? ==> (|Strip(Items(rest, st))| == |Strip(Items(u, st))| <==> rest == u)
    ensures rest != u ==> |u| <= |rest[1..]|
  {
    hide StringAt;
    var a := rest[..|rest| - |u|];
    assert rest == a + u;
    LenConcat(a, u);
    ItemsConcat(a, u, st);
    StripConcat(Items(a, st), Items(u, st));
    if rest != u {
      assert a != [] && a[0] == rest[0];
      ItemsTail(a, st);
    }
  }

  /** One visit of fdt_get_path at a node's tokens. */
  lemma VisitAt(s: seq<byte>, toks: seq<Token>, rest: seq<Token>, node: nat, d: nat, ns: seq<seq<byte>>, buflen: int)
    requires Holds(s, toks) && Suffix(rest, toks) && rest != [] && rest[0].BeginNode?
    requires At(toks, rest) <= node && SlashFree(ns) && SLASH !in rest[0].name && (d > 0 || ns == [])
    ensures Suffix(rest[1..], toks)
    ensures var ns' := Step1(ns, d, rest[0].name, buflen);
      && SlashFree(ns')
      && GetPathLoop(s, node, Place(At(toks, rest), d), Holding(ns), buflen) ==
        if At(toks, rest) == node then Verdict((ns', d))
        else GetPathLoop(s, node, NextNodeFrom(s, At(toks, rest[1..]), d), Holding(ns'), buflen)
  {
    hide NextTag, U32, NulFrom, Holds, At, Size, Step1, Visit, Full, NextNodeFrom;
    StepAt(s, toks, rest);
    VisitStep(ns, d, rest[0].name, buflen);
  }

  lemma {:induction false} WalkBytes(s: seq<byte>, st: seq<byte>, toks: seq<Token>, rest: seq<Token>, u: seq<Token>,
                                     d: nat, ns: seq<seq<byte>>, buflen: int)
    requires Holds(s, toks) && Suffix(rest, toks) && Suffix(u, toks) && |u| <= |rest| && u != [] && u[0].BeginNode?
    requires d >= 1 && SlashFree(ns) && NamesSlashFree(toks)
    requires PathWalk(Strip(Items(rest, st)), d, ns, |Strip(Items(u, st))|, buflen).Some?
    ensures GetPathLoop(s, At(toks, u), NextNodeFrom(s, At(toks, rest), d - 1), Holding(ns), buflen) ==
      Verdict(PathWalk(Strip(Items(rest, st)), d, ns, |Strip(Items(u, st))|, buflen).value)
    decreases |rest|
  {
    hide NextTag, U32, NulFrom, Holds, At, StringAt, Size, Step1, GetPathLoop, Holding, Verdict, SlashFree, NamesSlashFree;
    StepAt(s, toks, rest);
    ItemsTail(rest, st);
    SuffixOrder(toks, rest, u, st);
    var x := Strip(Items(rest, st));
    if !rest[0].Nop? {
      FirstItem(rest, st);
      assert x[0] == ItemOf(rest[0], st) && x[1..] == Strip(Items(rest[1..], st));
    }
    if rest[0].BeginNode? {
      NameSlashFree(toks, rest);
      VisitAt(s, toks, rest, At(toks, u), d, ns, buflen);
      if rest != u {
        WalkBytes(s, st, toks, rest[1..], u, d + 1, Step1(ns, d, rest[0].name, buflen), buflen);
      }
    } else {
      WalkBytes(s, st, toks, rest[1..], u, if rest[0].EndNode? then d - 1 else d, ns, buflen);
    }
  }

  lemma NameSlashFree(toks: seq<Token>, rest: seq<Token>)
    requires NamesSlashFree(toks) && Suffix(rest, toks) && rest != [] && rest[0].BeginNode?
    ensures SLASH !in rest[0].name
  {
    assert rest[0] == toks[|toks| - |rest|];
  }

  // ---------------------------------------------------------------- the walk over trees

  lemma StepUp(ns: seq<seq<byte>>, d: nat, m: seq<byte>, buflen: int)
    ensures Up(Step1(ns, d, m, buflen), d) == Up(ns, d)
  {
  }

  lemma {:induction false} PastProps(ps: seq<PropVal>, x: seq<Item>, d: nat, ns: seq<seq<byte>>, n: nat, buflen: int)
    ensures PathWalk(SerProps(ps) + x, d, ns, n, buflen) == PathWalk(x, d, ns, n, buflen)
  {
    if ps == [] {
      assert SerProps(ps) + x == x;
    } else {
      assert (SerProps(ps) + x)[1..] == SerProps(ps[1..]) + x;
      PastProps(ps[1..], x, d, ns, n, buflen);
    }
  }

  /** A body that the walk leaves behind changes no name above it. */
  lemma {:induction false} PastBody(t: Tree, x: seq<Item>, d: nat, ns: seq<seq<byte>>, n: nat, buflen: int) returns (ns': seq<seq<byte>>)
    requires d >= 2 && n <= |x|
    ensures Up(ns', d) == Up(ns, d)
    ensures PathWalk(Body(t) + x, d, ns, n, buflen) == PathWalk(x, d - 1, ns', n, buflen)
    decreases t, 0
  {
    BodyShape(t, x);
    PastProps(t.props, SerKids(t.kids) + ([IEnd] + x), d, ns, n, buflen);
    ns' := PastKids(t.kids, [IEnd] + x, d, ns, n, buflen);
    assert ([IEnd] + x)[1..] == x;
  }

  lemma {:induction false} PastKids(ks: seq<Tree>, x: seq<Item>, d: nat, ns: seq<seq<byte>>, n: nat, buflen: int) returns (ns': seq<seq<byte>>)
    requires d >= 1 && n <= |x|
    ensures Up(ns', d) == Up(ns, d)
    ensures PathWalk(SerKids(ks) + x, d, ns, n, buflen) == PathWalk(x, d, ns', n, buflen)
    decreases ks
  {
    hide Step1;
    if ks == [] {
      assert SerKids(ks) + x == x;
      ns' := ns;
    } else {
      var y := SerKids(ks[1..]) + x;
      KidsShape(ks, x);
      var l := SerKids(ks) + x;
      assert l[0] == IBegin(ks[0].name) && l[1..] == Body(ks[0]) + y && |l| > n;
      var ns1 := Step1(ns, d, ks[0].name, buflen);
      StepUp(ns, d, ks[0].name, buflen);
      var ns2 := PastBody(ks[0], y, d + 1, ns1, n, buflen);
      UpUp(ns2, ns1, d);
      ns' := PastKids(ks[1..], x, d, ns2, n, buflen);
    }
  }

  lemma UpUp(a: seq<seq<byte>>, b: seq<seq<byte>>, d: nat)
    requires Up(a, d + 1) == Up(b, d + 1)
    ensures Up(a, d) == Up(b, d)
  {
    assert Up(Up(a, d + 1), d) == Up(a, d) && Up(Up(b, d + 1), d) == Up(b, d);
  }

  /** The names held after walking straight down `names`. */
  function Climb(ns: seq<seq<byte>>, d: nat, names: seq<seq<byte>>, buflen: int): seq<seq<byte>>
    decreases names
  {
    if names == [] then ns else Climb(Step1(ns, d, names[0], buflen), d + 1, names[1..], buflen)
  }

  /** The walk reaches the node at `p` holding the names of its path, as far as they fit. */
  lemma {:induction false} WalkTo(t: Tree, p: Path, z: seq<Item>, d: nat, ns: seq<seq<byte>>, n: nat, buflen: int)
    requires Has(t, p) && n == |Ser(Sub(t, p)) + After(t, p) + z| && (d > 0 || ns == [])
    ensures PathWalk(Ser(t) + z, d, ns, n, buflen) == Some((Climb(ns, d, Names(t, p), buflen), d + |p|))
    decreases |p|
  {
    hide Step1;
    SerHead(t, z);
    var l := Ser(t) + z;
    var ns1 := Step1(ns, d, t.name, buflen);
    if p == [] {
      assert After(t, p) == [];
      assert Ser(t) + [] + z == l;
      assert Names(t, p)[1..] == [];
    } else {
      var k := t.kids[p[0]];
      var y := SerKids(t.kids[p[0] + 1..]) + ([IEnd] + z);
      var ns2 := WalkDown(t, p, z, d, ns, n, buflen);
      RestLonger(t, p, z, y);
      WalkTo(k, p[1..], y, d + 1, ns2, n, buflen);
      assert Names(t, p)[1..] == Names(k, p[1..]);
      ClimbUp(ns1, ns2, d + 1, Names(k, p[1..]), buflen);
    }
  }

  /** From a node's begin tag to the child on the way. */
  lemma WalkDown(t: Tree, p: Path, z: seq<Item>, d: nat, ns: seq<seq<byte>>, n: nat, buflen: int) returns (ns2: seq<seq<byte>>)
    requires Has(t, p) && p != [] && n == |Ser(Sub(t, p)) + After(t, p) + z| && (d > 0 || ns == [])
    ensures Up(ns2, d + 1) == Up(Step1(ns, d, t.name, buflen), d + 1)
    ensures PathWalk(Ser(t) + z, d, ns, n, buflen) ==
      PathWalk(Ser(t.kids[p[0]]) + (SerKids(t.kids[p[0] + 1..]) + ([IEnd] + z)), d + 1, ns2, n, buflen)
  {
    hide Step1, Ser, SerProps, SerKids, After, Before, Body;
    var i, k := p[0], t.kids[p[0]];
    SerHead(t, z);
    SerGraft(t, p, Sub(t, p));
    NotFirst(t, p);
    var y := SerKids(t.kids[i + 1..]) + ([IEnd] + z);
    BodyFrom(t, i, z, y);
    var rest := Ser(k) + y;
    RestLonger(t, p, z, y);
    var ns1 := Step1(ns, d, t.name, buflen);
    PastProps(t.props, SerKids(t.kids[..i]) + rest, d + 1, ns1, n, buflen);
    ns2 := PastKids(t.kids[..i], rest, d + 1, ns1, n, buflen);
    var l := Ser(t) + z;
    assert l[1..] == Body(t) + z;
  }

  lemma NotFirst(t: Tree, p: Path)
    requires Has(t, p) && p != []
    ensures |Before(t, p)| > 0
  {
  }

  lemma ClimbUp(a: seq<seq<byte>>, b: seq<seq<byte>>, d: nat, names: seq<seq<byte>>, buflen: int)
    requires Up(a, d) == Up(b, d) && names != []
    ensures Climb(a, d, names, buflen) == Climb(b, d, names, buflen)
  {
  }

  lemma BodyFrom(t: Tree, i: nat, z: seq<Item>, y: seq<Item>)
    requires i < |t.kids| && y == SerKids(t.kids[i + 1..]) + ([IEnd] + z)
    ensures Body(t) + z == SerProps(t.props) + (SerKids(t.kids[..i]) + (Ser(t.kids[i]) + y))
  {
    hide Ser, SerProps;
    BodyShape(t, z);
    assert t.kids == t.kids[..i] + t.kids[i..];
    SerKidsConcat(t.kids[..i], t.kids[i..]);
    assert t.kids[i..][1..] == t.kids[i + 1..];
    Join(SerKids(t.kids[..i]), SerKids(t.kids[i..]), [IEnd] + z);
    Join(Ser(t.kids[i]), SerKids(t.kids[i + 1..]), [IEnd] + z);
  }

  lemma RestLonger(t: Tree, p: Path, z: seq<Item>, y: seq<Item>)
    requires Has(t, p) && p != [] && y == SerKids(t.kids[p[0] + 1..]) + ([IEnd] + z)
    ensures |Ser(Sub(t, p)) + After(t, p) + z| == |Ser(Sub(t.kids[p[0]], p[1..])) + After(t.kids[p[0]], p[1..]) + y|
    ensures |Ser(Sub(t, p)) + After(t, p) + z| <= |Ser(t.kids[p[0]]) + y|
  {
    hide Ser, SerKids, SerProps;
    var k := t.kids[p[0]];
    SerGraft(k, p[1..], Sub(k, p[1..]));
  }

  /** Walking straight down holds all the names exactly when they fit. */
  lemma {:induction false} ClimbFits(ns: seq<seq<byte>>, d: nat, names: seq<seq<byte>>, buflen: int)
    requires |ns| <= d && |Full(ns)| <= buflen
    ensures var r := Climb(ns, d, names, buflen);
      if |ns| == d && |Full(ns + names)| <= buflen then r == ns + names else |r| < d + |names| || (names == [] && r == ns)
    decreases names
  {
    if names == [] {
      assert ns + names == ns;
    } else {
      var m := names[0];
      var ns1 := Step1(ns, d, m, buflen);
      FullSnoc(ns, m);
      assert ns + names == ns + [m] + names[1..];
      FullConcat(ns + [m], names[1..]);
      ClimbFits(ns1, d + 1, names[1..], buflen);
    }
  }

  // ---------------------------------------------------------------- fdt_get_path

  /** The path of the node at `p`. */
  function PathOf(t: Tree, p: Path): seq<byte>
    requires Has(t, p)
  {
    var f := Full(Names(t, p));
    if |f| > 1 then f[..|f| - 1] else f
  }

  /** fdt_get_path writes the node's path, or reports NOSPACE exactly when the path and
      its NUL do not fit. */
  lemma GetPathTheorem(b: Blob, toks: seq<Token>, t: Tree, r: seq<Token>, p: Path, buflen: int)
    requires Reads(b, toks, t) && Locates(b, toks, t, r, p)
    requires toks != [] && toks[0].BeginNode? && t.name == [] && NamesSlashFree(toks)
    ensures GetPath(Struct(b), At(toks, r), buflen) ==
      if |PathOf(t, p)| + 1 <= buflen then Got(0, PathOf(t, p)) else Got(-NOSPACE, [])
  {
    hide NextTag, U32, NulFrom, Holds, At, StringAt, Size, Step1, GetPathLoop, SlashFree, NamesSlashFree, Ser, After, Before, Struct, Strings, Strip;
    var s, st := Struct(b), Strings(b);
    var names := Names(t, p);
    FullFirst(names);
    if buflen >= 2 {
      Located(b, toks, t, r, p);
      var n := |Strip(Items(r, st))|;
      assert Ser(t) + [] == Ser(t) && Ser(Sub(t, p)) + After(t, p) + [] == Ser(Sub(t, p)) + After(t, p);
      WalkTo(t, p, [], 0, [], n, buflen);
      FromRoot(b, toks, t, r, p, buflen);
      assert Full([]) == [];
      ClimbFits([], 0, names, buflen);
      assert [] + names == names;
    }
  }

  lemma FullFirst(names: seq<seq<byte>>)
    requires names != [] && names[0] == []
    ensures |Full(names)| >= 1 && (|names| > 1 ==> |Full(names)| > 1)
    ensures |names| == 1 ==> Full(names) == [SLASH]
  {
    if |names| > 1 {
      assert names[1..] != [];
    } else {
      assert names[1..] == [];
    }
  }

  /** The walk of fdt_get_path from the root, seen through the items. */
  lemma FromRoot(b: Blob, toks: seq<Token>, t: Tree, r: seq<Token>, p: Path, buflen: int)
    requires Reads(b, toks, t) && Locates(b, toks, t, r, p) && NamesSlashFree(toks)
    requires PathWalk(Ser(t), 0, [], |Strip(Items(r, Strings(b)))|, buflen).Some?
    requires toks != [] && toks[0].BeginNode?
    ensures GetPathLoop(Struct(b), At(toks, r), Place(0, 0), Stack([], 0), buflen) ==
      Verdict(PathWalk(Ser(t), 0, [], |Strip(Items(r, Strings(b)))|, buflen).value)
  {
    hide NextTag, U32, NulFrom, Holds, StringAt, Size, Step1, GetPathLoop, Ser, After, Before, Struct, Strings, NamesSlashFree, Verdict;
    var s, st := Struct(b), Strings(b);
    SuffixOrder(toks, toks, r, st);
    FirstItem(toks, st);
    var x := Strip(Items(toks, st));
    assert x[0] == ItemOf(toks[0], st) && x[1..] == Strip(Items(toks[1..], st));
    NameSlashFree(toks, toks);
    assert Holding([]) == Stack([], 0);
    VisitAt(s, toks, toks, At(toks, r), 0, [], buflen);
    if toks != r {
      WalkBytes(s, st, toks, toks[1..], r, 1, Step1([], 0, toks[0].name, buflen), buflen);
    }
  }

  // ---------------------------------------------------------------- fdt_path_offset

  /** Names each preceded by a slash. */
  function Slashed(ns: seq<seq<byte>>): seq<byte> {
    if ns == [] then [] else [SLASH] + ns[0] + Slashed(ns[1..])
  }

  lemma {:induction false} FullSlashed(m: seq<byte>, ns: seq<seq<byte>>)
    ensures Full([m] + ns) == m + Slashed(ns) + [SLASH]
    decreases ns
  {
    assert ([m] + ns)[1..] == ns;
    if ns == [] {
      assert Full(ns) == [];
    } else {
      FullSlashed(ns[0], ns[1..]);
      assert [ns[0]] + ns[1..] == ns;
    }
  }

  /** Every step from the node `t` along `p` goes to the first sibling that answers to
      its name. */
  ghost predicate Unshadowed(t: Tree, p: Path)
    requires Has(t, p)
    decreases |p|
  {
    p == [] || (KidIndex(t.kids, t.kids[p[0]].name) == p[0] && Unshadowed(t.kids[p[0]], p[1..]))
  }

  predicate Proper(ns: seq<seq<byte>>) {
    forall i :: 0 <= i < |ns| ==> ns[i] != [] && SLASH !in ns[i]
  }

  lemma {:induction false} SlashAfter(pre: seq<byte>, m: seq<byte>, post: seq<byte>, i: nat)
    requires SLASH !in m && |pre| <= i <= |pre| + |m| && (post == [] || post[0] == SLASH)
    ensures SlashFrom(pre + m + post, i) == |pre| + |m|
    decreases |pre| + |m| - i
  {
    var s := pre + m + post;
    if i < |pre| + |m| {
      assert s[i] == m[i - |pre|];
      SlashAfter(pre, m, post, i + 1);
    } else if post != [] {
      assert s[i] == post[0];
    }
  }

  /** Two suffixes that open the node at the same path are the same. */
  lemma LocatedOnce(b: Blob, toks: seq<Token>, t: Tree, r: seq<Token>, k: seq<Token>, p: Path)
    requires Reads(b, toks, t) && Locates(b, toks, t, r, p) && Locates(b, toks, t, k, p)
    ensures r == k
  {
    hide Ser, Before, After, Struct, Holds, Strings;
    var st := Strings(b);
    StripSplit(toks, r, st);
    StripSplit(toks, k, st);
    if |k| <= |r| {
      SuffixOrder(toks, r, k, st);
    } else {
      SuffixOrder(toks, k, r, st);
    }
  }

  lemma {:induction false} SubPath(t: Tree, p: Path, q: Path)
    requires Has(t, p) && Has(Sub(t, p), q)
    ensures Has(t, p + q) && Sub(t, p + q) == Sub(Sub(t, p), q)
    decreases |p|
  {
    if p == [] {
      assert p + q == q;
    } else {
      assert (p + q)[1..] == p[1..] + q;
      SubPath(t.kids[p[0]], p[1..], q);
    }
  }

  /** Where a component starts and ends in a path. */
  lemma Component(pre: seq<byte>, m: seq<byte>, more: seq<byte>)
    requires m != [] && SLASH !in m && (more == [] || more[0] == SLASH)
    ensures var (path, i) := (pre + [SLASH] + m + more, |pre| + 1);
      && i < |path| && path[|pre|] == SLASH && path[i] != SLASH
      && SlashFrom(path, i) == i + |m| && path[i..i + |m|] == m
  {
    hide SlashFrom;
    var path := pre + [SLASH] + m + more;
    SlashAfter(pre + [SLASH], m, more, |pre| + 1);
    assert path[|pre| + 1] == m[0];
  }

  /** One component of a path. */
  lemma PathStep(s: seq<byte>, pre: seq<byte>, m: seq<byte>, more: seq<byte>, offset: int)
    requires m != [] && SLASH !in m && (more == [] || more[0] == SLASH)
    ensures var path := pre + [SLASH] + m + more;
      var sub := SubnodeOffset(s, offset, m);
      PathOffsetFrom(s, path, |pre|, offset) ==
        if sub < 0 then sub else PathOffsetFrom(s, path, |pre| + 1 + |m|, sub)
  {
    hide SubnodeOffset, SlashFrom, PathOffsetFrom;
    Component(pre, m, more);
    AtComponent(s, pre + [SLASH] + m + more, |pre|, m, offset);
  }

  lemma AtPathEnd(s: seq<byte>, path: seq<byte>, offset: int)
    ensures PathOffsetFrom(s, path, |path|, offset) == offset
  {
  }

  lemma AtComponent(s: seq<byte>, path: seq<byte>, i: nat, m: seq<byte>, offset: int)
    requires i + 1 < |path| && path[i] == SLASH && path[i + 1] != SLASH
    requires i + 1 + |m| <= |path| && SlashFrom(path, i + 1) == i + 1 + |m| && path[i + 1..i + 1 + |m|] == m
    ensures var sub := SubnodeOffset(s, offset, m);
      PathOffsetFrom(s, path, i, offset) ==
        if sub < 0 then sub else PathOffsetFrom(s, path, i + 1 + |m|, sub)
  {
    hide SubnodeOffset, SlashFrom;
    assert PathOffsetFrom(s, path, i, offset) == PathOffsetFrom(s, path, i + 1, offset);
  }

  /** Resolving the rest of a path from a located node. */
  lemma {:induction false} Resolve(b: Blob, toks: seq<Token>, t: Tree, k: seq<Token>, p: Path, q: Path, r: seq<Token>, pre: seq<byte>)
    requires Reads(b, toks, t) && Locates(b, toks, t, k, p) && Locates(b, toks, t, r, p + q)
    requires Has(Sub(t, p), q) && Unshadowed(Sub(t, p), q) && Proper(Names(Sub(t, p), q)[1..])
    ensures PathOffsetFrom(Struct(b), pre + Slashed(Names(Sub(t, p), q)[1..]), |pre|, At(toks, k)) == At(toks, r)
    decreases |q|
  {
    hide Ser, Before, After, Struct, Holds, Strings, At, SubnodeOffset, Strip, Items, SlashFrom, PathOffsetFrom, Lead;
    var n := Sub(t, p);
    if q == [] {
      assert p + q == p;
      LocatedOnce(b, toks, t, k, r, p);
      assert Names(n, q)[1..] == [];
      assert pre + [] == pre;
      AtPathEnd(Struct(b), pre, At(toks, k));
    } else {
      var i := q[0];
      var m := n.kids[i].name;
      var tail := Names(n, q)[1..];
      assert tail == Names(n.kids[i], q[1..]);
      assert tail[0] == m;
      var more := Slashed(tail[1..]);
      var path := pre + Slashed(tail);
      assert path == pre + [SLASH] + m + more;
      SlashedHead(tail[1..]);
      PathStep(Struct(b), pre, m, more, At(toks, k));
      var kid := KidLocated(b, toks, t, k, p, m);
      SubPath(t, p, [i]);
      assert [i][1..] == [];
      assert p + [i] + q[1..] == p + q;
      assert forall j :: 0 <= j < |tail[1..]| ==> tail[1..][j] == tail[j + 1];
      Resolve(b, toks, t, kid, p + [i], q[1..], r, pre + [SLASH] + m);
      assert pre + [SLASH] + m + more == path;
    }
  }

  /** Resolving the path that fdt_get_path writes leads back to the node. */
  lemma PathRoundTrip(b: Blob, toks: seq<Token>, t: Tree, r: seq<Token>, p: Path, buflen: int)
    requires Reads(b, toks, t) && Locates(b, toks, t, r, p)
    requires toks != [] && toks[0].BeginNode? && t.name == [] && NamesSlashFree(toks)
    requires Proper(Names(t, p)[1..]) && Unshadowed(t, p) && GetPath(Struct(b), At(toks, r), buflen).err == 0
    ensures var path := GetPath(Struct(b), At(toks, r), buflen).path;
      path != [] && path[0] == SLASH && PathOffset(Struct(b), path) == At(toks, r)
  {
    hide Ser, After, Struct, Holds, Strings, SubnodeOffset, GetPath, Slashed;
    GetPathTheorem(b, toks, t, r, p, buflen);
    var names := Names(t, p);
    assert names == [[]] + names[1..];
    FullSlashed([], names[1..]);
    RootLocated(b, toks, t);
    assert [] + p == p;
    Resolve(b, toks, t, toks, [], p, r, []);
    assert At(toks, toks) == 0;
    SlashedHead(names[1..]);
    if p == [] {
      assert names[1..] == [];
      LocatedOnce(b, toks, t, toks, r, []);
      assert PathOf(t, p) == [SLASH];
      SlashOnly(Struct(b));
    } else {
      assert [] + Slashed(names[1..]) == PathOf(t, p);
    }
  }

  lemma SlashOnly(s: seq<byte>)
    ensures PathOffsetFrom(s, [SLASH], 0, 0) == 0
  {
    assert PathOffsetFrom(s, [SLASH], 1, 0) == 0;
  }

  lemma SlashedHead(ns: seq<seq<byte>>)
    ensures ns == [] ==> Slashed(ns) == []
    ensures ns != [] ==> Slashed(ns) != [] && Slashed(ns)[0] == SLASH
  {
  }

  lemma RootLocated(b: Blob, toks: seq<Token>, t: Tree)
    requires Reads(b, toks, t) && toks != [] && toks[0].BeginNode?
    ensures Locates(b, toks, t, toks, [])
  {
    assert Lead(toks, toks) == [];
  }
}
