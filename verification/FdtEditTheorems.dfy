/** Every successful editor turns the denoted tree into the corresponding tree edit;
    a failed one leaves the denoted tree as it was. */
module FdtEditTheorems {
  import opened Wrappers
  import opened Bytes
  import opened FdtFormat
  import opened FdtTree
  import opened FdtRead
  import opened FdtEdit
  import opened FdtEditBlocks

  // ---------------------------------------------------------------- tree edits

  /** A node with `name` set to `val`: in place if it is there, first otherwise. */
  function WithProp(n: Tree, name: seq<byte>, val: seq<byte>): Tree {
    var i := PropIndex(n.props, name);
    if i < |n.props| then n.(props := n.props[i := PropVal(name, val)])
    else n.(props := [PropVal(name, val)] + n.props)
  }

  function WithAppended(n: Tree, name: seq<byte>, val: seq<byte>): Tree {
    var i := PropIndex(n.props, name);
    if i < |n.props| then n.(props := n.props[i := PropVal(name, n.props[i].val + val)])
    else n.(props := [PropVal(name, val)] + n.props)
  }

  function WithoutProp(n: Tree, name: seq<byte>): Tree {
    var i := PropIndex(n.props, name);
    if i < |n.props| then n.(props := n.props[..i] + n.props[i + 1..]) else n
  }

  /** A node with an empty child put first. */
  function WithKid(n: Tree, name: seq<byte>): Tree {
    n.(kids := [Tree(name, [], [])] + n.kids)
  }

  // ---------------------------------------------------------------- denotation

  /** The structure block denotes `t`: all that the readers rely on. */
  ghost predicate Reads(b: Blob, toks: seq<Token>, t: Tree) {
    Sound(b) && Holds(Struct(b), toks) && Strip(Items(toks, Strings(b))) == Ser(t)
  }

  /** The blob denotes `t` and is open for editing. */
  ghost predicate Denotes(b: Blob, toks: seq<Token>, t: Tree) {
    Reads(b, toks, t) && RwProbe(b) == 0
  }

  ghost function Lead(toks: seq<Token>, r: seq<Token>): seq<Token>
    requires |r| <= |toks|
  {
    toks[..|toks| - |r|]
  }

  /** The tokens from `r` on open the node at path `p`; its offset is At(toks, r). */
  ghost predicate Locates(b: Blob, toks: seq<Token>, t: Tree, r: seq<Token>, p: Path)
    requires Sound(b)
  {
    && Suffix(r, toks) && r != [] && r[0].BeginNode? && Has(t, p)
    && Strip(Items(Lead(toks, r), Strings(b))) == Before(t, p)
  }

  lemma Rejoin<T>(toks: seq<T>, r: seq<T>)
    requires Suffix(r, toks)
    ensures toks == toks[..|toks| - |r|] + r
  {
  }

  lemma Cancel<T>(a: seq<T>, x: seq<T>, y: seq<T>)
    requires a + x == a + y
    ensures x == y
  {
    assert (a + x)[|a|..] == x && (a + y)[|a|..] == y;
  }

  lemma CancelRight<T>(a: seq<T>, b: seq<T>, x: seq<T>)
    requires a + x == b + x
    ensures a == b
  {
    assert (a + x)[..|a|] == a && (b + x)[..|b|] == b;
  }

  lemma StripSplit(toks: seq<Token>, r: seq<Token>, t: seq<byte>)
    requires Suffix(r, toks)
    ensures Strip(Items(toks, t)) == Strip(Items(Lead(toks, r), t)) + Strip(Items(r, t))
  {
    Rejoin(toks, r);
    ItemsConcat(Lead(toks, r), r, t);
    StripConcat(Items(Lead(toks, r), t), Items(r, t));
  }

  /** What the located node's tokens denote. */
  lemma Located(b: Blob, toks: seq<Token>, t: Tree, r: seq<Token>, p: Path)
    requires Reads(b, toks, t) && Locates(b, toks, t, r, p)
    ensures Strip(Items(r, Strings(b))) == Ser(Sub(t, p)) + After(t, p)
    ensures Strip(Items(r[1..], Strings(b))) == Body(Sub(t, p)) + After(t, p)
    ensures r[0].name == Sub(t, p).name && Suffix(r[1..], toks)
  {
    hide Ser, Before, After, Strings, Struct, Holds, RwProbe;
    var st := Strings(b);
    StripSplit(toks, r, st);
    SerGraft(t, p, Sub(t, p));
    var n, z := Sub(t, p), After(t, p);
    Join(Before(t, p), Ser(n), z);
    Cancel(Before(t, p), Strip(Items(r, st)), Ser(n) + z);
    var x := Strip(Items(r, st));
    assert x[0] == IBegin(r[0].name) && x[1..] == Strip(Items(r[1..], st));
    SerHead(n, z);
    assert x[0] == IBegin(n.name);
    SuffixTail(r, toks);
  }

  lemma SerHead(n: Tree, z: seq<Item>)
    ensures (Ser(n) + z)[0] == IBegin(n.name) && (Ser(n) + z)[1..] == Body(n) + z
    ensures Ser(n) + z == [IBegin(n.name)] + (Body(n) + z)
  {
    hide Body;
    Join([IBegin(n.name)], Body(n), z);
  }

  /** Every begin tag of the block opens the node at some path. */
  lemma Locate(b: Blob, toks: seq<Token>, t: Tree, r: seq<Token>) returns (p: Path)
    requires Reads(b, toks, t) && Suffix(r, toks) && r != [] && r[0].BeginNode?
    ensures Locates(b, toks, t, r, p)
  {
    hide Ser, Before, After, Strings, Struct, Holds, RwProbe;
    var st := Strings(b);
    StripSplit(toks, r, st);
    var a, x := Strip(Items(Lead(toks, r), st)), Strip(Items(r, st));
    assert x[0] == IBegin(r[0].name);
    assert Ser(t)[|a|] == x[0];
    p := PathTo(t, |a|);
    SerGraft(t, p, Sub(t, p));
    var rest := Ser(Sub(t, p)) + After(t, p);
    Join(Before(t, p), Ser(Sub(t, p)), After(t, p));
    assert a == Ser(t)[..|a|] && Before(t, p) == Ser(t)[..|a|];
  }

  // ---------------------------------------------------------------- replacing tokens

  lemma FlatThree(a: seq<Token>, m: seq<Token>, c: seq<Token>)
    requires AllOk(a) && AllOk(m) && AllOk(c)
    ensures AllOk(a + m + c) && Flat(a + m + c) == Flat(a) + Flat(m) + Flat(c)
  {
    FlatConcat(a, m);
    FlatConcat(a + m, c);
  }

  lemma AllOkParts(a: seq<Token>, m: seq<Token>, c: seq<Token>)
    requires AllOk(a + m + c)
    ensures AllOk(a) && AllOk(m) && AllOk(c)
  {
    var all := a + m + c;
    assert forall i :: 0 <= i < |a| ==> a[i] == all[i];
    assert forall i :: 0 <= i < |m| ==> m[i] == all[|a| + i];
    assert forall i :: 0 <= i < |c| ==> c[i] == all[|a| + |m| + i];
  }

  /** Replacing the bytes of some tokens by the bytes of others replaces the tokens. */
  lemma Replace(s: seq<byte>, a: seq<Token>, was: seq<Token>, c: seq<Token>, now: seq<Token>, s': seq<byte>)
    requires Holds(s, a + was + c) && AllOk(now)
    requires Len(a) + Len(was) <= |s|
    requires s' == s[..Len(a)] + Flat(now) + s[Len(a) + Len(was)..]
    ensures Holds(s', a + now + c)
  {
    hide BE32, Flat;
    AllOkParts(a, was, c);
    FlatThree(a, was, c);
    FlatThree(a, now, c);
    LenFlat(a);
    LenFlat(was);
    var e := BE32(END);
    var tail := s[|Flat(a + was + c)| + 4..];
    Assoc5(Flat(a), Flat(was), Flat(c), e, tail);
    assert s == Flat(a) + Flat(was) + (Flat(c) + e + tail);
    Swap(Flat(a), Flat(was), Flat(c) + e + tail, Flat(now), s);
    PrefixOf(Flat(a), Flat(now), Flat(c), e, tail);
  }

  lemma Assoc5(a: seq<byte>, b: seq<byte>, c: seq<byte>, d: seq<byte>, e: seq<byte>)
    ensures a + b + c + d + e == a + b + (c + d + e)
  {
  }

  lemma Swap(a: seq<byte>, o: seq<byte>, c: seq<byte>, n: seq<byte>, s: seq<byte>)
    requires s == a + o + c
    ensures s[..|a|] + n + s[|a| + |o|..] == a + n + c
  {
  }

  lemma PrefixOf(a: seq<byte>, n: seq<byte>, c: seq<byte>, e: seq<byte>, tail: seq<byte>)
    ensures a + n + c + e <= a + n + (c + e + tail)
  {
    assert a + n + (c + e + tail) == (a + n + c + e) + tail;
  }

  // ---------------------------------------------------------------- growing the strings

  ghost predicate Named(x: seq<Item>) {
    forall i :: 0 <= i < |x| && x[i].IProp? ==> x[i].name.Some?
  }

  lemma {:induction false} SerNamed(t: Tree)
    ensures Named(Ser(t))
    decreases t
  {
    PropsNamed(t.props);
    KidsNamed(t.kids);
  }

  lemma {:induction false} PropsNamed(ps: seq<PropVal>)
    ensures Named(SerProps(ps))
  {
    if ps != [] {
      PropsNamed(ps[1..]);
    }
  }

  lemma {:induction false} KidsNamed(ks: seq<Tree>)
    ensures Named(SerKids(ks))
    decreases ks
  {
    if ks != [] {
      SerNamed(ks[0]);
      KidsNamed(ks[1..]);
    }
  }

  /** Strings added at the end of the table change no name already in use. */
  lemma {:induction false} ItemsGrow(toks: seq<Token>, t: seq<byte>, x: seq<byte>)
    requires Named(Strip(Items(toks, t)))
    ensures Items(toks, t + x) == Items(toks, t)
  {
    hide StringAt;
    if toks != [] {
      var y := Strip(Items(toks, t));
      ItemsTail(toks, t);
      if !toks[0].Nop? {
        assert y[0] == ItemOf(toks[0], t) && y[1..] == Strip(Items(toks[1..], t));
        assert forall i :: 0 <= i < |y[1..]| ==> y[1..][i] == y[i + 1];
        if toks[0].Prop? {
          StringGrows(t, x, toks[0].nameoff);
        }
      }
      ItemsGrow(toks[1..], t, x);
    }
  }

  // ---------------------------------------------------------------- edits of a located node

  lemma {:induction false} GraftKeepsBefore(t: Tree, p: Path, n: Tree)
    requires Has(t, p)
    ensures Has(Graft(t, p, n), p) && Sub(Graft(t, p, n), p) == n
    ensures Before(Graft(t, p, n), p) == Before(t, p)
    decreases |p|
  {
    if p != [] {
      GraftKeepsBefore(t.kids[p[0]], p[1..], n);
      assert Graft(t, p, n).kids[..p[0]] == t.kids[..p[0]];
    }
  }

  /** `q` starts inside the node that `r` opens, `lead` items after its beginning. */
  lemma LeadInside(b: Blob, toks: seq<Token>, t: Tree, r: seq<Token>, p: Path, q: seq<Token>, lead: seq<Item>, x: seq<Item>)
    requires Reads(b, toks, t) && Locates(b, toks, t, r, p) && Suffix(q, toks)
    requires Strip(Items(q, Strings(b))) == x && Ser(Sub(t, p)) + After(t, p) == lead + x
    ensures Strip(Items(Lead(toks, q), Strings(b))) == Before(t, p) + lead
  {
    hide Ser, Before, After, Strings, Struct, Holds, RwProbe;
    StripSplit(toks, q, Strings(b));
    SerGraft(t, p, Sub(t, p));
    Join(Before(t, p), Ser(Sub(t, p)), After(t, p));
    Join(Before(t, p), lead, x);
    CancelRight(Strip(Items(Lead(toks, q), Strings(b))), Before(t, p) + lead, x);
  }

  /** What an edit below the begin tag of a located node has to establish. */
  ghost predicate Regrafts(b: Blob, toks: seq<Token>, t: Tree, r: seq<Token>, p: Path, b': Blob, toks': seq<Token>, r': seq<Token>, n': Tree)
    requires Sound(b) && Has(t, p)
  {
    && Denotes(b', toks', Graft(t, p, n'))
    && Locates(b', toks', Graft(t, p, n'), r', p)
    && |r| <= |toks| && Lead(toks', r') == Lead(toks, r) && r' != [] && r != [] && r'[0] == r[0]
    && b'.magic == b.magic
  }

  lemma Sandwich<T>(a: seq<T>, l: seq<T>, x: seq<T>, n: seq<T>, z: seq<T>)
    requires n + z == l + x
    ensures (a + l) + x == a + n + z
  {
    assert (a + l) + x == a + (l + x);
    assert a + n + z == a + (n + z);
  }

  /** Tokens replaced inside a located node graft the node that they spell. */
  lemma Conclude(b: Blob, toks: seq<Token>, t: Tree, r: seq<Token>, p: Path,
                 q: seq<Token>, m: seq<Token>, c: seq<Token>, lead: seq<Item>, n': Tree, b': Blob, x: seq<byte>)
    returns (toks': seq<Token>, r': seq<Token>)
    requires Denotes(b, toks, t) && Locates(b, toks, t, r, p)
    requires Suffix(q, toks) && Suffix(c, toks) && |q| < |r|
    requires Strip(Items(Lead(toks, q), Strings(b))) == Before(t, p) + lead
    requires Sound(b') && Ordered(b') && b'.magic == b.magic && Strings(b') == Strings(b) + x
    requires Holds(Struct(b'), Lead(toks, q) + m + c)
    requires Ser(n') + After(t, p) == lead + (Strip(Items(m, Strings(b'))) + Strip(Items(c, Strings(b))))
    ensures Regrafts(b, toks, t, r, p, b', toks', r', n') && toks' == Lead(toks, q) + m + c
  {
    hide Ser, Before, After, Strings, Struct, Holds, RwProbe, Graft;
    ProbeKept(b, b', Lead(toks, q) + m + c);
    var a := Lead(toks, q);
    var st, st' := Strings(b), Strings(b');
    toks' := a + m + c;
    var k := |toks| - |r|;
    r' := toks'[k..];
    StripSplit(toks, q, st);
    SuffixNamed(b, toks, t, q);
    SuffixNamed(b, toks, t, c);
    SuffixNamed(b, toks, t, r);
    ItemsGrow(a, st, x);
    ItemsGrow(c, st, x);
    ItemsGrow(Lead(toks, r), st, x);
    ItemsConcat(a + m, c, st');
    ItemsConcat(a, m, st');
    StripConcat(Items(a, st') + Items(m, st'), Items(c, st'));
    StripConcat(Items(a, st'), Items(m, st'));
    var y := Strip(Items(m, st')) + Strip(Items(c, st));
    Join(Before(t, p) + lead, Strip(Items(m, st')), Strip(Items(c, st)));
    Sandwich(Before(t, p), lead, y, Ser(n'), After(t, p));
    SerGraft(t, p, n');
    GraftKeepsBefore(t, p, n');
    LeadStays(toks, r, q, m, c);
  }

  lemma ProbeKept(b: Blob, b': Blob, toks: seq<Token>)
    requires RwProbe(b) == 0 && Sound(b') && Ordered(b') && b'.magic == b.magic && Holds(Struct(b'), toks)
    ensures RwProbe(b') == 0
  {
    BlockSlices(b');
    assert |Struct(b')| >= 4;
  }

  lemma LeadStays(toks: seq<Token>, r: seq<Token>, q: seq<Token>, m: seq<Token>, c: seq<Token>)
    requires Suffix(r, toks) && Suffix(q, toks) && |q| < |r|
    ensures var toks' := Lead(toks, q) + m + c;
      var r' := toks'[|toks| - |r|..];
      && Suffix(r', toks') && r' != [] && r'[0] == r[0]
      && Lead(toks', r') == Lead(toks, r)
  {
    var toks' := Lead(toks, q) + m + c;
    var k := |toks| - |r|;
    assert toks'[..k] == toks[..k] && toks'[k] == toks[k] == r[0];
  }

  lemma NamedParts(x: seq<Item>, y: seq<Item>)
    requires Named(x + y)
    ensures Named(x) && Named(y)
  {
    assert forall i :: 0 <= i < |x| ==> x[i] == (x + y)[i];
    assert forall i :: 0 <= i < |y| ==> y[i] == (x + y)[|x| + i];
  }

  lemma SuffixNamed(b: Blob, toks: seq<Token>, t: Tree, q: seq<Token>)
    requires Reads(b, toks, t) && Suffix(q, toks)
    ensures Named(Strip(Items(Lead(toks, q), Strings(b)))) && Named(Strip(Items(q, Strings(b))))
  {
    hide Strings, Struct, Holds, RwProbe, Named;
    StripSplit(toks, q, Strings(b));
    SerNamed(t);
    NamedParts(Strip(Items(Lead(toks, q), Strings(b))), Strip(Items(q, Strings(b))));
  }

  // ---------------------------------------------------------------- shapes of edited nodes

  function Rest(n: Tree, z: seq<Item>): seq<Item> {
    SerKids(n.kids) + ([IEnd] + z)
  }

  lemma NodeShape(n: Tree, ps: seq<PropVal>, qs: seq<PropVal>, z: seq<Item>)
    requires n.props == ps + qs
    ensures Ser(n) + z == ([IBegin(n.name)] + SerProps(ps)) + (SerProps(qs) + Rest(n, z))
  {
    hide Ser, SerKids;
    SerHead(n, z);
    BodyShape(n, z);
    SerPropsConcat(ps, qs);
    Shape4([IBegin(n.name)], SerProps(ps), SerProps(qs), Rest(n, z));
  }

  lemma Shape4<T>(a: seq<T>, b: seq<T>, c: seq<T>, d: seq<T>)
    ensures a + ((b + c) + d) == (a + b) + (c + d)
  {
  }

  lemma OneMore(p: PropVal, qs: seq<PropVal>, y: seq<Item>)
    ensures SerProps([p] + qs) + y == [PropItem(p)] + (SerProps(qs) + y)
  {
    assert ([p] + qs)[1..] == qs;
  }

  lemma SplitAt(ps: seq<PropVal>, i: nat, v: PropVal)
    requires i < |ps|
    ensures ps == ps[..i] + ([ps[i]] + ps[i + 1..])
    ensures ps[i := v] == ps[..i] + ([v] + ps[i + 1..])
    ensures ps[i..] == [ps[i]] + ps[i + 1..]
  {
  }

  /** Replacing, or removing, the property at index `i` of a node. */
  lemma PropShape(n: Tree, i: nat, v: PropVal, z: seq<Item>)
    requires i < |n.props|
    ensures var lead := [IBegin(n.name)] + SerProps(n.props[..i]);
      var y := SerProps(n.props[i + 1..]) + Rest(n, z);
      && Ser(n) + z == lead + ([PropItem(n.props[i])] + y)
      && Ser(n.(props := n.props[i := v])) + z == lead + ([PropItem(v)] + y)
      && Ser(n.(props := n.props[..i] + n.props[i + 1..])) + z == lead + y
      && SerProps(n.props[i..]) + Rest(n, z) == [PropItem(n.props[i])] + y
  {
    hide Ser, SerProps, Rest;
    var ps, qs := n.props[..i], n.props[i + 1..];
    SplitAt(n.props, i, v);
    NodeShape(n, ps, [n.props[i]] + qs, z);
    OneMore(n.props[i], qs, Rest(n, z));
    var n1 := n.(props := n.props[i := v]);
    assert Rest(n1, z) == Rest(n, z) by { RestSame(n, n1, z); }
    NodeShape(n1, ps, [v] + qs, z);
    OneMore(v, qs, Rest(n, z));
    var n2 := n.(props := ps + qs);
    assert Rest(n2, z) == Rest(n, z) by { RestSame(n, n2, z); }
    NodeShape(n2, ps, qs, z);
  }

  lemma RestSame(n: Tree, m: Tree, z: seq<Item>)
    requires n.kids == m.kids
    ensures Rest(n, z) == Rest(m, z)
  {
  }

  /** Putting a property first in a node. */
  lemma FirstPropShape(n: Tree, v: PropVal, z: seq<Item>)
    ensures Ser(n.(props := [v] + n.props)) + z == [IBegin(n.name)] + ([PropItem(v)] + (Body(n) + z))
  {
    hide Ser, SerProps, Rest;
    var m := n.(props := [v] + n.props);
    SerHead(m, z);
    BodyShape(m, z);
    BodyShape(n, z);
    OneMore(v, n.props, Rest(n, z));
    RestSame(n, m, z);
    assert Body(m) + z == SerProps(m.props) + Rest(m, z) by { RestIs(m, z); }
    assert Body(n) + z == SerProps(n.props) + Rest(n, z) by { RestIs(n, z); }
  }

  lemma RestIs(n: Tree, z: seq<Item>)
    ensures Rest(n, z) == SerKids(n.kids) + ([IEnd] + z)
  {
  }

  /** Putting an empty child first in a node. */
  lemma FirstKidShape(n: Tree, name: seq<byte>, z: seq<Item>)
    ensures Ser(WithKid(n, name)) + z == ([IBegin(n.name)] + SerProps(n.props)) + ([IBegin(name), IEnd] + Rest(n, z))
    ensures Ser(n) + z == ([IBegin(n.name)] + SerProps(n.props)) + Rest(n, z)
  {
    hide Ser, SerProps, Rest;
    var m := WithKid(n, name);
    NoProps();
    assert m.props == m.props + [] && n.props == n.props + [];
    NodeShape(m, m.props, [], z);
    NodeShape(n, n.props, [], z);
    FirstKidRest(n, name, z);
    assert [] + Rest(m, z) == Rest(m, z) && [] + Rest(n, z) == Rest(n, z);
  }

  lemma FirstKidRest(n: Tree, name: seq<byte>, z: seq<Item>)
    ensures Rest(WithKid(n, name), z) == [IBegin(name), IEnd] + Rest(n, z)
  {
    hide Ser;
    EmptyKid(name);
    var m := WithKid(n, name);
    assert m.kids[1..] == n.kids;
    Join([IBegin(name), IEnd], SerKids(n.kids), [IEnd] + z);
  }

  lemma NoProps()
    ensures SerProps([]) == []
  {
  }

  lemma EmptyKid(name: seq<byte>)
    ensures Ser(Tree(name, [], [])) == [IBegin(name), IEnd]
  {
    var k := Tree(name, [], []);
    assert SerProps(k.props) == [] && SerKids(k.kids) == [];
    assert Body(k) == [IEnd];
  }
}
