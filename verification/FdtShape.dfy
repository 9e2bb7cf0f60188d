/** Edits that move nothing: values change, but every token keeps its size and every node
    and property its place, so all the offsets a caller holds stay valid. */
module FdtShape {
  import opened Bytes
  import opened FdtFormat
  import opened FdtTree
  import opened FdtRead
  import opened FdtEdit
  import opened FdtEditBlocks
  import opened FdtEditTheorems
  import opened FdtEditResults
  import opened FdtMerge

  // ---------------------------------------------------------------- trees alike

  /** The same nodes and properties with values of the same lengths. */
  ghost predicate Alike(n: Tree, m: Tree)
    decreases n
  {
    && n.name == m.name && |n.props| == |m.props| && |n.kids| == |m.kids|
    && (forall i :: 0 <= i < |n.props| ==> n.props[i].name == m.props[i].name && |n.props[i].val| == |m.props[i].val|)
    && (forall i :: 0 <= i < |n.kids| ==> Alike(n.kids[i], m.kids[i]))
  }

  lemma {:induction false} AlikeSelf(n: Tree)
    ensures Alike(n, n)
    decreases n
  {
    forall i | 0 <= i < |n.kids| ensures Alike(n.kids[i], n.kids[i]) {
      AlikeSelf(n.kids[i]);
    }
  }

  lemma {:induction false} AlikeTwice(a: Tree, b: Tree, c: Tree)
    requires Alike(a, b) && Alike(b, c)
    ensures Alike(a, c)
    decreases a
  {
    forall i | 0 <= i < |a.kids| ensures Alike(a.kids[i], c.kids[i]) {
      AlikeTwice(a.kids[i], b.kids[i], c.kids[i]);
    }
  }

  lemma {:induction false} AlikeHas(n: Tree, m: Tree, p: Path)
    requires Alike(n, m) && Has(n, p)
    ensures Has(m, p) && Alike(Sub(n, p), Sub(m, p))
    decreases |p|
  {
    if p != [] {
      AlikeHas(n.kids[p[0]], m.kids[p[0]], p[1..]);
    }
  }

  lemma OneKidAlike(n: Tree, i: nat, k: Tree)
    requires i < |n.kids| && Alike(n.kids[i], k)
    ensures Alike(n, n.(kids := n.kids[i := k]))
  {
    var u := n.(kids := n.kids[i := k]);
    forall j | 0 <= j < |n.kids| ensures Alike(n.kids[j], u.kids[j]) {
      AlikeSelf(n.kids[j]);
    }
  }

  lemma OneValueAlike(n: Tree, i: nat, v: seq<byte>)
    requires i < |n.props| && |v| == |n.props[i].val|
    ensures Alike(n, n.(props := n.props[i := n.props[i].(val := v)]))
  {
    AlikeSelf(n);
  }

  lemma {:induction false} GraftAlike(t: Tree, p: Path, m: Tree)
    requires Has(t, p) && Alike(Sub(t, p), m)
    ensures Alike(t, Graft(t, p, m))
    decreases |p|
  {
    if p != [] {
      GraftAlike(t.kids[p[0]], p[1..], m);
      OneKidAlike(t, p[0], Graft(t.kids[p[0]], p[1..], m));
    }
  }

  lemma {:induction false} AlikeSer(n: Tree, m: Tree)
    requires Alike(n, m)
    ensures |Ser(n)| == |Ser(m)|
    decreases n, 1
  {
    AlikeSerKids(n, m, 0, |n.kids|);
    assert n.kids[0..|n.kids|] == n.kids && m.kids[0..|n.kids|] == m.kids;
  }

  lemma {:induction false} AlikeSerKids(n: Tree, m: Tree, i: nat, j: nat)
    requires Alike(n, m) && i <= j <= |n.kids|
    ensures |SerKids(n.kids[i..j])| == |SerKids(m.kids[i..j])|
    decreases n, 0, j - i
  {
    hide Ser;
    if i < j {
      AlikeSer(n.kids[i], m.kids[i]);
      AlikeSerKids(n, m, i + 1, j);
      assert n.kids[i..j][1..] == n.kids[i + 1..j] && m.kids[i..j][1..] == m.kids[i + 1..j];
    }
  }

  lemma {:induction false} AlikeBefore(n: Tree, m: Tree, p: Path)
    requires Alike(n, m) && Has(n, p)
    ensures Has(m, p) && |Before(n, p)| == |Before(m, p)|
    decreases |p|
  {
    hide SerKids;
    if p != [] {
      AlikeSerKids(n, m, 0, p[0]);
      assert n.kids[0..p[0]] == n.kids[..p[0]] && m.kids[0..p[0]] == m.kids[..p[0]];
      AlikeBefore(n.kids[p[0]], m.kids[p[0]], p[1..]);
    }
  }

  // ---------------------------------------------------------------- tokens alike

  predicate SameForm(k: Token, j: Token) {
    if k.Prop? then j.Prop? && k == j.(val := k.val) && |k.val| == |j.val| else j == k
  }

  ghost predicate SameForms(toks: seq<Token>, ks: seq<Token>) {
    |toks| == |ks| && forall i :: 0 <= i < |toks| ==> SameForm(toks[i], ks[i])
  }

  lemma {:induction false} SameLen(toks: seq<Token>, ks: seq<Token>, st: seq<byte>)
    requires SameForms(toks, ks)
    ensures Len(toks) == Len(ks) && |Strip(Items(toks, st))| == |Strip(Items(ks, st))|
  {
    hide StringAt;
    if toks != [] {
      SameLen(toks[1..], ks[1..], st);
      ItemsTail(toks, st);
      ItemsTail(ks, st);
    }
  }

  /** How many items, no-ops aside, come before the suffix `rest`. */
  ghost function Passed(toks: seq<Token>, rest: seq<Token>, st: seq<byte>): nat
    requires Suffix(rest, toks)
  {
    |Strip(Items(Lead(toks, rest), st))|
  }

  /** The tree's items are cut where the tokens are. */
  lemma CutAt(b: Blob, toks: seq<Token>, t: Tree, rest: seq<Token>)
    requires Reads(b, toks, t) && Suffix(rest, toks)
    ensures var c := Passed(toks, rest, Strings(b));
      && c <= |Ser(t)| && Strip(Items(Lead(toks, rest), Strings(b))) == Ser(t)[..c] && Strip(Items(rest, Strings(b))) == Ser(t)[c..]
  {
    hide Ser, Strings, Struct, Holds;
    StripSplit(toks, rest, Strings(b));
  }

  /** A node is where the items before it are used up. */
  lemma LocatesIff(b: Blob, toks: seq<Token>, t: Tree, r: seq<Token>, p: Path)
    requires Reads(b, toks, t) && Suffix(r, toks) && r != [] && r[0].BeginNode? && Has(t, p)
    ensures Locates(b, toks, t, r, p) <==> Passed(toks, r, Strings(b)) == |Before(t, p)|
  {
    hide Ser, Before, After, Strings, Struct, Holds;
    CutAt(b, toks, t, r);
    SerGraft(t, p, Sub(t, p));
    Join(Before(t, p), Ser(Sub(t, p)), After(t, p));
    assert Before(t, p) == Ser(t)[..|Before(t, p)|];
  }

  /** The suffix that starts at the same token. */
  ghost function Again(toks: seq<Token>, rest: seq<Token>, ks: seq<Token>): seq<Token>
    requires |rest| <= |toks| == |ks|
  {
    ks[|toks| - |rest|..]
  }

  lemma AgainFacts(toks: seq<Token>, rest: seq<Token>, ks: seq<Token>, st: seq<byte>)
    requires SameForms(toks, ks) && Suffix(rest, toks)
    ensures var again := Again(toks, rest, ks);
      && Suffix(again, ks) && |again| == |rest| && SameForms(rest, again)
      && At(ks, again) == At(toks, rest) && Passed(ks, again, st) == Passed(toks, rest, st)
  {
    hide Items, Strip, Len;
    var again := Again(toks, rest, ks);
    var c := |toks| - |rest|;
    forall i | 0 <= i < |rest| ensures SameForm(rest[i], again[i]) {
      assert rest[i] == toks[c + i] && again[i] == ks[c + i];
    }
    assert SameForms(Lead(toks, rest), Lead(ks, again));
    SameLen(Lead(toks, rest), Lead(ks, again), st);
    LenSuffix(toks, rest);
    LenSuffix(ks, again);
  }

  // ---------------------------------------------------------------- patches

  /** Only bytes of values differ: `b` and `t` have become `b'` and `t'`, nothing has moved. */
  ghost predicate Patched(b: Blob, toks: seq<Token>, t: Tree, b': Blob, ks: seq<Token>, t': Tree) {
    && Denotes(b', ks, t') && SameForms(toks, ks) && Alike(t, t')
    && b' == b.(buf := b'.buf) && |b'.buf| == |b.buf| && Sound(b) && Strings(b') == Strings(b)
  }

  lemma PatchedNot(b: Blob, toks: seq<Token>, t: Tree)
    requires Denotes(b, toks, t)
    ensures Patched(b, toks, t, b, toks, t)
  {
    AlikeSelf(t);
  }

  lemma PatchedTwice(b: Blob, toks: seq<Token>, t: Tree, b1: Blob, ks: seq<Token>, t1: Tree, b2: Blob, js: seq<Token>, t2: Tree)
    requires Patched(b, toks, t, b1, ks, t1) && Patched(b1, ks, t1, b2, js, t2)
    ensures Patched(b, toks, t, b2, js, t2)
  {
    hide Denotes, Alike, Strings;
    AlikeTwice(t, t1, t2);
  }

  /** After a patch every node is at the offset where it was. */
  lemma Relocate(b: Blob, toks: seq<Token>, t: Tree, r: seq<Token>, p: Path, b': Blob, ks: seq<Token>, t': Tree)
    requires Denotes(b, toks, t) && Locates(b, toks, t, r, p) && Patched(b, toks, t, b', ks, t')
    ensures Suffix(r, toks) && |toks| == |ks|
    ensures var r' := Again(toks, r, ks);
      Suffix(r', ks) && Locates(b', ks, t', r', p) && At(ks, r') == At(toks, r) && |r'| == |r|
  {
    hide Alike, Strings, Struct, Holds, RwProbe, Passed, Strip, Items, Before;
    AgainFacts(toks, r, ks, Strings(b));
    AlikeBefore(t, t', p);
    var r' := Again(toks, r, ks);
    assert SameForm(r[0], r'[0]);
    LocatesIff(b, toks, t, r, p);
    LocatesIff(b', ks, t', r', p);
  }

  /** The tokens from `rest` on are those of the node at `p` from property `k` on. */
  ghost predicate AtProp(b: Blob, toks: seq<Token>, t: Tree, p: Path, k: nat, rest: seq<Token>)
    requires Sound(b)
  {
    && Suffix(rest, toks) && Has(t, p) && k <= |Sub(t, p).props|
    && Passed(toks, rest, Strings(b)) == |Before(t, p)| + 1 + k
  }

  lemma FromProp(b: Blob, toks: seq<Token>, t: Tree, p: Path, k: nat, rest: seq<Token>)
    requires Reads(b, toks, t) && AtProp(b, toks, t, p, k, rest)
    ensures var n := Sub(t, p);
      Strip(Items(rest, Strings(b))) == SerProps(n.props[k..]) + Rest(n, After(t, p))
  {
    hide Ser, Before, After, Strings, Struct, Holds, Rest, Items, Strip, SerProps;
    var n, z := Sub(t, p), After(t, p);
    CutAt(b, toks, t, rest);
    SerGraft(t, p, n);
    assert n.props == n.props[..k] + n.props[k..];
    NodeShape(n, n.props[..k], n.props[k..], z);
    var x, y := [IBegin(n.name)] + SerProps(n.props[..k]), SerProps(n.props[k..]) + Rest(n, z);
    Join(Before(t, p), Ser(n), z);
    assert Ser(t) == Before(t, p) + (x + y);
    DropTwo(Before(t, p), x, y);
  }

  lemma DropTwo<T>(a: seq<T>, x: seq<T>, y: seq<T>)
    ensures (a + (x + y))[|a| + |x|..] == y
  {
  }

  lemma ToProp(b: Blob, toks: seq<Token>, t: Tree, p: Path, r: seq<Token>)
    requires Reads(b, toks, t) && Locates(b, toks, t, r, p)
    ensures AtProp(b, toks, t, p, 0, r[1..])
  {
    hide Ser, Before, After, Struct, Holds, Strings;
    var st := Strings(b);
    var rest := r[1..];
    SuffixTail(r, toks);
    assert Lead(toks, rest) == Lead(toks, r) + [r[0]];
    ItemsConcat(Lead(toks, r), [r[0]], st);
    StripConcat(Items(Lead(toks, r), st), Items([r[0]], st));
    SingleItem(r[0], st);
  }

  lemma NextAtProp(b: Blob, toks: seq<Token>, t: Tree, p: Path, k: nat, rest: seq<Token>, q: seq<Token>)
    requires Reads(b, toks, t) && AtProp(b, toks, t, p, k, rest) && k < |Sub(t, p).props|
    requires Suffix(q, toks)
    requires Strip(Items(q, Strings(b))) == SerProps(Sub(t, p).props[k + 1..]) + Rest(Sub(t, p), After(t, p))
    ensures AtProp(b, toks, t, p, k + 1, q)
  {
    hide Ser, Before, After, Strings, Struct, Holds, Rest, Items, Strip;
    FromProp(b, toks, t, p, k, rest);
    CutAt(b, toks, t, rest);
    CutAt(b, toks, t, q);
  }

  lemma RelocateProp(b: Blob, toks: seq<Token>, t: Tree, p: Path, k: nat, rest: seq<Token>, b': Blob, ks: seq<Token>, t': Tree)
    requires Denotes(b, toks, t) && AtProp(b, toks, t, p, k, rest) && Patched(b, toks, t, b', ks, t')
    ensures Suffix(rest, toks) && |toks| == |ks|
    ensures var again := Again(toks, rest, ks);
      AtProp(b', ks, t', p, k, again) && At(ks, again) == At(toks, rest)
  {
    hide Alike, Strings, Struct, Holds, RwProbe, Passed, Strip, Items, Before;
    AgainFacts(toks, rest, ks, Strings(b));
    AlikeBefore(t, t', p);
    AlikeHas(t, t', p);
    assert |Sub(t, p).props| == |Sub(t', p).props| by {
      AlikeProps(Sub(t, p), Sub(t', p));
    }
  }

  lemma AlikeProps(n: Tree, m: Tree)
    requires Alike(n, m)
    ensures |n.props| == |m.props| && |n.kids| == |m.kids|
  {
  }
}
