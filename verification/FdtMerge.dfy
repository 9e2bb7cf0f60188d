/** overlay_apply_node refines the tree merge: whatever is inserted, the offset of the
    node being merged into stays valid throughout. */
module FdtMerge {
  import opened Wrappers
  import opened Bytes
  import opened FdtFormat
  import opened FdtTree
  import opened FdtRead
  import opened FdtEdit
  import opened FdtEditBlocks
  import opened FdtEditTheorems
  import opened FdtEditResults
  import opened FdtOverlay

  // ---------------------------------------------------------------- reading a blob

  /** The tokens from `r` on are those of a node `n` and then `z`. */
  ghost predicate Opens(b: Blob, toks: seq<Token>, r: seq<Token>, n: Tree, z: seq<Item>)
    requires Sound(b)
  {
    && Suffix(r, toks) && r != [] && r[0].BeginNode? && r[0].name == n.name
    && Strip(Items(r[1..], Strings(b))) == Body(n) + z
  }

  // ---------------------------------------------------------------- property iteration

  /** The first property token at or after `rest`, no-ops aside. */
  lemma {:induction false} ScanFirst(s: seq<byte>, st: seq<byte>, toks: seq<Token>, rest: seq<Token>) returns (q: seq<Token>)
    requires Holds(s, toks) && Suffix(rest, toks)
    ensures Suffix(q, toks) && |q| <= |rest| && Strip(Items(q, st)) == Strip(Items(rest, st))
    ensures var r := NextPropFrom(s, At(toks, rest));
      if r >= 0 then q != [] && q[0].Prop? && r == At(toks, q)
      else q == [] || q[0].BeginNode? || q[0].EndNode?
  {
    hide NextTag, U32, NulFrom, Holds, At, StringAt, Size;
    if rest == [] {
      EndAt(s, toks);
      q := [];
    } else {
      StepAt(s, toks, rest);
      ItemsTail(rest, st);
      if rest[0].Nop? {
        q := ScanFirst(s, st, toks, rest[1..]);
        NextTagFacts(s, At(toks, rest));
      } else {
        q := rest;
      }
    }
  }

  lemma StringNulFree(t: seq<byte>, off: nat)
    requires StringAt(t, off).Some?
    ensures 0 !in StringAt(t, off).value
  {
    NulFromFacts(t, off);
  }

  /** The property at `pos` is the token `q[0]`, with the name and value of `v`. */
  ghost predicate PropSeen(o: Blob, otoks: seq<Token>, q: seq<Token>, pos: int, v: PropVal)
    requires Sound(o)
  {
    hide NextTag, U32, NulFrom, Align4, Size, Clip;
    var s := Struct(o);
    && q != [] && Suffix(q, otoks) && Suffix(q[1..], otoks) && pos == At(otoks, q)
    && CheckPropOffset(s, pos) == At(otoks, q[1..])
    && pos + 12 <= |s| && pos + 12 + U32(s, pos + 4) <= |s|
    && StringAt(Strings(o), U32(s, pos + 8)) == Some(v.name) && 0 !in v.name
    && s[pos + 12..pos + 12 + U32(s, pos + 4)] == v.val
  }

  /** What the property loop sees at the first property at or after `rest`. */
  lemma PropStep(o: Blob, otoks: seq<Token>, rest: seq<Token>, ps: seq<PropVal>, y: seq<Item>) returns (q: seq<Token>)
    requires Sound(o) && Holds(Struct(o), otoks) && Suffix(rest, otoks)
    requires Strip(Items(rest, Strings(o))) == SerProps(ps) + y && NoProp(y)
    ensures if ps == [] then NextPropFrom(Struct(o), At(otoks, rest)) < 0
      else
        && PropSeen(o, otoks, q, NextPropFrom(Struct(o), At(otoks, rest)), ps[0])
        && Strip(Items(q[1..], Strings(o))) == SerProps(ps[1..]) + y
  {
    hide NextTag, U32, NulFrom, Holds, At, StringAt, Size, Struct, Strings;
    var s, st := Struct(o), Strings(o);
    q := ScanFirst(s, st, otoks, rest);
    PropsShape(ps, y);
    if q != [] && q[0].Prop? {
      FirstItem(q, st);
      assert Strip(Items(q, st))[0] == ItemOf(q[0], st) && Strip(Items(q, st))[1..] == Strip(Items(q[1..], st));
    } else if q != [] {
      FirstItem(q, st);
      assert Strip(Items(q, st))[0] == ItemOf(q[0], st);
    }
    if ps != [] {
      StepAt(s, otoks, q);
      TokenVal(s, otoks, q);
      StringNulFree(st, q[0].nameoff);
    }
  }

  lemma TokenVal(s: seq<byte>, toks: seq<Token>, q: seq<Token>)
    requires Holds(s, toks) && Suffix(q, toks) && q != [] && q[0].Prop?
    ensures |q[0].val| < WORD
  {
    assert q[0] == toks[|toks| - |q|];
  }

  // ---------------------------------------------------------------- chaining edits

  lemma {:induction false} GraftTwice(t: Tree, p: Path, m: Tree, n: Tree)
    requires Has(t, p)
    ensures Has(Graft(t, p, m), p) && Graft(Graft(t, p, m), p, n) == Graft(t, p, n)
    decreases |p|
  {
    GraftKeepsBefore(t, p, m);
    if p != [] {
      GraftTwice(t.kids[p[0]], p[1..], m, n);
      var a, c := Graft(Graft(t, p, m), p, n), Graft(t, p, n);
      assert a.kids == c.kids;
    }
  }

  lemma {:induction false} GraftSelf(t: Tree, p: Path)
    requires Has(t, p)
    ensures Graft(t, p, Sub(t, p)) == t
    decreases |p|
  {
    if p != [] {
      GraftSelf(t.kids[p[0]], p[1..]);
      assert t.kids[p[0] := t.kids[p[0]]] == t.kids;
    }
  }

  /** Two edits of the same node in a row are one. */
  lemma Chain(b: Blob, toks: seq<Token>, t: Tree, r: seq<Token>, p: Path,
              b1: Blob, toks1: seq<Token>, r1: seq<Token>, n1: Tree,
              b2: Blob, toks2: seq<Token>, r2: seq<Token>, n2: Tree)
    requires Sound(b) && Has(t, p) && Regrafts(b, toks, t, r, p, b1, toks1, r1, n1)
    requires Sound(b1) && Has(Graft(t, p, n1), p)
    requires Regrafts(b1, toks1, Graft(t, p, n1), r1, p, b2, toks2, r2, n2)
    ensures Regrafts(b, toks, t, r, p, b2, toks2, r2, n2)
  {
    hide Reads, Before, After, Ser, Strip, Items, Struct, Strings, Holds;
    GraftTwice(t, p, n1, n2);
  }

  lemma RegraftSelf(b: Blob, toks: seq<Token>, t: Tree, r: seq<Token>, p: Path)
    requires Denotes(b, toks, t) && Locates(b, toks, t, r, p)
    ensures Regrafts(b, toks, t, r, p, b, toks, r, Sub(t, p))
  {
    hide Reads, Before, After, Ser, Strip, Items, Struct, Strings, Holds;
    GraftSelf(t, p);
  }

  /** Where an edit leaves the located node, and that its offset is the same. */
  lemma RegraftFacts(b: Blob, toks: seq<Token>, t: Tree, r: seq<Token>, p: Path, b': Blob, toks': seq<Token>, r': seq<Token>, n': Tree)
    requires Denotes(b, toks, t) && Locates(b, toks, t, r, p)
    requires Regrafts(b, toks, t, r, p, b', toks', r', n')
    ensures Denotes(b', toks', Graft(t, p, n')) && Locates(b', toks', Graft(t, p, n'), r', p)
    ensures Has(Graft(t, p, n'), p) && Sub(Graft(t, p, n'), p) == n'
    ensures Suffix(r', toks') && Suffix(r, toks) && At(toks', r') == At(toks, r)
    ensures Sound(b')
  {
    hide Before, After, Ser, Strip, Items, Struct, Strings, Holds;
    GraftKeepsBefore(t, p, n');
    LenSuffix(toks, r);
    LenSuffix(toks', r');
  }

  /** The property loop sets the overlay's properties one after the other. */
  lemma {:induction false} ApplyPropsTheorem(b: Blob, toks: seq<Token>, t: Tree, r: seq<Token>, p: Path,
                            o: Blob, otoks: seq<Token>, rest: seq<Token>, ps: seq<PropVal>, y: seq<Item>)
    returns (toks': seq<Token>, r': seq<Token>)
    requires Denotes(b, toks, t) && Locates(b, toks, t, r, p)
    requires Sound(o) && Holds(Struct(o), otoks) && Suffix(rest, otoks)
    requires Strip(Items(rest, Strings(o))) == SerProps(ps) + y && NoProp(y)
    ensures var e := ApplyProps(b, At(toks, r), o, NextPropFrom(Struct(o), At(otoks, rest)));
      if e.err == 0 then Regrafts(b, toks, t, r, p, e.blob, toks', r', MergeProps(Sub(t, p), ps))
      else e.err == -NOSPACE
    decreases ps
  {
    hide Reads, Locates, Regrafts, NextTag, U32, NulFrom, Holds, At, StringAt, Struct, Strings, Items, Strip, SerProps, SetProp, WithProp;
    toks', r' := toks, r;
    var s := Struct(o);
    LocatesSuffix(b, toks, t, r, p);
    var pos := NextPropFrom(s, At(otoks, rest));
    var q := PropStep(o, otoks, rest, ps, y);
    if ps == [] {
      RegraftSelf(b, toks, t, r, p);
    } else {
      var name, val := ps[0].name, ps[0].val;
      var toks1, r1 := SetPropTheorem(b, toks, t, r, p, name, val);
      var e := SetProp(b, At(toks, r), name, val);
      if e.err == 0 {
        var n1 := WithProp(Sub(t, p), name, val);
        var t1 := Graft(t, p, n1);
        RegraftFacts(b, toks, t, r, p, e.blob, toks1, r1, n1);
        NextPropIs(s, pos);
        toks', r' := ApplyPropsTheorem(e.blob, toks1, t1, r1, p, o, otoks, q[1..], ps[1..], y);
        var f := ApplyProps(e.blob, At(toks, r), o, NextPropFrom(s, At(otoks, q[1..])));
        var next := NextPropFrom(s, At(otoks, q[1..]));
        if next < 0 {
          ApplyPropsPast(e.blob, At(toks, r), o, next);
        }
        if f.err == 0 {
          Chain(b, toks, t, r, p, e.blob, toks1, r1, n1, f.blob, toks', r', MergeProps(n1, ps[1..]));
        }
      }
    }
  }

  lemma LocatesSuffix(b: Blob, toks: seq<Token>, t: Tree, r: seq<Token>, p: Path)
    requires Reads(b, toks, t) && Locates(b, toks, t, r, p)
    ensures Sound(b) && Suffix(r, toks) && r != [] && r[0].BeginNode? && Has(t, p)
  {
  }

  lemma NextPropIs(s: seq<byte>, pos: nat)
    requires CheckPropOffset(s, pos) >= 0
    ensures NextProp(s, pos) == NextPropFrom(s, CheckPropOffset(s, pos))
  {
  }

  lemma ApplyPropsPast(b: Blob, target: nat, o: Blob, pos: int)
    requires Sound(b) && Sound(o) && pos < 0
    ensures ApplyProps(b, target, o, pos) == Edited(0, b)
  {
  }

  // ---------------------------------------------------------------- child iteration

  /** The items from the next child at this level on. */
  function NextKid(x: seq<Item>, d: nat): Option<seq<Item>> {
    if x == [] then None
    else match x[0]
      case IBegin(_) => if d == 0 then Some(x) else NextKid(x[1..], d + 1)
      case IEnd => if d == 0 then None else NextKid(x[1..], d - 1)
      case _ => NextKid(x[1..], d)
  }

  lemma {:induction false} StripNextKid(x: seq<Item>, d: nat)
    ensures NextKid(Strip(x), d) == StripAll(NextKid(x, d))
  {
    if x != [] {
      assert !x[0].INop? ==> Strip(x)[1..] == Strip(x[1..]);
      match x[0]
      case IBegin(_) => StripNextKid(x[1..], d + 1);
      case IEnd => if d > 0 { StripNextKid(x[1..], d - 1); }
      case _ => StripNextKid(x[1..], d);
    }
  }

  lemma {:induction false} KidPastProps(ps: seq<PropVal>, x: seq<Item>, d: nat)
    ensures NextKid(SerProps(ps) + x, d) == NextKid(x, d)
  {
    if ps == [] {
      assert SerProps(ps) + x == x;
    } else {
      assert (SerProps(ps) + x)[1..] == SerProps(ps[1..]) + x;
      KidPastProps(ps[1..], x, d);
    }
  }

  lemma {:induction false} KidPastBody(t: Tree, x: seq<Item>, d: nat)
    requires d > 0
    ensures NextKid(Body(t) + x, d) == NextKid(x, d - 1)
    decreases t, 0
  {
    BodyShape(t, x);
    KidPastProps(t.props, SerKids(t.kids) + ([IEnd] + x), d);
    KidPastKids(t.kids, [IEnd] + x, d);
    assert ([IEnd] + x)[1..] == x;
  }

  lemma {:induction false} KidPastKids(ks: seq<Tree>, x: seq<Item>, d: nat)
    requires d > 0
    ensures NextKid(SerKids(ks) + x, d) == NextKid(x, d)
    decreases ks
  {
    if ks == [] {
      assert SerKids(ks) + x == x;
    } else {
      var y := SerKids(ks[1..]) + x;
      KidsShape(ks, x);
      var l := SerKids(ks) + x;
      assert l[0] == IBegin(ks[0].name) && l[1..] == Body(ks[0]) + y;
      KidPastBody(ks[0], y, d + 1);
      KidPastKids(ks[1..], x, d);
    }
  }

  /** The walkers find the next child where the items have it. */
  lemma {:induction false} ScanKid(s: seq<byte>, st: seq<byte>, toks: seq<Token>, rest: seq<Token>, d: nat) returns (q: seq<Token>)
    requires Holds(s, toks) && Suffix(rest, toks)
    ensures Suffix(q, toks) && |q| <= |rest|
    ensures var p := NextNodeFrom(s, At(toks, rest), d);
      var r := NextSubLoop(s, p);
      match NextKid(Items(rest, st), d)
      case Some(x) => q != [] && q[0].BeginNode? && x == Items(q, st) && r == At(toks, q) >= 0
      case None => r == -NOTFOUND
  {
    hide NextTag, U32, NulFrom, Holds, At, StringAt, Size, CheckNodeOffset;
    if rest == [] {
      EndAt(s, toks);
      q := [];
    } else {
      StepAt(s, toks, rest);
      ItemsTail(rest, st);
      if rest[0].EndNode? && d == 0 {
        q := [];
      } else if rest[0].BeginNode? && d == 0 {
        q := rest;
      } else {
        q := ScanKid(s, st, toks, rest[1..], if rest[0].BeginNode? then d + 1 else if rest[0].EndNode? then d - 1 else d);
      }
    }
  }

  /** From inside a body the first step either finds a child at once or none. */
  lemma {:induction false} FirstStep(s: seq<byte>, pos: nat)
    ensures var p := NextNodeFrom(s, pos, 0); p.offset >= 0 && p.depth >= 0 ==> p.depth == 1
    decreases |s| - pos
  {
    hide NextTag;
    NextTagFacts(s, pos);
    var t := NextTag(s, pos);
    if t.tag != BEGIN_NODE && t.tag != END_NODE && t.tag != END {
      FirstStep(s, t.next);
    }
  }

  /** What the child loop sees after the tokens of `rest`: the next child, or the end. */
  lemma KidStep(o: Blob, otoks: seq<Token>, rest: seq<Token>, d: nat, ks: seq<Tree>, z: seq<Item>) returns (q: seq<Token>)
    requires Sound(o) && Holds(Struct(o), otoks) && Suffix(rest, otoks)
    requires NextKid(Strip(Items(rest, Strings(o))), d) == NextKid(SerKids(ks) + ([IEnd] + z), 0)
    ensures var s := Struct(o);
      var pos := NextSubLoop(s, NextNodeFrom(s, At(otoks, rest), d));
      if ks == [] then pos == -NOTFOUND
      else
        && Opens(o, otoks, q, ks[0], SerKids(ks[1..]) + ([IEnd] + z)) && pos == At(otoks, q)
        && |q| <= |rest|
  {
    hide NextTag, U32, NulFrom, Holds, At, StringAt, Size, Struct, Strings, NextNodeFrom;
    var s, st := Struct(o), Strings(o);
    q := ScanKid(s, st, otoks, rest, d);
    StripNextKid(Items(rest, st), d);
    var x := SerKids(ks) + ([IEnd] + z);
    if ks == [] {
      assert x == [IEnd] + z;
    } else {
      KidsShape(ks, [IEnd] + z);
      assert x[0] == IBegin(ks[0].name);
      assert x[1..] == Body(ks[0]) + (SerKids(ks[1..]) + ([IEnd] + z));
      FirstItem(q, st);
      var l := Strip(Items(q, st));
      assert l[0] == IBegin(q[0].name) && l[1..] == Strip(Items(q[1..], st));
    }
  }

  // ---------------------------------------------------------------- paths one step deeper

  lemma {:induction false} BeforeKid(t: Tree, p: Path, i: nat)
    requires Has(t, p) && i < |Sub(t, p).kids|
    ensures Has(t, p + [i]) && Sub(t, p + [i]) == Sub(t, p).kids[i]
    ensures var n := Sub(t, p);
      Before(t, p + [i]) == Before(t, p) + ([IBegin(n.name)] + SerProps(n.props) + SerKids(n.kids[..i]))
    decreases |p|
  {
    var q := p + [i];
    if p == [] {
      assert q[1..] == [];
    } else {
      assert q[1..] == p[1..] + [i];
      BeforeKid(t.kids[p[0]], p[1..], i);
    }
  }

  lemma {:induction false} GraftKid(t: Tree, p: Path, i: nat, x: Tree)
    requires Has(t, p) && i < |Sub(t, p).kids|
    ensures Has(t, p + [i])
    ensures var n := Sub(t, p); Graft(t, p + [i], x) == Graft(t, p, n.(kids := n.kids[i := x]))
    decreases |p|
  {
    var q := p + [i];
    if p == [] {
      assert q[1..] == [];
    } else {
      assert q[1..] == p[1..] + [i];
      GraftKid(t.kids[p[0]], p[1..], i, x);
    }
  }

  /** A child that answers to a name is located one step deeper. */
  lemma KidLocated(b: Blob, toks: seq<Token>, t: Tree, r: seq<Token>, p: Path, want: seq<byte>) returns (q: seq<Token>)
    requires Reads(b, toks, t) && Locates(b, toks, t, r, p)
    requires KidIndex(Sub(t, p).kids, want) < |Sub(t, p).kids|
    ensures Locates(b, toks, t, q, p + [KidIndex(Sub(t, p).kids, want)]) && |q| < |r|
    ensures SubnodeOffset(Struct(b), At(toks, r), want) == At(toks, q)
  {
    hide Ser, Before, After, Strings, Struct, RwProbe, Holds, At, SubnodeOffset, SerProps, SerKids;
    q := FindKid(b, toks, t, r, p, want);
    var n, z := Sub(t, p), After(t, p);
    var i := KidIndex(n.kids, want);
    KidLead(n, i, z);
    LeadInside(b, toks, t, r, p, q, [IBegin(n.name)] + SerProps(n.props) + SerKids(n.kids[..i]), Strip(Items(q, Strings(b))));
    BeforeKid(t, p, i);
  }

  lemma KidLead(n: Tree, i: nat, z: seq<Item>)
    requires i <= |n.kids|
    ensures Ser(n) + z == ([IBegin(n.name)] + SerProps(n.props) + SerKids(n.kids[..i])) + (SerKids(n.kids[i..]) + ([IEnd] + z))
  {
    hide Ser, SerProps, SerKids;
    NodeShape(n, n.props, [], z);
    assert n.props == n.props + [];
    NoProps();
    RestIs(n, z);
    assert n.kids == n.kids[..i] + n.kids[i..];
    SerKidsConcat(n.kids[..i], n.kids[i..]);
    LeadShape([IBegin(n.name)] + SerProps(n.props), SerKids(n.kids[..i]), SerKids(n.kids[i..]), [IEnd] + z);
  }

  lemma LeadShape<T>(a: seq<T>, b: seq<T>, c: seq<T>, d: seq<T>)
    ensures a + ([] + ((b + c) + d)) == (a + b) + (c + d)
  {
  }

  lemma {:induction false} StripLen(toks: seq<Token>, st: seq<byte>, st': seq<byte>)
    ensures |Strip(Items(toks, st))| == |Strip(Items(toks, st'))|
  {
    hide StringAt;
    if toks != [] {
      ItemsTail(toks, st);
      ItemsTail(toks, st');
      StripLen(toks[1..], st, st');
    }
  }

  lemma SamePrefix<T>(a: seq<T>, b: seq<T>, x: seq<T>, y: seq<T>)
    requires a + b == x + y && |a| == |x|
    ensures a == x
  {
    assert (a + b)[..|a|] == a && (x + y)[..|x|] == x;
  }

  /** Tokens before a node that are also before a later node of the same lead. */
  lemma LeadNested(toks: seq<Token>, r: seq<Token>, k: seq<Token>, toks': seq<Token>, k': seq<Token>)
    requires Suffix(r, toks) && r != [] && Suffix(k, toks) && |k| < |r| && Suffix(k', toks') && Lead(toks', k') == Lead(toks, k)
    ensures var r' := toks'[|toks| - |r|..];
      && Suffix(r', toks') && r' != [] && r'[0] == r[0] && Lead(toks', r') == Lead(toks, r)
    ensures exists mid :: Lead(toks, k) == Lead(toks, r) + mid
  {
    var c := |toks| - |r|;
    var l := Lead(toks, k);
    assert l[..c] == toks[..c] && l[c] == toks[c] == r[0];
    assert toks'[..|l|] == l;
    assert toks'[..c] == l[..c] && toks'[c] == l[c];
    assert l == Lead(toks, r) + l[c..];
  }

  /** An edit of a child is an edit of its parent: the parent's offset has not moved. */
  lemma Lift(b: Blob, toks: seq<Token>, t: Tree, r: seq<Token>, p: Path, k: seq<Token>, i: nat,
             b': Blob, toks': seq<Token>, k': seq<Token>, x: Tree) returns (r': seq<Token>)
    requires Denotes(b, toks, t) && Locates(b, toks, t, r, p) && i < |Sub(t, p).kids|
    requires Locates(b, toks, t, k, p + [i]) && |k| < |r|
    requires Regrafts(b, toks, t, k, p + [i], b', toks', k', x)
    ensures var n := Sub(t, p); Regrafts(b, toks, t, r, p, b', toks', r', n.(kids := n.kids[i := x]))
  {
    hide Before, After, Ser, Struct, Strings, Holds, RwProbe, Strip, Items, SerProps, SerKids, Graft;
    var n := Sub(t, p);
    var n' := n.(kids := n.kids[i := x]);
    var t' := Graft(t, p, n');
    GraftKid(t, p, i, x);
    GraftKeepsBefore(t, p, n');
    r' := toks'[|toks| - |r|..];
    LeadNested(toks, r, k, toks', k');
    var mid :| Lead(toks, k) == Lead(toks, r) + mid;
    var st' := Strings(b');
    ItemsConcat(Lead(toks, r), mid, st');
    StripConcat(Items(Lead(toks, r), st'), Items(mid, st'));
    StripLen(Lead(toks, r), Strings(b), st');
    BeforeKid(t', p, i);
    var more := [IBegin(n'.name)] + SerProps(n'.props) + SerKids(n'.kids[..i]);
    SamePrefix(Strip(Items(Lead(toks, r), st')), Strip(Items(mid, st')), Before(t', p), more);
  }

  // ---------------------------------------------------------------- the merge theorem

  /** The child the loop merges into: found or made. */
  lemma ChildOf(b: Blob, toks: seq<Token>, t: Tree, r: seq<Token>, p: Path, name: seq<byte>)
    returns (toks1: seq<Token>, r1: seq<Token>, k: seq<Token>)
    requires Denotes(b, toks, t) && Locates(b, toks, t, r, p) && 0 !in name
    ensures Sound(b) && Suffix(r, toks) && Has(t, p)
    ensures var a := AddSubnode(b, At(toks, r), name);
      var kid := if a.err == -EXISTS then SubnodeOffset(Struct(b), At(toks, r), name) else a.err;
      var (m, i) := WithChild(Sub(t, p), name);
      if kid >= 0 then
        && Regrafts(b, toks, t, r, p, a.blob, toks1, r1, m)
        && Locates(a.blob, toks1, Graft(t, p, m), k, p + [i])
        && |k| < |r1| && kid == At(toks1, k)
      else kid == -NOSPACE
  {
    hide Before, After, Ser, Struct, Strings, Holds, RwProbe, Strip, Items, At, Graft, AddSubnode, SubnodeOffset, Regrafts, Reads, Locates;
    LocatesSuffix(b, toks, t, r, p);
    var n := Sub(t, p);
    var i := KidIndex(n.kids, name);
    toks1, r1, k := AddSubnodeTheorem(b, toks, t, r, p, name);
    if i < |n.kids| {
      toks1, r1 := toks, r;
      k := KidLocated(b, toks, t, r, p, name);
      RegraftSelf(b, toks, t, r, p);
      GraftSelf(t, p);
    } else {
      var a := AddSubnode(b, At(toks, r), name);
      if a.err >= 0 {
        NewerShorter(b, toks, t, r, p, a.blob, toks1, r1, WithKid(n, name), k);
      }
    }
  }

  lemma NewerShorter(b: Blob, toks: seq<Token>, t: Tree, r: seq<Token>, p: Path, b': Blob, toks': seq<Token>, r': seq<Token>, n': Tree, k: seq<Token>)
    requires Denotes(b, toks, t) && Locates(b, toks, t, r, p) && Regrafts(b, toks, t, r, p, b', toks', r', n')
    requires n'.kids != [] && Locates(b', toks', Graft(t, p, n'), k, p + [0])
    ensures |k| < |r'|
  {
    hide After, Ser, Struct, Holds, RwProbe, Strings;
    var t' := Graft(t, p, n');
    GraftKeepsBefore(t, p, n');
    BeforeKid(t', p, 0);
    var st := Strings(b');
    if |k| >= |r'| {
      var mid := Lead(toks', r')[|Lead(toks', k)|..];
      assert Lead(toks', r') == Lead(toks', k) + mid;
      ItemsConcat(Lead(toks', k), mid, st);
      StripConcat(Items(Lead(toks', k), st), Items(mid, st));
      assert false;
    }
  }

  /** overlay_apply_node either runs out of space or merges the overlay node into the
      base node; the base node's offset is the same afterwards. */
  lemma {:induction false} ApplyNodeTheorem(b: Blob, toks: seq<Token>, t: Tree, r: seq<Token>, p: Path,
                           o: Blob, otoks: seq<Token>, ro: seq<Token>, on: Tree, z: seq<Item>)
    returns (toks': seq<Token>, r': seq<Token>)
    requires Denotes(b, toks, t) && Locates(b, toks, t, r, p)
    requires Sound(o) && Holds(Struct(o), otoks) && Opens(o, otoks, ro, on, z)
    ensures Sound(b) && Suffix(r, toks) && Has(t, p)
    ensures var e := ApplyNode(b, At(toks, r), o, At(otoks, ro));
      if e.err == 0 then Regrafts(b, toks, t, r, p, e.blob, toks', r', Merge(Sub(t, p), on))
      else e.err == -NOSPACE
    decreases on, 0
  {
    hide Reads, Locates, Regrafts, NextTag, U32, NulFrom, Holds, At, Struct, Strings, Items, Strip, SerProps, SerKids, Body,
      ApplyProps, MergeProps, NextNodeFrom, NextSubLoop;
    LocatesSuffix(b, toks, t, r, p);
    var s := Struct(o);
    StepAt(s, otoks, ro);
    var y := SerKids(on.kids) + ([IEnd] + z);
    BodyShape(on, z);
    toks', r' := ApplyPropsTheorem(b, toks, t, r, p, o, otoks, ro[1..], on.props, y);
    var e := ApplyProps(b, At(toks, r), o, NextPropFrom(s, At(otoks, ro[1..])));
    if e.err == 0 {
      var n1 := MergeProps(Sub(t, p), on.props);
      RegraftFacts(b, toks, t, r, p, e.blob, toks', r', n1);
      KidPastProps(on.props, y, 0);
      var q := KidStep(o, otoks, ro[1..], 0, on.kids, z);
      FirstChildIs(s, At(otoks, ro), At(otoks, ro[1..]));
      if on.kids != [] {
        var toks1, r1 := toks', r';
        toks', r' := ApplyKidsTheorem(e.blob, toks1, Graft(t, p, n1), r1, p, o, otoks, q, on.kids, z);
        var f := ApplyKids(e.blob, At(toks1, r1), o, At(otoks, q));
        if f.err == 0 {
          Chain(b, toks, t, r, p, e.blob, toks1, r1, n1, f.blob, toks', r', MergeKids(n1, on.kids));
        }
      }
    }
  }

  lemma FirstChildIs(s: seq<byte>, pos: nat, next: nat)
    requires CheckNodeOffset(s, pos) == next
    ensures FirstSubnode(s, pos) == NextSubLoop(s, NextNodeFrom(s, next, 0))
  {
    hide NextTag;
    FirstStep(s, next);
  }

  lemma NextChildIs(s: seq<byte>, pos: nat, next: nat)
    requires CheckNodeOffset(s, pos) == next
    ensures NextSubnode(s, pos) == NextSubLoop(s, NextNodeFrom(s, next, 1))
  {
  }

  lemma {:induction false} ApplyKidsTheorem(b: Blob, toks: seq<Token>, t: Tree, r: seq<Token>, p: Path,
                           o: Blob, otoks: seq<Token>, q: seq<Token>, ks: seq<Tree>, z: seq<Item>)
    returns (toks': seq<Token>, r': seq<Token>)
    requires Denotes(b, toks, t) && Locates(b, toks, t, r, p)
    requires Sound(o) && Holds(Struct(o), otoks) && ks != []
    requires Opens(o, otoks, q, ks[0], SerKids(ks[1..]) + ([IEnd] + z))
    ensures Sound(b) && Suffix(r, toks) && Has(t, p) && At(otoks, q) < |Struct(o)|
    ensures var e := ApplyKids(b, At(toks, r), o, At(otoks, q));
      if e.err == 0 then Regrafts(b, toks, t, r, p, e.blob, toks', r', MergeKids(Sub(t, p), ks))
      else e.err == -NOSPACE
    decreases ks
  {
    hide Reads, Locates, Regrafts, NextTag, U32, NulFrom, Holds, At, Struct, Strings, Items, Strip, SerProps, SerKids, Body,
      ApplyNode, Merge, NextNodeFrom, NextSubLoop, AddSubnode, SubnodeOffset, NodeName, WithChild, NextSubnode;
    LocatesSuffix(b, toks, t, r, p);
    var s := Struct(o);
    StepAt(s, otoks, q);
    NameNulFree(s, otoks, q);
    var name, y := ks[0].name, SerKids(ks[1..]) + ([IEnd] + z);
    var toks1, r1, k := ChildOf(b, toks, t, r, p, name);
    toks', r' := toks1, r1;
    var a := AddSubnode(b, At(toks, r), name);
    var kid := if a.err == -EXISTS then SubnodeOffset(Struct(b), At(toks, r), name) else a.err;
    if kid >= 0 {
      var (m, i) := WithChild(Sub(t, p), name);
      var t1 := Graft(t, p, m);
      RegraftFacts(b, toks, t, r, p, a.blob, toks1, r1, m);
      BeforeKid(t1, p, i);
      var toks2, k2 := ApplyNodeTheorem(a.blob, toks1, t1, k, p + [i], o, otoks, q, ks[0], y);
      var e := ApplyNode(a.blob, kid, o, At(otoks, q));
      if e.err == 0 {
        var kid' := Merge(m.kids[i], ks[0]);
        var n2 := m.(kids := m.kids[i := kid']);
        var r2 := Lift(a.blob, toks1, t1, r1, p, k, i, e.blob, toks2, k2, kid');
        Chain(b, toks, t, r, p, a.blob, toks1, r1, m, e.blob, toks2, r2, n2);
        RegraftFacts(b, toks, t, r, p, e.blob, toks2, r2, n2);
        KidPastBody(ks[0], y, 1);
        var q2 := KidStep(o, otoks, q[1..], 1, ks[1..], z);
        NextChildIs(s, At(otoks, q), At(otoks, q[1..]));
        toks', r' := toks2, r2;
        if ks[1..] != [] {
          toks', r' := ApplyKidsTheorem(e.blob, toks2, Graft(t, p, n2), r2, p, o, otoks, q2, ks[1..], z);
          var f := ApplyKids(e.blob, At(toks2, r2), o, At(otoks, q2));
          if f.err == 0 {
            Chain(b, toks, t, r, p, e.blob, toks2, r2, n2, f.blob, toks', r', MergeKids(n2, ks[1..]));
          }
        }
      }
    }
  }

  lemma NameNulFree(s: seq<byte>, toks: seq<Token>, q: seq<Token>)
    requires Holds(s, toks) && Suffix(q, toks) && q != [] && q[0].BeginNode?
    ensures 0 !in q[0].name
  {
    assert q[0] == toks[|toks| - |q|];
  }
}
