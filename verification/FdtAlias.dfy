/** Path resolution in the tree: what fdt_path_offset finds, through aliases or without. */
module FdtAlias {
  import opened Wrappers
  import opened Bytes
  import opened FdtFormat
  import opened FdtTree
  import opened FdtRead
  import opened FdtEdit
  import opened FdtEditBlocks
  import opened FdtEditTheorems
  import opened FdtEditResults
  import opened FdtMerge
  import opened FdtUnion
  import opened FdtShape
  import opened FdtInPlace
  import opened FdtPhandles
  import opened FdtRenumber
  import opened FdtRenumbering
  import Paths = FdtPath

  /** Path resolution from character `i`. */
  function Walk(n: Tree, path: seq<byte>, i: nat): Option<Path>
    requires i <= |path|
    decreases |path| - i
  {
    if i == |path| then Some([])
    else if path[i] == Paths.SLASH then Walk(n, path, i + 1)
    else
      var e := Paths.SlashFrom(path, i);
      var k := KidIndex(n.kids, path[i..e]);
      if k == |n.kids| then None
      else match Walk(n.kids[k], path, e) case None => None case Some(q) => Some([k] + q)
  }

  /** What resolving a path comes to. `Loose` is a path or an alias without a NUL, which the
      code reads on behind the property; `Endless` is a chain of aliases that is too long. */
  datatype Target = Found(path: Path) | Missing(err: int) | Loose | Endless

  function Alias(t: Tree, name: Name): Option<seq<byte>> {
    match Walk(t, Paths.ALIASES, 0)
    case None => None
    case Some(p) => WalkHas(t, Paths.ALIASES, 0); Val(Sub(t, p).props, name)
  }

  /** The node that a path names. */
  function Resolve(t: Tree, path: seq<byte>, fuel: nat): (r: Target)
    ensures r.Found? ==> Has(t, r.path)
    decreases fuel
  {
    hide Walk, Has;
    if path != [] && path[0] == Paths.SLASH then Onward(t, [], path, 0)
    else
      var e := Paths.SlashFrom(path, 0);
      match Alias(t, path[..e])
      case None => Missing(-BADPATH)
      case Some(v) =>
        if fuel == 0 then Endless
        else if 0 !in v then Loose
        else match Resolve(t, v[..NulFrom(v, 0)], fuel - 1)
          case Found(p) => Onward(t, p, path, e)
          case r => r
  }

  /** The rest of the path, from the node at `p`. */
  function Onward(t: Tree, p: Path, path: seq<byte>, i: nat): (r: Target)
    requires Has(t, p) && i <= |path|
    ensures r.Found? ==> Has(t, r.path)
  {
    hide Walk;
    match Walk(Sub(t, p), path, i)
    case None => Missing(-NOTFOUND)
    case Some(q) => WalkHas(Sub(t, p), path, i); Paths.SubPath(t, p, q); Found(p + q)
  }

  lemma {:induction false} WalkHas(n: Tree, path: seq<byte>, i: nat)
    requires i <= |path|
    ensures Walk(n, path, i).Some? ==> Has(n, Walk(n, path, i).value)
    decreases |path| - i
  {
    hide NameEq;
    if i < |path| {
      if path[i] == Paths.SLASH {
        WalkHas(n, path, i + 1);
      } else {
        var e := Paths.SlashFrom(path, i);
        var k := KidIndex(n.kids, path[i..e]);
        if k < |n.kids| {
          WalkHas(n.kids[k], path, e);
        }
      }
    }
  }

  // ---------------------------------------------------------------- paths

  /** Path resolution on the blob is path resolution in the tree, from any node. */
  lemma {:induction false} WalkTheorem(b: Blob, toks: seq<Token>, t: Tree, k: seq<Token>, p: Path, path: seq<byte>, i: nat) returns (r: seq<Token>)
    requires Denotes(b, toks, t) && Locates(b, toks, t, k, p) && i <= |path|
    ensures Sound(b) && Suffix(k, toks) && Has(t, p)
    ensures var off := Paths.PathOffsetFrom(Struct(b), path, i, At(toks, k));
      match Walk(Sub(t, p), path, i)
      case None => off == -NOTFOUND
      case Some(q) => Suffix(r, toks) && Locates(b, toks, t, r, p + q) && off == At(toks, r)
    decreases |path| - i
  {
    hide Reads, Locates, At, Struct, RwProbe, SubnodeOffset, KidIndex, Paths.SlashFrom, Sub, Has, Walk, Paths.PathOffsetFrom;
    DenotesLocates(b, toks, t, k, p);
    r := k;
    var n := Sub(t, p);
    WalkStep(n, path, i);
    OffsetStep(Struct(b), path, i, At(toks, k));
    if i == |path| {
      assert p + [] == p;
    } else if path[i] == Paths.SLASH {
      r := WalkTheorem(b, toks, t, k, p, path, i + 1);
    } else {
      var e := Paths.SlashFrom(path, i);
      SlashBeyond(path, i);
      var want := path[i..e];
      var j := KidIndex(n.kids, want);
      if j == |n.kids| {
        var c := FindKid(b, toks, t, k, p, want);
      } else {
        var c := KidLocated(b, toks, t, k, p, want);
        AfterKid(t, p, j);
        DenotesLocates(b, toks, t, c, p + [j]);
        r := WalkTheorem(b, toks, t, c, p + [j], path, e);
        if Walk(n.kids[j], path, e).Some? {
          var q := Walk(n.kids[j], path, e).value;
          assert (p + [j]) + q == p + ([j] + q);
        }
      }
    }
  }

  lemma WalkStep(n: Tree, path: seq<byte>, i: nat)
    requires i <= |path|
    ensures Walk(n, path, i) ==
      if i == |path| then Some([])
      else if path[i] == Paths.SLASH then Walk(n, path, i + 1)
      else
        var e := Paths.SlashFrom(path, i);
        var k := KidIndex(n.kids, path[i..e]);
        if k == |n.kids| then None
        else match Walk(n.kids[k], path, e) case None => None case Some(q) => Some([k] + q)
  {
    hide KidIndex, Paths.SlashFrom;
  }

  lemma OffsetStep(s: seq<byte>, path: seq<byte>, i: nat, offset: int)
    requires i <= |path|
    ensures Paths.PathOffsetFrom(s, path, i, offset) ==
      if i == |path| then offset
      else if path[i] == Paths.SLASH then Paths.PathOffsetFrom(s, path, i + 1, offset)
      else
        var e := Paths.SlashFrom(path, i);
        var sub := SubnodeOffset(s, offset, path[i..e]);
        if sub < 0 then sub else Paths.PathOffsetFrom(s, path, e, sub)
  {
    hide SubnodeOffset, Paths.SlashFrom;
  }

  lemma SlashBeyond(path: seq<byte>, i: nat)
    requires i < |path| && path[i] != Paths.SLASH
    ensures Paths.SlashFrom(path, i) > i
  {
  }

  lemma ValueString(s: seq<byte>, at: nat, v: seq<byte>)
    requires at + |v| <= |s| && s[at..at + |v|] == v && 0 in v
    ensures Paths.StringIn(s, at) == v[..NulFrom(v, 0)]
  {
    hide NulFrom;
    NulFromFacts(v, 0);
    var e := NulFrom(v, 0);
    assert v[0..|v|] == v;
    forall k | at <= k < at + e ensures s[k] != 0 {
      assert s[k] == s[at..at + |v|][k - at] == v[k - at] == v[0..e][k - at];
    }
    assert s[at + e] == s[at..at + |v|][e];
    NulFromIs(s, at, at + e);
    assert s[at..at + e] == s[at..at + |v|][..e];
  }

  /** The value of a property, where the readers find it. */
  lemma ValTheorem(o: Blob, otoks: seq<Token>, ot: Tree, g: seq<Token>, f: Path, name: seq<byte>)
    requires Denotes(o, otoks, ot) && Locates(o, otoks, ot, g, f)
    ensures Sound(o) && Inside(o) && Suffix(g, otoks) && Has(ot, f) && |Struct(o)| % 4 == 0
    ensures var s := Struct(o);
      var p := GetProp(s, Strings(o), At(otoks, g), name);
      match Val(Sub(ot, f).props, name)
      case None => p == -NOTFOUND
      case Some(v) => p >= 0 && PropLen(s, p) == |v| && p + 12 + |v| <= |s| && s[p + 12..p + 12 + |v|] == v
  {
    hide Ser, Before, After, Strings, Struct, At, Holds, NextTag, U32, GetProp, PropLen, Rest, Items, Strip, Reads, Lead, RwProbe;
    DenotesLocates(o, otoks, ot, g, f);
    DenotesParts(o, otoks, ot);
    BlockSlices(o);
    var n := Sub(ot, f);
    var i := PropIndex(n.props, name);
    if i == |n.props| {
      var q := FindInNode(o, otoks, ot, g, f, name);
    } else {
      var q, lead := FoundProp(o, otoks, ot, g, f, name);
      PropValueAt(Struct(o), otoks, q);
    }
  }

  lemma RootIs(t: Tree)
    ensures Has(t, []) && Sub(t, []) == t
  {
  }

  // ---------------------------------------------------------------- aliases

  lemma AbsentStays(s: seq<byte>, path: seq<byte>, i: nat, err: int)
    requires i <= |path| && err < 0
    ensures Paths.PathOffsetFrom(s, path, i, err) == err
    decreases |path| - i
  {
    if i < |path| && path[i] == Paths.SLASH {
      AbsentStays(s, path, i + 1, err);
    }
  }

  /** Where an alias is on the blob, and what it says. */
  lemma AliasTheorem(b: Blob, toks: seq<Token>, t: Tree, name: Name)
    requires Denotes(b, toks, t) && toks != [] && toks[0].BeginNode?
    ensures Sound(b)
    ensures var (s, p) := (Struct(b), Paths.AliasAt(b, name));
      match Alias(t, name)
      case None => p < 0
      case Some(v) => p >= 0 && p + 12 + |v| <= |s| && s[p + 12..p + 12 + |v|] == v
  {
    hide Reads, Locates, At, Struct, Strings, RwProbe, GetProp, Val, Sub, Has, Walk, Paths.PathOffsetFrom, PropLen;
    RootLocated(b, toks, t);
    DenotesLocates(b, toks, t, toks, []);
    RootIs(t);
    var k := WalkTheorem(b, toks, t, toks, [], Paths.ALIASES, 0);
    match Walk(t, Paths.ALIASES, 0)
    case None =>
    case Some(p) =>
      assert [] + p == p;
      DenotesLocates(b, toks, t, k, p);
      ValTheorem(b, toks, t, k, p, name);
  }

  /** fdt_path_offset on the blob resolves the path in the tree. */
  lemma {:induction false} LookupTheorem(b: Blob, toks: seq<Token>, t: Tree, path: seq<byte>, fuel: nat) returns (r: seq<Token>)
    requires Denotes(b, toks, t) && toks != [] && toks[0].BeginNode?
    ensures Sound(b)
    ensures var off := Paths.Lookup(b, path, fuel);
      match Resolve(t, path, fuel)
      case Found(p) => Locates(b, toks, t, r, p) && Suffix(r, toks) && off == Some(At(toks, r))
      case Missing(e) => off == Some(e) && e < 0
      case Endless => off == None
      case Loose => true
    decreases fuel
  {
    hide Reads, Locates, At, Struct, Strings, RwProbe, Val, Sub, Has, Walk, Paths.PathOffsetFrom, Paths.AliasAt, Alias, Paths.StringIn, Onward;
    r := toks;
    RootLocated(b, toks, t);
    DenotesLocates(b, toks, t, toks, []);
    if path != [] && path[0] == Paths.SLASH {
      r := OnwardTheorem(b, toks, t, toks, [], path, 0);
    } else {
      var e := Paths.SlashFrom(path, 0);
      AliasTheorem(b, toks, t, path[..e]);
      var v := Alias(t, path[..e]);
      if v.Some? && fuel > 0 && 0 in v.value {
        var value := v.value[..NulFrom(v.value, 0)];
        ValueString(Struct(b), Paths.AliasAt(b, path[..e]) + 12, v.value);
        var k := LookupTheorem(b, toks, t, value, fuel - 1);
        match Resolve(t, value, fuel - 1)
        case Found(p) =>
          DenotesLocates(b, toks, t, k, p);
          r := OnwardTheorem(b, toks, t, k, p, path, e);
        case Missing(err) => AbsentStays(Struct(b), path, e, err);
        case _ =>
      }
    }
  }

  lemma OnwardTheorem(b: Blob, toks: seq<Token>, t: Tree, k: seq<Token>, p: Path, path: seq<byte>, i: nat) returns (r: seq<Token>)
    requires Denotes(b, toks, t) && Locates(b, toks, t, k, p) && i <= |path|
    ensures Sound(b) && Suffix(k, toks) && Has(t, p)
    ensures var off := Paths.PathOffsetFrom(Struct(b), path, i, At(toks, k));
      match Onward(t, p, path, i)
      case Found(q) => Locates(b, toks, t, r, q) && Suffix(r, toks) && off == At(toks, r)
      case Missing(e) => off == e < 0
      case _ => false
  {
    hide Reads, Locates, At, Struct, Strings, RwProbe, Sub, Has, Walk, Paths.PathOffsetFrom;
    r := WalkTheorem(b, toks, t, k, p, path, i);
  }
}
