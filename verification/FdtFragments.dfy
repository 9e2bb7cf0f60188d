/** Applying a whole overlay (fdt_overlay.c): every fragment is merged into the node that
    its target names, by phandle or by path. */
module FdtFragments {
  import opened Wrappers
  import opened Bytes
  import opened FdtFormat
  import opened FdtTree
  import opened FdtRead
  import opened FdtEdit
  import opened FdtEditBlocks
  import opened FdtEditTheorems
  import opened FdtEditResults
  import opened FdtOverlay
  import opened FdtMerge
  import opened FdtUnion
  import opened FdtShape
  import opened FdtInPlace
  import opened FdtPhandles
  import opened FdtRenumber
  import opened FdtReferences
  import opened FdtRenumbering
  import opened FdtAlias
  import Paths = FdtPath

  const TARGET: seq<byte> := Text("target")
  const TARGET_PATH: seq<byte> := Text("target-path")
  const OVERLAY: seq<byte> := Text("__overlay__")
  const EXTERNAL_FIXUPS: seq<byte> := Text("__fixups__")
  const SYMBOLS: seq<byte> := Text("__symbols__")

  // ---------------------------------------------------------------- on the blob

  /** The loop of fdt_node_offset_by_phandle, at the node `off`. */
  function PhandleLoop(b: Blob, off: int, v: nat): (r: int)
    requires Sound(b) && Inside(b) && off < |Struct(b)|
    decreases if off >= 0 then |Struct(b)| - off else 0
  {
    hide Struct, GetPhandle, NodeAfter;
    if off < 0 then off
    else if GetPhandle(b, off) == v then off
    else PhandleLoop(b, NodeAfter(Struct(b), off), v)
  }

  function NodeByPhandle(b: Blob, v: nat): int
    requires Sound(b) && Inside(b)
  {
    if v == 0 || v == MINUS_ONE then -BADPHANDLE else PhandleLoop(b, NextBegin(Struct(b), 0), v)
  }

  /** overlay_get_target_phandle. */
  function TargetPhandle(o: Blob, fragment: int): nat
    requires Sound(o) && Inside(o)
  {
    hide U32, NextTag, GetProp, Clip;
    InBlock(o);
    var s := Struct(o);
    var p := GetProp(s, Strings(o), fragment, TARGET);
    if p < 0 then 0
    else if PropLen(s, p) != 4 || U32(s, p + 12) == MINUS_ONE then MINUS_ONE
    else U32(s, p + 12)
  }

  /** Not values of the library: a chain of aliases that is too long, and a string whose end
      the tree does not say. */
  const ENDLESS: int := 2
  const LOOSE: int := 3

  /** overlay_get_target. */
  function TargetOffset(b: Blob, o: Blob, fragment: int, fuel: nat): Option<int>
    requires Sound(b) && Inside(b) && Sound(o) && Inside(o)
  {
    hide U32, NextTag, GetProp, Clip, NodeByPhandle, TargetPhandle, Paths.Lookup, Paths.StringIn;
    InBlock(o);
    var v := TargetPhandle(o, fragment);
    if v == MINUS_ONE then Some(-BADPHANDLE)
    else if v != 0 then Some(NodeByPhandle(b, v))
    else
      var s := Struct(o);
      var p := GetProp(s, Strings(o), fragment, TARGET_PATH);
      if p == -NOTFOUND then Some(-BADOVERLAY)
      else if p < 0 then Some(p)
      else
        var len := PropLen(s, p);
        Paths.Lookup(b, Paths.StringIn(s, p + 12), fuel)
  }

  /** The loop of overlay_merge, from the fragment at `fragment`. */
  function MergeFrom(b: Blob, o: Blob, fragment: int, fuel: nat): (r: Edited)
    requires Sound(b) && Ordered(b) && Sound(o) && Inside(o) && fragment < |Struct(o)|
    ensures Sound(r.blob) && Ordered(r.blob)
    decreases if fragment >= 0 then |Struct(o)| - fragment else 0
  {
    hide Struct, NextSubnode, SubnodeOffset, TargetOffset, ApplyNode;
    if fragment < 0 then Edited(0, b)
    else
      var next := NextSubnode(Struct(o), fragment);
      var ov := SubnodeOffset(Struct(o), fragment, OVERLAY);
      if ov == -NOTFOUND then MergeFrom(b, o, next, fuel)
      else if ov < 0 then Edited(ov, b)
      else
        OrderedInside(b);
        match TargetOffset(b, o, fragment, fuel)
        case None => Edited(ENDLESS, b)
        case Some(target) =>
          if target < 0 then Edited(target, b)
          else
            var e := ApplyNode(b, target, o, ov);
            ApplyOrdered(b, target, o, ov);
            if e.err != 0 then e else MergeFrom(e.blob, o, next, fuel)
  }

  lemma SetPropOrdered(b: Blob, node: int, name: seq<byte>, val: seq<byte>)
    requires Sound(b) && Ordered(b) && |val| < WORD
    ensures Ordered(SetProp(b, node, name, val).blob)
  {
    hide ResizeProperty, AddProperty, RoProbe, Clip;
  }

  lemma AddSubnodeOrdered(b: Blob, parent: nat, name: seq<byte>)
    requires Sound(b) && Ordered(b)
    ensures Ordered(AddSubnode(b, parent, name).blob)
  {
    hide SubnodeOffset, SkipPropsFrom, NextTag, InsertNode, RoProbe, Clip;
    if RwProbe(b) == 0 && SubnodeOffset(Struct(b), parent, name) == -NOTFOUND {
      SkipPropsSafe(Struct(b), parent, name);
      BlockSlices(b);
    }
  }

  lemma {:induction false} ApplyPropsOrdered(b: Blob, target: nat, o: Blob, prop: int)
    requires Sound(b) && Ordered(b) && Sound(o)
    ensures Ordered(ApplyProps(b, target, o, prop).blob)
    decreases |Struct(o)| - prop
  {
    hide U32, NextTag, NulFrom, SetProp, StringAt, Struct, Ordered, StringError;
    var s := Struct(o);
    NextTagFacts(s, prop);
    if prop >= 0 && CheckPropOffset(s, prop) >= 0 {
      var name := StringAt(Strings(o), U32(s, prop + 8));
      if name.Some? {
        var val := s[prop + 12..prop + 12 + U32(s, prop + 4)];
        SetPropOrdered(b, target, name.value, val);
        var e := SetProp(b, target, name.value, val);
        var next := NextProp(s, prop);
        if e.err == 0 && next >= 0 {
          ApplyPropsOrdered(e.blob, target, o, next);
        }
      }
    }
  }

  /** Merging keeps the blocks of the base in order, also where it fails. */
  lemma {:induction false} ApplyOrdered(b: Blob, target: nat, o: Blob, node: nat)
    requires Sound(b) && Ordered(b) && Sound(o)
    ensures Ordered(ApplyNode(b, target, o, node).blob)
    decreases |Struct(o)| - node, 0
  {
    hide Struct, Ordered, ApplyProps, FirstSubnode;
    ApplyPropsOrdered(b, target, o, FirstProp(Struct(o), node));
    var e := ApplyProps(b, target, o, FirstProp(Struct(o), node));
    var first := FirstSubnode(Struct(o), node);
    if e.err == 0 && first >= 0 {
      ApplyKidsOrdered(e.blob, target, o, first);
    }
  }

  lemma {:induction false} ApplyKidsOrdered(b: Blob, target: nat, o: Blob, sub: nat)
    requires Sound(b) && Ordered(b) && Sound(o) && sub < |Struct(o)|
    ensures Ordered(ApplyKids(b, target, o, sub).blob)
    decreases |Struct(o)| - sub, 1
  {
    hide Struct, Ordered, ApplyNode, AddSubnode, SubnodeOffset, NodeName, NextSubnode;
    var s := Struct(o);
    var name := if sub + 4 <= |s| then NodeName(s, sub) else [];
    AddSubnodeOrdered(b, target, name);
    var a := AddSubnode(b, target, name);
    var kid := if a.err == -EXISTS then SubnodeOffset(Struct(b), target, name) else a.err;
    if kid >= 0 {
      ApplyOrdered(a.blob, kid, o, sub);
      var e := ApplyNode(a.blob, kid, o, sub);
      var next := NextSubnode(s, sub);
      if e.err == 0 && next >= 0 {
        ApplyKidsOrdered(e.blob, target, o, next);
      }
    }
  }

  lemma OrderedInside(b: Blob)
    requires Sound(b) && Ordered(b)
    ensures Inside(b)
  {
  }

  /** The overlay names no node of the base by a label and exports no labels: the passes
      overlay_fixup_phandles and overlay_symbol_update have nothing to do. */
  predicate SelfContained(o: Blob)
    requires Sound(o)
  {
    && SubnodeOffset(Struct(o), 0, EXTERNAL_FIXUPS) == -NOTFOUND
    && SubnodeOffset(Struct(o), 0, SYMBOLS) == -NOTFOUND
  }

  /** fdt_overlay_apply for an overlay with neither external fixups nor symbols. */
  function ApplyOverlay(b: Blob, o: Blob, fuel: nat): (r: Edited)
    requires Sound(b) && Ordered(b) && Sound(o) && Inside(o) && SelfContained(o)
    ensures Sound(r.blob)
  {
    hide Struct, Renumber, MergeFrom, FirstSubnode;
    OrderedInside(b);
    var e := Renumber(b, o);
    if e.err != 0 then Edited(e.err, b) else MergeFrom(b, e.blob, FirstSubnode(Struct(e.blob), 0), fuel)
  }

  // ---------------------------------------------------------------- in the tree

  /** The node that a fragment is to be merged into. */
  function TargetOf(t: Tree, fragment: Tree, fuel: nat): (r: Target)
    ensures r.Found? ==> Has(t, r.path)
  {
    hide NodeOf, PhandleOf, U32, Resolve, Has;
    match Val(fragment.props, TARGET)
    case Some(v) =>
      if |v| != 4 || U32(v, 0) == MINUS_ONE then Missing(-BADPHANDLE)
      else if U32(v, 0) == 0 then TargetByPath(t, fragment, fuel)
      else (match NodeOf(t, U32(v, 0)) case Some(p) => NodeOfFirst(t, U32(v, 0)); Found(p) case None => Missing(-NOTFOUND))
    case None => TargetByPath(t, fragment, fuel)
  }

  function TargetByPath(t: Tree, fragment: Tree, fuel: nat): (r: Target)
    ensures r.Found? ==> Has(t, r.path)
  {
    hide Resolve, Has;
    match Val(fragment.props, TARGET_PATH)
    case None => Missing(-BADOVERLAY)
    case Some(v) => if 0 !in v then Loose else Resolve(t, v[..NulFrom(v, 0)], fuel)
  }

  /** Every fragment in turn. */
  function MergeAll(t: Tree, fragments: seq<Tree>, fuel: nat): Outcome
    decreases fragments
  {
    if fragments == [] then Ok(t)
    else
      var f := fragments[0];
      var c := KidIndex(f.kids, OVERLAY);
      if c == |f.kids| then MergeAll(t, fragments[1..], fuel)
      else match TargetOf(t, f, fuel)
        case Missing(e) => Fail(e)
        case Loose => Fail(LOOSE)
        case Endless => Fail(ENDLESS)
        case Found(p) => MergeAll(Graft(t, p, Merge(Sub(t, p), f.kids[c])), fragments[1..], fuel)
  }

  /** The overlay's root has neither external fixups nor symbols. */
  predicate Alone(o: Tree) {
    KidIndex(o.kids, EXTERNAL_FIXUPS) == |o.kids| && KidIndex(o.kids, SYMBOLS) == |o.kids|
  }

  lemma AloneContained(o: Blob, otoks: seq<Token>, ot: Tree)
    requires Denotes(o, otoks, ot) && otoks != [] && otoks[0].BeginNode? && Alone(ot)
    ensures Sound(o) && SelfContained(o)
  {
    hide Reads, Locates, At, Struct, RwProbe, SubnodeOffset, KidIndex;
    RootLocated(o, otoks, ot);
    DenotesLocates(o, otoks, ot, otoks, []);
    var k := FindKid(o, otoks, ot, otoks, [], EXTERNAL_FIXUPS);
    k := FindKid(o, otoks, ot, otoks, [], SYMBOLS);
  }

  /** fdt_overlay_apply on trees. */
  function Applied(t: Tree, o: Tree, fuel: nat): Outcome {
    match Renumbered(o, MaxPhandle(t))
    case Fail(e) => Fail(e)
    case Ok(m) => MergeAll(t, m.kids, fuel)
  }

  // ---------------------------------------------------------------- phandles

  /** A phandle names the first node that has it. */
  lemma {:induction false} NodeOfFirst(t: Tree, v: nat)
    ensures match NodeOf(t, v)
      case None => forall p: Path :: Has(t, p) ==> PhandleOf(Sub(t, p)) != v
      case Some(q) =>
        && Has(t, q) && PhandleOf(Sub(t, q)) == v
        && forall p: Path :: Has(t, p) && PhandleOf(Sub(t, p)) == v ==> |Before(t, q)| <= |Before(t, p)|
    decreases t, |t.kids| + 1
  {
    hide PhandleOf;
    assert t.kids[0..] == t.kids;
    if PhandleOf(t) != v {
      NodeOfFirstKid(t, 0, v);
    }
  }

  lemma {:induction false} NodeOfFirstKid(t: Tree, j: nat, v: nat)
    requires j <= |t.kids|
    ensures match NodeOfKids(t.kids[j..], j, v)
      case None => forall p: Path :: p != [] && p[0] >= j && Has(t, p) ==> PhandleOf(Sub(t, p)) != v
      case Some(q) =>
        && q != [] && Has(t, q) && PhandleOf(Sub(t, q)) == v
        && forall p: Path :: p != [] && p[0] >= j && Has(t, p) && PhandleOf(Sub(t, p)) == v ==> |Before(t, q)| <= |Before(t, p)|
    decreases t, |t.kids| - j
  {
    hide PhandleOf, SerKids, SerProps, Before;
    if j < |t.kids| {
      var ks := t.kids[j..];
      assert ks[0] == t.kids[j] && ks[1..] == t.kids[j + 1..];
      NodeOfFirst(t.kids[j], v);
      NodeOfFirstKid(t, j + 1, v);
      var here := NodeOf(t.kids[j], v);
      if here.Some? {
        var q := [j] + here.value;
        assert q[1..] == here.value;
        forall p: Path | p != [] && p[0] >= j && Has(t, p) && PhandleOf(Sub(t, p)) == v ensures |Before(t, q)| <= |Before(t, p)| {
          KidOrder(t, q, p);
        }
      } else {
        forall p: Path | p != [] && p[0] == j && Has(t, p) ensures PhandleOf(Sub(t, p)) != v {
          assert Sub(t, p) == Sub(t.kids[j], p[1..]);
        }
      }
    }
  }

  /** Nodes come in the order of the children that they are in. */
  lemma KidOrder(t: Tree, q: Path, p: Path)
    requires q != [] && p != [] && Has(t, q) && Has(t, p)
    requires q[0] <= p[0]
    requires q[0] == p[0] ==> |Before(t.kids[q[0]], q[1..])| <= |Before(t.kids[p[0]], p[1..])|
    ensures |Before(t, q)| <= |Before(t, p)|
  {
    hide Ser, SerKids;
    if q[0] < p[0] {
      NodeItem(t.kids[q[0]], q[1..]);
      KidsBefore(t.kids, q[0], p[0]);
    }
  }

  lemma KidsBefore(ks: seq<Tree>, i: nat, j: nat)
    requires i < j <= |ks|
    ensures |SerKids(ks[..i])| + |Ser(ks[i])| <= |SerKids(ks[..j])|
  {
    hide Ser;
    var rest := ks[..j][i + 1..];
    assert ks[..j] == ks[..i] + ([ks[i]] + rest);
    SerKidsConcat(ks[..i], [ks[i]] + rest);
    assert ([ks[i]] + rest)[0] == ks[i] && ([ks[i]] + rest)[1..] == rest;
  }

  lemma {:induction false} PhandleScan(b: Blob, toks: seq<Token>, t: Tree, rest: seq<Token>, v: nat) returns (r: seq<Token>, p: Path)
    requires Denotes(b, toks, t) && Suffix(rest, toks)
    ensures Sound(b) && Inside(b)
    ensures var off := PhandleLoop(b, NextBegin(Struct(b), At(toks, rest)), v);
      if off >= 0 then
        && Locates(b, toks, t, r, p) && Suffix(r, toks) && off == At(toks, r) && PhandleOf(Sub(t, p)) == v
        && |Before(t, p)| == Passed(toks, r, Strings(b))
        && forall q: Path :: Has(t, q) && Passed(toks, rest, Strings(b)) <= |Before(t, q)| < |Before(t, p)| ==> PhandleOf(Sub(t, q)) != v
      else
        && off == -NOTFOUND
        && forall q: Path :: Has(t, q) && Passed(toks, rest, Strings(b)) <= |Before(t, q)| ==> PhandleOf(Sub(t, q)) != v
    decreases |rest|
  {
    hide Ser, Before, After, Strings, Struct, At, Holds, NextTag, U32, Items, Strip, Lead, RwProbe, GetPhandle, PhandleOf, NulFrom, Size, Passed, Locates;
    DenotesParts(b, toks, t);
    OrderedFacts(b);
    var st := Strings(b);
    CutAt(b, toks, t, rest);
    r, p := rest, [];
    if rest == [] {
      EndAt(Struct(b), toks);
      NoItems(st);
      forall q: Path | Has(t, q) ensures |Before(t, q)| < Passed(toks, rest, st) {
        NodeItem(t, q);
      }
    } else {
      StepAt(Struct(b), toks, rest);
      if rest[0].BeginNode? {
        p := Locate(b, toks, t, rest);
        LocatesParts(b, toks, t, rest, p);
        LocatesIff(b, toks, t, rest, p);
        PhandleTheorem(b, toks, t, rest, p);
        if PhandleOf(Sub(t, p)) != v {
          r, p := PhandleScan(b, toks, t, rest[1..], v);
        }
      } else {
        r, p := PhandleScan(b, toks, t, rest[1..], v);
      }
      forall q: Path | Has(t, q) && Passed(toks, rest, st) <= |Before(t, q)|
        ensures |Before(t, q)| >= Passed(toks, rest[1..], st) ||
          (rest[0].BeginNode? && |Before(t, q)| == Passed(toks, rest, st) && PhandleOf(Sub(t, q)) == GetPhandle(b, At(toks, rest)))
      {
        ItemHere(b, toks, t, rest, q);
        if |Before(t, q)| < Passed(toks, rest[1..], st) {
          LocatesIff(b, toks, t, rest, q);
          PhandleTheorem(b, toks, t, rest, q);
        }
      }
    }
  }

  /** fdt_node_offset_by_phandle finds the node that the phandle names in the tree. */
  lemma NodeByPhandleTheorem(b: Blob, toks: seq<Token>, t: Tree, v: nat) returns (r: seq<Token>)
    requires Denotes(b, toks, t) && v != 0 && v != MINUS_ONE
    ensures Sound(b) && Inside(b)
    ensures match NodeOf(t, v)
      case None => NodeByPhandle(b, v) == -NOTFOUND
      case Some(p) => Locates(b, toks, t, r, p) && Suffix(r, toks) && NodeByPhandle(b, v) == At(toks, r)
  {
    hide Ser, Before, After, Strings, Struct, At, Reads, RwProbe, PhandleOf, NodeOf, PhandleLoop, NextBegin, Passed, Locates;
    DenotesParts(b, toks, t);
    NothingPassed(toks, Strings(b));
    var p;
    r, p := PhandleScan(b, toks, t, toks, v);
    NodeOfFirst(t, v);
    if NodeByPhandle(b, v) >= 0 {
      LocatesParts(b, toks, t, r, p);
      LocatesIff(b, toks, t, r, NodeOf(t, v).value);
    }
  }

  lemma LocatesParts(b: Blob, toks: seq<Token>, t: Tree, r: seq<Token>, p: Path)
    requires Denotes(b, toks, t) && Sound(b) && Locates(b, toks, t, r, p)
    ensures Reads(b, toks, t) && Suffix(r, toks) && r != [] && r[0].BeginNode? && Has(t, p)
  {
    hide Reads;
  }

  // ---------------------------------------------------------------- targets

  lemma PhandleTarget(o: Blob, otoks: seq<Token>, ot: Tree, g: seq<Token>, f: Path)
    requires Denotes(o, otoks, ot) && Locates(o, otoks, ot, g, f)
    ensures Sound(o) && Inside(o) && Suffix(g, otoks) && Has(ot, f)
    ensures TargetPhandle(o, At(otoks, g)) ==
      match Val(Sub(ot, f).props, TARGET)
      case None => 0
      case Some(v) => if |v| != 4 then MINUS_ONE else U32(v, 0)
  {
    hide Strings, Struct, At, U32, GetProp, PropLen, Reads, Locates, RwProbe, Val, Sub, NextTag;
    ValTheorem(o, otoks, ot, g, f, TARGET);
    match Val(Sub(ot, f).props, TARGET)
    case None =>
    case Some(v) =>
      var p := GetProp(Struct(o), Strings(o), At(otoks, g), TARGET);
      ValueWord(Struct(o), p, v);
      if |v| == 4 {
        assert U32(Struct(o), p + 12 + 0) == U32(v, 0);
      }
  }

  /** The target of a fragment on the blob is its target in the tree. */
  lemma TargetTheorem(b: Blob, toks: seq<Token>, t: Tree, o: Blob, otoks: seq<Token>, ot: Tree, g: seq<Token>, f: Path, fuel: nat) returns (r: seq<Token>)
    requires Denotes(b, toks, t) && toks != [] && toks[0].BeginNode?
    requires Denotes(o, otoks, ot) && Locates(o, otoks, ot, g, f) && Has(ot, f)
    ensures Sound(b) && Inside(b) && Sound(o) && Inside(o) && Suffix(g, otoks)
    ensures var off := TargetOffset(b, o, At(otoks, g), fuel);
      match TargetOf(t, Sub(ot, f), fuel)
      case Found(p) => Locates(b, toks, t, r, p) && Suffix(r, toks) && off == Some(At(toks, r))
      case Missing(e) => off == Some(e) && e < 0
      case Endless => off == None
      case Loose => true
  {
    hide Strings, Struct, At, U32, GetProp, PropLen, Reads, Locates, RwProbe, Val, Sub, NextTag, TargetPhandle, NodeOf, Resolve, NodeByPhandle, Paths.Lookup,
      Paths.StringIn;
    r := toks;
    DenotesLocates(o, otoks, ot, g, f);
    PhandleTarget(o, otoks, ot, g, f);
    DenotesParts(b, toks, t);
    OrderedInside(b);
    var frag := Sub(ot, f);
    var w := TargetPhandle(o, At(otoks, g));
    if w == 0 {
      ValTheorem(o, otoks, ot, g, f, TARGET_PATH);
      match Val(frag.props, TARGET_PATH)
      case None =>
      case Some(v) =>
        if 0 in v {
          var p := GetProp(Struct(o), Strings(o), At(otoks, g), TARGET_PATH);
          ValueString(Struct(o), p + 12, v);
          r := LookupTheorem(b, toks, t, v[..NulFrom(v, 0)], fuel);
        }
    } else if w != MINUS_ONE {
      r := NodeByPhandleTheorem(b, toks, t, w);
    }
  }

  // ---------------------------------------------------------------- merging every fragment

  lemma OpensHere(o: Blob, otoks: seq<Token>, ot: Tree, g: seq<Token>, f: Path) returns (z: seq<Item>)
    requires Denotes(o, otoks, ot) && Locates(o, otoks, ot, g, f)
    ensures Has(ot, f) && Sound(o) && Holds(Struct(o), otoks) && Opens(o, otoks, g, Sub(ot, f), z)
  {
    hide Ser, Before, After, Strings, Struct, Holds, RwProbe;
    Located(o, otoks, ot, g, f);
    z := After(ot, f);
  }

  lemma StillBegins(b: Blob, toks: seq<Token>, t: Tree, r: seq<Token>, p: Path, b': Blob, toks': seq<Token>, r': seq<Token>, n': Tree)
    requires Denotes(b, toks, t) && Sound(b) && Locates(b, toks, t, r, p) && toks != [] && toks[0].BeginNode?
    requires Has(t, p) && Regrafts(b, toks, t, r, p, b', toks', r', n')
    ensures toks' != [] && toks'[0].BeginNode? && Denotes(b', toks', Graft(t, p, n')) && Sound(b') && Ordered(b')
  {
    hide Reads, Before, Items, Strip, Strings;
    DenotesParts(b', toks', Graft(t, p, n'));
    if |r| == |toks| {
      assert Lead(toks, r) == [];
    } else {
      assert Lead(toks, r)[0] == toks[0];
      assert Lead(toks', r')[0] == toks'[0];
    }
  }

  /** One fragment. */
  lemma FragmentTheorem(b: Blob, toks: seq<Token>, t: Tree, o: Blob, otoks: seq<Token>, ot: Tree, g: seq<Token>, f: Path, fuel: nat) returns (toks': seq<Token>)
    requires Denotes(b, toks, t) && toks != [] && toks[0].BeginNode?
    requires Denotes(o, otoks, ot) && Locates(o, otoks, ot, g, f) && Has(ot, f)
    requires KidIndex(Sub(ot, f).kids, OVERLAY) < |Sub(ot, f).kids|
    ensures Sound(b) && Ordered(b) && Inside(b) && Sound(o) && Inside(o) && Suffix(g, otoks)
    ensures var ov := SubnodeOffset(Struct(o), At(otoks, g), OVERLAY);
      var (off, target) := (TargetOffset(b, o, At(otoks, g), fuel), TargetOf(t, Sub(ot, f), fuel));
      && ov >= 0
      && if target.Loose? then true
        else if target.Endless? then off == None
        else if target.Missing? then off == Some(target.err) && target.err < 0
        else
          && off.Some? && off.value >= 0 && Has(t, target.path)
          && var e := ApplyNode(b, off.value, o, ov);
          if e.err == 0 then
            && toks' != [] && toks'[0].BeginNode? && Sound(e.blob) && Ordered(e.blob)
            && Denotes(e.blob, toks', Graft(t, target.path, Merge(Sub(t, target.path), Sub(ot, f).kids[KidIndex(Sub(ot, f).kids, OVERLAY)])))
          else e.err == -NOSPACE
  {
    hide Strings, Struct, At, Reads, Locates, RwProbe, Sub, Has, TargetOffset, TargetOf, ApplyNode, Merge, SubnodeOffset, Regrafts, Graft, KidIndex, Holds;
    DenotesParts(b, toks, t);
    DenotesParts(o, otoks, ot);
    toks' := toks;
    var r := TargetTheorem(b, toks, t, o, otoks, ot, g, f, fuel);
    var c := KidIndex(Sub(ot, f).kids, OVERLAY);
    var k := KidLocated(o, otoks, ot, g, f, OVERLAY);
    AfterKid(ot, f, c);
    DenotesLocates(o, otoks, ot, k, f + [c]);
    if TargetOf(t, Sub(ot, f), fuel).Found? {
      var p := TargetOf(t, Sub(ot, f), fuel).path;
      DenotesLocates(b, toks, t, r, p);
      var z := OpensHere(o, otoks, ot, k, f + [c]);
      var r';
      toks', r' := ApplyNodeTheorem(b, toks, t, r, p, o, otoks, k, Sub(ot, f + [c]), z);
      var e := ApplyNode(b, At(toks, r), o, At(otoks, k));
      if e.err == 0 {
        StillBegins(b, toks, t, r, p, e.blob, toks', r', Merge(Sub(t, p), Sub(ot, f + [c])));
      }
    }
  }

  /** overlay_merge, from fragment `i` on: the tree is the one with every remaining fragment
      merged into its target, unless there is no room. */
  lemma {:induction false} MergeFromTheorem(b: Blob, toks: seq<Token>, t: Tree, o: Blob, otoks: seq<Token>, ot: Tree, i: nat, g: seq<Token>, fuel: nat)
    returns (toks': seq<Token>)
    requires Denotes(b, toks, t) && toks != [] && toks[0].BeginNode?
    requires Denotes(o, otoks, ot) && otoks != [] && otoks[0].BeginNode?
    requires i < |ot.kids| && Locates(o, otoks, ot, g, [i])
    ensures Sound(b) && Ordered(b) && Sound(o) && Inside(o) && Suffix(g, otoks) && At(otoks, g) < |Struct(o)|
    ensures var e := MergeFrom(b, o, At(otoks, g), fuel);
      match MergeAll(t, ot.kids[i..], fuel)
      case Fail(err) => err == LOOSE || e.err == err != 0 || e.err == -NOSPACE
      case Ok(m) => if e.err == 0 then Denotes(e.blob, toks', m) else e.err == -NOSPACE
    decreases |ot.kids| - i
  {
    hide Strings, Struct, At, Reads, Locates, RwProbe, Sub, Has, TargetOffset, TargetOf, ApplyNode, Merge, SubnodeOffset, NextSubnode, Graft, KidIndex;
    DenotesParts(b, toks, t);
    RootLocated(o, otoks, ot);
    DenotesLocates(o, otoks, ot, g, [i]);
    BeginInBlock(o, otoks, ot, g, [i]);
    KidOfRoot(ot, i);
    var fs := ot.kids[i..];
    assert fs[0] == ot.kids[i] && fs[1..] == ot.kids[i + 1..];
    assert [] + [i + 1] == [i + 1] && [] + [i] == [i];
    var k := NextKidAt(o, otoks, ot, otoks, [], i, g);
    var c := KidIndex(fs[0].kids, OVERLAY);
    toks' := toks;
    if c == |fs[0].kids| {
      var q := FindKid(o, otoks, ot, g, [i], OVERLAY);
      if i + 1 < |ot.kids| {
        toks' := MergeFromTheorem(b, toks, t, o, otoks, ot, i + 1, k, fuel);
      }
    } else {
      var toks1 := FragmentTheorem(b, toks, t, o, otoks, ot, g, [i], fuel);
      if TargetOf(t, fs[0], fuel).Found? {
        var p := TargetOf(t, fs[0], fuel).path;
        var e := ApplyNode(b, TargetOffset(b, o, At(otoks, g), fuel).value, o, SubnodeOffset(Struct(o), At(otoks, g), OVERLAY));
        if e.err == 0 {
          toks' := toks1;
          if i + 1 < |ot.kids| {
            toks' := MergeFromTheorem(e.blob, toks1, Graft(t, p, Merge(Sub(t, p), fs[0].kids[c])), o, otoks, ot, i + 1, k, fuel);
          }
        }
      }
    }
  }

  lemma KidOfRoot(t: Tree, i: nat)
    requires i < |t.kids|
    ensures Has(t, [i]) && Sub(t, [i]) == t.kids[i] && Has(t, []) && Sub(t, []) == t
  {
  }

  /** fdt_overlay_apply: the overlay is renumbered against the base and every fragment is
      merged into its target; it fails as the trees say, or for want of room. */
  lemma ApplyOverlayTheorem(b: Blob, toks: seq<Token>, t: Tree, o: Blob, otoks: seq<Token>, ot: Tree, fuel: nat) returns (toks': seq<Token>)
    requires Denotes(b, toks, t) && toks != [] && toks[0].BeginNode?
    requires Denotes(o, otoks, ot) && otoks != [] && otoks[0].BeginNode?
    requires Alone(ot) && FixupsApart(ot)
    ensures Sound(b) && Ordered(b) && Sound(o) && Inside(o) && SelfContained(o)
    ensures var e := ApplyOverlay(b, o, fuel);
      match Applied(t, ot, fuel)
      case Fail(err) => err == LOOSE || e.err == err || e.err == -NOSPACE || (e.err == WILD && !FixupsBounded(o, ot, MaxPhandle(t)))
      case Ok(m) => if e.err == 0 then Denotes(e.blob, toks', m) else e.err == -NOSPACE
  {
    hide Strings, Struct, At, Reads, Locates, RwProbe, Renumber, Renumbered, MergeFrom, MergeAll, MaxPhandle, FirstSubnode, Alike, FixupsApart, SelfContained, Alone;
    DenotesParts(b, toks, t);
    AloneContained(o, otoks, ot);
    var ks := RenumberTheorem(b, toks, t, o, otoks, ot);
    toks' := toks;
    if Renumbered(ot, MaxPhandle(t)).Ok? {
      var m := Renumbered(ot, MaxPhandle(t)).tree;
      var e := Renumber(b, o);
      RootLocated(e.blob, ks, m);
      DenotesLocates(e.blob, ks, m, ks, []);
      KidsOfRoot(m);
      var g := FirstKidAt(e.blob, ks, m, ks, []);
      NoFragments(b, t, e.blob, -NOTFOUND, fuel);
      if m.kids != [] {
        assert [] + [0] == [0];
        assert m.kids[0..] == m.kids;
        toks' := MergeFromTheorem(b, toks, t, e.blob, ks, m, 0, g, fuel);
      }
    }
  }

  lemma KidsOfRoot(t: Tree)
    ensures Has(t, []) && Sub(t, []) == t
  {
  }

  lemma NoFragments(b: Blob, t: Tree, o: Blob, off: int, fuel: nat)
    requires Sound(b) && Ordered(b) && Sound(o) && Inside(o) && off < 0
    ensures MergeFrom(b, o, off, fuel) == Edited(0, b) && MergeAll(t, [], fuel) == Ok(t)
  {
  }
}
