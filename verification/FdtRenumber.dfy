/** The passes of fdt_overlay.c that renumber an overlay, on the blob: shifting its
    phandles and updating its references to its own nodes, all in place. */
module FdtRenumber {
  import opened Wrappers
  import opened Bytes
  import opened FdtFormat
  import opened FdtTree
  import opened FdtRead
  import opened FdtEdit
  import opened FdtEditBlocks
  import opened FdtEditTheorems
  import opened FdtEditResults
  import opened FdtOverlay
  import opened FdtMerge
  import opened FdtShape
  import opened FdtInPlace
  import opened FdtPhandles

  // ---------------------------------------------------------------- shifting phandles

  /** overlay_phandle_add_offset. */
  function AddOffsetAt(b: Blob, node: int, name: seq<byte>, delta: nat): (r: Edited)
    requires Sound(b) && Inside(b)
    ensures Sound(r.blob) && Inside(r.blob) && SameFrame(b, r.blob)
  {
    hide U32, NextTag, Align4, GetProp, Clip, SetInPlace, BE32;
    InBlock(b);
    var s := Struct(b);
    var p := GetProp(s, Strings(b), node, name);
    if p < 0 then Edited(p, b)
    else if PropLen(s, p) != 4 then Edited(-BADPHANDLE, b)
    else
      var v := U32(s, p + 12);
      if v + delta >= WORD || v + delta == MINUS_ONE then Edited(-NOPHANDLES, b)
      else SetInPlace(b, node, name, BE32(v + delta))
  }

  /** overlay_adjust_node_phandles. */
  function AdjustNode(b: Blob, node: nat, delta: nat): (r: Edited)
    requires Sound(b) && Inside(b)
    ensures Sound(r.blob) && Inside(r.blob) && SameFrame(b, r.blob)
    decreases |Struct(b)| - node, 0
  {
    hide Clip, AddOffsetAt, FirstSubnode;
    var e := AddOffsetAt(b, node, PHANDLE, delta);
    if e.err != 0 && e.err != -NOTFOUND then e
    else
      var f := AddOffsetAt(e.blob, node, LINUX_PHANDLE, delta);
      if f.err != 0 && f.err != -NOTFOUND then f
      else
        var first := FirstSubnode(Struct(f.blob), node);
        SameFrameBlock(b, f.blob);
        if first < 0 then Edited(0, f.blob) else AdjustSubs(f.blob, first, delta)
  }

  /** Its child loop, from the child at `sub`. */
  function AdjustSubs(b: Blob, sub: nat, delta: nat): (r: Edited)
    requires Sound(b) && Inside(b) && sub < |Struct(b)|
    ensures Sound(r.blob) && Inside(r.blob) && SameFrame(b, r.blob)
    decreases |Struct(b)| - sub, 1
  {
    hide Clip, NextSubnode;
    var e := AdjustNode(b, sub, delta);
    if e.err != 0 then e
    else
      var next := NextSubnode(Struct(e.blob), sub);
      SameFrameBlock(b, e.blob);
      if next < 0 then e else AdjustSubs(e.blob, next, delta)
  }

  lemma AddOffsetTheorem(b: Blob, toks: seq<Token>, t: Tree, r: seq<Token>, p: Path, name: seq<byte>, delta: nat)
    returns (ks: seq<Token>)
    requires Denotes(b, toks, t) && Locates(b, toks, t, r, p)
    ensures Sound(b) && Inside(b)
    ensures var (e, n) := (AddOffsetAt(b, At(toks, r), name, delta), AddOffset(Sub(t, p), name, delta));
      if n.Fail? then e.err == n.err && n.err in {-BADPHANDLE, -NOPHANDLES}
      else (e.err == 0 || e.err == -NOTFOUND) && Patched(b, toks, t, e.blob, ks, Graft(t, p, n.tree))
  {
    hide Ser, Before, After, Strings, Struct, At, Holds, NextTag, U32, GetProp, PropLen, Rest,
      Items, Strip, Reads, Lead, Graft, Alike, SetInPlace, Patched, BE32;
    ks := toks;
    DenotesParts(b, toks, t);
    BlockSlices(b);
    var n := Sub(t, p);
    var i := PropIndex(n.props, name);
    if i == |n.props| {
      var q := FindInNode(b, toks, t, r, p, name);
      GraftSelf(t, p);
      PatchedNot(b, toks, t);
    } else {
      var q, lead := FoundProp(b, toks, t, r, p, name);
      PropValueAt(Struct(b), toks, q);
      if |n.props[i].val| == 4 {
        ValueWord(Struct(b), At(toks, q), q[0].val);
        var v := U32(n.props[i].val, 0);
        if v + delta < MINUS_ONE {
          ks := SetInPlaceTheorem(b, toks, t, r, p, name, BE32(v + delta));
        }
      }
    }
  }

  /** A word of a value, read where the value is. */
  lemma ValueWord(s: seq<byte>, pos: nat, val: seq<byte>)
    requires pos + 12 + |val| <= |s| && s[pos + 12..pos + 12 + |val|] == val
    ensures forall i: nat {:trigger U32(val, i)} :: i + 4 <= |val| ==> U32(s, pos + 12 + i) == U32(val, i)
  {
    forall i: nat | i + 4 <= |val| ensures U32(s, pos + 12 + i) == U32(val, i) {
      var v := s[pos + 12..pos + 12 + |val|];
      assert v[i] == s[pos + 12 + i] && v[i + 1] == s[pos + 13 + i] && v[i + 2] == s[pos + 14 + i] && v[i + 3] == s[pos + 15 + i];
    }
  }

  /** Two patches of the same node. */
  lemma GraftPatched(b: Blob, toks: seq<Token>, t: Tree, p: Path, b1: Blob, ks: seq<Token>, m: Tree, b2: Blob, js: seq<Token>, m2: Tree)
    requires Has(t, p) && Patched(b, toks, t, b1, ks, Graft(t, p, m))
    requires Has(Graft(t, p, m), p) && Patched(b1, ks, Graft(t, p, m), b2, js, Graft(Graft(t, p, m), p, m2))
    ensures Patched(b, toks, t, b2, js, Graft(t, p, m2))
  {
    hide Patched, Graft;
    GraftTwice(t, p, m, m2);
    PatchedTwice(b, toks, t, b1, ks, Graft(t, p, m), b2, js, Graft(t, p, m2));
  }

  /** Where the walkers find the first child. */
  lemma FirstKidAt(b: Blob, toks: seq<Token>, t: Tree, r: seq<Token>, p: Path) returns (k: seq<Token>)
    requires Denotes(b, toks, t) && Locates(b, toks, t, r, p)
    ensures Sound(b) && Suffix(r, toks)
    ensures var pos := FirstSubnode(Struct(b), At(toks, r));
      if Sub(t, p).kids == [] then pos == -NOTFOUND
      else Locates(b, toks, t, k, p + [0]) && pos == At(toks, k) && At(toks, k) < |Struct(b)|
  {
    hide Ser, Before, After, Strings, Struct, RwProbe, Holds, SerProps, SerKids, At, NextNodeFrom, Items, Strip, Body;
    var n, z := Sub(t, p), After(t, p);
    DenotesParts(b, toks, t);
    Located(b, toks, t, r, p);
    StepAt(Struct(b), toks, r);
    BodyShape(n, z);
    KidPastProps(n.props, SerKids(n.kids) + ([IEnd] + z), 0);
    k := KidStep(b, toks, r[1..], 0, n.kids, z);
    FirstChildIs(Struct(b), At(toks, r), At(toks, r[1..]));
    if n.kids != [] {
      assert n.kids[0..] == n.kids;
      KidOpens(b, toks, t, r, p, 0, k);
    }
  }

  /** Where the walkers find the child after child `i`. */
  lemma NextKidAt(b: Blob, toks: seq<Token>, t: Tree, r: seq<Token>, p: Path, i: nat, c: seq<Token>) returns (k: seq<Token>)
    requires Denotes(b, toks, t) && Locates(b, toks, t, r, p) && i < |Sub(t, p).kids|
    requires Locates(b, toks, t, c, p + [i])
    ensures Sound(b) && Suffix(c, toks)
    ensures var pos := NextSubnode(Struct(b), At(toks, c));
      if i + 1 == |Sub(t, p).kids| then pos == -NOTFOUND
      else Locates(b, toks, t, k, p + [i + 1]) && pos == At(toks, k) && At(toks, k) < |Struct(b)|
  {
    hide Ser, Before, After, Strings, Struct, RwProbe, Holds, SerProps, SerKids, At, NextNodeFrom, Items, Strip, Body;
    var n, z := Sub(t, p), After(t, p);
    DenotesParts(b, toks, t);
    Located(b, toks, t, c, p + [i]);
    StepAt(Struct(b), toks, c);
    AfterKid(t, p, i);
    var ks := n.kids[i + 1..];
    KidPastBody(n.kids[i], SerKids(ks) + ([IEnd] + z), 1);
    k := KidStep(b, toks, c[1..], 1, ks, z);
    NextChildIs(Struct(b), At(toks, c), At(toks, c[1..]));
    if ks != [] {
      assert ks[1..] == n.kids[i + 2..] && ks[0] == n.kids[i + 1];
      KidOpens(b, toks, t, r, p, i + 1, k);
    }
  }

  lemma {:induction false} AfterKid(t: Tree, p: Path, i: nat)
    requires Has(t, p) && i < |Sub(t, p).kids|
    ensures Has(t, p + [i]) && Sub(t, p + [i]) == Sub(t, p).kids[i]
    ensures After(t, p + [i]) == SerKids(Sub(t, p).kids[i + 1..]) + ([IEnd] + After(t, p))
    decreases |p|
  {
    hide SerKids;
    var q := p + [i];
    if p == [] {
      assert q[1..] == [];
      assert After(t, q) == [] + (SerKids(t.kids[i + 1..]) + [IEnd]);
    } else {
      assert q[1..] == p[1..] + [i];
      var k := t.kids[p[0]];
      AfterKid(k, p[1..], i);
      var y := SerKids(t.kids[p[0] + 1..]) + [IEnd];
      assert After(t, q) == After(k, p[1..] + [i]) + y && After(t, p) == After(k, p[1..]) + y;
      Join(SerKids(Sub(t, p).kids[i + 1..]), [IEnd] + After(k, p[1..]), y);
      Join([IEnd], After(k, p[1..]), y);
    }
  }

  /** Tokens that open child `i` and what follows it locate it. */
  lemma KidOpens(b: Blob, toks: seq<Token>, t: Tree, r: seq<Token>, p: Path, i: nat, k: seq<Token>)
    requires Denotes(b, toks, t) && Locates(b, toks, t, r, p) && i < |Sub(t, p).kids|
    requires Sound(b) && Opens(b, toks, k, Sub(t, p).kids[i], SerKids(Sub(t, p).kids[i + 1..]) + ([IEnd] + After(t, p)))
    ensures Locates(b, toks, t, k, p + [i]) && At(toks, k) < |Struct(b)|
  {
    hide Ser, Before, After, Strings, Struct, RwProbe, Holds, SerProps, SerKids, At, NextTag, U32, NulFrom;
    var n, z := Sub(t, p), After(t, p);
    var st := Strings(b);
    StepAt(Struct(b), toks, k);
    KidLead(n, i, z);
    var ks := n.kids[i..];
    assert ks[0] == n.kids[i] && ks[1..] == n.kids[i + 1..];
    KidsShape(ks, [IEnd] + z);
    FirstItem(k, st);
    var lead := [IBegin(n.name)] + SerProps(n.props) + SerKids(n.kids[..i]);
    LeadInside(b, toks, t, r, p, k, lead, Strip(Items(k, st)));
    BeforeKid(t, p, i);
  }

  /** Shifting on the blob is shifting in the tree, node by node. */
  lemma {:induction false} AdjustNodeTheorem(b: Blob, toks: seq<Token>, t: Tree, r: seq<Token>, p: Path, delta: nat)
    returns (ks: seq<Token>)
    requires Denotes(b, toks, t) && Locates(b, toks, t, r, p)
    ensures Sound(b) && Inside(b) && Has(t, p)
    ensures var e := AdjustNode(b, At(toks, r), delta);
      match Adjust(Sub(t, p), delta)
      case Fail(err) => e.err == err
      case Ok(m) => e.err == 0 && Patched(b, toks, t, e.blob, ks, Graft(t, p, m))
    decreases Sub(t, p)
  {
    hide Reads, Locates, At, Struct, Strings, Graft, Patched, AddOffsetAt, AddOffset, FirstSubnode, RwProbe, Sub, AdjustSubs, AdjustKids;
    DenotesLocates(b, toks, t, r, p);
    var n := Sub(t, p);
    ks := toks;
    var e := AddOffsetAt(b, At(toks, r), PHANDLE, delta);
    var ks1 := AddOffsetTheorem(b, toks, t, r, p, PHANDLE, delta);
    if AddOffset(n, PHANDLE, delta).Ok? {
      var n1 := AddOffset(n, PHANDLE, delta).tree;
      var r1 := Moved1(b, toks, t, r, p, e.blob, ks1, n1);
      var t1 := Graft(t, p, n1);
      var f := AddOffsetAt(e.blob, At(toks, r), LINUX_PHANDLE, delta);
      var ks2 := AddOffsetTheorem(e.blob, ks1, t1, r1, p, LINUX_PHANDLE, delta);
      if AddOffset(n1, LINUX_PHANDLE, delta).Ok? {
        var n2 := AddOffset(n1, LINUX_PHANDLE, delta).tree;
        GraftPatched(b, toks, t, p, e.blob, ks1, n1, f.blob, ks2, n2);
        var r2 := Moved1(b, toks, t, r, p, f.blob, ks2, n2);
        var t2 := Graft(t, p, n2);
        AdjustedAll(n, n2, delta);
        var k := FirstKidAt(f.blob, ks2, t2, r2, p);
        assert n2.kids == n.kids && n.kids[0..] == n.kids;
        ks := ks2;
        if n.kids != [] {
          ks := AdjustSubsTheorem(f.blob, ks2, t2, r2, p, 0, k, delta);
          if AdjustKids(n.kids, delta).Some? {
            var g := AdjustSubs(f.blob, At(ks2, k), delta);
            var vs := AdjustKids(n.kids, delta).value;
            assert n2.kids[..0] + vs == vs;
            GraftPatched(b, toks, t, p, f.blob, ks2, n2, g.blob, ks, n2.(kids := vs));
          }
        } else {
          NoKids(n, n2, delta);
        }
      }
    }
  }

  lemma DenotesLocates(b: Blob, toks: seq<Token>, t: Tree, r: seq<Token>, p: Path)
    requires Denotes(b, toks, t) && Locates(b, toks, t, r, p)
    ensures Sound(b) && Inside(b) && Has(t, p) && Suffix(r, toks)
  {
    DenotesParts(b, toks, t);
  }

  /** The node after a patch that grafts `m` at it. */
  lemma Moved1(b: Blob, toks: seq<Token>, t: Tree, r: seq<Token>, p: Path, b1: Blob, ks: seq<Token>, m: Tree) returns (r1: seq<Token>)
    requires Denotes(b, toks, t) && Locates(b, toks, t, r, p) && Has(t, p)
    requires Patched(b, toks, t, b1, ks, Graft(t, p, m))
    ensures var t1 := Graft(t, p, m);
      && Denotes(b1, ks, t1) && Locates(b1, ks, t1, r1, p) && Has(t1, p) && Sub(t1, p) == m
      && Suffix(r, toks) && Suffix(r1, ks) && At(ks, r1) == At(toks, r)
  {
    hide Locates, Reads, At, Graft, RwProbe;
    Relocate(b, toks, t, r, p, b1, ks, Graft(t, p, m));
    GraftKeepsBefore(t, p, m);
    r1 := Again(toks, r, ks);
  }

  lemma NoKids(n: Tree, n2: Tree, delta: nat)
    requires n.kids == [] && AdjustProps(n, delta) == Ok(n2) && n2 == n.(props := n2.props)
    ensures Adjust(n, delta) == Ok(n2)
  {
    assert n2.(kids := []) == n2;
  }

  lemma AdjustedAll(n: Tree, n2: Tree, delta: nat)
    requires AdjustProps(n, delta) == Ok(n2)
    ensures n2.name == n.name && n2.kids == n.kids
    ensures Adjust(n, delta) ==
      if AdjustKids(n.kids, delta).Some? then Ok(n2.(kids := AdjustKids(n.kids, delta).value)) else Fail(FirstFailure(n.kids, delta))
  {
  }

  /** The child loop, from child `i` on. */
  lemma {:induction false} AdjustSubsTheorem(b: Blob, toks: seq<Token>, t: Tree, r: seq<Token>, p: Path, i: nat, c: seq<Token>, delta: nat)
    returns (ks: seq<Token>)
    requires Denotes(b, toks, t) && Locates(b, toks, t, r, p) && i < |Sub(t, p).kids|
    requires Locates(b, toks, t, c, p + [i])
    ensures Sound(b) && Inside(b) && Has(t, p) && Suffix(c, toks) && At(toks, c) < |Struct(b)|
    ensures var e := AdjustSubs(b, At(toks, c), delta);
      var n := Sub(t, p);
      match AdjustKids(n.kids[i..], delta)
      case None => e.err == FirstFailure(n.kids[i..], delta) && e.err != 0
      case Some(vs) => e.err == 0 && Patched(b, toks, t, e.blob, ks, Graft(t, p, n.(kids := n.kids[..i] + vs)))
    decreases Sub(t, p).kids[i..]
  {
    hide Reads, Locates, At, Struct, Strings, Graft, Patched, AdjustNode, Adjust, NextSubnode, RwProbe, Sub, Has,
      AdjustKids, FirstFailure;
    DenotesLocates(b, toks, t, r, p);
    DenotesLocates(b, toks, t, c, p + [i]);
    AfterKid(t, p, i);
    var n := Sub(t, p);
    var rest := n.kids[i..];
    assert rest[0] == n.kids[i] && rest[1..] == n.kids[i + 1..];
    KidsOne(rest, delta);
    BeginInBlock(b, toks, t, c, p + [i]);
    ks := AdjustNodeTheorem(b, toks, t, c, p + [i], delta);
    if AdjustKids(rest, delta).None? {
      FirstFails(n, i, delta);
    }
    FailsNonzero(n.kids[i], delta);
    var e := AdjustNode(b, At(toks, c), delta);
    if Adjust(n.kids[i], delta).Ok? {
      var m := Adjust(n.kids[i], delta).tree;
      var n1 := n.(kids := n.kids[i := m]);
      var t1 := Graft(t, p, n1);
      var r1, k := StepKid(b, toks, t, r, p, i, c, e.blob, ks, m);
      assert n1.kids[i + 1..] == n.kids[i + 1..];
      if i + 1 < |n.kids| {
        var js := AdjustSubsTheorem(e.blob, ks, t1, r1, p, i + 1, k, delta);
        if AdjustKids(rest[1..], delta).Some? {
          var g := AdjustSubs(e.blob, At(ks, k), delta);
          var vs := AdjustKids(rest[1..], delta).value;
          assert n1.kids[..i + 1] + vs == n.kids[..i] + ([m] + vs);
          GraftPatched(b, toks, t, p, e.blob, ks, n1, g.blob, js, n.(kids := n.kids[..i] + ([m] + vs)));
        }
        ks := js;
      } else {
        NoneLeft(rest[1..], delta);
        assert n1.kids == n.kids[..i] + ([m] + []);
      }
    }
  }

  /** After child `i` has been patched to `m`: the parent, and the next child. */
  lemma StepKid(b: Blob, toks: seq<Token>, t: Tree, r: seq<Token>, p: Path, i: nat, c: seq<Token>, b1: Blob, ks: seq<Token>, m: Tree)
    returns (r1: seq<Token>, k: seq<Token>)
    requires Denotes(b, toks, t) && Locates(b, toks, t, r, p) && Has(t, p) && i < |Sub(t, p).kids|
    requires Locates(b, toks, t, c, p + [i]) && Has(t, p + [i])
    requires Patched(b, toks, t, b1, ks, Graft(t, p + [i], m))
    ensures var n := Sub(t, p);
      var n1 := n.(kids := n.kids[i := m]);
      var t1 := Graft(t, p, n1);
      && Graft(t, p + [i], m) == t1
      && Denotes(b1, ks, t1) && Locates(b1, ks, t1, r1, p) && Has(t1, p) && Sub(t1, p) == n1 && Sound(b1)
      && Suffix(r, toks) && Suffix(r1, ks) && At(ks, r1) == At(toks, r) && Suffix(c, toks)
      && var pos := NextSubnode(Struct(b1), At(toks, c));
      if i + 1 == |n.kids| then pos == -NOTFOUND
      else Locates(b1, ks, t1, k, p + [i + 1]) && Suffix(k, ks) && pos == At(ks, k) && At(ks, k) < |Struct(b1)|
  {
    hide Reads, At, Struct, Strings, Graft, Patched, NextSubnode, RwProbe, Sub, Has, Items, Strip, Before;
    var n := Sub(t, p);
    var n1 := n.(kids := n.kids[i := m]);
    GraftKid(t, p, i, m);
    r1 := Moved1(b, toks, t, r, p, b1, ks, n1);
    var c1 := Moved1(b, toks, t, c, p + [i], b1, ks, m);
    k := NextKidAt(b1, ks, Graft(t, p, n1), r1, p, i, c1);
  }

  lemma NoneLeft(ks: seq<Tree>, delta: nat)
    requires ks == []
    ensures AdjustKids(ks, delta) == Some([])
  {
  }

  lemma KidsOne(ks: seq<Tree>, delta: nat)
    requires ks != []
    ensures AdjustKids(ks, delta) ==
      match Adjust(ks[0], delta)
      case Fail(_) => None
      case Ok(k) => match AdjustKids(ks[1..], delta) case None => None case Some(vs) => Some([k] + vs)
    ensures FirstFailure(ks, delta) ==
      match Adjust(ks[0], delta) case Fail(e) => e case Ok(_) => FirstFailure(ks[1..], delta)
  {
    hide Adjust;
  }

  lemma BeginInBlock(b: Blob, toks: seq<Token>, t: Tree, r: seq<Token>, p: Path)
    requires Denotes(b, toks, t) && Locates(b, toks, t, r, p)
    ensures Sound(b) && Suffix(r, toks) && At(toks, r) + 4 <= |Struct(b)|
  {
    hide NextTag, U32, NulFrom, At, Struct, Holds, Strings;
    StepAt(Struct(b), toks, r);
  }

  /** overlay_adjust_local_phandles returns NOPHANDLES if and only if some phandle of the
      blob would leave the valid range. */
  lemma NoPhandlesIff(b: Blob, toks: seq<Token>, t: Tree, r: seq<Token>, delta: nat)
    requires Denotes(b, toks, t) && Locates(b, toks, t, r, []) && SingleCells(t)
    ensures Sound(b) && Inside(b) && Suffix(r, toks)
    ensures AdjustNode(b, At(toks, r), delta).err == -NOPHANDLES <==> exists p: Path, name: seq<byte> :: Overflows(t, delta, p, name)
  {
    hide Reads, Locates, At, Patched, AdjustNode, Adjust, SingleCells, Overflows;
    DenotesLocates(b, toks, t, r, []);
    var ks := AdjustNodeTheorem(b, toks, t, r, [], delta);
    RunsOutIff(t, delta);
  }

  lemma {:induction false} FailsNonzero(n: Tree, delta: nat)
    ensures Adjust(n, delta).Fail? ==> Adjust(n, delta).err in {-BADPHANDLE, -NOPHANDLES}
    decreases n, |n.kids| + 1
  {
    hide U32, BE32;
    if AdjustProps(n, delta).Ok? && AdjustKids(n.kids, delta).None? {
      assert n.kids[0..] == n.kids;
      FirstFails(n, 0, delta);
    }
  }

  lemma {:induction false} FirstFails(n: Tree, i: nat, delta: nat)
    requires i <= |n.kids| && AdjustKids(n.kids[i..], delta).None?
    ensures FirstFailure(n.kids[i..], delta) in {-BADPHANDLE, -NOPHANDLES}
    decreases n, |n.kids| - i
  {
    hide Adjust;
    var rest := n.kids[i..];
    assert rest[0] == n.kids[i] && rest[1..] == n.kids[i + 1..];
    FailsNonzero(n.kids[i], delta);
    if Adjust(n.kids[i], delta).Ok? {
      FirstFails(n, i + 1, delta);
    }
  }
}
