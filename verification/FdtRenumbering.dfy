/** Renumbering an overlay against a base tree, end to end: the largest phandle of the
    base, the shift, the references. */
module FdtRenumbering {
  import opened Wrappers
  import opened Bytes
  import opened FdtFormat
  import opened FdtTree
  import opened FdtRead
  import opened FdtEdit
  import opened FdtEditBlocks
  import opened FdtEditTheorems
  import opened FdtEditResults
  import opened FdtOverlay
  import opened FdtMerge
  import opened FdtShape
  import opened FdtInPlace
  import opened FdtPhandles
  import opened FdtRenumber
  import opened FdtReferences
  import Fixups = FdtFixups
  import Paths = FdtPath

  // ---------------------------------------------------------------- the largest phandle

  /** The four-byte value of a property, if that is what it has. */
  function CellAt(b: Blob, node: int, name: seq<byte>): Option<nat>
    requires Sound(b) && Inside(b)
  {
    hide U32, NextTag, GetProp, Clip;
    InBlock(b);
    var s := Struct(b);
    var p := GetProp(s, Strings(b), node, name);
    if p < 0 || PropLen(s, p) != 4 then None else Some(U32(s, p + 12))
  }

  /** fdt_get_phandle. */
  function GetPhandle(b: Blob, node: int): nat
    requires Sound(b) && Inside(b)
  {
    match CellAt(b, node, PHANDLE)
    case Some(v) => v
    case None => match CellAt(b, node, LINUX_PHANDLE) case Some(v) => v case None => 0
  }

  /** fdt_next_node without a depth counter, from the tag at `pos`. */
  function NextBegin(s: seq<byte>, pos: nat): (r: int)
    ensures r >= 0 ==> pos <= r < |s| && NextTag(s, r).tag == BEGIN_NODE
    decreases |s| - pos
  {
    NextTagFacts(s, pos);
    var t := NextTag(s, pos);
    if t.tag == BEGIN_NODE then pos
    else if t.tag == END then (if t.next >= 0 || t.next == -TRUNCATED then -NOTFOUND else t.next)
    else NextBegin(s, t.next)
  }

  function NodeAfter(s: seq<byte>, off: nat): (r: int)
    ensures r >= 0 ==> off < r < |s|
  {
    var n := CheckNodeOffset(s, off);
    if n < 0 then n else NextBegin(s, n)
  }

  datatype Largest = Largest(err: int, max: nat)

  /** The loop of fdt_find_max_phandle, at the node `off`. */
  function MaxLoop(b: Blob, off: int, max: nat): Largest
    requires Sound(b) && Inside(b) && off < |Struct(b)|
    decreases if off >= 0 then |Struct(b)| - off else 0
  {
    hide Struct, GetPhandle, NodeAfter, Max;
    if off == -NOTFOUND then Largest(0, max)
    else if off < 0 then Largest(off, max)
    else MaxLoop(b, NodeAfter(Struct(b), off), Max(max, GetPhandle(b, off)))
  }

  function FindMax(b: Blob): Largest
    requires Sound(b) && Inside(b)
  {
    MaxLoop(b, NextBegin(Struct(b), 0), 0)
  }

  lemma CellTheorem(b: Blob, toks: seq<Token>, t: Tree, r: seq<Token>, p: Path, name: seq<byte>)
    requires Denotes(b, toks, t) && Locates(b, toks, t, r, p)
    ensures Sound(b) && Inside(b) && Suffix(r, toks) && Has(t, p)
    ensures CellAt(b, At(toks, r), name) == Cell(Sub(t, p).props, name)
  {
    hide Ser, Before, After, Strings, Struct, At, Holds, NextTag, U32, GetProp, PropLen, Rest, Items, Strip, Reads, Lead, RwProbe;
    DenotesLocates(b, toks, t, r, p);
    DenotesParts(b, toks, t);
    BlockSlices(b);
    var n := Sub(t, p);
    var i := PropIndex(n.props, name);
    if i == |n.props| {
      var q := FindInNode(b, toks, t, r, p, name);
    } else {
      var q, lead := FoundProp(b, toks, t, r, p, name);
      PropValueAt(Struct(b), toks, q);
      if |n.props[i].val| == 4 {
        ValueWord(Struct(b), At(toks, q), q[0].val);
        assert U32(Struct(b), At(toks, q) + 12 + 0) == U32(q[0].val, 0);
      }
    }
  }

  /** The phandle of a located node. */
  lemma PhandleTheorem(b: Blob, toks: seq<Token>, t: Tree, r: seq<Token>, p: Path)
    requires Denotes(b, toks, t) && Locates(b, toks, t, r, p)
    ensures Sound(b) && Inside(b) && Suffix(r, toks) && Has(t, p)
    ensures GetPhandle(b, At(toks, r)) == PhandleOf(Sub(t, p))
  {
    hide Reads, Locates, At, CellAt, Cell, RwProbe;
    CellTheorem(b, toks, t, r, p, PHANDLE);
    CellTheorem(b, toks, t, r, p, LINUX_PHANDLE);
  }

  /** The items of a node start inside those of the tree, with its begin tag. */
  lemma NodeItem(t: Tree, p: Path)
    requires Has(t, p)
    ensures |Before(t, p)| < |Ser(t)| && Ser(t)[|Before(t, p)|] == IBegin(Sub(t, p).name)
  {
    hide Ser, Before, After;
    SerGraft(t, p, Sub(t, p));
    var x := Before(t, p);
    assert (x + Ser(Sub(t, p)) + After(t, p))[|x|] == Ser(Sub(t, p))[0];
  }

  /** What the loop has found from `rest` on: no later node has a larger phandle, and the
      result is some node's or the value it started with. */
  lemma {:induction false} MaxScan(b: Blob, toks: seq<Token>, t: Tree, rest: seq<Token>, max: nat) returns (v: nat, w: Path)
    requires Denotes(b, toks, t) && Suffix(rest, toks)
    ensures Sound(b) && Inside(b)
    ensures MaxLoop(b, NextBegin(Struct(b), At(toks, rest)), max) == Largest(0, v)
    ensures v >= max && (v != max ==> Has(t, w) && PhandleOf(Sub(t, w)) == v)
    ensures forall p: Path :: Has(t, p) && |Before(t, p)| >= Passed(toks, rest, Strings(b)) ==> PhandleOf(Sub(t, p)) <= v
    decreases |rest|
  {
    hide Ser, Before, After, Strings, Struct, At, Holds, NextTag, U32, Items, Strip, Lead, RwProbe, GetPhandle, PhandleOf, NulFrom, Size, Passed;
    DenotesParts(b, toks, t);
    OrderedFacts(b);
    var st := Strings(b);
    CutAt(b, toks, t, rest);
    if rest == [] {
      EndAt(Struct(b), toks);
      v, w := max, [];
      NoItems(st);
      forall p: Path | Has(t, p) ensures |Before(t, p)| < Passed(toks, rest, st) {
        NodeItem(t, p);
      }
    } else {
      StepAt(Struct(b), toks, rest);
      CutAt(b, toks, t, rest[1..]);
      var max1 := max;
      if rest[0].BeginNode? {
        max1 := Max(max, GetPhandle(b, At(toks, rest)));
        var p0 := Locate(b, toks, t, rest);
        PhandleTheorem(b, toks, t, rest, p0);
        v, w := MaxScan(b, toks, t, rest[1..], max1);
        if v == max1 != max {
          w := p0;
        }
      } else {
        v, w := MaxScan(b, toks, t, rest[1..], max);
      }
      forall p: Path | Has(t, p) && |Before(t, p)| >= Passed(toks, rest, st) ensures PhandleOf(Sub(t, p)) <= v {
        ItemHere(b, toks, t, rest, p);
        if rest[0].BeginNode? && |Before(t, p)| == Passed(toks, rest, st) {
          LocatesIff(b, toks, t, rest, p);
          PhandleTheorem(b, toks, t, rest, p);
        }
      }
    }
  }

  /** A node at or after the token `rest[0]` is at it only if that token begins it. */
  lemma ItemHere(b: Blob, toks: seq<Token>, t: Tree, rest: seq<Token>, p: Path)
    requires Denotes(b, toks, t) && Suffix(rest, toks) && rest != [] && Has(t, p) && Suffix(rest[1..], toks)
    requires |Before(t, p)| >= Passed(toks, rest, Strings(b))
    ensures |Before(t, p)| >= Passed(toks, rest[1..], Strings(b)) || (rest[0].BeginNode? && |Before(t, p)| == Passed(toks, rest, Strings(b)))
  {
    hide Ser, Before, After, Strings, Struct, Holds, RwProbe;
    var st := Strings(b);
    assert Lead(toks, rest[1..]) == Lead(toks, rest) + [rest[0]];
    ItemsConcat(Lead(toks, rest), [rest[0]], st);
    StripConcat(Items(Lead(toks, rest), st), Items([rest[0]], st));
    if rest[0].Nop? {
      assert [rest[0]][1..] == [];
    } else {
      SingleItem(rest[0], st);
      CutAt(b, toks, t, rest);
      FirstItem(rest, st);
      NodeItem(t, p);
      var c := Passed(toks, rest, st);
      if |Before(t, p)| == c {
        assert Ser(t)[c..][0] == Ser(t)[c];
      }
    }
  }

  lemma {:induction false} MaxAttained(t: Tree) returns (p: Path)
    ensures Has(t, p) && PhandleOf(Sub(t, p)) == MaxPhandle(t)
    decreases t, |t.kids| + 1
  {
    hide PhandleOf;
    p := [];
    if PhandleOf(t) < MaxOfKids(t.kids) {
      assert t.kids[0..] == t.kids;
      p := MaxBelow(t, 0);
    }
  }

  lemma {:induction false} MaxBelow(t: Tree, i: nat) returns (p: Path)
    requires i <= |t.kids| && MaxOfKids(t.kids[i..]) > 0
    ensures Has(t, p) && PhandleOf(Sub(t, p)) == MaxOfKids(t.kids[i..])
    decreases t, |t.kids| - i
  {
    hide PhandleOf, MaxPhandle;
    var ks := t.kids[i..];
    assert ks[0] == t.kids[i] && ks[1..] == t.kids[i + 1..];
    if MaxPhandle(ks[0]) < MaxOfKids(ks[1..]) {
      p := MaxBelow(t, i + 1);
    } else {
      var q := MaxAttained(t.kids[i]);
      p := [i] + q;
      assert p[1..] == q;
    }
  }

  /** fdt_find_max_phandle finds the largest phandle of the tree. */
  lemma FindMaxTheorem(b: Blob, toks: seq<Token>, t: Tree)
    requires Denotes(b, toks, t)
    ensures Sound(b) && Inside(b) && FindMax(b) == Largest(0, MaxPhandle(t))
  {
    hide MaxLoop, NextBegin, PhandleOf, MaxPhandle, Strings, Struct, RwProbe, Before, Reads;
    DenotesParts(b, toks, t);
    OrderedFacts(b);
    var v, w := MaxScan(b, toks, t, toks, 0);
    var best := MaxAttained(t);
    NothingPassed(toks, Strings(b));
    if v > 0 {
      MaxIsMax(t, w);
    }
  }

  lemma NothingPassed(toks: seq<Token>, st: seq<byte>)
    ensures Suffix(toks, toks) && Passed(toks, toks, st) == 0 && At(toks, toks) == 0
  {
    assert Lead(toks, toks) == [];
    LenSuffix(toks, toks);
  }

  // ---------------------------------------------------------------- the three passes

  const LOCAL_FIXUPS: seq<byte> := Text("__local_fixups__")

  /** overlay_update_local_references. */
  function UpdateReferences(o: Blob, delta: nat): (r: Edited)
    requires Sound(o) && Inside(o)
    ensures Sound(r.blob) && Inside(r.blob) && SameFrame(o, r.blob)
  {
    hide Clip, UpdateNode;
    var fix := Paths.PathOffset(Struct(o), [Paths.SLASH] + LOCAL_FIXUPS);
    if fix < 0 then Edited(if fix == -NOTFOUND then 0 else fix, o) else UpdateNode(o, 0, fix, delta)
  }

  /** The first three steps of fdt_overlay_apply. */
  function Renumber(b: Blob, o: Blob): (r: Edited)
    requires Sound(b) && Inside(b) && Sound(o) && Inside(o)
    ensures Sound(r.blob) && Inside(r.blob) && SameFrame(o, r.blob)
  {
    hide Clip, FindMax, AdjustNode, UpdateReferences;
    var m := FindMax(b);
    if m.err != 0 then Edited(m.err, o)
    else
      var e := AdjustNode(o, 0, m.max);
      if e.err != 0 then e else UpdateReferences(e.blob, m.max)
  }

  /** The local fixups stay out of themselves. */
  ghost predicate FixupsApart(t: Tree) {
    var c := KidIndex(t.kids, LOCAL_FIXUPS);
    c < |t.kids| ==> Has(t, [c]) && Clear(t, [], [c])
  }

  /** The tree after both passes. */
  function Renumbered(o: Tree, delta: nat): Outcome {
    match Adjust(o, delta)
    case Fail(e) => Fail(e)
    case Ok(m) =>
      var c := KidIndex(m.kids, LOCAL_FIXUPS);
      if c == |m.kids| then Ok(m) else Fixups.Update(m, m.kids[c], delta)
  }

  /** Once shifted, the local fixups list only offsets that can be read from any value. */
  ghost predicate FixupsBounded(o: Blob, ot: Tree, delta: nat) {
    match Adjust(ot, delta)
    case Fail(_) => true
    case Ok(m) =>
      var c := KidIndex(m.kids, LOCAL_FIXUPS);
      c < |m.kids| ==> Bounded(m.kids[c], Room(o))
  }

  lemma PlainName()
    ensures LOCAL_FIXUPS != [] && Paths.SLASH !in LOCAL_FIXUPS
  {
    var s := "__local_fixups__";
    assert forall i :: 0 <= i < |s| ==> s[i] == '_' || 'a' <= s[i] <= 'z';
    assert forall i :: 0 <= i < |LOCAL_FIXUPS| ==> LOCAL_FIXUPS[i] == s[i] as int % 256;
  }

  /** The path of the fixups leads to the child of that name. */
  lemma FixupsPath(s: seq<byte>, m: seq<byte>)
    requires m != [] && Paths.SLASH !in m
    ensures Paths.PathOffset(s, [Paths.SLASH] + m) == SubnodeOffset(s, 0, m)
  {
    hide SubnodeOffset, Paths.PathOffsetFrom;
    Paths.PathStep(s, [], m, [], 0);
    assert [] + [Paths.SLASH] + m + [] == [Paths.SLASH] + m;
    Paths.AtPathEnd(s, [Paths.SLASH] + m, SubnodeOffset(s, 0, m));
  }

  /** The root of a block that starts with its begin tag. */
  lemma RootLocated(b: Blob, toks: seq<Token>, t: Tree)
    requires Denotes(b, toks, t) && toks != [] && toks[0].BeginNode?
    ensures Locates(b, toks, t, toks, []) && At(toks, toks) == 0
  {
    hide Strings, Struct, Holds, Ser, RwProbe;
    NothingPassed(toks, Strings(b));
    LocatesIff(b, toks, t, toks, []);
  }

  /** Renumbering on the blob is renumbering in the tree. */
  lemma RenumberTheorem(b: Blob, toks: seq<Token>, t: Tree, o: Blob, otoks: seq<Token>, ot: Tree) returns (ks: seq<Token>)
    requires Denotes(b, toks, t) && Denotes(o, otoks, ot) && otoks != [] && otoks[0].BeginNode? && FixupsApart(ot)
    ensures Sound(b) && Inside(b) && Sound(o) && Inside(o)
    ensures var e := Renumber(b, o);
      match Renumbered(ot, MaxPhandle(t))
      case Fail(err) => err != 0 && (e.err == err || (e.err == WILD && !FixupsBounded(o, ot, MaxPhandle(t))))
      case Ok(m) => e.err == 0 && Patched(o, otoks, ot, e.blob, ks, m) && ks[0].BeginNode?
  {
    hide Reads, Locates, At, Struct, Strings, Patched, RwProbe, AdjustNode, Adjust, FindMax, MaxPhandle, UpdateReferences, FixupsApart, Fixups.Update, KidIndex, Clear, Bounded, Room;
    FindMaxTheorem(b, toks, t);
    RootLocated(o, otoks, ot);
    DenotesLocates(o, otoks, ot, otoks, []);
    var delta := MaxPhandle(t);
    ks := AdjustNodeTheorem(o, otoks, ot, otoks, [], delta);
    FailsNonzero(ot, delta);
    if Adjust(ot, delta).Ok? {
      var m := Adjust(ot, delta).tree;
      var e := AdjustNode(o, 0, delta);
      PatchedStart(o, otoks, ot, e.blob, ks, m);
      PatchedRoom(o, otoks, ot, e.blob, ks, m);
      ApartStill(ot, m);
      var js := ReferencesTheorem(e.blob, ks, m, delta);
      if Renumbered(ot, delta).Ok? {
        PatchedTwice(o, otoks, ot, e.blob, ks, m, UpdateReferences(e.blob, delta).blob, js, Renumbered(ot, delta).tree);
      }
      ks := js;
    }
  }

  lemma PatchedStart(b: Blob, toks: seq<Token>, t: Tree, b1: Blob, ks: seq<Token>, t1: Tree)
    requires Patched(b, toks, t, b1, ks, t1) && toks != [] && toks[0].BeginNode?
    ensures Denotes(b1, ks, t1) && ks != [] && ks[0].BeginNode? && Alike(t, t1)
  {
    assert SameForm(toks[0], ks[0]);
  }

  lemma ApartStill(t: Tree, t1: Tree)
    requires Alike(t, t1) && FixupsApart(t)
    ensures FixupsApart(t1)
  {
    hide KidIndex, Clear;
    AlikeKidNames(t, t1);
    Fixups.SameKidIndex(t.kids, t1.kids, LOCAL_FIXUPS);
    var c := KidIndex(t.kids, LOCAL_FIXUPS);
    if c < |t.kids| {
      SameClear(t, t1, [], [c]);
    }
  }

  /** Updating the references from the root on. */
  lemma ReferencesTheorem(o: Blob, toks: seq<Token>, t: Tree, delta: nat) returns (ks: seq<Token>)
    requires Denotes(o, toks, t) && toks != [] && toks[0].BeginNode? && FixupsApart(t)
    ensures Sound(o) && Inside(o)
    ensures var e := UpdateReferences(o, delta);
      var c := KidIndex(t.kids, LOCAL_FIXUPS);
      match (if c == |t.kids| then Ok(t) else Fixups.Update(t, t.kids[c], delta))
      case Fail(err) => err != 0 && (e.err == err || (e.err == WILD && c < |t.kids| && !Bounded(t.kids[c], Room(o))))
      case Ok(m) => e.err == 0 && Patched(o, toks, t, e.blob, ks, m) && ks != [] && ks[0].BeginNode?
  {
    hide Reads, Locates, At, Struct, Strings, Patched, RwProbe, UpdateNode, Fixups.Update, KidIndex, Clear, Paths.PathOffset, SubnodeOffset, Bounded, Room;
    ks := toks;
    RootLocated(o, toks, t);
    DenotesLocates(o, toks, t, toks, []);
    PlainName();
    FixupsPath(Struct(o), LOCAL_FIXUPS);
    var c := KidIndex(t.kids, LOCAL_FIXUPS);
    if c == |t.kids| {
      var k := FindKid(o, toks, t, toks, [], LOCAL_FIXUPS);
      PatchedNot(o, toks, t);
    } else {
      var g := KidLocated(o, toks, t, toks, [], LOCAL_FIXUPS);
      assert [] + [c] == [c];
      DenotesLocates(o, toks, t, g, [c]);
      assert Sub(t, [c]) == t.kids[c];
      ks := UpdateNodeTheorem(o, toks, t, toks, [], g, [c], delta);
      if Fixups.Update(t, t.kids[c], delta).Ok? {
        PatchedStart(o, toks, t, UpdateNode(o, 0, At(toks, g), delta).blob, ks, Fixups.Update(t, t.kids[c], delta).tree);
      }
    }
  }

  /** In a renumbered overlay no phandle is one of the base, whatever the fixups changed,
      given that they list no phandle property and that the overlay's phandles are not 0. */
  lemma RenumberedApart(t: Tree, o: Tree, p: Path, q: Path)
    requires Renumbered(o, MaxPhandle(t)).Ok? && Has(o, p) && Has(t, q)
    requires HasPhandle(Sub(o, p)) && PhandleOf(Sub(o, p)) > 0
    requires var m := Adjust(o, MaxPhandle(t)).tree;
      var c := KidIndex(m.kids, LOCAL_FIXUPS);
      c < |m.kids| ==> Fixups.PhandlesUnlisted(m, m.kids[c])
    ensures var r := Renumbered(o, MaxPhandle(t)).tree;
      && Has(r, p) && PhandleOf(Sub(r, p)) == PhandleOf(Sub(o, p)) + MaxPhandle(t) < MINUS_ONE
      && PhandleOf(Sub(r, p)) != PhandleOf(Sub(t, q))
  {
    hide PhandleOf, HasPhandle, Adjust, MaxPhandle, Fixups.Update, Fixups.PhandlesUnlisted, KidIndex, Has;
    var m := Adjust(o, MaxPhandle(t)).tree;
    AdjustedAt(o, MaxPhandle(t), p, PHANDLE);
    NoClash(t, o, p, q);
    var c := KidIndex(m.kids, LOCAL_FIXUPS);
    if c < |m.kids| {
      Fixups.UpdatedPhandle(m, m.kids[c], MaxPhandle(t), p);
    }
  }
}
