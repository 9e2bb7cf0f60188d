/** Inputs on which fdt_wip.c and fdt_overlay.c leave what they were given: an offset so
    large that its end, as a 32-bit sum, is small again. */
module FdtWild {
  import opened Wrappers
  import opened Bytes
  import opened FdtFormat
  import opened FdtTree
  import opened FdtRead
  import opened FdtEdit
  import opened FdtEditBlocks
  import opened FdtEditTheorems
  import opened FdtEditResults
  import opened FdtMerge
  import opened FdtShape
  import opened FdtInPlace
  import opened FdtPhandles
  import opened FdtRenumber
  import opened FdtReferences
  import opened FdtRenumbering
  import Fixups = FdtFixups

  const FAR: nat := 0xffff_fffc

  lemma ShortValue(b: Blob, toks: seq<Token>, t: Tree, r: seq<Token>, p: Path, name: seq<byte>)
    requires Denotes(b, toks, t) && Locates(b, toks, t, r, p)
    requires PropIndex(Sub(t, p).props, name) < |Sub(t, p).props|
    ensures |Sub(t, p).props[PropIndex(Sub(t, p).props, name)].val| < WORD
  {
    hide Before, After, Strings, Struct, Holds, At, GetProp, RwProbe, Ser, Rest, Items, Strip, PropAt, Sub, PropIndex, Reads, Locates, U32;
    DenotesLocates(b, toks, t, r, p);
    var q := HoldProp(b, toks, t, r, p, name);
    PropAtFacts(b, toks, t, p, PropIndex(Sub(t, p).props, name), q);
  }

  /** Four bytes set at that offset of any property pass the length check. */
  lemma FarSet(b: Blob, toks: seq<Token>, t: Tree, r: seq<Token>, p: Path, name: seq<byte>, x: seq<byte>)
    requires Denotes(b, toks, t) && Locates(b, toks, t, r, p) && |x| == 4
    requires PropIndex(Sub(t, p).props, name) < |Sub(t, p).props|
    ensures Sound(b) && Inside(b)
    ensures SetPartial(b, At(toks, r), name, FAR, x) == Edited(WILD, b)
  {
    hide Reads, Locates, At, RwProbe, SetPartial, Sub, PropIndex, Patched, Graft, WithBytes, GetProp, Strings, Struct;
    ShortValue(b, toks, t, r, p, name);
    var ks := SetPartialTheorem(b, toks, t, r, p, name, FAR, x);
  }

  /** A fixup property that lists such an offset first, for any property. */
  lemma FarFixup(b: Blob, toks: seq<Token>, t: Tree, r: seq<Token>, p: Path, f: Path, j: nat, x: seq<Token>, delta: nat)
    requires Denotes(b, toks, t) && Locates(b, toks, t, r, p) && Has(t, p) && !(f <= p)
    requires Sound(b) && PropAt(b, toks, t, f, j, x) && Sub(t, f).props[j].val == BE32(FAR)
    requires PropIndex(Sub(t, p).props, Sub(t, f).props[j].name) < |Sub(t, p).props|
    ensures Inside(b) && Suffix(r, toks) && CheckPropOffset(Struct(b), At(toks, x)) >= 0
    ensures BumpProp(b, At(toks, r), At(toks, x), delta).err == WILD
  {
    hide Reads, Locates, At, RwProbe, BumpProp, Sub, PropIndex, Patched, Graft, GetProp, Strings, Struct, PropAt, BE32, U32, CheckPropOffset;
    PropAtParts(b, toks, t, f, j, x);
    ShortValue(b, toks, t, r, p, Sub(t, f).props[j].name);
    var ks := BumpPropTheorem(b, toks, t, r, p, f, j, x, delta);
    WordRoundTrip(FAR);
  }

  /** A finished blob around these tokens and strings. */
  ghost function Holder(toks: seq<Token>, st: seq<byte>): (b: Blob)
    requires AllOk(toks) && |Flat(toks)| % 4 == 0 && |Flat(toks)| < 0x1000 && |st| < 0x1000
    ensures Sound(b) && RwProbe(b) == 0 && Holds(Struct(b), toks) && Strings(b) == st
  {
    hide Flat, BE32;
    var s := Flat(toks) + BE32(END);
    var n := HEADER + RSV_ENTRY;
    var buf := seq(n, i => 0) + s + st;
    assert buf[n..n + |s|] == s && buf[n + |s|..n + |s| + |st|] == st;
    Blob(buf, MAGIC, |buf|, HEADER, n, |s|, n + |s|, |st|)
  }

  /** A fixup of the root, at the property token `x`, that lists FAR. */
  ghost predicate ListsFar(b: Blob, toks: seq<Token>, t: Tree, x: seq<Token>) {
    hide Reads, RwProbe, AtProp, At, KidIndex, BumpProp, Passed, Before, Strip, Items, CheckPropOffset, Clip;
    && Denotes(b, toks, t) && Sound(b) && Inside(b) && Locates(b, toks, t, toks, []) && Has(t, [0]) && KidIndex(t.kids, LOCAL_FIXUPS) == 0
    && PropAt(b, toks, t, [0], 0, x) && Suffix(x, toks) && CheckPropOffset(Struct(b), At(toks, x)) >= 0
    && BumpProp(b, At(toks, toks), At(toks, x), 0).err == WILD
  }

  /** There is such a blob: a root with one cell and local fixups that list FAR for it. */
  lemma FarExists() returns (b: Blob, toks: seq<Token>, t: Tree, x: seq<Token>)
    ensures ListsFar(b, toks, t, x)
  {
    hide BE32, Text, BytesOf, U32, Holds, Struct, Strings, RwProbe, Flat, Items, Strip, Ser, Before, BumpProp, TokenOk;
    var name, cell := [112], [0, 0, 0, 0];
    var fix := Tree(LOCAL_FIXUPS, [PropVal(name, BE32(FAR))], []);
    t := Tree([], [PropVal(name, cell)], [fix]);
    toks := [BeginNode([], [0, 0, 0]), Prop(0, cell, []), BeginNode(LOCAL_FIXUPS, [0, 0, 0]), Prop(0, BE32(FAR), []), EndNode, EndNode];
    x := toks[3..];
    FarTokens(toks);
    b := Holder(toks, [112, 0]);
    FarItems(toks, t);
    FarPlaces(b, toks, t, x);
    FarFixup(b, toks, t, toks, [], [0], 0, x, 0);
  }

  lemma FarTokens(toks: seq<Token>)
    requires toks == [BeginNode([], [0, 0, 0]), Prop(0, [0, 0, 0, 0], []), BeginNode(LOCAL_FIXUPS, [0, 0, 0]), Prop(0, BE32(FAR), []), EndNode, EndNode]
    ensures AllOk(toks) && |Flat(toks)| % 4 == 0 && |Flat(toks)| < 0x1000
  {
    hide BE32, BytesOf, Text, Flat;
    FixupsText();
    assert forall i :: 0 <= i < 6 ==> TokenOk(toks[i]);
    FlatSizes(toks);
    FlatSizes(toks[1..]);
    FlatSizes(toks[2..]);
    FlatSizes(toks[3..]);
    FlatSizes(toks[4..]);
    FlatSizes(toks[5..]);
  }

  lemma FlatSizes(toks: seq<Token>)
    requires AllOk(toks) && toks != []
    ensures AllOk(toks[1..]) && |Flat(toks)| == Size(toks[0]) + |Flat(toks[1..])| && |Flat([])| == 0
  {
    hide BytesOf, TokenOk;
  }

  lemma FarPlaces(b: Blob, toks: seq<Token>, t: Tree, x: seq<Token>)
    requires Sound(b) && Strings(b) == [112, 0] && Has(t, []) && Has(t, [0]) && Sub(t, [0]).props != []
    requires |toks| == 6 && toks[0].BeginNode? && toks[3].Prop? && x == toks[3..]
    requires |Strip(Items(toks[..3], [112, 0]))| == |Before(t, [0])| + 1
    ensures Locates(b, toks, t, toks, []) && PropAt(b, toks, t, [0], 0, x)
  {
    hide Strings, Ser, SerProps, SerKids;
    assert Lead(toks, toks) == [] && Lead(toks, x) == toks[..3];
    assert Before(t, []) == [];
  }

  lemma FixupsText()
    ensures |LOCAL_FIXUPS| == 16 && 0 !in LOCAL_FIXUPS
  {
    var s := "__local_fixups__";
    assert |s| == 16;
    assert forall k :: 0 <= k < 16 ==> s[k] in {'_', 'l', 'o', 'c', 'a', 'f', 'i', 'x', 'u', 'p', 's'};
  }

  /** What the tokens of the example say. */
  lemma FarItems(toks: seq<Token>, t: Tree)
    requires var (name, cell) := ([112], [0, 0, 0, 0]);
      && t == Tree([], [PropVal(name, cell)], [Tree(LOCAL_FIXUPS, [PropVal(name, BE32(FAR))], [])])
      && toks == [BeginNode([], [0, 0, 0]), Prop(0, cell, []), BeginNode(LOCAL_FIXUPS, [0, 0, 0]), Prop(0, BE32(FAR), []), EndNode, EndNode]
    ensures Strip(Items(toks, [112, 0])) == Ser(t)
    ensures |Strip(Items(toks[..3], [112, 0]))| == |Before(t, [0])| + 1
  {
    hide BE32, Text, Ser, StringAt;
    var st := [112, 0];
    NameThere();
    var fix := t.kids[0];
    var a, c, d := toks[1..], toks[3..], toks[5..];
    assert d[1..] == [] && toks[4..][1..] == d && c[1..] == toks[4..] && toks[2..][1..] == c && a[1..] == toks[2..];
    assert Items(d, st) == [IEnd];
    assert Items(toks[4..], st) == [IEnd, IEnd];
    assert Items(c, st) == [PropItem(fix.props[0]), IEnd, IEnd];
    assert Items(toks[2..], st) == [IBegin(LOCAL_FIXUPS)] + Items(c, st);
    assert Items(a, st) == [PropItem(t.props[0])] + Items(toks[2..], st);
    assert Items(toks, st) == [IBegin([])] + Items(a, st);
    var x := [IBegin([]), PropItem(t.props[0]), IBegin(LOCAL_FIXUPS), PropItem(fix.props[0]), IEnd, IEnd];
    assert Items(toks, st) == x;
    StripPlain(x);
    SerLeaf(fix, fix.props[0]);
    SerOver(t, t.props[0], fix);
    assert Items(toks[..3], st) == x[..3] by {
      assert toks == toks[..3] + c;
      ItemsConcat(toks[..3], c, st);
    }
    StripPlain(x[..3]);
    assert t.kids[..0] == [];
  }

  lemma {:induction false} StripPlain(x: seq<Item>)
    requires forall i :: 0 <= i < |x| ==> !x[i].INop?
    ensures Strip(x) == x
    decreases |x|
  {
    if x != [] {
      StripPlain(x[1..]);
    }
  }

  lemma SerLeaf(n: Tree, v: PropVal)
    requires n.props == [v] && n.kids == []
    ensures Ser(n) == [IBegin(n.name), PropItem(v), IEnd]
  {
    assert n.props[1..] == [];
    assert SerProps(n.props) == [PropItem(v)];
    assert Body(n) == [PropItem(v), IEnd];
  }

  lemma SerOver(n: Tree, v: PropVal, k: Tree)
    requires n.props == [v] && n.kids == [k]
    ensures Ser(n) == [IBegin(n.name), PropItem(v)] + Ser(k) + [IEnd]
    ensures SerProps(n.props) == [PropItem(v)]
  {
    hide PropItem;
    assert n.props[1..] == [] && n.kids[1..] == [];
    assert SerProps(n.props) == [PropItem(v)];
    assert SerKids(n.kids) == Ser(k) + [];
    assert Body(n) == [PropItem(v)] + Ser(k) + [IEnd];
  }

  lemma NameThere()
    ensures StringAt([112, 0], 0) == Some([112])
  {
    var st: seq<byte> := [112, 0];
    NulFromIs(st, 0, 1);
    assert st[0..1] == [112];
  }
}
