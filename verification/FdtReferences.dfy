/** overlay_update_local_node_references on the blob: a walk over the fixup nodes that
    patches cells of the very blob it is reading the fixups from. */
module FdtReferences {
  import opened Wrappers
  import opened Bytes
  import opened FdtFormat
  import opened FdtTree
  import opened FdtRead
  import opened FdtEdit
  import opened FdtEditBlocks
  import opened FdtEditTheorems
  import opened FdtEditResults
  import opened FdtOverlay
  import opened FdtMerge
  import opened FdtShape
  import opened FdtInPlace
  import opened FdtPhandles
  import opened FdtRenumber
  import Fixups = FdtFixups

  // ---------------------------------------------------------------- the passes on the blob

  /** The loop over the cells that a fixup property lists: `at` is where the value of the
      tree's property is, `list` where the fixup's value of `n` words is. The word at the
      listed offset is read before any check that it is inside the value. */
  function BumpCells(b: Blob, node: nat, name: seq<byte>, at: nat, list: nat, n: nat, i: nat, delta: nat): (r: Edited)
    requires Sound(b) && Inside(b) && list + 4 * n <= |Struct(b)| && i <= n
    ensures Sound(r.blob) && Inside(r.blob) && SameFrame(b, r.blob)
    decreases n - i
  {
    hide U32, Clip, SetPartial, BE32;
    if i == n then Edited(0, b)
    else
      var s := Struct(b);
      var off := U32(s, list + 4 * i);
      var from := b.offStruct + at + off;
      if from + 4 > |b.buf| then Edited(WILD, b)
      else
        var e := SetPartial(b, node, name, off, BE32((U32(b.buf, from) + delta) % WORD));
        SameFrameBlock(b, e.blob);
        if e.err == -NOSPACE then Edited(-BADOVERLAY, e.blob)
        else if e.err != 0 then e
        else BumpCells(e.blob, node, name, at, list, n, i + 1, delta)
  }

  /** One fixup property, the one at `prop`. */
  function BumpProp(b: Blob, node: nat, prop: nat, delta: nat): (r: Edited)
    requires Sound(b) && Inside(b) && CheckPropOffset(Struct(b), prop) >= 0
    ensures Sound(r.blob) && Inside(r.blob) && SameFrame(b, r.blob)
  {
    hide U32, NextTag, NulFrom, StringAt, StringError, GetProp, BumpCells, Clip;
    var s, t := Struct(b), Strings(b);
    NextTagFacts(s, prop);
    var name := StringAt(t, U32(s, prop + 8));
    if name.None? then Edited(StringError(t, U32(s, prop + 8)), b)
    else
      var len := U32(s, prop + 4);
      if len % 4 != 0 then Edited(-BADOVERLAY, b)
      else
        var p := GetProp(s, t, node, name.value);
        if p < 0 then Edited(if p == -NOTFOUND then -BADOVERLAY else p, b)
        else BumpCells(b, node, name.value, p + 12, prop + 12, len / 4, 0, delta)
  }

  /** The property loop of overlay_update_local_node_references, from the fixup at `prop`. */
  function UpdatePropsAt(b: Blob, node: nat, prop: int, delta: nat): (r: Edited)
    requires Sound(b) && Inside(b)
    ensures Sound(r.blob) && Inside(r.blob) && SameFrame(b, r.blob)
    decreases |Struct(b)| - prop
  {
    hide U32, NextTag, Clip, BumpProp;
    NextTagFacts(Struct(b), prop);
    if prop < 0 || CheckPropOffset(Struct(b), prop) < 0 then Edited(0, b)
    else
      var e := BumpProp(b, node, prop, delta);
      SameFrameBlock(b, e.blob);
      if e.err != 0 then e
      else UpdatePropsFrom(e.blob, node, prop, delta)
  }

  /** The loop from the property after `prop` on. */
  function UpdatePropsFrom(b: Blob, node: nat, prop: nat, delta: nat): (r: Edited)
    requires Sound(b) && Inside(b) && prop < |Struct(b)|
    ensures Sound(r.blob) && Inside(r.blob) && SameFrame(b, r.blob)
    decreases |Struct(b)| - prop, 0
  {
    hide U32, NextTag, Clip;
    var next := NextProp(Struct(b), prop);
    if next < 0 then Edited(0, b) else UpdatePropsAt(b, node, next, delta)
  }

  /** overlay_update_local_node_references. */
  function UpdateNode(b: Blob, node: nat, fix: nat, delta: nat): (r: Edited)
    requires Sound(b) && Inside(b)
    ensures Sound(r.blob) && Inside(r.blob) && SameFrame(b, r.blob)
    decreases |Struct(b)| - fix, 0
  {
    hide Clip, UpdatePropsAt, FirstSubnode, FirstProp;
    var e := UpdatePropsAt(b, node, FirstProp(Struct(b), fix), delta);
    SameFrameBlock(b, e.blob);
    if e.err != 0 then e
    else
      var first := FirstSubnode(Struct(e.blob), fix);
      if first < 0 then e else UpdateSubs(e.blob, node, first, delta)
  }

  /** Its child loop, from the fixup child at `sub`. */
  function UpdateSubs(b: Blob, node: nat, sub: nat, delta: nat): (r: Edited)
    requires Sound(b) && Inside(b) && sub < |Struct(b)|
    ensures Sound(r.blob) && Inside(r.blob) && SameFrame(b, r.blob)
    decreases |Struct(b)| - sub, 1
  {
    hide Clip, NextSubnode, SubnodeOffset, NodeName;
    var s := Struct(b);
    var name := if sub + 4 <= |s| then NodeName(s, sub) else [];
    var child := SubnodeOffset(s, node, name);
    if child == -NOTFOUND then Edited(-BADOVERLAY, b)
    else if child < 0 then Edited(child, b)
    else
      var e := UpdateNode(b, child, sub, delta);
      SameFrameBlock(b, e.blob);
      if e.err != 0 then e
      else
        var next := NextSubnode(Struct(e.blob), sub);
        if next < 0 then e else UpdateSubs(e.blob, node, next, delta)
  }

  // ---------------------------------------------------------------- property tokens

  /** `q` starts with the token of property `k` of the node at `p`. */
  ghost predicate PropAt(b: Blob, toks: seq<Token>, t: Tree, p: Path, k: nat, q: seq<Token>)
    requires Sound(b)
  {
    AtProp(b, toks, t, p, k, q) && k < |Sub(t, p).props| && q != [] && q[0].Prop?
  }

  lemma PropAtParts(b: Blob, toks: seq<Token>, t: Tree, p: Path, k: nat, q: seq<Token>)
    requires Sound(b) && PropAt(b, toks, t, p, k, q)
    ensures Has(t, p) && k < |Sub(t, p).props| && Suffix(q, toks) && q != [] && AtProp(b, toks, t, p, k, q)
  {
    hide Passed, Before, Strings;
  }

  /** Where the value of a property token is, and what it is. */
  lemma PropAtFacts(b: Blob, toks: seq<Token>, t: Tree, p: Path, k: nat, q: seq<Token>)
    requires Denotes(b, toks, t) && Sound(b) && PropAt(b, toks, t, p, k, q)
    ensures var (s, v) := (Struct(b), Sub(t, p).props[k]);
      var pos := At(toks, q);
      && Suffix(q[1..], toks) && CheckPropOffset(s, pos) == At(toks, q[1..])
      && pos + 12 + |v.val| <= |s| && s[pos + 12..pos + 12 + |v.val|] == v.val
      && U32(s, pos + 4) == |v.val| && StringAt(Strings(b), U32(s, pos + 8)) == Some(v.name)
      && AtProp(b, toks, t, p, k + 1, q[1..])
  {
    hide Before, After, Strings, Struct, Holds, At, NextTag, U32, NulFrom, StringAt, RwProbe, Ser, Rest;
    var n := Sub(t, p);
    FromProp(b, toks, t, p, k, q);
    FirstItem(q, Strings(b));
    StepAt(Struct(b), toks, q);
    var y := Rest(n, After(t, p));
    var v := n.props[k];
    assert n.props[k..] == [v] + n.props[k + 1..];
    OneMore(v, n.props[k + 1..], y);
    var x := Strip(Items(q, Strings(b)));
    assert x[0] == ItemOf(q[0], Strings(b)) && x[1..] == Strip(Items(q[1..], Strings(b)));
    assert x[0] == PropItem(v) && x[1..] == SerProps(n.props[k + 1..]) + y;
    NextAtProp(b, toks, t, p, k, q, q[1..]);
  }

  /** The readers find a property, so there is a token to hold. */
  lemma HoldProp(b: Blob, toks: seq<Token>, t: Tree, r: seq<Token>, p: Path, name: seq<byte>) returns (q: seq<Token>)
    requires Denotes(b, toks, t) && Locates(b, toks, t, r, p)
    requires PropIndex(Sub(t, p).props, name) < |Sub(t, p).props|
    ensures Sound(b) && PropAt(b, toks, t, p, PropIndex(Sub(t, p).props, name), q)
    ensures Suffix(r, toks) && GetProp(Struct(b), Strings(b), At(toks, r), name) == At(toks, q)
  {
    hide Before, After, Strings, Struct, Holds, At, GetProp, RwProbe, Ser, Rest, Items, Strip;
    DenotesParts(b, toks, t);
    var lead;
    q, lead := FoundProp(b, toks, t, r, p, name);
  }

  /** A property token after a patch. */
  lemma KeepProp(b: Blob, toks: seq<Token>, t: Tree, p: Path, k: nat, q: seq<Token>, b': Blob, ks: seq<Token>, t': Tree) returns (q': seq<Token>)
    requires Denotes(b, toks, t) && Sound(b) && PropAt(b, toks, t, p, k, q) && Patched(b, toks, t, b', ks, t')
    ensures Sound(b') && PropAt(b', ks, t', p, k, q') && At(ks, q') == At(toks, q)
  {
    hide Strings, Struct, Holds, RwProbe, Passed, Strip, Items, Before, Alike;
    DenotesParts(b', ks, t');
    RelocateProp(b, toks, t, p, k, q, b', ks, t');
    q' := Again(toks, q, ks);
    assert SameForm(q[0], q'[0]);
    AlikeHas(t, t', p);
    AlikeProps(Sub(t, p), Sub(t', p));
  }

  // ---------------------------------------------------------------- what a patch leaves alone

  /** Neither node is inside the other. */
  ghost predicate Away(p: Path, f: Path) {
    !(p <= f) && !(f <= p)
  }

  lemma {:induction false} GraftAway(t: Tree, p: Path, f: Path, m: Tree)
    requires Has(t, p) && Has(t, f) && Away(p, f)
    ensures Has(Graft(t, p, m), f) && Sub(Graft(t, p, m), f) == Sub(t, f)
    decreases |p|
  {
    if p[0] == f[0] {
      if p[1..] <= f[1..] {
        TailPrefix(p, f);
      }
      if f[1..] <= p[1..] {
        TailPrefix(f, p);
      }
      GraftAway(t.kids[p[0]], p[1..], f[1..], m);
    }
  }

  lemma TailPrefix(p: Path, f: Path)
    requires p != [] && f != [] && p[0] == f[0] && p[1..] <= f[1..]
    ensures p <= f
  {
    assert p == [p[0]] + p[1..] && f == [f[0]] + f[1..];
  }

  /** A node whose own properties change, seen from a node that it is not inside of. */
  lemma {:induction false} GraftOwnProps(t: Tree, p: Path, f: Path, m: Tree)
    requires Has(t, p) && Has(t, f) && !(f <= p) && m.kids == Sub(t, p).kids
    ensures Has(Graft(t, p, m), f) && Sub(Graft(t, p, m), f) == Sub(t, f)
    decreases |p|
  {
    if p != [] && p[0] == f[0] {
      if f[1..] <= p[1..] {
        TailPrefix(f, p);
      }
      GraftOwnProps(t.kids[p[0]], p[1..], f[1..], m);
    }
  }

  // ---------------------------------------------------------------- cells

  /** The bytes of the buffer after the structure block. */
  function Room(b: Blob): int {
    |b.buf| - b.offStruct - b.sizeStruct
  }

  /** Every offset listed from cell `i` on can be read from any value, and does not wrap. */
  predicate Small(list: seq<byte>, i: nat, room: int)
    decreases |list| - 4 * i
  {
    4 * i + 4 <= |list| ==>
      U32(list, 4 * i) + 4 <= room && U32(list, 4 * i) + 4 < WORD && Small(list, i + 1, room)
  }

  /** How the loop ends, from cell `i` on: at the first offset outside the value, which has
      `len` bytes; the buffer has `avail` bytes from the start of the value on. */
  function Stops(list: seq<byte>, i: nat, len: nat, avail: int): int
    decreases |list| - 4 * i
  {
    if 4 * i + 4 > |list| then 0
    else
      var off := U32(list, 4 * i);
      if off + 4 <= len then Stops(list, i + 1, len, avail)
      else if off + 4 > avail || (off + 4) % WORD <= len then WILD
      else -BADOVERLAY
  }

  /** Small offsets are never wild. */
  lemma {:induction false} StopsSmall(list: seq<byte>, i: nat, len: nat, avail: int, room: int)
    requires room <= avail
    ensures Stops(list, i, len, avail) in {0, WILD, -BADOVERLAY}
    ensures Stops(list, i, len, avail) == WILD ==> !Small(list, i, room)
    decreases |list| - 4 * i
  {
    hide U32;
    if 4 * i + 4 <= |list| {
      StopsSmall(list, i + 1, len, avail, room);
    }
  }

  /** The bytes of the buffer from the start of the value of the property at `prop` on. */
  function Avail(b: Blob, prop: int): int {
    |b.buf| - b.offStruct - prop - 12
  }

  predicate AllSmall(fs: seq<PropVal>, room: int) {
    forall i :: 0 <= i < |fs| ==> Small(fs[i].val, 0, room)
  }

  /** Every fixup lists such offsets only. */
  predicate Bounded(fix: Tree, room: int)
    decreases fix
  {
    && AllSmall(fix.props, room)
    && (forall i :: 0 <= i < |fix.kids| ==> Bounded(fix.kids[i], room))
  }

  /** After one cell has been stored: the node, its property and the fixup property. */
  lemma AfterCell(b: Blob, toks: seq<Token>, t: Tree, r: seq<Token>, p: Path, name: seq<byte>, q: seq<Token>, f: Path, j: nat, x: seq<Token>,
                  b1: Blob, ks: seq<Token>, off: nat, u: seq<byte>)
    returns (r1: seq<Token>, q1: seq<Token>, x1: seq<Token>)
    requires Denotes(b, toks, t) && Locates(b, toks, t, r, p) && Has(t, p) && !(f <= p)
    requires Sound(b) && PropAt(b, toks, t, p, PropIndex(Sub(t, p).props, name), q) && PropAt(b, toks, t, f, j, x)
    requires off + |u| <= |Sub(t, p).props[PropIndex(Sub(t, p).props, name)].val|
    requires Patched(b, toks, t, b1, ks, Graft(t, p, WithBytes(Sub(t, p), PropIndex(Sub(t, p).props, name), off, u)))
    ensures var n := Sub(t, p);
      var k := PropIndex(n.props, name);
      var n1 := WithBytes(n, k, off, u);
      var t1 := Graft(t, p, n1);
      && Denotes(b1, ks, t1) && Locates(b1, ks, t1, r1, p) && Has(t1, p) && Sub(t1, p) == n1 && PropIndex(n1.props, name) == k
      && Sound(b1) && PropAt(b1, ks, t1, p, k, q1) && PropAt(b1, ks, t1, f, j, x1)
      && Has(t, f) && Has(t1, f) && Sub(t1, f) == Sub(t, f)
      && Suffix(r, toks) && Suffix(r1, ks) && At(ks, r1) == At(toks, r)
      && Suffix(q, toks) && Suffix(q1, ks) && At(ks, q1) == At(toks, q)
      && Suffix(x, toks) && Suffix(x1, ks) && At(ks, x1) == At(toks, x)
  {
    hide Strings, Struct, At, RwProbe, Reads, Locates, PropAt, Patched, Sub, Graft, PropIndex, Put;
    var n := Sub(t, p);
    var k := PropIndex(n.props, name);
    PropAtParts(b, toks, t, p, k, q);
    PropAtParts(b, toks, t, f, j, x);
    var n1 := WithBytes(n, k, off, u);
    var t1 := Graft(t, p, n1);
    r1 := Moved1(b, toks, t, r, p, b1, ks, n1);
    q1 := KeepProp(b, toks, t, p, k, q, b1, ks, t1);
    x1 := KeepProp(b, toks, t, f, j, x, b1, ks, t1);
    PropAtParts(b1, ks, t1, p, k, q1);
    PropAtParts(b1, ks, t1, f, j, x1);
    GraftOwnProps(t, p, f, n1);
    IndexSame(n.props, k, n1.props[k].val, name);
  }

  /** The loop over the listed cells bumps the tree's value as a value. */
  lemma {:induction false} CellsTheorem(b: Blob, toks: seq<Token>, t: Tree, r: seq<Token>, p: Path, name: seq<byte>, q: seq<Token>,
                                        f: Path, j: nat, x: seq<Token>, i: nat, delta: nat)
    returns (ks: seq<Token>)
    requires Denotes(b, toks, t) && Locates(b, toks, t, r, p) && Has(t, p) && !(f <= p)
    requires Sound(b) && PropAt(b, toks, t, p, PropIndex(Sub(t, p).props, name), q)
    requires PropAt(b, toks, t, f, j, x)
    requires var list := Sub(t, f).props[j].val; |list| % 4 == 0 && 4 * i <= |list|
    ensures Inside(b) && Suffix(r, toks)
    ensures var (n, list) := (Sub(t, p), Sub(t, f).props[j].val);
      var k := PropIndex(n.props, name);
      && At(toks, x) + 12 + |list| <= |Struct(b)|
      && var e := BumpCells(b, At(toks, r), name, At(toks, q) + 12, At(toks, x) + 12, |list| / 4, i, delta);
      && e.err == Stops(list, i, |n.props[k].val|, Avail(b, At(toks, q)))
      && match Fixups.BumpAll(n.props[k].val, list, i, delta)
        case None => e.err != 0
        case Some(v) => e.err == 0 && Patched(b, toks, t, e.blob, ks, Graft(t, p, n.(props := n.props[k := n.props[k].(val := v)])))
    decreases |Sub(t, f).props[j].val| - 4 * i
  {
    hide Before, After, Strings, Struct, Holds, At, NextTag, U32, NulFrom, StringAt, RwProbe, Ser, Rest, GetProp, Reads, Locates, PropAt, Patched,
      SetPartial, Sub, Graft, PropIndex, BE32, Fixups.Bump;
    ks := toks;
    DenotesLocates(b, toks, t, r, p);
    PropAtParts(b, toks, t, f, j, x);
    PropAtParts(b, toks, t, p, PropIndex(Sub(t, p).props, name), q);
    PropAtFacts(b, toks, t, f, j, x);
    var n, list := Sub(t, p), Sub(t, f).props[j].val;
    var k := PropIndex(n.props, name);
    var v := n.props[k].val;
    if 4 * i == |list| {
      GraftSelf(t, p);
      assert n.(props := n.props[k := n.props[k].(val := v)]) == n;
      PatchedNot(b, toks, t);
    } else {
      CellWords(b, toks, t, p, k, q, f, j, x, i);
      var off := U32(list, 4 * i);
      var from := b.offStruct + At(toks, q) + 12 + off;
      if from + 4 > |b.buf| {
        return;
      }
      var w := U32(b.buf, from);
      var u := BE32((w + delta) % WORD);
      ks := SetPartialTheorem(b, toks, t, r, p, name, off, u);
      if off + 4 <= |v| {
        var e := SetPartial(b, At(toks, r), name, off, u);
        BumpIs(v, off, delta, w);
        var n1 := WithBytes(n, k, off, u);
        var t1 := Graft(t, p, n1);
        var r1, q1, x1 := AfterCell(b, toks, t, r, p, name, q, f, j, x, e.blob, ks, off, u);
        var js := CellsTheorem(e.blob, ks, t1, r1, p, name, q1, f, j, x1, i + 1, delta);
        var g := BumpCells(e.blob, At(toks, r), name, At(toks, q) + 12, At(toks, x) + 12, |list| / 4, i + 1, delta);
        var all := Fixups.BumpAll(n1.props[k].val, list, i + 1, delta);
        if all.Some? {
          TwoValues(n, k, n1, n1.props[k].val, all.value);
          GraftPatched(b, toks, t, p, e.blob, ks, n1, g.blob, js, n.(props := n.props[k := n.props[k].(val := all.value)]));
        }
        ks := js;
      }
    }
  }

  lemma TwoValues(n: Tree, k: nat, n1: Tree, u: seq<byte>, v: seq<byte>)
    requires k < |n.props| && n1 == n.(props := n.props[k := n.props[k].(val := u)])
    ensures n1.(props := n1.props[k := n1.props[k].(val := v)]) == n.(props := n.props[k := n.props[k].(val := v)])
  {
  }

  lemma BumpIs(v: seq<byte>, off: nat, delta: nat, w: nat)
    requires off + 4 <= |v| && w == U32(v, off)
    ensures Fixups.Bump(v, off, delta) == Put(v, off, BE32((w + delta) % WORD))
  {
  }

  /** The words that the loop reads: the listed offset, and the cell at it. */
  lemma CellWords(b: Blob, toks: seq<Token>, t: Tree, p: Path, k: nat, q: seq<Token>, f: Path, j: nat, x: seq<Token>, i: nat)
    requires Denotes(b, toks, t) && Sound(b) && PropAt(b, toks, t, p, k, q) && PropAt(b, toks, t, f, j, x)
    requires 4 * i + 4 <= |Sub(t, f).props[j].val|
    ensures var (v, list) := (Sub(t, p).props[k].val, Sub(t, f).props[j].val);
      var (s, at, lat) := (Struct(b), At(toks, q) + 12, At(toks, x) + 12);
      && lat + |list| <= |s| && at + |v| <= |s|
      && U32(s, lat + 4 * i) == U32(list, 4 * i)
      && var (off, from) := (U32(list, 4 * i), b.offStruct + at + U32(list, 4 * i));
      && (from + 4 <= |b.buf| && off + 4 <= |v| ==> U32(b.buf, from) == U32(v, off))
      && (off + 4 <= |v| ==> from + 4 <= |b.buf|)
  {
    hide Before, After, Strings, Struct, Holds, At, NextTag, U32, NulFrom, StringAt, RwProbe, Ser, Rest, AtProp;
    DenotesParts(b, toks, t);
    PropAtParts(b, toks, t, p, k, q);
    PropAtParts(b, toks, t, f, j, x);
    PropAtFacts(b, toks, t, p, k, q);
    PropAtFacts(b, toks, t, f, j, x);
    var (v, list) := (Sub(t, p).props[k].val, Sub(t, f).props[j].val);
    ValueWord(Struct(b), At(toks, q), v);
    ValueWord(Struct(b), At(toks, x), list);
    BlockWord(b, At(toks, q) + 12 + U32(list, 4 * i));
    DenotesParts(b, toks, t);
    OrderedFacts(b);
    BlockSlices(b);
  }

  /** A word of the structure block is a word of the buffer. */
  lemma BlockWord(b: Blob, i: nat)
    requires Sound(b) && Ordered(b)
    ensures |Struct(b)| == b.sizeStruct && b.offStruct + b.sizeStruct <= |b.buf|
    ensures i + 4 <= |Struct(b)| ==> U32(Struct(b), i) == U32(b.buf, b.offStruct + i)
  {
    BlockSlices(b);
  }

  // ---------------------------------------------------------------- properties

  /** The token of the fixup property that the loop is at. */
  lemma NextFixup(b: Blob, toks: seq<Token>, t: Tree, f: Path, j: nat, rest: seq<Token>) returns (x: seq<Token>)
    requires Denotes(b, toks, t) && Sound(b) && AtProp(b, toks, t, f, j, rest)
    ensures var pos := NextPropFrom(Struct(b), At(toks, rest));
      if j == |Sub(t, f).props| then pos < 0 else PropAt(b, toks, t, f, j, x) && pos == At(toks, x)
  {
    hide Before, After, Strings, Struct, Holds, At, NextTag, U32, NulFrom, StringAt, RwProbe, Ser;
    var n, z := Sub(t, f), After(t, f);
    var st := Strings(b);
    FromProp(b, toks, t, f, j, rest);
    BodyShape(n, z);
    var ps := n.props[j..];
    var y := Rest(n, z);
    x := PropStep(b, toks, rest, ps, y);
    if j < |n.props| {
      assert ps[0] == n.props[j];
      StepAt(Struct(b), toks, x);
      FirstItem(x, st);
      CutAt(b, toks, t, rest);
      CutAt(b, toks, t, x);
      assert |Strip(Items(x, st))| == |Strip(Items(rest, st))|;
    }
  }

  /** One fixup property. */
  lemma BumpPropTheorem(b: Blob, toks: seq<Token>, t: Tree, r: seq<Token>, p: Path, f: Path, j: nat, x: seq<Token>, delta: nat)
    returns (ks: seq<Token>)
    requires Denotes(b, toks, t) && Locates(b, toks, t, r, p) && Has(t, p) && !(f <= p)
    requires Sound(b) && PropAt(b, toks, t, f, j, x)
    ensures Inside(b) && Suffix(r, toks) && CheckPropOffset(Struct(b), At(toks, x)) >= 0
    ensures var (n, fix) := (Sub(t, p), Sub(t, f).props[j]);
      var i := PropIndex(n.props, fix.name);
      var e := BumpProp(b, At(toks, r), At(toks, x), delta);
      if |fix.val| % 4 != 0 || i == |n.props| then e.err == -BADOVERLAY
      else
        && e.err == Stops(fix.val, 0, |n.props[i].val|, Avail(b, GetProp(Struct(b), Strings(b), At(toks, r), fix.name)))
        && match Fixups.BumpAll(n.props[i].val, fix.val, 0, delta)
          case None => e.err != 0
          case Some(v) => e.err == 0 && Patched(b, toks, t, e.blob, ks, Graft(t, p, n.(props := n.props[i := n.props[i].(val := v)])))
  {
    hide Before, After, Strings, Struct, Holds, At, NextTag, U32, NulFrom, StringAt, RwProbe, Ser, Rest, GetProp, Reads, Locates, PropAt, Patched,
      Sub, Graft, BumpCells, Fixups.BumpAll, AtProp;
    ks := toks;
    DenotesLocates(b, toks, t, r, p);
    PropAtParts(b, toks, t, f, j, x);
    PropAtFacts(b, toks, t, f, j, x);
    var (n, fix) := (Sub(t, p), Sub(t, f).props[j]);
    var i := PropIndex(n.props, fix.name);
    if |fix.val| % 4 == 0 {
      if i < |n.props| {
        var q := HoldProp(b, toks, t, r, p, fix.name);
        ks := CellsTheorem(b, toks, t, r, p, fix.name, q, f, j, x, 0, delta);
      } else {
        var q := FindInNode(b, toks, t, r, p, fix.name);
      }
    }
  }

  /** A value ends inside the structure block. */
  lemma ValueSpot(b: Blob, toks: seq<Token>, t: Tree, r: seq<Token>, p: Path, name: seq<byte>)
    requires Denotes(b, toks, t) && Locates(b, toks, t, r, p) && PropIndex(Sub(t, p).props, name) < |Sub(t, p).props|
    ensures Sound(b) && Suffix(r, toks) && Room(b) <= Avail(b, GetProp(Struct(b), Strings(b), At(toks, r), name))
  {
    hide Before, After, Strings, Struct, Holds, At, GetProp, RwProbe, Ser, Rest, Items, Strip, PropAt, Sub, PropIndex, Reads, Locates;
    DenotesLocates(b, toks, t, r, p);
    var q := HoldProp(b, toks, t, r, p, name);
    PropAtFacts(b, toks, t, p, PropIndex(Sub(t, p).props, name), q);
    DenotesParts(b, toks, t);
    BlockSlices(b);
  }

  /** The property loop, from fixup property `j` on. */
  lemma {:induction false} UpdatePropsTheorem(b: Blob, toks: seq<Token>, t: Tree, r: seq<Token>, p: Path, f: Path, j: nat, rest: seq<Token>, delta: nat)
    returns (ks: seq<Token>)
    requires Denotes(b, toks, t) && Locates(b, toks, t, r, p) && Has(t, p) && !(f <= p)
    requires Sound(b) && AtProp(b, toks, t, f, j, rest)
    ensures Inside(b) && Suffix(r, toks)
    ensures var (n, fs) := (Sub(t, p), Sub(t, f).props);
      var e := UpdatePropsAt(b, At(toks, r), NextPropFrom(Struct(b), At(toks, rest)), delta);
      match Fixups.UpdateProps(n, fs[j..], delta)
      case Fail(err) => err != 0 && (e.err == err || (e.err == WILD && !AllSmall(fs, Room(b))))
      case Ok(m) => e.err == 0 && m.kids == n.kids && Patched(b, toks, t, e.blob, ks, Graft(t, p, m))
    decreases |Sub(t, f).props| - j
  {
    hide Before, After, Strings, Struct, Holds, At, NextTag, U32, NulFrom, StringAt, RwProbe, Ser, Rest, GetProp, Reads, Locates, PropAt, Patched,
      Sub, Graft, BumpProp, Fixups.BumpAll, PropIndex, Has, NextPropFrom;
    ks := toks;
    DenotesLocates(b, toks, t, r, p);
    var n, fs := Sub(t, p), Sub(t, f).props;
    var x := NextFixup(b, toks, t, f, j, rest);
    if j == |fs| {
      assert fs[j..] == [];
      GraftSelf(t, p);
      PatchedNot(b, toks, t);
    } else {
      assert fs[j..][0] == fs[j] && fs[j..][1..] == fs[j + 1..];
      ks := BumpPropTheorem(b, toks, t, r, p, f, j, x, delta);
      PropAtParts(b, toks, t, f, j, x);
      PropAtFacts(b, toks, t, f, j, x);
      var i := PropIndex(n.props, fs[j].name);
      if |fs[j].val| % 4 == 0 && i < |n.props| {
        ValueSpot(b, toks, t, r, p, fs[j].name);
        StopsSmall(fs[j].val, 0, |n.props[i].val|, Avail(b, GetProp(Struct(b), Strings(b), At(toks, r), fs[j].name)), Room(b));
      }
      if |fs[j].val| % 4 == 0 && i < |n.props| && Fixups.BumpAll(n.props[i].val, fs[j].val, 0, delta).Some? {
        var v := Fixups.BumpAll(n.props[i].val, fs[j].val, 0, delta).value;
        var n1 := n.(props := n.props[i := n.props[i].(val := v)]);
        var e := BumpProp(b, At(toks, r), At(toks, x), delta);
        var r1 := Moved1(b, toks, t, r, p, e.blob, ks, n1);
        var t1 := Graft(t, p, n1);
        var x1 := KeepProp(b, toks, t, f, j, x, e.blob, ks, t1);
        PropAtParts(e.blob, ks, t1, f, j, x1);
        PropAtFacts(e.blob, ks, t1, f, j, x1);
        GraftOwnProps(t, p, f, n1);
        var js := UpdatePropsTheorem(e.blob, ks, t1, r1, p, f, j + 1, x1[1..], delta);
        NextPropIs(Struct(e.blob), At(toks, x));
        var g := UpdatePropsFrom(e.blob, At(toks, r), At(toks, x), delta);
        var m := Fixups.UpdateProps(n1, fs[j + 1..], delta);
        if m.Ok? {
          GraftPatched(b, toks, t, p, e.blob, ks, n1, g.blob, js, m.tree);
        }
        ks := js;
      }
    }
  }

  // ---------------------------------------------------------------- nodes

  /** The update of the node at `p` by the fixups at `f` stays out of the fixups. */
  ghost predicate Clear(t: Tree, p: Path, f: Path)
    requires Has(t, p) && Has(t, f)
  {
    && !(f <= p)
    && forall j :: 0 <= j < |Sub(t, f).kids| ==> Away(p + [KidIndex(Sub(t, p).kids, Sub(t, f).kids[j].name)], f)
  }

  lemma AwayBelow(t: Tree, p: Path, f: Path, p': Path, f': Path)
    requires Away(p, f) && p <= p' && f <= f' && Has(t, p') && Has(t, f')
    ensures Clear(t, p', f')
  {
    AwayLonger(p, f, p', f');
    forall j | 0 <= j < |Sub(t, f').kids|
      ensures Away(p' + [KidIndex(Sub(t, p').kids, Sub(t, f').kids[j].name)], f')
    {
      AwayLonger(p, f, p' + [KidIndex(Sub(t, p').kids, Sub(t, f').kids[j].name)], f');
    }
  }

  lemma AwayLonger(p: Path, f: Path, p': Path, f': Path)
    requires Away(p, f) && p <= p' && f <= f'
    ensures Away(p', f')
  {
    Prefixes(p, f, f');
    Prefixes(p, f, p');
  }

  lemma Prefixes(p: Path, f: Path, r: Path)
    ensures p <= r && f <= r ==> p <= f || f <= p
  {
    if p <= r && f <= r {
      assert |p| <= |f| ==> f[..|p|] == r[..|f|][..|p|] == r[..|p|] == p;
      assert |f| <= |p| ==> p[..|f|] == r[..|p|][..|f|] == r[..|f|] == f;
    }
  }

  lemma SameClear(t: Tree, t1: Tree, p: Path, f: Path)
    requires Has(t, p) && Has(t, f) && Clear(t, p, f) && Alike(t, t1)
    ensures Has(t1, p) && Has(t1, f) && Clear(t1, p, f)
  {
    hide Alike, KidIndex, Away;
    AlikeHas(t, t1, p);
    AlikeHas(t, t1, f);
    AlikeKidNames(Sub(t, p), Sub(t1, p));
    AlikeKidNames(Sub(t, f), Sub(t1, f));
    forall j | 0 <= j < |Sub(t1, f).kids|
      ensures Away(p + [KidIndex(Sub(t1, p).kids, Sub(t1, f).kids[j].name)], f)
    {
      Fixups.SameKidIndex(Sub(t, p).kids, Sub(t1, p).kids, Sub(t, f).kids[j].name);
    }
  }

  lemma AlikeKidNames(n: Tree, m: Tree)
    requires Alike(n, m)
    ensures |n.kids| == |m.kids| && forall i :: 0 <= i < |n.kids| ==> n.kids[i].name == m.kids[i].name
  {
    forall i | 0 <= i < |n.kids| ensures n.kids[i].name == m.kids[i].name {
      assert Alike(n.kids[i], m.kids[i]);
    }
  }

  lemma UpdateStep(n: Tree, fix: Tree, delta: nat)
    ensures Fixups.Update(n, fix, delta) ==
      match Fixups.UpdateProps(n, fix.props, delta)
      case Fail(e) => Fail(e)
      case Ok(m) => Fixups.UpdateKids(m, fix.kids, delta)
  {
  }

  lemma UpdateKidsStep(n: Tree, fs: seq<Tree>, delta: nat)
    ensures Fixups.UpdateKids(n, fs, delta) ==
      if fs == [] then Ok(n)
      else
        var i := KidIndex(n.kids, fs[0].name);
        if i == |n.kids| then Fail(-BADOVERLAY)
        else match Fixups.Update(n.kids[i], fs[0], delta)
          case Fail(e) => Fail(e)
          case Ok(k) => Fixups.UpdateKids(n.(kids := n.kids[i := k]), fs[1..], delta)
  {
  }

  /** Updating on the blob is updating in the tree. */
  lemma {:induction false} UpdateNodeTheorem(b: Blob, toks: seq<Token>, t: Tree, r: seq<Token>, p: Path, g: seq<Token>, f: Path, delta: nat)
    returns (ks: seq<Token>)
    requires Denotes(b, toks, t) && Locates(b, toks, t, r, p) && Locates(b, toks, t, g, f)
    requires Has(t, p) && Has(t, f) && Clear(t, p, f)
    ensures Sound(b) && Inside(b) && Suffix(r, toks) && Suffix(g, toks)
    ensures var e := UpdateNode(b, At(toks, r), At(toks, g), delta);
      match Fixups.Update(Sub(t, p), Sub(t, f), delta)
      case Fail(err) => err != 0 && (e.err == err || (e.err == WILD && !Bounded(Sub(t, f), Room(b))))
      case Ok(m) => e.err == 0 && Patched(b, toks, t, e.blob, ks, Graft(t, p, m))
    decreases Sub(t, f)
  {
    hide Reads, Locates, At, Struct, Strings, Graft, Patched, RwProbe, Sub, Has, UpdatePropsAt, Fixups.UpdateProps, Fixups.UpdateKids, Fixups.Update,
      FirstSubnode, UpdateSubs, NextPropFrom, NextTag, U32, NulFrom, Holds, AtProp, Clear, Bounded, AllSmall, Room;
    DenotesLocates(b, toks, t, r, p);
    DenotesLocates(b, toks, t, g, f);
    var n, fix := Sub(t, p), Sub(t, f);
    UpdateStep(n, fix, delta);
    if Bounded(fix, Room(b)) {
      BoundedParts(fix, Room(b), 0);
    }
    ClearApart(t, p, f);
    NodeStart(b, toks, t, g, f);
    assert fix.props[0..] == fix.props && fix.kids[0..] == fix.kids;
    ks := UpdatePropsTheorem(b, toks, t, r, p, f, 0, g[1..], delta);
    if Fixups.UpdateProps(n, fix.props, delta).Ok? {
      var m := Fixups.UpdateProps(n, fix.props, delta).tree;
      var e := UpdatePropsAt(b, At(toks, r), FirstProp(Struct(b), At(toks, g)), delta);
      var r1 := Moved1(b, toks, t, r, p, e.blob, ks, m);
      var t1 := Graft(t, p, m);
      var g1 := Moved2(b, toks, t, g, f, e.blob, ks, t1);
      GraftOwnProps(t, p, f, m);
      PatchedAlike(b, toks, t, e.blob, ks, t1);
      PatchedRoom(b, toks, t, e.blob, ks, t1);
      SameClear(t, t1, p, f);
      var c := FirstKidAt(e.blob, ks, t1, g1, f);
      if fix.kids != [] {
        var js := UpdateSubsTheorem(e.blob, ks, t1, r1, p, g1, f, 0, c, delta);
        if Fixups.UpdateKids(m, fix.kids, delta).Ok? {
          var h := UpdateSubs(e.blob, At(toks, r), At(ks, c), delta);
          GraftPatched(b, toks, t, p, e.blob, ks, m, h.blob, js, Fixups.UpdateKids(m, fix.kids, delta).tree);
        }
        ks := js;
      } else {
        UpdateKidsStep(m, fix.kids, delta);
      }
    }
  }

  lemma ClearApart(t: Tree, p: Path, f: Path)
    requires Has(t, p) && Has(t, f) && Clear(t, p, f)
    ensures !(f <= p)
  {
  }

  lemma BoundedParts(fix: Tree, room: int, j: nat)
    requires Bounded(fix, room)
    ensures AllSmall(fix.props, room) && (j < |fix.kids| ==> Bounded(fix.kids[j], room))
  {
  }

  lemma PatchedRoom(b: Blob, toks: seq<Token>, t: Tree, b1: Blob, ks: seq<Token>, t1: Tree)
    requires Patched(b, toks, t, b1, ks, t1)
    ensures Room(b1) == Room(b)
  {
  }

  lemma PatchedAlike(b: Blob, toks: seq<Token>, t: Tree, b1: Blob, ks: seq<Token>, t1: Tree)
    requires Patched(b, toks, t, b1, ks, t1)
    ensures Alike(t, t1)
  {
  }

  /** A node after a patch somewhere. */
  lemma Moved2(b: Blob, toks: seq<Token>, t: Tree, g: seq<Token>, f: Path, b1: Blob, ks: seq<Token>, t1: Tree) returns (g1: seq<Token>)
    requires Denotes(b, toks, t) && Locates(b, toks, t, g, f) && Patched(b, toks, t, b1, ks, t1)
    ensures Denotes(b1, ks, t1) && Locates(b1, ks, t1, g1, f) && Has(t1, f)
    ensures Sound(b1) && Suffix(g, toks) && Suffix(g1, ks) && At(ks, g1) == At(toks, g)
  {
    hide Reads, At, Passed, Strings, Before, Items, Strip, RwProbe, Alike;
    Relocate(b, toks, t, g, f, b1, ks, t1);
    DenotesParts(b1, ks, t1);
    g1 := Again(toks, g, ks);
  }

  /** The first property of a node starts right after its begin tag. */
  lemma NodeStart(b: Blob, toks: seq<Token>, t: Tree, g: seq<Token>, f: Path)
    requires Denotes(b, toks, t) && Locates(b, toks, t, g, f)
    ensures Sound(b) && Suffix(g, toks) && g != [] && Suffix(g[1..], toks) && AtProp(b, toks, t, f, 0, g[1..])
    ensures FirstProp(Struct(b), At(toks, g)) == NextPropFrom(Struct(b), At(toks, g[1..]))
    ensures Has(t, f) && At(toks, g) + 4 <= |Struct(b)| && NodeName(Struct(b), At(toks, g)) == Sub(t, f).name
  {
    hide Reads, At, Struct, Strings, RwProbe, NextTag, U32, NulFrom, Holds, AtProp, Before, Ser, After, NextPropFrom, NodeName;
    DenotesParts(b, toks, t);
    ToProp(b, toks, t, f, g);
    Located(b, toks, t, g, f);
    StepAt(Struct(b), toks, g);
  }

  /** The child loop, from fixup child `j` on. */
  lemma {:induction false} UpdateSubsTheorem(b: Blob, toks: seq<Token>, t: Tree, r: seq<Token>, p: Path, g: seq<Token>, f: Path,
                                             j: nat, c: seq<Token>, delta: nat)
    returns (ks: seq<Token>)
    requires Denotes(b, toks, t) && Locates(b, toks, t, r, p) && Locates(b, toks, t, g, f)
    requires Has(t, p) && Has(t, f) && Clear(t, p, f) && j < |Sub(t, f).kids| && Locates(b, toks, t, c, f + [j])
    ensures Sound(b) && Inside(b) && Suffix(r, toks) && Suffix(c, toks) && At(toks, c) < |Struct(b)|
    ensures var (n, fs) := (Sub(t, p), Sub(t, f).kids);
      var e := UpdateSubs(b, At(toks, r), At(toks, c), delta);
      match Fixups.UpdateKids(n, fs[j..], delta)
      case Fail(err) => err != 0 && (e.err == err || (e.err == WILD && !Bounded(Sub(t, f), Room(b))))
      case Ok(m) => e.err == 0 && Patched(b, toks, t, e.blob, ks, Graft(t, p, m))
    decreases Sub(t, f).kids[j..]
  {
    hide Reads, Locates, At, Struct, Strings, Graft, Patched, RwProbe, Sub, Has, UpdateNode, Fixups.UpdateKids, Fixups.Update,
      NextSubnode, SubnodeOffset, NodeName, KidIndex, Clear, Bounded, Room;
    ks := toks;
    if Bounded(Sub(t, f), Room(b)) {
      BoundedParts(Sub(t, f), Room(b), j);
    }
    DenotesLocates(b, toks, t, r, p);
    DenotesLocates(b, toks, t, c, f + [j]);
    NodeStart(b, toks, t, c, f + [j]);
    AfterKid(t, f, j);
    var n, fs := Sub(t, p), Sub(t, f).kids;
    assert fs[j..][0] == fs[j] && fs[j..][1..] == fs[j + 1..];
    UpdateKidsStep(n, fs[j..], delta);
    UpdateKidsStep(n, [], delta);
    var i := KidIndex(n.kids, fs[j].name);
    if i == |n.kids| {
      var k := FindKid(b, toks, t, r, p, fs[j].name);
    } else {
      var k := KidLocated(b, toks, t, r, p, fs[j].name);
      AfterKid(t, p, i);
      ClearKid(t, p, f, j);
      DenotesLocates(b, toks, t, k, p + [i]);
      ks := UpdateNodeTheorem(b, toks, t, k, p + [i], c, f + [j], delta);
      if Fixups.Update(n.kids[i], fs[j], delta).Ok? {
        var m := Fixups.Update(n.kids[i], fs[j], delta).tree;
        var n1 := n.(kids := n.kids[i := m]);
        var e := UpdateNode(b, At(toks, k), At(toks, c), delta);
        var r1, g1, c1 := AfterFixup(b, toks, t, r, p, i, g, f, j, c, e.blob, ks, m);
        var t1 := Graft(t, p, n1);
        PatchedRoom(b, toks, t, e.blob, ks, t1);
        if j + 1 < |fs| {
          var js := UpdateSubsTheorem(e.blob, ks, t1, r1, p, g1, f, j + 1, c1, delta);
          if Fixups.UpdateKids(n1, fs[j + 1..], delta).Ok? {
            var h := UpdateSubs(e.blob, At(toks, r), At(ks, c1), delta);
            GraftPatched(b, toks, t, p, e.blob, ks, n1, h.blob, js, Fixups.UpdateKids(n1, fs[j + 1..], delta).tree);
          }
          ks := js;
        } else {
          UpdateKidsStep(n1, fs[j + 1..], delta);
        }
      }
    }
  }

  lemma ClearKid(t: Tree, p: Path, f: Path, j: nat)
    requires Has(t, p) && Has(t, f) && Clear(t, p, f) && j < |Sub(t, f).kids|
    requires KidIndex(Sub(t, p).kids, Sub(t, f).kids[j].name) < |Sub(t, p).kids|
    ensures var i := KidIndex(Sub(t, p).kids, Sub(t, f).kids[j].name);
      Has(t, p + [i]) && Has(t, f + [j]) && Away(p + [i], f) && Clear(t, p + [i], f + [j])
  {
    hide KidIndex;
    var i := KidIndex(Sub(t, p).kids, Sub(t, f).kids[j].name);
    AfterKid(t, p, i);
    AfterKid(t, f, j);
    AwayBelow(t, p + [i], f, p + [i], f + [j]);
  }

  /** Where the child loop is: the node, the fixup node, and its child `j` at `pos`. */
  ghost predicate Resumed(b: Blob, toks: seq<Token>, t: Tree, r: seq<Token>, p: Path, n: Tree, node: nat, g: seq<Token>, f: Path, fix: Tree,
                          j: nat, k: seq<Token>, pos: int)
    requires Sound(b)
  {
    hide Reads, Locates, At, Struct, RwProbe, Clear;
    && Denotes(b, toks, t) && Locates(b, toks, t, r, p) && Locates(b, toks, t, g, f)
    && Has(t, p) && Sub(t, p) == n && Has(t, f) && Sub(t, f) == fix && Clear(t, p, f)
    && Suffix(r, toks) && At(toks, r) == node
    && (if j == |fix.kids| then pos == -NOTFOUND
        else Suffix(k, toks) && Locates(b, toks, t, k, f + [j]) && pos == At(toks, k) && At(toks, k) < |Struct(b)|)
  }

  /** After one child has been updated: the parent, the fixup node and its next child. */
  lemma AfterFixup(b: Blob, toks: seq<Token>, t: Tree, r: seq<Token>, p: Path, i: nat, g: seq<Token>, f: Path, j: nat, c: seq<Token>,
                   b1: Blob, ks: seq<Token>, m: Tree)
    returns (r1: seq<Token>, g1: seq<Token>, k: seq<Token>)
    requires Denotes(b, toks, t) && Locates(b, toks, t, r, p) && Locates(b, toks, t, g, f)
    requires Has(t, p) && Has(t, f) && Clear(t, p, f) && i < |Sub(t, p).kids| && j < |Sub(t, f).kids|
    requires Has(t, p + [i]) && Away(p + [i], f) && Locates(b, toks, t, c, f + [j])
    requires Patched(b, toks, t, b1, ks, Graft(t, p + [i], m))
    ensures var n := Sub(t, p);
      var n1 := n.(kids := n.kids[i := m]);
      && Sound(b1) && Suffix(r, toks) && Suffix(c, toks)
      && Graft(t, p + [i], m) == Graft(t, p, n1)
      && Resumed(b1, ks, Graft(t, p, n1), r1, p, n1, At(toks, r), g1, f, Sub(t, f), j + 1, k, NextSubnode(Struct(b1), At(toks, c)))
  {
    hide Reads, At, Struct, Strings, Graft, Patched, NextSubnode, RwProbe, Sub, Has, Items, Strip, Before, Clear;
    var n := Sub(t, p);
    var n1 := n.(kids := n.kids[i := m]);
    GraftKid(t, p, i, m);
    var t1 := Graft(t, p, n1);
    r1 := Moved1(b, toks, t, r, p, b1, ks, n1);
    g1 := Moved2(b, toks, t, g, f, b1, ks, t1);
    var c1 := Moved2(b, toks, t, c, f + [j], b1, ks, t1);
    GraftAway(t, p + [i], f, m);
    PatchedAlike(b, toks, t, b1, ks, t1);
    SameClear(t, t1, p, f);
    k := NextKidAt(b1, ks, t1, g1, f, j, c1);
  }
}
