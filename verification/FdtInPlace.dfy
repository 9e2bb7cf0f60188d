/** The editors of fdt_wip.c that overwrite a value without changing its length. */
module FdtInPlace {
  import opened Bytes
  import opened FdtFormat
  import opened FdtTree
  import opened FdtRead
  import opened FdtEdit
  import opened FdtEditBlocks
  import opened FdtEditTheorems
  import opened FdtEditResults
  import opened FdtMerge
  import opened FdtShape

  /** Nothing but bytes of the buffer differs. */
  predicate SameFrame(b: Blob, b': Blob) {
    b' == b.(buf := b'.buf) && |b'.buf| == |b.buf|
  }

  lemma SameFrameBlock(b: Blob, b': Blob)
    requires Sound(b) && SameFrame(b, b')
    ensures Sound(b') && |Struct(b')| == |Struct(b)| && |Strings(b')| == |Strings(b)|
  {
  }

  lemma InBlock(b: Blob)
    requires Sound(b) && Inside(b)
    ensures |Struct(b)| == b.sizeStruct && |Struct(b)| % 4 == 0
  {
  }

  /** Not a value of the library: the code would read or write outside what it was given. */
  const WILD: int := 1

  /** fdt_setprop_inplace_namelen_partial. The length check is done in 32-bit arithmetic,
      so an index close to its end can pass it. */
  function SetPartial(b: Blob, node: int, name: seq<byte>, idx: nat, val: seq<byte>): (r: Edited)
    requires Sound(b) && Inside(b)
    ensures Sound(r.blob) && Inside(r.blob) && SameFrame(b, r.blob)
  {
    hide U32, NextTag, Align4, GetProp, Clip;
    InBlock(b);
    var s := Struct(b);
    var p := GetProp(s, Strings(b), node, name);
    if p < 0 then Edited(p, b)
    else if PropLen(s, p) < (|val| + idx) % WORD then Edited(-NOSPACE, b)
    else if PropLen(s, p) < |val| + idx then Edited(WILD, b)
    else Edited(0, b.(buf := Put(b.buf, b.offStruct + p + 12 + idx, val)))
  }

  /** fdt_setprop_inplace. */
  function SetInPlace(b: Blob, node: int, name: seq<byte>, val: seq<byte>): (r: Edited)
    requires Sound(b) && Inside(b)
    ensures Sound(r.blob) && Inside(r.blob) && SameFrame(b, r.blob)
  {
    hide U32, NextTag, Align4, GetProp, Clip, SetPartial;
    InBlock(b);
    var s := Struct(b);
    var p := GetProp(s, Strings(b), node, name);
    if p < 0 then Edited(p, b)
    else if PropLen(s, p) != |val| then Edited(-NOSPACE, b)
    else SetPartial(b, node, name, 0, val)
  }

  /** The node with the bytes from `idx` on of its property `i` overwritten. */
  function WithBytes(n: Tree, i: nat, idx: nat, x: seq<byte>): (m: Tree)
    requires i < |n.props| && idx + |x| <= |n.props[i].val|
    ensures m.name == n.name && m.kids == n.kids && |m.props| == |n.props|
  {
    n.(props := n.props[i := n.props[i].(val := Put(n.props[i].val, idx, x))])
  }

  /** Overwriting bytes of a value overwrites them in the token. */
  lemma PatchToken(k: Token, idx: nat, x: seq<byte>)
    requires TokenOk(k) && k.Prop? && idx + |x| <= |k.val|
    ensures var j := k.(val := Put(k.val, idx, x));
      TokenOk(j) && Put(BytesOf(k), 12 + idx, x) == BytesOf(j)
  {
    hide BE32, Align4;
    var h := BE32(PROP) + (BE32(|k.val|) + BE32(k.nameoff));
    assert BytesOf(k) == h + k.val + k.pad;
    HolePut(h, k.val, k.pad, idx, x);
    assert |h| == 12;
    var v := Put(k.val, idx, x);
    assert BE32(PROP) + (BE32(|v|) + BE32(k.nameoff) + v + k.pad) == h + v + k.pad;
  }

  /** The block with bytes of the value of the token `q[0]` overwritten. */
  lemma PatchBlock(s: seq<byte>, toks: seq<Token>, q: seq<Token>, idx: nat, x: seq<byte>)
    requires Holds(s, toks) && Suffix(q, toks) && q != [] && q[0].Prop? && idx + |x| <= |q[0].val|
    ensures At(toks, q) + 12 + |q[0].val| <= |s|
    ensures var ks := Lead(toks, q) + [q[0].(val := Put(q[0].val, idx, x))] + q[1..];
      Holds(Put(s, At(toks, q) + 12 + idx, x), ks)
  {
    hide BE32, Align4, TokenOk, BytesOf, Put, U32, NextTag, NulFrom;
    SuffixSplit(toks, q);
    StepAt(s, toks, q);
    var pre := Flat(Lead(toks, q));
    var post := Flat(q[1..]) + BE32(END) + s[|Flat(toks)| + 4..];
    var k := q[0];
    assert TokenOk(k);
    assert s == pre + BytesOf(k) + post;
    PatchToken(k, idx, x);
    var j := k.(val := Put(k.val, idx, x));
    HolePut(pre, BytesOf(k), post, 12 + idx, x);
    var s' := Put(s, |pre| + 12 + idx, x);
    assert s' == pre + BytesOf(j) + post;
    assert s[..|pre|] == pre && s[|pre| + Size(k)..] == post;
    FlatSingle(j);
    ReplaceOne(s, toks, q, [j], s');
  }

  lemma OneTokenForms(toks: seq<Token>, q: seq<Token>, j: Token)
    requires Suffix(q, toks) && q != [] && SameForm(q[0], j)
    ensures SameForms(toks, Lead(toks, q) + [j] + q[1..])
  {
    var ks := Lead(toks, q) + [j] + q[1..];
    var c := |toks| - |q|;
    forall i | 0 <= i < |toks| ensures SameForm(toks[i], ks[i]) {
      if i >= c {
        assert toks[i] == q[i - c];
      }
    }
  }

  /** The bytes that a partial set replaces, and no others. */
  ghost predicate OnlyValue(b: Blob, b': Blob, pos: int, idx: nat, x: seq<byte>)
  {
    pos >= 0 && b.offStruct + pos + 12 + idx + |x| <= |b.buf|
    && b' == b.(buf := Put(b.buf, b.offStruct + pos + 12 + idx, x))
  }

  /** fdt_setprop_inplace_namelen_partial: exactly the given bytes of exactly that value
      change, in the tree and in the buffer, and every offset stays valid. Bytes that do
      not fit are refused if and only if their end, as a 32-bit sum, is past the value. */
  lemma SetPartialTheorem(b: Blob, toks: seq<Token>, t: Tree, r: seq<Token>, p: Path, name: seq<byte>, idx: nat, x: seq<byte>)
    returns (ks: seq<Token>)
    requires Denotes(b, toks, t) && Locates(b, toks, t, r, p)
    ensures Sound(b) && Inside(b)
    ensures var e := SetPartial(b, At(toks, r), name, idx, x);
      var n := Sub(t, p);
      var i := PropIndex(n.props, name);
      if i == |n.props| then e == Edited(-NOTFOUND, b)
      else if |n.props[i].val| < idx + |x| then
        e == Edited(if |n.props[i].val| < (idx + |x|) % WORD then -NOSPACE else WILD, b)
      else
        && e.err == 0 && Patched(b, toks, t, e.blob, ks, Graft(t, p, WithBytes(n, i, idx, x)))
        && OnlyValue(b, e.blob, GetProp(Struct(b), Strings(b), At(toks, r), name), idx, x)
  {
    hide Ser, Before, After, Strings, Struct, At, Holds, NextTag, U32, GetProp, PropLen, Rest, Flat,
      BE32, Items, Strip, Len, Reads, BytesOf, NulFrom, PropIndex, Lead, Put, Align4, Graft, Alike;
    ks := toks;
    DenotesParts(b, toks, t);
    BlockSlices(b);
    var s, st := Struct(b), Strings(b);
    var n, z := Sub(t, p), After(t, p);
    var i := PropIndex(n.props, name);
    if i == |n.props| {
      var q := FindInNode(b, toks, t, r, p, name);
    } else {
      var q, lead := FoundProp(b, toks, t, r, p, name);
      PropValueAt(s, toks, q);
      if idx + |x| <= |n.props[i].val| {
        var b' := SetPartial(b, At(toks, r), name, idx, x).blob;
        var pos := At(toks, q);
        StoreBlocks(b, pos + 12 + idx, x);
        PatchBlock(s, toks, q, idx, x);
        var j := q[0].(val := Put(q[0].val, idx, x));
        var v := n.props[i].(val := Put(n.props[i].val, idx, x));
        PropShape(n, i, v, z);
        SingleItem(j, st);
        assert st == st + [];
        var r';
        ks, r' := Conclude(b, toks, t, r, p, q, [j], q[1..], lead, WithBytes(n, i, idx, x), b', []);
        OneTokenForms(toks, q, j);
        OneValueAlike(n, i, v.val);
        GraftAlike(t, p, WithBytes(n, i, idx, x));
      }
    }
  }

  /** fdt_setprop_inplace: what fdt_setprop would do, if the length is the same. */
  lemma SetInPlaceTheorem(b: Blob, toks: seq<Token>, t: Tree, r: seq<Token>, p: Path, name: seq<byte>, val: seq<byte>)
    returns (ks: seq<Token>)
    requires Denotes(b, toks, t) && Locates(b, toks, t, r, p)
    ensures Sound(b) && Inside(b)
    ensures var e := SetInPlace(b, At(toks, r), name, val);
      var n := Sub(t, p);
      var i := PropIndex(n.props, name);
      if i == |n.props| then e == Edited(-NOTFOUND, b)
      else if |n.props[i].val| != |val| then e == Edited(-NOSPACE, b)
      else e.err == 0 && Patched(b, toks, t, e.blob, ks, Graft(t, p, WithProp(n, name, val)))
  {
    hide Ser, Before, After, Strings, Struct, At, Holds, NextTag, U32, GetProp, PropLen, Rest,
      Items, Strip, Reads, Lead, Graft, Alike, SetPartial;
    ks := SetPartialTheorem(b, toks, t, r, p, name, 0, val);
    DenotesParts(b, toks, t);
    BlockSlices(b);
    var n := Sub(t, p);
    var i := PropIndex(n.props, name);
    if i < |n.props| {
      var q, lead := FoundProp(b, toks, t, r, p, name);
      PropValueAt(Struct(b), toks, q);
      if |n.props[i].val| == |val| {
        assert Put(n.props[i].val, 0, val) == val;
        assert WithBytes(n, i, 0, val) == WithProp(n, name, val);
      }
    } else {
      var q := FindInNode(b, toks, t, r, p, name);
    }
  }
}
