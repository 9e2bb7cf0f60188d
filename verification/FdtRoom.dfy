/** Exactly when an editor of fdt_rw.c reports NOSPACE: what a caller can check first. */
module FdtRoom {
  import opened Bytes
  import opened FdtFormat
  import opened FdtTree
  import opened FdtRead
  import opened FdtEdit
  import opened FdtEditBlocks
  import opened FdtEditTheorems
  import opened FdtEditResults

  /** The unused bytes of the blob. */
  function Free(b: Blob): int {
    b.total - DataEnd(b)
  }

  /** The bytes that a name adds to the strings block. */
  function NameRoom(b: Blob, name: seq<byte>): nat
    requires Sound(b)
  {
    if FindString(Strings(b), 0, name) >= 0 then 0 else |name| + 1
  }

  /** The bytes that a property with this value takes more than one with the old value. */
  function ValueRoom(was: nat, now: nat): int {
    Align4(now) - Align4(was)
  }

  /** The bytes that a new property takes. */
  function PropRoom(b: Blob, name: seq<byte>, len: nat): nat
    requires Sound(b)
  {
    NameRoom(b, name) + 12 + Align4(len)
  }

  lemma SpliceRoom(b: Blob, q: nat, oldlen: nat, newlen: nat)
    requires Sound(b) && Ordered(b) && q + oldlen <= b.sizeStruct && oldlen % 4 == 0 && newlen % 4 == 0
    ensures SpliceStruct(b, q, oldlen, newlen).err == 0 <==> newlen - oldlen <= Free(b)
  {
    hide Moved;
  }

  lemma ValueSpliceRoom(b: Blob, pos: nat, len: nat)
    requires Sound(b) && Ordered(b) && NextTag(Struct(b), pos).tag == PROP && pos % 4 == 0
    ensures |Struct(b)| % 4 == 0
    ensures SpliceValue(b, pos, len).err == 0 <==> ValueRoom(PropLen(Struct(b), pos), len) <= Free(b)
  {
    hide NextTag, U32, Align4, SpliceStruct, PropLen, Struct;
    BlockSlices(b);
    SpliceRoom(b, pos + 12, Align4(PropLen(Struct(b), pos)), Align4(len));
  }

  lemma StringRoom(b: Blob, name: seq<byte>)
    requires Sound(b) && Ordered(b)
    ensures var a := FindAddString(b, name);
      && (a.off >= 0 <==> NameRoom(b, name) <= Free(b) || NameRoom(b, name) == 0)
      && (a.off >= 0 ==> Free(a.blob) == Free(b) - NameRoom(b, name))
  {
    hide FindString, Put;
  }

  lemma AddPropertyRoom(b: Blob, node: int, name: seq<byte>, len: nat)
    requires Sound(b) && Ordered(b) && len < WORD && CheckNodeOffset(Struct(b), node) >= 0
    ensures AddProperty(b, node, name, len).err == 0 <==> PropRoom(b, name, len) <= Free(b)
  {
    hide U32, NextTag, Align4, FindAddString, NameRoom, Struct, BE32, Put, SpliceStruct, FindString;
    NextTagFacts(Struct(b), node);
    BlockSlices(b);
    StringRoom(b, name);
    var a := FindAddString(b, name);
    if a.off >= 0 {
      SpliceRoom(a.blob, CheckNodeOffset(Struct(b), node), 0, 12 + Align4(len));
    }
  }

  /** The bytes that fdt_setprop needs: more value, or a property and perhaps its name. */
  function SetRoom(b: Blob, n: Tree, name: seq<byte>, len: nat): int
    requires Sound(b)
  {
    var i := PropIndex(n.props, name);
    if i < |n.props| then ValueRoom(|n.props[i].val|, len) else PropRoom(b, name, len)
  }

  /** fdt_setprop succeeds if and only if the bytes that it needs are free. */
  lemma SetPropRoom(b: Blob, toks: seq<Token>, t: Tree, r: seq<Token>, p: Path, name: seq<byte>, val: seq<byte>)
    requires Denotes(b, toks, t) && Locates(b, toks, t, r, p) && |val| < WORD && 0 !in name
    ensures Sound(b) && Suffix(r, toks) && Has(t, p)
    ensures SetProp(b, At(toks, r), name, val).err == 0 <==> SetRoom(b, Sub(t, p), name, |val|) <= Free(b)
  {
    hide Ser, Before, After, Strings, Struct, At, Holds, NextTag, U32, GetProp, PropLen, SpliceValue, Align4, Store, BE32,
      Items, Strip, Reads, AddProperty, RwProbe, PropRoom, Free;
    FoundOrAdded(b, toks, t, r, p, name, |val|, |val|);
    var pos := GetProp(Struct(b), Strings(b), At(toks, r), name);
    if pos >= 0 {
      SpliceValueFails(b, pos, |val|);
    }
  }

  /** fdt_appendprop succeeds if and only if the bytes that it needs are free. */
  lemma AppendPropRoom(b: Blob, toks: seq<Token>, t: Tree, r: seq<Token>, p: Path, name: seq<byte>, val: seq<byte>)
    requires Denotes(b, toks, t) && Locates(b, toks, t, r, p) && |val| + b.total < WORD && 0 !in name
    ensures Sound(b) && Suffix(r, toks) && Has(t, p)
    ensures var n := Sub(t, p);
      var i := PropIndex(n.props, name);
      AppendProp(b, At(toks, r), name, val).err == 0 <==>
        SetRoom(b, n, name, if i < |n.props| then |n.props[i].val| + |val| else |val|) <= Free(b)
  {
    hide Ser, Before, After, Strings, Struct, At, Holds, NextTag, U32, GetProp, PropLen, SpliceValue, Align4, Store, BE32,
      Items, Strip, Reads, AddProperty, RwProbe, PropRoom, Free;
    var n := Sub(t, p);
    var i := PropIndex(n.props, name);
    FoundOrAdded(b, toks, t, r, p, name, if i < |n.props| then |n.props[i].val| + |val| else |val|, |val|);
  }

  /** What the property makers meet at a located node. */
  lemma FoundOrAdded(b: Blob, toks: seq<Token>, t: Tree, r: seq<Token>, p: Path, name: seq<byte>, newlen: nat, len: nat)
    requires Denotes(b, toks, t) && Locates(b, toks, t, r, p) && 0 !in name && len < WORD
    ensures Sound(b) && Ordered(b) && RwProbe(b) == 0 && Suffix(r, toks) && Has(t, p)
    ensures var n := Sub(t, p);
      var i := PropIndex(n.props, name);
      var pos := GetProp(Struct(b), Strings(b), At(toks, r), name);
      if i < |n.props| then
        && pos >= 0 && NextTag(Struct(b), pos).tag == PROP && pos % 4 == 0 && |Struct(b)| % 4 == 0
        && PropLen(Struct(b), pos) == |n.props[i].val|
        && (SpliceValue(b, pos, newlen).err == 0 <==> ValueRoom(|n.props[i].val|, newlen) <= Free(b))
      else
        pos == -NOTFOUND && (AddProperty(b, At(toks, r), name, len).err == 0 <==> PropRoom(b, name, len) <= Free(b))
  {
    hide Ser, Before, After, Strings, Struct, At, Holds, NextTag, U32, GetProp, PropLen, SpliceValue, Align4, BE32,
      Items, Strip, Reads, AddProperty, RwProbe, PropRoom, Free, Rest, ValueRoom;
    DenotesParts(b, toks, t);
    Located(b, toks, t, r, p);
    StepAt(Struct(b), toks, r);
    BlockSlices(b);
    var n := Sub(t, p);
    if PropIndex(n.props, name) < |n.props| {
      var q, lead := FoundProp(b, toks, t, r, p, name);
      PropValueAt(Struct(b), toks, q);
      ValueSpliceRoom(b, At(toks, q), newlen);
    } else {
      var q := FindInNode(b, toks, t, r, p, name);
      AddPropertyRoom(b, At(toks, r), name, len);
    }
  }

  lemma InsertRoom(b: Blob, pos: nat, name: seq<byte>)
    requires Sound(b) && Ordered(b) && pos <= b.sizeStruct
    ensures InsertNode(b, pos, name).err >= 0 <==> 8 + Align4(|name| + 1) <= Free(b)
  {
    hide Align4, Zeros, BE32, SpliceStruct;
    SpliceRoom(b, pos, 0, 8 + Align4(|name| + 1));
    SpliceFails(b, pos, 0, 8 + Align4(|name| + 1));
  }

  /** fdt_add_subnode of a new name succeeds if and only if the bytes that it needs are free. */
  lemma AddSubnodeRoom(b: Blob, toks: seq<Token>, t: Tree, r: seq<Token>, p: Path, name: seq<byte>)
    requires Denotes(b, toks, t) && Locates(b, toks, t, r, p) && 0 !in name
    requires KidIndex(Sub(t, p).kids, name) == |Sub(t, p).kids|
    ensures Sound(b) && Suffix(r, toks)
    ensures AddSubnode(b, At(toks, r), name).err >= 0 <==> 8 + Align4(|name| + 1) <= Free(b)
  {
    hide Ser, Before, After, Strings, Struct, At, Holds, NextTag, U32, SubnodeOffset, SkipPropsFrom, Items, Strip, Reads, InsertNode, Align4, RwProbe;
    DenotesParts(b, toks, t);
    LocatedSuffix(b, toks, t, r, p);
    var f := FindKid(b, toks, t, r, p, name);
    var s := Struct(b);
    SkipPropsSafe(s, At(toks, r), name);
    BlockSlices(b);
    InsertRoom(b, SkipPropsFrom(s, NextTag(s, At(toks, r)).next), name);
  }

  lemma LocatedSuffix(b: Blob, toks: seq<Token>, t: Tree, r: seq<Token>, p: Path)
    requires Denotes(b, toks, t) && Locates(b, toks, t, r, p)
    ensures Sound(b) && Suffix(r, toks) && Has(t, p)
  {
  }
}
