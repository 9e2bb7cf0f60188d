/** The in-place editors of fdt_rw.c and fdt_wip.c as functions on a whole blob:
    the buffer with its header fields. */
module FdtEdit {
  import opened Bytes
  import opened FdtFormat
  import opened FdtTree
  import opened FdtRead

  const MAGIC: nat := 0xd00dfeed
  const SW_MAGIC: nat := 0x2ff20112
  const INT_MAX: nat := 0x7fff_ffff
  const HEADER: nat := 40
  const RSV_ENTRY: nat := 16

  datatype Blob = Blob(
    buf: seq<byte>, magic: nat, total: nat,
    offRsv: nat, offStruct: nat, sizeStruct: nat, offStrings: nat, sizeStrings: nat)

  /** What a caller must provide: a buffer as long as the header says, and a structure
      block made of whole words that no writer is still at work on. */
  predicate Sound(b: Blob) {
    b.total <= |b.buf| && b.sizeStruct % 4 == 0 && (b.magic == SW_MAGIC ==> b.sizeStruct == 0)
  }

  /** The part of a block that lies inside the blob. */
  function Clip(buf: seq<byte>, total: nat, off: nat, size: nat): seq<byte>
    requires total <= |buf|
  {
    if off > total then [] else if off + size <= total then buf[off..off + size] else buf[off..total]
  }

  function Struct(b: Blob): seq<byte>
    requires b.total <= |b.buf|
  {
    Clip(b.buf, b.total, b.offStruct, b.sizeStruct)
  }

  function Strings(b: Blob): seq<byte>
    requires b.total <= |b.buf|
  {
    Clip(b.buf, b.total, b.offStrings, b.sizeStrings)
  }

  function DataEnd(b: Blob): nat {
    b.offStrings + b.sizeStrings
  }

  predicate Misordered(b: Blob, rsvSize: nat, structSize: nat) {
    || b.offRsv < HEADER
    || b.offStruct < b.offRsv + rsvSize
    || b.offStrings < b.offStruct + structSize
    || b.total < DataEnd(b)
  }

  function RoProbe(b: Blob): int {
    if b.magic == SW_MAGIC && b.sizeStruct == 0 then -BADSTATE
    else if b.magic != MAGIC && b.magic != SW_MAGIC then -BADMAGIC
    else if b.total < INT_MAX then b.total else -TRUNCATED
  }

  /** The blocks of a finished tree follow each other inside the blob. */
  predicate Ordered(b: Blob) {
    !Misordered(b, RSV_ENTRY, b.sizeStruct) && b.total < INT_MAX && b.magic == MAGIC
  }

  function RwProbe(b: Blob): (r: int)
    ensures r == 0 && Sound(b) ==> Ordered(b)
  {
    if RoProbe(b) < 0 then RoProbe(b)
    else if Misordered(b, RSV_ENTRY, b.sizeStruct) then -BADLAYOUT
    else 0
  }

  /** Result of an editor: 0 or a negated error, and the blob afterwards. */
  datatype Edited = Edited(err: int, blob: Blob)

  // ---------------------------------------------------------------- splicing

  function SpliceError(b: Blob, p: nat, oldlen: nat, newlen: nat): int {
    if p + oldlen > DataEnd(b) then -BADOFFSET
    else if DataEnd(b) - oldlen + newlen > b.total then -NOSPACE
    else 0
  }

  function SpliceStruct(b: Blob, q: nat, oldlen: nat, newlen: nat): (r: Edited)
    requires Sound(b) && Ordered(b) && q + oldlen <= b.sizeStruct && oldlen % 4 == 0 && newlen % 4 == 0
    ensures Sound(r.blob) && Ordered(r.blob)
  {
    var p := b.offStruct + q;
    if SpliceError(b, p, oldlen, newlen) != 0 then Edited(SpliceError(b, p, oldlen, newlen), b)
    else Edited(0, b.(
      buf := Moved(b.buf, p + newlen, p + oldlen, DataEnd(b) - p - oldlen),
      sizeStruct := b.sizeStruct - oldlen + newlen,
      offStrings := b.offStrings - oldlen + newlen))
  }

  /** Bytes stored at offset `q` of the structure block. */
  function Store(b: Blob, q: nat, x: seq<byte>): (r: Blob)
    requires Sound(b) && Ordered(b) && q + |x| <= b.sizeStruct
    ensures Sound(r) && Ordered(r) && r.sizeStruct == b.sizeStruct
  {
    b.(buf := Put(b.buf, b.offStruct + q, x))
  }

  // ---------------------------------------------------------------- strings

  /** Where fdt_find_string_ finds `name` and its NUL in the table, from `i` on. */
  function FindString(t: seq<byte>, i: nat, name: seq<byte>): (r: int)
    ensures r >= 0 ==> i <= r && r + |name| + 1 <= |t| && t[r..r + |name| + 1] == name + [0]
    decreases |t| - i
  {
    if i + |name| + 1 > |t| then -1
    else if t[i..i + |name| + 1] == name + [0] then i
    else FindString(t, i + 1, name)
  }

  datatype Added = Added(off: int, grew: bool, blob: Blob)

  function FindAddString(b: Blob, name: seq<byte>): (r: Added)
    requires Sound(b) && Ordered(b)
    ensures Sound(r.blob) && Ordered(r.blob)
    ensures r.blob == b.(buf := r.blob.buf, sizeStrings := r.blob.sizeStrings)
    ensures r.off < 0 ==> r.off == -NOSPACE && r.blob == b
    ensures r.off <= b.sizeStrings
    ensures r.grew ==> r.blob.sizeStrings == b.sizeStrings + |name| + 1
    ensures !r.grew ==> r.blob == b
  {
    var i := FindString(Strings(b), 0, name);
    if i >= 0 then Added(i, false, b)
    else if SpliceError(b, DataEnd(b), 0, |name| + 1) != 0 then Added(SpliceError(b, DataEnd(b), 0, |name| + 1), false, b)
    else Added(b.sizeStrings, true, b.(
      buf := Put(b.buf, DataEnd(b), name + [0]),
      sizeStrings := b.sizeStrings + |name| + 1))
  }

  // ---------------------------------------------------------------- properties

  /** Result of the property makers: 0 or an error, where the property is, the blob. */
  datatype Made = Made(err: int, prop: nat, blob: Blob)

  predicate MadeOk(r: Made, len: nat) {
    && Sound(r.blob) && Ordered(r.blob)
    && (r.err == 0 ==> r.prop + 12 + Align4(len) <= r.blob.sizeStruct)
  }

  lemma AlignFits(p: nat, len: nat, n: nat)
    requires p % 4 == 0 && n % 4 == 0 && p + len <= n
    ensures p + Align4(len) <= n
  {
  }

  lemma PropFits(s: seq<byte>, p: nat)
    requires NextTag(s, p).tag == PROP && p % 4 == 0 && |s| % 4 == 0
    ensures p + 12 <= |s| && p + 12 + U32(s, p + 4) <= |s| && p + 12 + Align4(U32(s, p + 4)) <= |s|
  {
    hide U32, NextTag, Align4;
    NextTagFacts(s, p);
    AlignFits(p + 12, U32(s, p + 4), |s|);
  }

  /** Length of the value of the property at `p`, whose padded extent is in the block. */
  function PropLen(s: seq<byte>, p: nat): (len: nat)
    requires NextTag(s, p).tag == PROP && p % 4 == 0 && |s| % 4 == 0
    ensures len < WORD && p + 12 + Align4(len) <= |s| && p + 12 + len <= |s|
  {
    PropFits(s, p);
    U32(s, p + 4)
  }

  /** Room for a value of `newlen` bytes in the property at `p`. */
  function SpliceValue(b: Blob, p: nat, newlen: nat): (e: Edited)
    requires Sound(b) && Ordered(b) && NextTag(Struct(b), p).tag == PROP && p % 4 == 0
    ensures Sound(e.blob) && Ordered(e.blob)
    ensures e.err == 0 ==> p + 12 + Align4(newlen) <= e.blob.sizeStruct
  {
    hide U32, NextTag, Align4;
    SpliceStruct(b, p + 12, Align4(PropLen(Struct(b), p)), Align4(newlen))
  }

  function ResizeProperty(b: Blob, node: int, name: seq<byte>, len: nat): (r: Made)
    requires Sound(b) && Ordered(b) && len < WORD
    ensures MadeOk(r, len)
  {
    hide U32, NextTag, Align4, GetProp, NulFrom;
    var s := Struct(b);
    var p := GetProp(s, Strings(b), node, name);
    if p < 0 then Made(p, 0, b)
    else
      var e := SpliceValue(b, p, len);
      if e.err != 0 then Made(e.err, 0, e.blob)
      else Made(0, p, Store(e.blob, p + 4, BE32(len)))
  }

  function AddProperty(b: Blob, node: int, name: seq<byte>, len: nat): (r: Made)
    requires Sound(b) && Ordered(b) && len < WORD
    ensures MadeOk(r, len)
  {
    hide U32, NextTag, Align4, GetProp, NulFrom;
    var s := Struct(b);
    NextTagFacts(s, node);
    var next := CheckNodeOffset(s, node);
    if next < 0 then Made(next, 0, b)
    else
      var a := FindAddString(b, name);
      if a.off < 0 then Made(a.off, 0, a.blob)
      else
        var e := SpliceStruct(a.blob, next, 0, 12 + Align4(len));
        if e.err != 0 then
          Made(e.err, 0, if a.grew then e.blob.(sizeStrings := e.blob.sizeStrings - (|name| + 1)) else e.blob)
        else
          var b1 := Store(e.blob, next, BE32(PROP));
          var b2 := Store(b1, next + 8, BE32(a.off));
          Made(0, next, Store(b2, next + 4, BE32(len)))
  }

  function SetPropPlaceholder(b: Blob, node: int, name: seq<byte>, len: nat): (r: Made)
    requires Sound(b) && len < WORD
    ensures Sound(r.blob) && (r.err == 0 ==> MadeOk(r, len))
  {
    hide U32, NextTag, Align4, GetProp, NulFrom;
    if RwProbe(b) != 0 then Made(RwProbe(b), 0, b)
    else
      var r := ResizeProperty(b, node, name, len);
      if r.err == -NOTFOUND then AddProperty(b, node, name, len) else r
  }

  function SetProp(b: Blob, node: int, name: seq<byte>, val: seq<byte>): (r: Edited)
    requires Sound(b) && |val| < WORD
    ensures Sound(r.blob)
  {
    hide U32, NextTag, Align4, GetProp, NulFrom;
    var r := SetPropPlaceholder(b, node, name, |val|);
    if r.err != 0 then Edited(r.err, r.blob) else Edited(0, Store(r.blob, r.prop + 12, val))
  }

  function AppendProp(b: Blob, node: int, name: seq<byte>, val: seq<byte>): (r: Edited)
    requires Sound(b) && |val| + b.total < WORD
    ensures Sound(r.blob)
  {
    hide U32, NextTag, Align4, GetProp, NulFrom;
    if RwProbe(b) != 0 then Edited(RwProbe(b), b)
    else
      var s := Struct(b);
      var p := GetProp(s, Strings(b), node, name);
      if p >= 0 then
        var oldlen := PropLen(s, p);
        var newlen := |val| + oldlen;
        var e := SpliceValue(b, p, newlen);
        if e.err != 0 then e
        else Edited(0, Store(Store(e.blob, p + 4, BE32(newlen)), p + 12 + oldlen, val))
      else
        var r := AddProperty(b, node, name, |val|);
        if r.err != 0 then Edited(r.err, r.blob) else Edited(0, Store(r.blob, r.prop + 12, val))
  }

  function DelProp(b: Blob, node: int, name: seq<byte>): (r: Edited)
    requires Sound(b)
    ensures Sound(r.blob)
  {
    hide U32, NextTag, Align4, GetProp, NulFrom;
    if RwProbe(b) != 0 then Edited(RwProbe(b), b)
    else
      var s := Struct(b);
      var p := GetProp(s, Strings(b), node, name);
      if p < 0 then Edited(p, b)
      else
        SpliceStruct(b, p, 12 + Align4(PropLen(s, p)), 0)
  }

  // ---------------------------------------------------------------- nodes

  /** The loop of fdt_add_subnode_namelen that skips the parent's properties. */
  function SkipPropsFrom(s: seq<byte>, pos: int): (r: int)
    ensures r >= pos
    decreases |s| - pos
  {
    var t := NextTag(s, pos);
    if t.tag == PROP || t.tag == NOP then SkipPropsFrom(s, t.next) else pos
  }

  lemma SkipPropsWalk(s: seq<byte>, pos: nat)
    ensures var r := SkipPropsFrom(s, pos);
      && r >= 0
      && (NextTag(s, r).next >= 0 || NextNodeFrom(s, pos, 0).offset in {-TRUNCATED, -BADSTRUCTURE})
    decreases |s| - pos
  {
    hide U32, NulFrom, NextTag;
    NextTagFacts(s, pos);
    var t := NextTag(s, pos);
    if t.tag == PROP || t.tag == NOP {
      SkipPropsWalk(s, t.next);
    }
  }

  /** Once the children have been walked to the end, skipping the properties stays
      inside the block. */
  lemma SkipPropsSafe(s: seq<byte>, parent: int, name: seq<byte>)
    requires parent >= 0 && SubnodeOffset(s, parent, name) == -NOTFOUND
    ensures var r := SkipPropsFrom(s, NextTag(s, parent).next); 0 <= r && r + 4 <= |s|
  {
    hide U32, NulFrom, NextTag, NodeName, NameEq;
    NextTagFacts(s, parent);
    var first := NextNode(s, parent, 0);
    assert SubnodeOffset(s, parent, name) == SubnodeLoop(s, first, name);
    assert CheckNodeOffset(s, parent) >= 0;
    var pos := NextTag(s, parent).next;
    SkipPropsWalk(s, pos);
    NextTagFacts(s, SkipPropsFrom(s, pos));
  }

  function Zeros(n: nat): (z: seq<byte>)
    ensures |z| == n
  {
    if n == 0 then [] else [0] + Zeros(n - 1)
  }

  /** The empty node put in at `pos`: its offset or an error, and the blob. */
  function InsertNode(b: Blob, pos: nat, name: seq<byte>): (r: Edited)
    requires Sound(b) && Ordered(b) && pos <= b.sizeStruct
    ensures Sound(r.blob) && Ordered(r.blob)
  {
    hide Align4, Zeros, BE32;
    var nameLen := Align4(|name| + 1);
    var e := SpliceStruct(b, pos, 0, 8 + nameLen);
    if e.err != 0 then e
    else
      var b1 := Store(e.blob, pos, BE32(BEGIN_NODE));
      var b2 := Store(b1, pos + 4, Zeros(nameLen));
      var b3 := Store(b2, pos + 4, name);
      Edited(pos, Store(b3, pos + 4 + nameLen, BE32(END_NODE)))
  }

  function AddSubnode(b: Blob, parent: int, name: seq<byte>): (r: Edited)
    requires Sound(b) && parent >= 0
    ensures Sound(r.blob)
  {
    hide U32, NextTag, Align4, GetProp, NulFrom;
    if RwProbe(b) != 0 then Edited(RwProbe(b), b)
    else
      var s := Struct(b);
      var found := SubnodeOffset(s, parent, name);
      if found >= 0 then Edited(-EXISTS, b)
      else if found != -NOTFOUND then Edited(found, b)
      else
        SkipPropsSafe(s, parent, name);
        var pos := SkipPropsFrom(s, NextTag(s, parent).next);
        InsertNode(b, pos, name)
  }

  function DelNode(b: Blob, node: int): (r: Edited)
    requires Sound(b)
    ensures Sound(r.blob)
  {
    hide NodeEndOffset, RoProbe;
    if RwProbe(b) != 0 then Edited(RwProbe(b), b)
    else
      EndInBlock(Struct(b), node);
      var end := NodeEndOffset(Struct(b), node);
      if end < 0 then Edited(end, b)
      else SpliceStruct(b, node, end - node, 0)
  }

  // ---------------------------------------------------------------- nop-out editing

  /** The structure block lies inside the blob. */
  predicate Inside(b: Blob) {
    b.offStruct + b.sizeStruct <= b.total
  }

  /** The loop of fdt_nop_region_: whole no-op words from `at` until `len` bytes are covered. */
  function NopRegion(buf: seq<byte>, at: nat, len: int): (r: seq<byte>)
    requires len > 0 ==> at + Align4(len) <= |buf|
    ensures |r| == |buf|
    decreases if len > 0 then len else 0
  {
    if len <= 0 then buf else NopRegion(Put(buf, at, BE32(NOP)), at + 4, len - 4)
  }

  lemma AlignWhole(n: nat)
    ensures n % 4 == 0 ==> Align4(n) == n
  {
  }

  function NopProp(b: Blob, node: int, name: seq<byte>): (r: Edited)
    requires Sound(b) && Inside(b)
    ensures Sound(r.blob)
  {
    hide U32, NextTag, Align4, GetProp, NulFrom, BE32;
    var s := Struct(b);
    var p := GetProp(s, Strings(b), node, name);
    if p < 0 then Edited(p, b)
    else
      AlignShift(12, PropLen(s, p));
      Edited(0, b.(buf := NopRegion(b.buf, b.offStruct + p, 12 + PropLen(s, p))))
  }

  lemma EndInBlock(s: seq<byte>, node: int)
    requires |s| % 4 == 0
    ensures var end := NodeEndOffset(s, node);
      end >= 0 ==> 0 <= node < end <= |s| && (end - node) % 4 == 0
  {
    hide NextTag, NextNode;
    if node >= 0 {
      var end := EndLoop(s, Place(node, 0));
    }
  }

  function NopNode(b: Blob, node: int): (r: Edited)
    requires Sound(b) && Inside(b)
    ensures Sound(r.blob)
  {
    hide Align4, NodeEndOffset, BE32;
    var end := NodeEndOffset(Struct(b), node);
    if end < 0 then Edited(end, b)
    else
      EndInBlock(Struct(b), node);
      AlignWhole(end - node);
      Edited(0, b.(buf := NopRegion(b.buf, b.offStruct + node, end - node)))
  }
}
