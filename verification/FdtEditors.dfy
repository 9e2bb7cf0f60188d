/** The editors of fdt_rw.c and fdt_wip.c: they splice the buffer in place and keep the
    header fields up to date. */
module FdtEditors {
  import opened Bytes
  import opened FdtFormat
  import opened FdtTree
  import opened FdtRead
  import opened FdtEdit
  import opened FdtEditBlocks
  import opened FdtBuffer
  import opened FdtWalkers
  import opened FdtReaders

  /** fdt_rw_probe_. */
  method ProbeRw(f: Fdt) returns (r: int)
    ensures r == RwProbe(f.State())
  {
    r := ProbeRo(f);
    if r < 0 {
      return;
    }
    if f.offRsv < HEADER || f.offStruct < f.offRsv + RSV_ENTRY
      || f.offStrings < f.offStruct + f.sizeStruct || f.total < f.offStrings + f.sizeStrings {
      return -BADLAYOUT;
    }
    return 0;
  }

  /** fdt_splice_: the tail of the data moves, unless it would not fit. */
  method Splice(f: Fdt, p: nat, oldlen: nat, newlen: nat) returns (err: int)
    requires Sound(f.State()) && Ordered(f.State())
    modifies f.buf
    ensures err == SpliceError(old(f.State()), p, oldlen, newlen)
    ensures f.State() ==
      if err != 0 then old(f.State())
      else old(f.State()).(buf := Moved(old(f.buf[..]), p + newlen, p + oldlen, DataEnd(old(f.State())) - p - oldlen))
  {
    hide Moved;
    var end := f.offStrings + f.sizeStrings;
    if p + oldlen > end {
      return -BADOFFSET;
    }
    if end - oldlen + newlen > f.total {
      return -NOSPACE;
    }
    Memmove(f.buf, p + newlen, p + oldlen, end - p - oldlen);
    return 0;
  }

  /** fdt_splice_struct_. */
  method SpliceBlock(f: Fdt, q: nat, oldlen: nat, newlen: nat) returns (err: int)
    requires Sound(f.State()) && Ordered(f.State())
    requires q + oldlen <= f.sizeStruct && oldlen % 4 == 0 && newlen % 4 == 0
    modifies f, f.buf
    ensures Edited(err, f.State()) == SpliceStruct(old(f.State()), q, oldlen, newlen)
  {
    hide Moved;
    err := Splice(f, f.offStruct + q, oldlen, newlen);
    if err != 0 {
      return;
    }
    f.sizeStruct := f.sizeStruct - oldlen + newlen;
    f.offStrings := f.offStrings - oldlen + newlen;
  }

  /** Bytes stored at offset `q` of the structure block. */
  method StoreBytes(f: Fdt, q: nat, x: seq<byte>)
    requires Sound(f.State()) && Ordered(f.State()) && q + |x| <= f.sizeStruct
    modifies f.buf
    ensures f.State() == Store(old(f.State()), q, x)
  {
    hide Put;
    Memcpy(f.buf, f.offStruct + q, x);
  }

  // ---------------------------------------------------------------- strings

  /** fdt_find_string_ over the `size` bytes at `tab`. */
  method SearchString(a: array<byte>, tab: nat, size: nat, name: seq<byte>) returns (r: int)
    requires tab + size <= a.Length
    ensures r == FindString(a[tab..tab + size], 0, name)
  {
    hide FindString;
    ghost var t := a[tab..tab + size];
    r := 0;
    while r + |name| + 1 <= size
      invariant r >= 0 && FindString(t, 0, name) == FindString(t, r, name)
      decreases size - r
    {
      assert a[tab + r..tab + r + |name| + 1] == t[r..r + |name| + 1];
      FindStringStep(t, r, name);
      if a[tab + r..tab + r + |name| + 1] == name + [0] {
        return;
      }
      r := r + 1;
    }
    FindStringStep(t, r, name);
    r := -1;
  }

  lemma FindStringStep(t: seq<byte>, i: nat, name: seq<byte>)
    ensures FindString(t, i, name) ==
      if i + |name| + 1 > |t| then -1
      else if t[i..i + |name| + 1] == name + [0] then i else FindString(t, i + 1, name)
  {
  }

  /** fdt_find_add_string_. */
  method AddString(f: Fdt, name: seq<byte>) returns (off: int, grew: bool)
    requires Sound(f.State()) && Ordered(f.State())
    modifies f, f.buf
    ensures Added(off, grew, f.State()) == FindAddString(old(f.State()), name)
  {
    hide FindString, Moved, Put;
    off := SearchString(f.buf, f.offStrings, f.sizeStrings, name);
    if off >= 0 {
      return off, false;
    }
    var end := f.offStrings + f.sizeStrings;
    var err := Splice(f, end, 0, |name| + 1);
    if err != 0 {
      return err, false;
    }
    NothingMoved(old(f.buf[..]), end, |name| + 1);
    Memcpy(f.buf, end, name + [0]);
    off := f.sizeStrings;
    f.sizeStrings := f.sizeStrings + |name| + 1;
    grew := true;
  }

  lemma NothingMoved(buf: seq<byte>, end: nat, n: nat)
    requires end + n <= |buf|
    ensures Moved(buf, end + n, end, 0) == buf
  {
  }

  // ---------------------------------------------------------------- properties

  /** fdt_resize_property_. */
  method Resize(f: Fdt, node: int, name: seq<byte>, len: nat) returns (err: int, prop: nat)
    requires Sound(f.State()) && Ordered(f.State()) && len < WORD
    modifies f, f.buf
    ensures Made(err, prop, f.State()) == ResizeProperty(old(f.State()), node, name, len)
  {
    hide U32, NextTag, Align4, GetProp, Clip, Moved, BE32, Put;
    ghost var b := f.State();
    prop := 0;
    err := FindProperty(f, node, name);
    if err < 0 {
      return;
    }
    var p := err;
    BlockSlices(b);
    PropFits(Struct(b), p);
    var oldlen := f.Load(p + 4);
    err := SpliceBlock(f, p + 12, Align4(oldlen), Align4(len));
    if err != 0 {
      return;
    }
    StoreBytes(f, p + 4, BE32(len));
    prop := p;
  }

  /** fdt_add_property_. */
  method Add(f: Fdt, node: int, name: seq<byte>, len: nat) returns (err: int, prop: nat)
    requires Sound(f.State()) && Ordered(f.State()) && len < WORD
    modifies f, f.buf
    ensures Made(err, prop, f.State()) == AddProperty(old(f.State()), node, name, len)
  {
    hide U32, NextTag, Align4, FindAddString, Clip, BE32, Put, Moved;
    ghost var b := f.State();
    prop := 0;
    BlockSlices(b);
    NextTagFacts(Struct(b), node);
    var next := CheckNode(f, node);
    if next < 0 {
      return next, 0;
    }
    var off, grew := AddString(f, name);
    if off < 0 {
      return off, 0;
    }
    err := SpliceBlock(f, next, 0, 12 + Align4(len));
    if err != 0 {
      if grew {
        f.sizeStrings := f.sizeStrings - (|name| + 1);
      }
      return;
    }
    StoreBytes(f, next, BE32(PROP));
    StoreBytes(f, next + 8, BE32(off));
    StoreBytes(f, next + 4, BE32(len));
    prop := next;
  }

  /** fdt_setprop_placeholder. */
  method PlaceProperty(f: Fdt, node: int, name: seq<byte>, len: nat) returns (err: int, prop: nat)
    requires Sound(f.State()) && len < WORD
    modifies f, f.buf
    ensures Made(err, prop, f.State()) == SetPropPlaceholder(old(f.State()), node, name, len)
  {
    hide AddProperty, ResizeProperty, Clip;
    prop := 0;
    err := ProbeRw(f);
    if err != 0 {
      return;
    }
    err, prop := Resize(f, node, name, len);
    if err == -NOTFOUND {
      ResizeFails(old(f.State()), node, name, len);
      err, prop := Add(f, node, name, len);
    }
  }

  /** fdt_setprop. */
  method SetProperty(f: Fdt, node: int, name: seq<byte>, val: seq<byte>) returns (err: int)
    requires Sound(f.State()) && |val| < WORD
    modifies f, f.buf
    ensures Edited(err, f.State()) == SetProp(old(f.State()), node, name, val)
  {
    hide SetPropPlaceholder;
    var prop;
    err, prop := PlaceProperty(f, node, name, |val|);
    if err != 0 {
      return;
    }
    StoreBytes(f, prop + 12, val);
  }

  /** A value that is not found is not resized either. */
  lemma ResizeFails(b: Blob, node: int, name: seq<byte>, len: nat)
    requires Sound(b) && Ordered(b) && len < WORD
    ensures ResizeProperty(b, node, name, len).err == -NOTFOUND ==> ResizeProperty(b, node, name, len).blob == b
  {
    hide U32, NextTag, Align4, GetProp, Clip;
  }

  /** fdt_appendprop. */
  method AppendProperty(f: Fdt, node: int, name: seq<byte>, val: seq<byte>) returns (err: int)
    requires Sound(f.State()) && |val| + f.total < WORD
    modifies f, f.buf
    ensures Edited(err, f.State()) == AppendProp(old(f.State()), node, name, val)
  {
    hide U32, NextTag, Align4, GetProp, Clip, Moved, BE32, Put, AddProperty;
    ghost var b := f.State();
    err := ProbeRw(f);
    if err != 0 {
      return;
    }
    var p := FindProperty(f, node, name);
    if p >= 0 {
      BlockSlices(b);
      PropFits(Struct(b), p);
      var oldlen := f.Load(p + 4);
      var newlen := |val| + oldlen;
      err := SpliceBlock(f, p + 12, Align4(oldlen), Align4(newlen));
      if err != 0 {
        return;
      }
      StoreBytes(f, p + 4, BE32(newlen));
      StoreBytes(f, p + 12 + oldlen, val);
    } else {
      var prop;
      err, prop := Add(f, node, name, |val|);
      if err != 0 {
        return;
      }
      StoreBytes(f, prop + 12, val);
    }
  }

  /** fdt_delprop. */
  method DeleteProperty(f: Fdt, node: int, name: seq<byte>) returns (err: int)
    requires Sound(f.State())
    modifies f, f.buf
    ensures Edited(err, f.State()) == DelProp(old(f.State()), node, name)
  {
    hide U32, NextTag, Align4, GetProp, Clip, SpliceStruct;
    ghost var b := f.State();
    err := ProbeRw(f);
    if err != 0 {
      return;
    }
    var p := FindProperty(f, node, name);
    if p < 0 {
      return p;
    }
    BlockSlices(b);
    PropFits(Struct(b), p);
    var len := f.Load(p + 4);
    err := SpliceBlock(f, p, 12 + Align4(len), 0);
  }

  // ---------------------------------------------------------------- nodes

  /** fdt_add_subnode_namelen. */
  method InsertSubnode(f: Fdt, parent: int, name: seq<byte>) returns (err: int)
    requires Sound(f.State()) && parent >= 0
    modifies f, f.buf
    ensures Edited(err, f.State()) == AddSubnode(old(f.State()), parent, name)
  {
    hide U32, NextTag, Align4, Clip, SubnodeOffset, Moved, BE32, Put, Zeros;
    ghost var b := f.State();
    ghost var s := Struct(b);
    err := ProbeRw(f);
    if err != 0 {
      return;
    }
    var offset := FindSubnode(f, parent, name);
    if offset >= 0 {
      return -EXISTS;
    } else if offset != -NOTFOUND {
      return offset;
    }
    BlockSlices(b);
    SkipPropsSafe(s, parent, name);
    var tag, next := WalkTag(f, parent);
    offset := next;
    tag, next := WalkTag(f, offset);
    while tag == PROP || tag == NOP
      invariant NextTag(s, offset) == Step(tag, next) && f.State() == b
      invariant SkipPropsFrom(s, offset) == SkipPropsFrom(s, NextTag(s, parent).next)
      decreases |s| + 4 - offset
    {
      NextTagFacts(s, offset);
      offset := next;
      tag, next := WalkTag(f, offset);
    }
    var nameLen := Align4(|name| + 1);
    err := SpliceBlock(f, offset, 0, 8 + nameLen);
    if err != 0 {
      return;
    }
    StoreBytes(f, offset, BE32(BEGIN_NODE));
    StoreBytes(f, offset + 4, Zeros(nameLen));
    StoreBytes(f, offset + 4, name);
    StoreBytes(f, offset + 4 + nameLen, BE32(END_NODE));
    err := offset;
  }

  /** fdt_del_node. */
  method DeleteNode(f: Fdt, node: int) returns (err: int)
    requires Sound(f.State())
    modifies f, f.buf
    ensures Edited(err, f.State()) == DelNode(old(f.State()), node)
  {
    hide NodeEndOffset, SpliceStruct, Clip;
    err := ProbeRw(f);
    if err != 0 {
      return;
    }
    var end := WalkNodeEnd(f, node);
    if end < 0 {
      return end;
    }
    BlockSlices(f.State());
    EndInBlock(Struct(f.State()), node);
    err := SpliceBlock(f, node, end - node, 0);
  }

  // ---------------------------------------------------------------- nop-out editing

  /** fdt_nop_region_: no-op words from `start` on. */
  method NopOut(f: Fdt, start: nat, len: nat)
    requires start + Align4(len) <= f.buf.Length
    modifies f.buf
    ensures f.State() == old(f.State()).(buf := NopRegion(old(f.buf[..]), start, len))
  {
    hide BE32, Put;
    ghost var all := NopRegion(f.buf[..], start, len);
    var p := start;
    while p < start + len
      invariant start <= p && start + len - p > 0 ==> p + Align4(start + len - p) <= f.buf.Length
      invariant f.State() == old(f.State()).(buf := f.buf[..])
      invariant NopRegion(f.buf[..], p, start + len - p) == all
      decreases start + len - p
    {
      f.StoreWord(p, NOP);
      p := p + 4;
    }
  }

  /** fdt_nop_property. */
  method NopProperty(f: Fdt, node: int, name: seq<byte>) returns (err: int)
    requires Sound(f.State()) && Inside(f.State()) && RoProbe(f.State()) >= 0
    modifies f.buf
    ensures Edited(err, f.State()) == NopProp(old(f.State()), node, name)
  {
    hide U32, NextTag, Align4, GetProp, NopRegion;
    ghost var b := f.State();
    var p := FindProperty(f, node, name);
    if p < 0 {
      return p;
    }
    PropFits(Struct(b), p);
    var len := f.Load(p + 4);
    AlignShift(12, len);
    NopOut(f, f.offStruct + p, 12 + len);
    return 0;
  }

  /** fdt_nop_node. */
  method NopNodeOut(f: Fdt, node: int) returns (err: int)
    requires Sound(f.State()) && Inside(f.State())
    modifies f.buf
    ensures Edited(err, f.State()) == NopNode(old(f.State()), node)
  {
    hide NodeEndOffset, NopRegion, Align4;
    ghost var b := f.State();
    var end := WalkNodeEnd(f, node);
    if end < 0 {
      return end;
    }
    EndInBlock(Struct(b), node);
    AlignWhole(end - node);
    NopOut(f, f.offStruct + node, end - node);
    return 0;
  }
}
