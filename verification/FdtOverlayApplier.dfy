/** fdt_overlay_apply and its passes as loops that patch the overlay and edit the base
    in place. */
module FdtOverlayApplier {
  import opened Wrappers
  import opened Bytes
  import opened FdtFormat
  import opened FdtTree
  import opened FdtRead
  import opened FdtEdit
  import opened FdtBuffer
  import opened FdtWalkers
  import opened FdtReaders
  import opened FdtEditors
  import opened FdtOverlay
  import opened FdtOverlayWriter
  import opened FdtInPlace
  import opened FdtPhandles
  import opened FdtRenumber
  import opened FdtReferences
  import opened FdtRenumbering
  import opened FdtFragments
  import Paths = FdtPath

  /** A blob whose names can be read. */
  predicate Readable(b: Blob) {
    Sound(b) && Inside(b) && RoProbe(b) >= 0
  }

  lemma FrameReadable(b: Blob, b': Blob)
    requires Readable(b) && SameFrame(b, b')
    ensures Readable(b') && |Struct(b')| == |Struct(b)|
  {
    SameFrameBlock(b, b');
  }

  /** fdt_setprop_inplace_namelen_partial. */
  method OverwritePartial(f: Fdt, node: int, name: seq<byte>, idx: nat, val: seq<byte>) returns (err: int)
    requires Readable(f.State())
    modifies f.buf
    ensures Edited(err, f.State()) == SetPartial(old(f.State()), node, name, idx, val)
  {
    hide U32, NextTag, Align4, GetProp, Put;
    ghost var b := f.State();
    var p := FindProperty(f, node, name);
    if p < 0 {
      return p;
    }
    PropFits(Struct(b), p);
    var len := f.Load(p + 4);
    if len < (|val| + idx) % WORD {
      return -NOSPACE;
    }
    if len < |val| + idx {
      return WILD;
    }
    Memcpy(f.buf, f.offStruct + p + 12 + idx, val);
    return 0;
  }

  /** fdt_setprop_inplace. */
  method Overwrite(f: Fdt, node: int, name: seq<byte>, val: seq<byte>) returns (err: int)
    requires Readable(f.State())
    modifies f.buf
    ensures Edited(err, f.State()) == SetInPlace(old(f.State()), node, name, val)
  {
    hide U32, NextTag, Align4, GetProp, SetPartial;
    ghost var b := f.State();
    var p := FindProperty(f, node, name);
    if p < 0 {
      return p;
    }
    PropFits(Struct(b), p);
    var len := f.Load(p + 4);
    if len != |val| {
      return -NOSPACE;
    }
    err := OverwritePartial(f, node, name, 0, val);
  }

  // ---------------------------------------------------------------- shifting phandles

  /** overlay_phandle_add_offset. */
  method AddPhandleOffset(f: Fdt, node: int, name: seq<byte>, delta: nat) returns (err: int)
    requires Readable(f.State())
    modifies f.buf
    ensures Edited(err, f.State()) == AddOffsetAt(old(f.State()), node, name, delta)
  {
    hide U32, NextTag, Align4, GetProp, SetInPlace;
    ghost var b := f.State();
    var p := FindProperty(f, node, name);
    if p < 0 {
      return p;
    }
    PropFits(Struct(b), p);
    var len := f.Load(p + 4);
    if len != 4 {
      return -BADPHANDLE;
    }
    var v := f.Load(p + 12);
    if v + delta >= WORD || v + delta == MINUS_ONE {
      return -NOPHANDLES;
    }
    err := Overwrite(f, node, name, BE32(v + delta));
  }

  /** overlay_adjust_node_phandles. */
  method AdjustPhandles(f: Fdt, node: nat, delta: nat) returns (err: int)
    requires Readable(f.State())
    modifies f.buf
    ensures Edited(err, f.State()) == AdjustNode(old(f.State()), node, delta)
    decreases |Struct(f.State())| - node
  {
    hide Clip, AddOffsetAt, NextTag, FirstSubnode, NextSubnode, RoProbe;
    ghost var b0 := f.State();
    ghost var all := AdjustNode(b0, node, delta);
    err := AddPhandleOffset(f, node, PHANDLE, delta);
    FrameReadable(b0, f.State());
    if err != 0 && err != -NOTFOUND {
      return;
    }
    err := AddPhandleOffset(f, node, LINUX_PHANDLE, delta);
    FrameReadable(b0, f.State());
    if err != 0 && err != -NOTFOUND {
      return;
    }
    var child := WalkFirstSubnode(f, node);
    while child >= 0
      invariant SameFrame(b0, f.State()) && Readable(f.State()) && |Struct(f.State())| == |Struct(b0)|
      invariant child >= 0 ==> node < child < |Struct(b0)|
      invariant all == if child < 0 then Edited(0, f.State()) else AdjustSubs(f.State(), child, delta)
      decreases if child < 0 then 0 else 1 + |Struct(b0)| - child
    {
      err := AdjustPhandles(f, child, delta);
      FrameReadable(b0, f.State());
      if err != 0 {
        return;
      }
      child := WalkNextSubnode(f, child);
    }
    err := 0;
  }

  // ---------------------------------------------------------------- updating references

  /** The loop over the cells of one fixup property. */
  method BumpListed(f: Fdt, node: nat, name: seq<byte>, at: nat, list: nat, n: nat, delta: nat) returns (err: int)
    requires Readable(f.State()) && list > 0 && at > 0 && list + 4 * n <= |Struct(f.State())|
    modifies f.buf
    ensures Edited(err, f.State()) == BumpCells(old(f.State()), node, name, at, list, n, 0, delta)
  {
    hide U32, Clip, SetPartial, BE32, RoProbe, Inside;
    ghost var b0 := f.State();
    ghost var all := BumpCells(b0, node, name, at, list, n, 0, delta);
    var i := 0;
    while i < n
      invariant i <= n && SameFrame(b0, f.State()) && Readable(f.State()) && |Struct(f.State())| == |Struct(b0)|
      invariant all == BumpCells(f.State(), node, name, at, list, n, i, delta)
    {
      var off := f.Load(list + 4 * i);
      if f.offStruct + at + off + 4 > f.buf.Length {
        return WILD;
      }
      var w := f.Word(f.offStruct + at + off);
      err := OverwritePartial(f, node, name, off, BE32((w + delta) % WORD));
      FrameReadable(b0, f.State());
      if err == -NOSPACE {
        return -BADOVERLAY;
      }
      if err != 0 {
        return;
      }
      i := i + 1;
    }
    err := 0;
  }

  /** One fixup property, the one at `prop`. */
  method BumpProperty(f: Fdt, node: nat, prop: nat, delta: nat) returns (err: int)
    requires Readable(f.State()) && CheckPropOffset(Struct(f.State()), prop) >= 0
    modifies f.buf
    ensures Edited(err, f.State()) == BumpProp(old(f.State()), node, prop, delta)
  {
    hide U32, NextTag, StringAt, StringError, GetProp, BumpCells, Clip, RoProbe, Inside;
    ghost var b := f.State();
    NextTagFacts(Struct(b), prop);
    var len, name, val := PropertyAt(f, prop);
    ErrorNegative(Strings(b), U32(Struct(b), prop + 8));
    if len < 0 {
      return len;
    }
    if len % 4 != 0 {
      return -BADOVERLAY;
    }
    var p := FindProperty(f, node, name);
    if p < 0 {
      return if p == -NOTFOUND then -BADOVERLAY else p;
    }
    err := BumpListed(f, node, name, p + 12, prop + 12, len / 4, delta);
  }

  /** overlay_update_local_node_references. */
  method UpdateLocalNode(f: Fdt, node: nat, fix: nat, delta: nat) returns (err: int)
    requires Readable(f.State())
    modifies f.buf
    ensures Edited(err, f.State()) == UpdateNode(old(f.State()), node, fix, delta)
    decreases |Struct(f.State())| - fix
  {
    hide Clip, NextTag, FirstSubnode, NextSubnode, RoProbe, UpdatePropsAt, SubnodeOffset, NodeName, Inside;
    ghost var b0 := f.State();
    ghost var all := UpdateNode(b0, node, fix, delta);
    err := UpdateLocalProps(f, node, fix, delta);
    FrameReadable(b0, f.State());
    if err != 0 {
      return;
    }
    var sub := WalkFirstSubnode(f, fix);
    SubnodesBegin(Struct(f.State()), fix);
    while sub >= 0
      invariant SameFrame(b0, f.State()) && Readable(f.State()) && |Struct(f.State())| == |Struct(b0)|
      invariant sub >= 0 ==> fix < sub < |Struct(b0)| && CheckNodeOffset(Struct(f.State()), sub) >= 0
      invariant all == if sub < 0 then Edited(0, f.State()) else UpdateSubs(f.State(), node, sub, delta)
      decreases if sub < 0 then 0 else 1 + |Struct(b0)| - sub
    {
      NextTagFacts(Struct(f.State()), sub);
      var len, name := GetName(f, sub);
      var child := FindSubnode(f, node, name);
      if child == -NOTFOUND {
        return -BADOVERLAY;
      }
      if child < 0 {
        return child;
      }
      err := UpdateLocalNode(f, child, sub, delta);
      FrameReadable(b0, f.State());
      if err != 0 {
        return;
      }
      SubnodesBegin(Struct(f.State()), sub);
      sub := WalkNextSubnode(f, sub);
    }
    err := 0;
  }

  /** Its property loop. */
  method UpdateLocalProps(f: Fdt, node: nat, fix: nat, delta: nat) returns (err: int)
    requires Readable(f.State())
    modifies f.buf
    ensures Edited(err, f.State()) == UpdatePropsAt(old(f.State()), node, FirstProp(Struct(old(f.State())), fix), delta)
  {
    hide U32, NextTag, Clip, BumpProp, NextPropFrom, RoProbe, Inside;
    ghost var b0 := f.State();
    ghost var all := UpdatePropsAt(b0, node, FirstProp(Struct(b0), fix), delta);
    var prop := WalkFirstProp(f, fix);
    while prop >= 0
      invariant SameFrame(b0, f.State()) && Readable(f.State()) && |Struct(f.State())| == |Struct(b0)|
      invariant prop >= 0 ==> NextTag(Struct(f.State()), prop).tag == PROP && prop % 4 == 0
      invariant all == UpdatePropsAt(f.State(), node, prop, delta)
      decreases if prop < 0 then 0 else 1 + (if prop < |Struct(b0)| then |Struct(b0)| - prop else 0)
    {
      NextTagFacts(Struct(f.State()), prop);
      err := BumpProperty(f, node, prop, delta);
      FrameReadable(b0, f.State());
      if err != 0 {
        return;
      }
      prop := WalkNextProp(f, prop);
    }
    err := 0;
  }

  // ---------------------------------------------------------------- phandles

  /** A four-byte value, if the property has one. */
  method ReadCell(f: Fdt, node: int, name: seq<byte>) returns (cell: Option<nat>)
    requires Readable(f.State())
    ensures cell == CellAt(f.State(), node, name)
  {
    hide U32, NextTag, GetProp, Clip, RoProbe;
    InBlock(f.State());
    var p := FindProperty(f, node, name);
    if p < 0 {
      return None;
    }
    PropFits(Struct(f.State()), p);
    var len := f.Load(p + 4);
    if len != 4 {
      return None;
    }
    var v := f.Load(p + 12);
    return Some(v);
  }

  /** fdt_get_phandle. */
  method ReadPhandle(f: Fdt, node: int) returns (v: nat)
    requires Readable(f.State())
    ensures v == GetPhandle(f.State(), node)
  {
    hide CellAt, RoProbe;
    var cell := ReadCell(f, node, PHANDLE);
    if cell.None? {
      cell := ReadCell(f, node, LINUX_PHANDLE);
      if cell.None? {
        return 0;
      }
    }
    return cell.value;
  }

  /** fdt_next_node without a depth counter. */
  method WalkBegin(f: Fdt, from: nat) returns (offset: int)
    requires Sound(f.State())
    ensures offset == NextBegin(Struct(f.State()), from)
  {
    hide NextTag, Clip;
    ghost var s := Struct(f.State());
    offset := from;
    while true
      invariant offset >= 0 && NextBegin(s, offset) == NextBegin(s, from)
      decreases |s| + 4 - offset
    {
      NextTagFacts(s, offset);
      var tag, next := WalkTag(f, offset);
      if tag == BEGIN_NODE {
        return;
      }
      if tag == END {
        return if next >= 0 || next == -TRUNCATED then -NOTFOUND else next;
      }
      offset := next;
    }
  }

  method WalkNodeAfter(f: Fdt, off: nat) returns (offset: int)
    requires Sound(f.State())
    ensures offset == NodeAfter(Struct(f.State()), off)
  {
    hide NextTag, Clip, NextBegin;
    offset := CheckNode(f, off);
    if offset >= 0 {
      offset := WalkBegin(f, offset);
    }
  }

  /** fdt_find_max_phandle. */
  method FindMaxPhandle(f: Fdt) returns (err: int, max: nat)
    requires Readable(f.State())
    ensures Largest(err, max) == FindMax(f.State())
  {
    hide Clip, GetPhandle, NextBegin, NodeAfter, RoProbe;
    ghost var b := f.State();
    max := 0;
    var offset := WalkBegin(f, 0);
    while offset >= 0
      invariant offset < |Struct(b)| && FindMax(b) == MaxLoop(b, offset, max)
      decreases if offset >= 0 then 1 + |Struct(b)| - offset else 0
    {
      var value := ReadPhandle(f, offset);
      if value > max {
        max := value;
      }
      offset := WalkNodeAfter(f, offset);
    }
    err := if offset == -NOTFOUND then 0 else offset;
  }

  /** fdt_node_offset_by_phandle. */
  method FindNodeByPhandle(f: Fdt, v: nat) returns (offset: int)
    requires Readable(f.State())
    ensures offset == NodeByPhandle(f.State(), v)
  {
    hide Clip, GetPhandle, NextBegin, NodeAfter, RoProbe;
    ghost var b := f.State();
    if v == 0 || v == MINUS_ONE {
      return -BADPHANDLE;
    }
    offset := WalkBegin(f, 0);
    while offset >= 0
      invariant offset < |Struct(b)| && NodeByPhandle(b, v) == PhandleLoop(b, offset, v)
      decreases if offset >= 0 then 1 + |Struct(b)| - offset else 0
    {
      var value := ReadPhandle(f, offset);
      if value == v {
        return;
      }
      offset := WalkNodeAfter(f, offset);
    }
  }

  // ---------------------------------------------------------------- the whole overlay

  /** The first steps of fdt_overlay_apply: the overlay renumbered against the base. */
  method RenumberOverlay(f: Fdt, o: Fdt) returns (err: int)
    requires f != o && f.buf != o.buf && Readable(f.State()) && Readable(o.State())
    modifies o.buf
    ensures Edited(err, o.State()) == Renumber(f.State(), old(o.State()))
    ensures f.State() == old(f.State())
  {
    hide Clip, FindMax, AdjustNode, UpdateNode, Paths.PathOffsetFrom, RoProbe, Inside;
    ghost var ob := o.State();
    var delta;
    err, delta := FindMaxPhandle(f);
    if err != 0 {
      return;
    }
    err := AdjustPhandles(o, 0, delta);
    FrameReadable(ob, o.State());
    if err != 0 {
      return;
    }
    var fixups := WalkPath(o, [Paths.SLASH] + LOCAL_FIXUPS, 0, 0);
    if fixups < 0 {
      return if fixups == -NOTFOUND then 0 else fixups;
    }
    err := UpdateLocalNode(o, 0, fixups, delta);
  }

  /** overlay_get_target. */
  method GetTarget(f: Fdt, o: Fdt, fragment: int, fuel: nat) returns (target: Option<int>)
    requires Readable(f.State()) && Readable(o.State())
    ensures target == TargetOffset(f.State(), o.State(), fragment, fuel)
  {
    hide Clip, U32, NextTag, GetProp, NodeByPhandle, Paths.Lookup, RoProbe;
    ghost var s := Struct(o.State());
    InBlock(o.State());
    var v := 0;
    var p := FindProperty(o, fragment, TARGET);
    if p >= 0 {
      PropFits(s, p);
      var len := o.Load(p + 4);
      v := MINUS_ONE;
      if len == 4 {
        v := o.Load(p + 12);
      }
    }
    if v == MINUS_ONE {
      return Some(-BADPHANDLE);
    }
    if v != 0 {
      var node := FindNodeByPhandle(f, v);
      return Some(node);
    }
    p := FindProperty(o, fragment, TARGET_PATH);
    if p < 0 {
      return Some(if p == -NOTFOUND then -BADOVERLAY else p);
    }
    PropFits(s, p);
    var path := ReadString(o, p + 12);
    target := ResolvePath(f, path, fuel);
  }

  /** overlay_merge. */
  method MergeOverlay(f: Fdt, o: Fdt, fuel: nat) returns (err: int)
    requires f != o && f.buf != o.buf && Readable(o.State())
    requires Readable(f.State()) && Ordered(f.State())
    modifies f, f.buf
    ensures Edited(err, f.State()) == MergeFrom(old(f.State()), o.State(), FirstSubnode(Struct(o.State()), 0), fuel)
    ensures o.State() == old(o.State())
  {
    hide Clip, FirstSubnode, NextSubnode, SubnodeOffset, TargetOffset, ApplyNode, RoProbe, Inside, Ordered;
    ghost var ob := o.State();
    ghost var s := Struct(ob);
    ghost var all := MergeFrom(f.State(), ob, FirstSubnode(s, 0), fuel);
    var fragment := WalkFirstSubnode(o, 0);
    while fragment >= 0
      invariant o.State() == ob && Readable(f.State()) && Ordered(f.State())
      invariant fragment < |s| && all == MergeFrom(f.State(), ob, fragment, fuel)
      decreases if fragment < 0 then 0 else 1 + |s| - fragment
    {
      ghost var b := f.State();
      var overlay := FindSubnode(o, fragment, OVERLAY);
      if overlay >= 0 {
        var target := GetTarget(f, o, fragment, fuel);
        if target.None? {
          return ENDLESS;
        }
        if target.value < 0 {
          return target.value;
        }
        err := MergeNode(f, target.value, o, overlay);
        ApplyOrdered(b, target.value, ob, overlay);
        if err != 0 {
          return;
        }
        OrderedReadable(f.State());
      } else if overlay != -NOTFOUND {
        return overlay;
      }
      fragment := WalkNextSubnode(o, fragment);
    }
    err := 0;
  }

  lemma OrderedReadable(b: Blob)
    requires Sound(b) && Ordered(b)
    ensures Readable(b)
  {
  }

  const ERASED: nat := 0xffff_ffff

  /** fdt_overlay_apply for an overlay with neither external fixups nor symbols: the magic
      of a used overlay is erased, and that of the base too when something failed. */
  method Apply(f: Fdt, o: Fdt, fuel: nat) returns (err: int)
    requires f != o && f.buf != o.buf && Sound(f.State()) && Sound(o.State()) && Inside(o.State())
    requires RoProbe(f.State()) >= 0 ==> Ordered(f.State())
    requires SelfContained(o.State())
    modifies f, f.buf, o, o.buf
    ensures var (b, p) := (old(f.State()), old(o.State()));
      if RoProbe(b) < 0 || RoProbe(p) < 0 then
        err == (if RoProbe(b) < 0 then RoProbe(b) else RoProbe(p)) && f.State() == b && o.State() == p
      else
        var e := ApplyOverlay(b, p, fuel);
        && err == e.err && o.magic == ERASED
        && f.State() == if err == 0 then e.blob else e.blob.(magic := ERASED)
  {
    hide Clip, RoProbe, Ordered, Inside, Renumber, MergeFrom, FirstSubnode;
    err := ProbeRo(f);
    if err < 0 {
      return;
    }
    err := ProbeRo(o);
    if err < 0 {
      return;
    }
    OrderedReadable(f.State());
    ghost var ob := o.State();
    err := RenumberOverlay(f, o);
    FrameReadable(ob, o.State());
    if err == 0 {
      err := MergeOverlay(f, o, fuel);
    }
    o.magic := ERASED;
    if err != 0 {
      f.magic := ERASED;
    }
  }
}
