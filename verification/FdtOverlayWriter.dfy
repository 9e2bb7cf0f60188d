/** overlay_apply_node of fdt_overlay.c as loops that edit the base blob in place. */
module FdtOverlayWriter {
  import opened Wrappers
  import opened Bytes
  import opened FdtFormat
  import opened FdtTree
  import opened FdtRead
  import opened FdtEdit
  import opened FdtBuffer
  import opened FdtWalkers
  import opened FdtReaders
  import opened FdtEditors
  import opened FdtOverlay

  /** fdt_getprop_by_offset: the name and the value of the property at `off`, or an error. */
  method PropertyAt(f: Fdt, off: int) returns (err: int, name: seq<byte>, val: seq<byte>)
    requires Sound(f.State()) && RoProbe(f.State()) >= 0
    ensures var (s, t) := (Struct(f.State()), Strings(f.State()));
      if off < 0 || CheckPropOffset(s, off) < 0 then err < 0
      else
        && off + 12 <= |s|
        && var found := StringAt(t, U32(s, off + 8));
        && (found.None? ==> err == StringError(t, U32(s, off + 8)))
        && (found.Some? ==>
            && err == |val| == U32(s, off + 4) && name == found.value
            && off + 12 + err <= |s| && val == s[off + 12..off + 12 + err])
  {
    hide NextTag, U32, Clip, StringAt, RoProbe, StringError;
    ghost var s := Struct(f.State());
    name, val := [], [];
    NextTagFacts(s, off);
    err := CheckProp(f, off);
    if err < 0 {
      return;
    }
    var nameoff := f.Load(off + 8);
    err, name := GetString(f, nameoff);
    if err < 0 {
      ErrorNegative(Strings(f.State()), nameoff);
      return;
    }
    err := f.Load(off + 4);
    val := Value(f, off + 12, err);
  }

  lemma ErrorNegative(t: seq<byte>, off: nat)
    ensures StringError(t, off) < 0
  {
  }

  method Value(f: Fdt, at: nat, len: nat) returns (val: seq<byte>)
    requires Sound(f.State()) && 0 < at && at + len <= |Struct(f.State())|
    ensures val == Struct(f.State())[at..at + len]
  {
    hide Clip;
    var from := f.offStruct + at;
    ClipLength(f.buf[..], f.total, f.offStruct, f.sizeStruct);
    ClipSlice(f.buf[..], f.total, f.offStruct, f.sizeStruct, at, at + len);
    val := f.buf[from..from + len];
  }

  /** The property loop of overlay_apply_node. */
  method MergeProperties(f: Fdt, target: nat, o: Fdt, node: nat) returns (err: int)
    requires f != o && f.buf != o.buf
    requires Sound(f.State()) && Sound(o.State()) && RoProbe(o.State()) >= 0
    modifies f, f.buf
    ensures Sound(f.State())
    ensures Edited(err, f.State()) == ApplyProps(old(f.State()), target, o.State(), FirstProp(Struct(o.State()), node))
    ensures o.State() == old(o.State())
  {
    hide U32, NextTag, NulFrom, SetProp, StringAt, Clip, NextPropFrom, RoProbe, StringError;
    ghost var ob := o.State();
    ghost var s := Struct(ob);
    ghost var all := ApplyProps(f.State(), target, ob, FirstProp(s, node));
    var prop := WalkFirstProp(o, node);
    while prop >= 0
      invariant o.State() == ob && Sound(f.State())
      invariant prop >= 0 ==> NextTag(s, prop).tag == PROP && prop % 4 == 0
      invariant ApplyProps(f.State(), target, ob, prop) == all
      decreases if prop < 0 then 0 else 1 + (if prop < |s| then |s| - prop else 0)
    {
      NextTagFacts(s, prop);
      var len, name, val := PropertyAt(o, prop);
      ErrorNegative(Strings(ob), U32(s, prop + 8));
      if len < 0 {
        return len;
      }
      err := SetProperty(f, target, name, val);
      if err != 0 {
        return;
      }
      prop := WalkNextProp(o, prop);
    }
    err := 0;
  }

  /** A node that answers to the name leaves the base blob as it is. */
  lemma ExistsUnchanged(b: Blob, parent: nat, name: seq<byte>)
    requires Sound(b) && AddSubnode(b, parent, name).err == -EXISTS
    ensures AddSubnode(b, parent, name).blob == b && RoProbe(b) >= 0
  {
    hide U32, NextTag, Align4, NulFrom, SubnodeOffset, Clip, BE32, Zeros;
    if RwProbe(b) == 0 && SubnodeOffset(Struct(b), parent, name) == -NOTFOUND {
      SkipPropsSafe(Struct(b), parent, name);
      assert false;
    }
  }

  predicate BeginsAt(s: seq<byte>, off: int) {
    0 <= off < |s| && off % 4 == 0 && NextTag(s, off).tag == BEGIN_NODE
  }

  lemma {:induction false} NextSubBegins(s: seq<byte>, p: Place)
    requires p.offset >= 0 && p.depth >= 1 ==> BeginsAt(s, p.offset)
    ensures NextSubLoop(s, p) >= 0 ==> BeginsAt(s, NextSubLoop(s, p))
    decreases if p.offset >= 0 && p.depth >= 1 then |s| - p.offset else 0
  {
    hide NextTag, NextNode;
    if p.offset >= 0 && p.depth > 1 {
      NextSubBegins(s, NextNode(s, p.offset, p.depth));
    }
  }

  /** The children that the walkers name are nodes. */
  lemma SubnodesBegin(s: seq<byte>, node: nat)
    ensures FirstSubnode(s, node) >= 0 ==> BeginsAt(s, FirstSubnode(s, node)) && CheckNodeOffset(s, FirstSubnode(s, node)) >= 0
    ensures NextSubnode(s, node) >= 0 ==> BeginsAt(s, NextSubnode(s, node)) && CheckNodeOffset(s, NextSubnode(s, node)) >= 0
  {
    hide NextTag, NextNode, NextSubLoop;
    NextSubBegins(s, NextNode(s, node, 1));
    NextTagFacts(s, FirstSubnode(s, node));
    NextTagFacts(s, NextSubnode(s, node));
  }

  /** overlay_apply_node: the overlay node at `node` merged into the base node at `target`. */
  method MergeNode(f: Fdt, target: nat, o: Fdt, node: nat) returns (err: int)
    requires f != o && f.buf != o.buf
    requires Sound(f.State()) && Sound(o.State()) && RoProbe(o.State()) >= 0
    modifies f, f.buf
    ensures Sound(f.State())
    ensures Edited(err, f.State()) == ApplyNode(old(f.State()), target, o.State(), node)
    ensures o.State() == old(o.State())
    decreases |Struct(o.State())| - node
  {
    hide U32, NextTag, NulFrom, AddSubnode, Clip, RoProbe, ApplyProps, SubnodeOffset, NodeName;
    ghost var ob := o.State();
    ghost var s := Struct(ob);
    ghost var all := ApplyNode(f.State(), target, ob, node);
    err := MergeProperties(f, target, o, node);
    if err != 0 {
      return;
    }
    var sub := WalkFirstSubnode(o, node);
    SubnodesBegin(s, node);
    while sub >= 0
      invariant o.State() == ob && Sound(f.State())
      invariant sub >= 0 ==> node < sub < |s| && CheckNodeOffset(s, sub) >= 0
      invariant all == if sub < 0 then Edited(0, f.State()) else ApplyKids(f.State(), target, ob, sub)
      decreases if sub < 0 then 0 else 1 + |s| - sub
    {
      ghost var b := f.State();
      NextTagFacts(s, sub);
      var len, name := GetName(o, sub);
      var kid := InsertSubnode(f, target, name);
      if kid == -EXISTS {
        ExistsUnchanged(b, target, name);
        kid := FindSubnode(f, target, name);
        if kid == -NOTFOUND {
          return -INTERNAL;
        }
      }
      if kid < 0 {
        return kid;
      }
      err := MergeNode(f, kid, o, sub);
      if err != 0 {
        return;
      }
      SubnodesBegin(s, sub);
      sub := WalkNextSubnode(o, sub);
    }
    err := 0;
  }
}
