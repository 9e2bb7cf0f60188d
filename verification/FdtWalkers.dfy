/** The tag and node walkers of fdt.c and fdt_wip.c as loops over the buffer. */
module FdtWalkers {
  import opened Bytes
  import opened FdtFormat
  import opened FdtTree
  import opened FdtRead
  import opened FdtEdit
  import opened FdtBuffer
  import opened FdtOverlay

  /** fdt_next_tag. */
  method WalkTag(f: Fdt, start: int) returns (tag: nat, next: int)
    requires f.total <= f.buf.Length
    ensures NextTag(Struct(f.State()), start) == Step(tag, next)
  {
    hide U32, Clip, NulFrom;
    ghost var s := Struct(f.State());
    var ok := f.OffsetPtr(start, 4);
    if !ok {
      return END, -TRUNCATED;
    }
    tag := f.Load(start);
    var offset := start + 4;
    if tag == BEGIN_NODE {
      offset := SkipName(f, offset);
      if offset < 0 {
        return END, -BADSTRUCTURE;
      }
    } else if tag == PROP {
      ok := f.OffsetPtr(offset, 4);
      if !ok {
        return END, -BADSTRUCTURE;
      }
      var len := f.Load(offset);
      offset := offset + 8 + len;
    } else if tag != END && tag != END_NODE && tag != NOP {
      return END, -BADSTRUCTURE;
    }
    ok := f.OffsetPtr(start, offset - start);
    if !ok {
      return END, -BADSTRUCTURE;
    }
    next := Align4(offset);
  }

  /** The name-skipping loop of fdt_next_tag: the offset after the NUL, or -1. */
  method SkipName(f: Fdt, from: nat) returns (offset: int)
    requires f.total <= f.buf.Length && from <= |Struct(f.State())|
    ensures var (s, e) := (Struct(f.State()), NulFrom(Struct(f.State()), from));
      offset == if e == |s| then -1 else e + 1
  {
    hide Clip;
    ghost var s := Struct(f.State());
    offset := from;
    while true
      invariant from <= offset <= |s|
      invariant NulFrom(s, offset) == NulFrom(s, from)
      decreases |s| - offset
    {
      var p := f.OffsetPtr(offset, 1);
      if !p {
        return -1;
      }
      var c := f.ByteAt(offset);
      offset := offset + 1;
      if c == 0 {
        return;
      }
    }
  }

  /** fdt_check_node_offset_. */
  method CheckNode(f: Fdt, off: int) returns (r: int)
    requires Sound(f.State())
    ensures r == CheckNodeOffset(Struct(f.State()), off)
  {
    hide NextTag, Clip;
    if off < 0 || off % 4 != 0 {
      return -BADOFFSET;
    }
    var tag, next := WalkTag(f, off);
    r := if tag != BEGIN_NODE then -BADOFFSET else next;
  }

  /** fdt_check_prop_offset_. */
  method CheckProp(f: Fdt, off: int) returns (r: int)
    requires Sound(f.State())
    ensures r == CheckPropOffset(Struct(f.State()), off)
  {
    hide NextTag, Clip;
    if off < 0 || off % 4 != 0 {
      return -BADOFFSET;
    }
    var tag, next := WalkTag(f, off);
    r := if tag != PROP then -BADOFFSET else next;
  }

  /** fdt_next_node with a depth counter. */
  method WalkNode(f: Fdt, off: int, depth: int) returns (offset: int, d: int)
    requires Sound(f.State())
    ensures NextNode(Struct(f.State()), off, depth) == Place(offset, d)
  {
    hide NextTag, Clip;
    ghost var s := Struct(f.State());
    var next := 0;
    d := depth;
    if off >= 0 {
      next := CheckNode(f, off);
      if next < 0 {
        return next, d;
      }
    }
    while true
      invariant next >= 0 && NextNode(s, off, depth) == NextNodeFrom(s, next, d)
      decreases |s| + 4 - next
    {
      offset := next;
      NextTagFacts(s, offset);
      var tag;
      tag, next := WalkTag(f, offset);
      if tag == BEGIN_NODE {
        d := d + 1;
        return;
      } else if tag == END_NODE {
        d := d - 1;
        if d < 0 {
          return next, d;
        }
      } else if tag == END {
        return if next >= 0 then -NOTFOUND else next, d;
      }
    }
  }

  /** fdt_first_subnode. */
  method WalkFirstSubnode(f: Fdt, node: int) returns (r: int)
    requires Sound(f.State())
    ensures r == FirstSubnode(Struct(f.State()), node)
  {
    hide NextNode, Clip;
    var offset, depth := WalkNode(f, node, 0);
    r := if offset < 0 || depth != 1 then -NOTFOUND else offset;
  }

  /** fdt_next_subnode. */
  method WalkNextSubnode(f: Fdt, node: int) returns (r: int)
    requires Sound(f.State())
    ensures r == NextSubnode(Struct(f.State()), node)
  {
    hide NextNode, Clip;
    ghost var s := Struct(f.State());
    var depth;
    r, depth := WalkNode(f, node, 1);
    while r >= 0 && depth > 1
      invariant r >= 0 && depth >= 1 ==> r < |s|
      invariant NextSubnode(s, node) == NextSubLoop(s, Place(r, depth))
      decreases if r >= 0 && depth >= 1 then |s| - r else 0
    {
      r, depth := WalkNode(f, r, depth);
    }
    if r < 0 || depth < 1 {
      r := -NOTFOUND;
    }
  }

  /** fdt_node_end_offset_. */
  method WalkNodeEnd(f: Fdt, off: int) returns (offset: int)
    requires Sound(f.State())
    ensures offset == NodeEndOffset(Struct(f.State()), off)
  {
    hide NextNode, Clip;
    ghost var s := Struct(f.State());
    var depth := 0;
    offset := off;
    while offset >= 0 && depth >= 0
      invariant NodeEndOffset(s, off) == EndLoop(s, Place(offset, depth))
      decreases if offset >= 0 && depth >= 0 then 1 + (if offset < |s| then |s| - offset else 0) else 0
    {
      offset, depth := WalkNode(f, offset, depth);
    }
  }
}
