/** The read-only walkers of fdt_ro.c and fdt_wip.c over a structure block `s` and a
    strings block `t`, and what they find when the block holds a token sequence. */
module FdtRead {
  import opened Wrappers
  import opened Bytes
  import opened FdtFormat
  import opened FdtTree

  /** The NUL-terminated string at `off`, as fdt_get_string finds it. */
  function StringAt(t: seq<byte>, off: nat): Option<seq<byte>> {
    if off >= |t| then None
    else
      var e := NulFrom(t, off);
      if e == |t| then None else Some(t[off..e])
  }

  /** The error that fdt_get_string reports when there is no string. */
  function StringError(t: seq<byte>, off: nat): int {
    if off >= |t| then -BADOFFSET else -TRUNCATED
  }

  // ---------------------------------------------------------------- nodes

  function NodeName(s: seq<byte>, off: nat): seq<byte>
    requires off + 4 <= |s|
  {
    s[off + 4..NulFrom(s, off + 4)]
  }

  /** State of the loop of fdt_subnode_offset_namelen. */
  function SubnodeLoop(s: seq<byte>, p: Place, want: seq<byte>): (r: int)
    decreases if p.offset >= 0 && p.depth >= 0 then 1 + (if p.offset < |s| then |s| - p.offset else 0) else 0
  {
    if p.depth < 0 then -NOTFOUND
    else if p.offset < 0 then p.offset
    else if p.depth == 1 && p.offset + 4 <= |s| && CheckNodeOffset(s, p.offset) >= 0 && NameEq(NodeName(s, p.offset), want) then p.offset
    else SubnodeLoop(s, NextNode(s, p.offset, p.depth), want)
  }

  function SubnodeOffset(s: seq<byte>, parent: int, want: seq<byte>): int {
    SubnodeLoop(s, Place(parent, 0), want)
  }

  /** State of the loop of fdt_node_end_offset_. */
  function EndLoop(s: seq<byte>, p: Place): (r: int)
    ensures p.offset >= 0 && p.depth >= 0 && r >= 0 ==>
      p.offset < r < |s| + 4 && r % 4 == 0 && p.offset % 4 == 0
    decreases if p.offset >= 0 && p.depth >= 0 then 1 + (if p.offset < |s| then |s| - p.offset else 0) else 0
  {
    if p.offset >= 0 && p.depth >= 0 then EndLoop(s, NextNode(s, p.offset, p.depth)) else p.offset
  }

  function NodeEndOffset(s: seq<byte>, off: int): int {
    EndLoop(s, Place(off, 0))
  }

  // ---------------------------------------------------------------- properties

  /** The loop of nextprop_. */
  function NextPropFrom(s: seq<byte>, pos: nat): (r: int)
    ensures r >= 0 ==> pos <= r && NextTag(s, r).tag == PROP
    ensures r >= 0 && pos % 4 == 0 ==> r % 4 == 0
    decreases |s| - pos
  {
    NextTagFacts(s, pos);
    var t := NextTag(s, pos);
    if t.tag == END then (if t.next >= 0 then -BADSTRUCTURE else t.next)
    else if t.tag == PROP then pos
    else if t.tag == NOP then NextPropFrom(s, t.next)
    else -NOTFOUND
  }

  function FirstProp(s: seq<byte>, node: int): (r: int)
    ensures r >= 0 ==> NextTag(s, r).tag == PROP && r % 4 == 0
  {
    NextTagFacts(s, node);
    var n := CheckNodeOffset(s, node);
    if n < 0 then n else NextPropFrom(s, n)
  }

  function NextProp(s: seq<byte>, off: int): (r: int)
    ensures r >= 0 ==> NextTag(s, r).tag == PROP && r % 4 == 0 && r > off
  {
    NextTagFacts(s, off);
    var n := CheckPropOffset(s, off);
    if n < 0 then n else NextPropFrom(s, n)
  }

  /** The loop of fdt_get_property_namelen_: the offset of the property, or an error. */
  function GetPropFrom(s: seq<byte>, t: seq<byte>, off: int, name: seq<byte>): (r: int)
    ensures r >= 0 ==> NextTag(s, r).tag == PROP && r % 4 == 0
    decreases |s| - off
  {
    NextTagFacts(s, off);
    if off < 0 then off
    else if CheckPropOffset(s, off) < 0 then -INTERNAL
    else if StringAt(t, U32(s, off + 8)) == Some(name) then off
    else
      var next := NextProp(s, off);
      if next < 0 then next else GetPropFrom(s, t, next, name)
  }

  function GetProp(s: seq<byte>, t: seq<byte>, node: int, name: seq<byte>): (r: int)
    ensures r >= 0 ==> NextTag(s, r).tag == PROP && r % 4 == 0
  {
    var first := FirstProp(s, node);
    if first < 0 then first else GetPropFrom(s, t, first, name)
  }

  // ---------------------------------------------------------------- items of a block

  function ItemOf(k: Token, t: seq<byte>): Item {
    match k
    case BeginNode(name, _) => IBegin(name)
    case EndNode => IEnd
    case Prop(nameoff, val, _) => IProp(StringAt(t, nameoff), val)
    case Nop => INop
  }

  function Items(toks: seq<Token>, t: seq<byte>): (r: seq<Item>)
    ensures |r| == |toks|
  {
    if toks == [] then [] else [ItemOf(toks[0], t)] + Items(toks[1..], t)
  }

  lemma ItemsCons(k: Token, toks: seq<Token>, t: seq<byte>)
    ensures Items([k] + toks, t) == [ItemOf(k, t)] + Items(toks, t)
  {
    hide StringAt;
    assert ([k] + toks)[1..] == toks;
  }

  lemma {:induction false} ItemsConcat(a: seq<Token>, b: seq<Token>, t: seq<byte>)
    ensures Items(a + b, t) == Items(a, t) + Items(b, t)
  {
    hide Items, ItemOf;
    if a == [] {
      assert a + b == b && Items(a, t) == [];
    } else {
      var rest := a[1..];
      ItemsConcat(rest, b, t);
      ItemsCons(a[0], rest, t);
      ItemsCons(a[0], rest + b, t);
      assert a == [a[0]] + rest;
      assert a + b == [a[0]] + (rest + b);
    }
  }

  lemma ItemsTail(toks: seq<Token>, t: seq<byte>)
    requires toks != []
    ensures Items(toks, t)[0] == ItemOf(toks[0], t) && Items(toks, t)[1..] == Items(toks[1..], t)
  {
  }

  // ---------------------------------------------------------------- walkers against scans

  /** One step of any walker over the block's tokens. */
  lemma StepAt(s: seq<byte>, toks: seq<Token>, rest: seq<Token>)
    requires Holds(s, toks) && Suffix(rest, toks) && rest != []
    ensures Suffix(rest[1..], toks)
    ensures var (pos, next) := (At(toks, rest), At(toks, rest[1..]));
      && pos + 4 <= |s| && next == pos + Size(rest[0])
      && NextTag(s, pos) == Step(TagOf(rest[0]), next)
      && (rest[0].BeginNode? ==> NodeName(s, pos) == rest[0].name && CheckNodeOffset(s, pos) == next)
      && (rest[0].Prop? ==>
          && pos + 12 + |rest[0].val| <= |s| && CheckPropOffset(s, pos) == next
          && U32(s, pos + 8) == rest[0].nameoff && U32(s, pos + 4) == |rest[0].val|
          && s[pos + 12..pos + 12 + |rest[0].val|] == rest[0].val)
  {
    hide NextTag, U32, NulFrom, Size, Holds;
    ReadAt(s, toks, rest);
  }

  lemma EndAt(s: seq<byte>, toks: seq<Token>)
    requires Holds(s, toks)
    ensures At(toks, []) == Len(toks) && NextTag(s, At(toks, [])) == Step(END, At(toks, []) + 4)
  {
    hide NextTag;
    ReadEnd(s, toks);
  }

  lemma {:induction false} ScanProp(s: seq<byte>, t: seq<byte>, toks: seq<Token>, rest: seq<Token>, name: seq<byte>)
    returns (q: seq<Token>)
    requires Holds(s, toks) && Suffix(rest, toks)
    ensures Suffix(q, rest) && Suffix(q, toks)
    ensures var first := NextPropFrom(s, At(toks, rest));
      var r := if first < 0 then first else GetPropFrom(s, t, first, name);
      match FindProp(Items(rest, t), name)
      case Some(x) => q != [] && q[0].Prop? && x == Items(q, t) && r == At(toks, q) >= 0
      case None => r < 0 && (AfterProps(Items(rest, t)) != [] ==> r == -NOTFOUND)
  {
    hide NextTag, U32, BE32, NulFrom, Flat, Size, Holds, At, StringAt, NameEq, NodeName, CheckNodeOffset, CheckPropOffset, TokenOk;
    if rest == [] {
      EndAt(s, toks);
      q := [];
    } else {
      StepAt(s, toks, rest);
      ItemsTail(rest, t);
      var pos := At(toks, rest);
      if rest[0].Nop? || (rest[0].Prop? && StringAt(t, rest[0].nameoff) != Some(name)) {
        q := ScanProp(s, t, toks, rest[1..], name);
        NextTagFacts(s, pos);
      } else {
        q := rest;
      }
    }
  }

  lemma {:induction false} ScanEnd(s: seq<byte>, t: seq<byte>, toks: seq<Token>, rest: seq<Token>, d: nat)
    returns (q: seq<Token>)
    requires Holds(s, toks) && Suffix(rest, toks)
    ensures Suffix(q, rest) && Suffix(q, toks)
    ensures var r := EndLoop(s, NextNodeFrom(s, At(toks, rest), d));
      match Close(Items(rest, t), d)
      case Some(x) => x == Items(q, t) && r == At(toks, q) >= 0 && |q| < |rest|
      case None => r == -NOTFOUND
  {
    hide NextTag, U32, BE32, NulFrom, Flat, Size, Holds, At, StringAt, NameEq, NodeName, CheckNodeOffset, CheckPropOffset, TokenOk;
    if rest == [] {
      EndAt(s, toks);
      q := [];
    } else {
      StepAt(s, toks, rest);
      ItemsTail(rest, t);
      if rest[0].EndNode? && d == 0 {
        q := rest[1..];
      } else {
        q := ScanEnd(s, t, toks, rest[1..], if rest[0].BeginNode? then d + 1 else if rest[0].EndNode? then d - 1 else d);
      }
    }
  }

  lemma {:induction false} ScanSub(s: seq<byte>, t: seq<byte>, toks: seq<Token>, rest: seq<Token>, d: nat, want: seq<byte>)
    returns (q: seq<Token>)
    requires Holds(s, toks) && Suffix(rest, toks)
    ensures Suffix(q, rest) && Suffix(q, toks)
    ensures var r := SubnodeLoop(s, NextNodeFrom(s, At(toks, rest), d), want);
      match FindSub(Items(rest, t), d, want)
      case Some(x) => q != [] && q[0].BeginNode? && x == Items(q, t) && r == At(toks, q) >= 0
      case None => r == -NOTFOUND
  {
    hide NextTag, U32, BE32, NulFrom, Flat, Size, Holds, At, StringAt, NameEq, NodeName, CheckNodeOffset, CheckPropOffset, TokenOk;
    if rest == [] {
      EndAt(s, toks);
      q := [];
    } else {
      StepAt(s, toks, rest);
      ItemsTail(rest, t);
      if rest[0].EndNode? && d == 0 {
        q := [];
      } else if rest[0].BeginNode? && d == 0 && NameEq(rest[0].name, want) {
        q := rest;
      } else {
        q := ScanSub(s, t, toks, rest[1..], if rest[0].BeginNode? then d + 1 else if rest[0].EndNode? then d - 1 else d, want);
      }
    }
  }
}
