/** The read-only functions of fdt_ro.c as loops over the buffer. */
module FdtReaders {
  import opened Wrappers
  import opened Bytes
  import opened FdtFormat
  import opened FdtTree
  import opened FdtRead
  import opened FdtEdit
  import opened FdtBuffer
  import opened FdtWalkers
  import opened FdtBuild
  import opened FdtCheck
  import opened FdtPath

  /** fdt_ro_probe_. */
  method ProbeRo(f: Fdt) returns (r: int)
    ensures r == RoProbe(f.State())
  {
    if f.magic == MAGIC {
    } else if f.magic == SW_MAGIC {
      if f.sizeStruct == 0 {
        return -BADSTATE;
      }
    } else {
      return -BADMAGIC;
    }
    r := if f.total < INT_MAX then f.total else -TRUNCATED;
  }

  // ---------------------------------------------------------------- strings

  /** The strings that fdt_get_string can return: none while the probe fails. */
  function LegibleStrings(b: Blob): seq<byte>
    requires Sound(b)
  {
    if RoProbe(b) < 0 then [] else Strings(b)
  }

  lemma ClipLength(buf: seq<byte>, total: nat, off: nat, size: nat)
    requires total <= |buf|
    ensures |Clip(buf, total, off, size)| == if off > total then 0 else if off + size <= total then size else total - off
  {
  }

  lemma ClipSlice(buf: seq<byte>, total: nat, off: nat, size: nat, i: nat, j: nat)
    requires total <= |buf| && i <= j <= |Clip(buf, total, off, size)| && 0 < |Clip(buf, total, off, size)|
    ensures Clip(buf, total, off, size)[i..j] == buf[off + i..off + j]
  {
  }

  /** fdt_get_string: the length and the bytes of the string at `off`, or an error. */
  method GetString(f: Fdt, off: nat) returns (err: int, name: seq<byte>)
    requires Sound(f.State())
    ensures RoProbe(f.State()) < 0 ==> err == RoProbe(f.State())
    ensures RoProbe(f.State()) >= 0 ==>
      if StringAt(Strings(f.State()), off).Some? then err >= 0 else err == StringError(Strings(f.State()), off)
    ensures StringAt(LegibleStrings(f.State()), off) == if err >= 0 then Some(name) else None
    ensures err >= 0 ==> err == |name|
  {
    hide Clip, NulFrom;
    ghost var t := Strings(f.State());
    name := [];
    err := ProbeRo(f);
    if err < 0 {
      return;
    }
    var at := f.offStrings + off;
    ClipLength(f.buf[..], f.total, f.offStrings, f.sizeStrings);
    if at >= f.total || off >= f.sizeStrings {
      return -BADOFFSET, [];
    }
    var len := f.total - at;
    if f.sizeStrings - off < len {
      len := f.sizeStrings - off;
    }
    ClipSlice(f.buf[..], f.total, f.offStrings, f.sizeStrings, off, off + len);
    assert t[off..off + len] == t[off..];
    NulInTail(t, off);
    var n := FindNul(f.buf, at, len);
    if n == len {
      return -TRUNCATED, [];
    }
    ClipSlice(f.buf[..], f.total, f.offStrings, f.sizeStrings, off, off + n);
    return n, f.buf[at..at + n];
  }

  /** memchr for a NUL. */
  method FindNul(a: array<byte>, at: nat, len: nat) returns (n: nat)
    requires at + len <= a.Length
    ensures n == NulFrom(a[at..at + len], 0)
  {
    n := 0;
    while n < len && a[at + n] != 0
      invariant n <= len && NulFrom(a[at..at + len], 0) == NulFrom(a[at..at + len], n)
    {
      n := n + 1;
    }
  }

  lemma {:induction false} NulInTail(t: seq<byte>, i: nat)
    requires i <= |t|
    ensures NulFrom(t, i) == i + NulFrom(t[i..], 0)
    decreases |t| - i
  {
    NulShift(t[i..], t[..i], 0);
    assert t == t[..i] + t[i..];
  }

  /** fdt_string_eq_. */
  method StringEq(f: Fdt, off: nat, name: seq<byte>) returns (eq: bool)
    requires Sound(f.State())
    ensures eq == (StringAt(LegibleStrings(f.State()), off) == Some(name))
  {
    hide StringAt, LegibleStrings;
    var len, s := GetString(f, off);
    eq := len >= 0 && s == name;
  }

  // ---------------------------------------------------------------- nodes

  /** fdt_get_name. */
  method GetName(f: Fdt, node: int) returns (len: int, name: seq<byte>)
    requires Sound(f.State()) && RoProbe(f.State()) >= 0
    ensures var s := Struct(f.State());
      if CheckNodeOffset(s, node) < 0 then len == CheckNodeOffset(s, node)
      else node + 4 <= |s| && len == |name| && name == NodeName(s, node)
  {
    hide U32, Clip, NulFrom, NextTag, RoProbe;
    ghost var s := Struct(f.State());
    NextTagFacts(s, node);
    len := CheckNode(f, node);
    name := [];
    if len >= 0 {
      name := Characters(f, node + 4);
      len := |name|;
    }
  }

  /** strlen and the characters that it counts, of a terminated name in the structure block. */
  method Characters(f: Fdt, from: nat) returns (name: seq<byte>)
    requires Sound(f.State()) && from <= |Struct(f.State())| && NulFrom(Struct(f.State()), from) < |Struct(f.State())|
    ensures name == Struct(f.State())[from..NulFrom(Struct(f.State()), from)]
  {
    hide Clip;
    ghost var s := Struct(f.State());
    var at := from;
    name := [];
    var c := f.ByteAt(at);
    while c != 0
      invariant from <= at < |s| && c == s[at]
      invariant NulFrom(s, at) == NulFrom(s, from) && name == s[from..at]
      decreases |s| - at
    {
      name := name + [c];
      at := at + 1;
      c := f.ByteAt(at);
    }
  }

  /** fdt_nodename_eq_. */
  method NodeNameEq(f: Fdt, node: int, want: seq<byte>) returns (eq: bool)
    requires Sound(f.State()) && RoProbe(f.State()) >= 0
    ensures var s := Struct(f.State());
      eq == (CheckNodeOffset(s, node) >= 0 && node + 4 <= |s| && NameEq(NodeName(s, node), want))
  {
    hide NextTag, U32, Clip, NulFrom, NodeName, RoProbe;
    var len, name := GetName(f, node);
    if len < 0 || len < |want| || name[..|want|] != want {
      return false;
    }
    eq := |name| == |want| || (('@' as int) !in want && name[|want|] == '@' as int);
  }

  /** fdt_subnode_offset_namelen. */
  method FindSubnode(f: Fdt, parent: int, want: seq<byte>) returns (offset: int)
    requires Sound(f.State())
    ensures offset ==
      if RoProbe(f.State()) < 0 then RoProbe(f.State()) else SubnodeOffset(Struct(f.State()), parent, want)
  {
    hide NextNode, NextTag, Clip, NodeName, NameEq;
    ghost var s := Struct(f.State());
    var err := ProbeRo(f);
    if err < 0 {
      return err;
    }
    var depth := 0;
    offset := parent;
    while offset >= 0 && depth >= 0
      invariant SubnodeOffset(s, parent, want) == SubnodeLoop(s, Place(offset, depth), want)
      decreases if offset >= 0 && depth >= 0 then 1 + (if offset < |s| then |s| - offset else 0) else 0
    {
      if depth == 1 {
        var eq := NodeNameEq(f, offset, want);
        if eq {
          return;
        }
      }
      offset, depth := WalkNode(f, offset, depth);
    }
    if depth < 0 {
      return -NOTFOUND;
    }
  }

  // ---------------------------------------------------------------- properties

  /** nextprop_. */
  method WalkProp(f: Fdt, from: nat) returns (offset: int)
    requires Sound(f.State())
    ensures offset == NextPropFrom(Struct(f.State()), from)
  {
    hide NextTag, Clip;
    ghost var s := Struct(f.State());
    offset := from;
    while true
      invariant offset >= 0 && NextPropFrom(s, from) == NextPropFrom(s, offset)
      decreases |s| + 4 - offset
    {
      NextTagFacts(s, offset);
      var tag, next := WalkTag(f, offset);
      if tag == END {
        return if next >= 0 then -BADSTRUCTURE else next;
      } else if tag == PROP {
        return;
      }
      offset := next;
      if tag != NOP {
        return -NOTFOUND;
      }
    }
  }

  /** fdt_first_property_offset. */
  method WalkFirstProp(f: Fdt, node: int) returns (offset: int)
    requires Sound(f.State())
    ensures offset == FirstProp(Struct(f.State()), node)
  {
    hide NextTag, Clip, NextPropFrom;
    NextTagFacts(Struct(f.State()), node);
    offset := CheckNode(f, node);
    if offset >= 0 {
      offset := WalkProp(f, offset);
    }
  }

  /** fdt_next_property_offset. */
  method WalkNextProp(f: Fdt, off: int) returns (offset: int)
    requires Sound(f.State())
    ensures offset == NextProp(Struct(f.State()), off)
  {
    hide NextTag, Clip, NextPropFrom;
    NextTagFacts(Struct(f.State()), off);
    offset := CheckProp(f, off);
    if offset >= 0 {
      offset := WalkProp(f, offset);
    }
  }

  /** fdt_get_property_namelen_: the offset of the property, or an error. */
  method FindProperty(f: Fdt, node: int, name: seq<byte>) returns (offset: int)
    requires Sound(f.State())
    ensures offset == GetProp(Struct(f.State()), LegibleStrings(f.State()), node, name)
  {
    hide NextTag, Clip, NextPropFrom, FirstProp, NextProp, LegibleStrings, StringAt, U32;
    ghost var (s, t) := (Struct(f.State()), LegibleStrings(f.State()));
    offset := WalkFirstProp(f, node);
    while offset >= 0
      invariant GetProp(s, t, node, name) == if offset < 0 then offset else GetPropFrom(s, t, offset, name)
      decreases if offset < 0 then 0 else 1 + (if offset < |s| then |s| - offset else 0)
    {
      NextTagFacts(s, offset);
      var err := CheckProp(f, offset);
      if err < 0 {
        return -INTERNAL;
      }
      var nameoff := f.Load(offset + 8);
      var eq := StringEq(f, nameoff, name);
      if eq {
        return;
      }
      offset := WalkNextProp(f, offset);
    }
  }

  // ---------------------------------------------------------------- paths

  /** The loop of fdt_path_offset_namelen, from character `from` and the node at `at` on. */
  method WalkPath(f: Fdt, path: seq<byte>, from: nat, at: int) returns (offset: int)
    requires Sound(f.State()) && RoProbe(f.State()) >= 0 && from <= |path|
    ensures offset == PathOffsetFrom(Struct(f.State()), path, from, at)
  {
    hide SubnodeOffset, Clip, SlashFrom, RoProbe;
    ghost var s := Struct(f.State());
    var p := from;
    offset := at;
    while p < |path|
      invariant p <= |path| && PathOffsetFrom(s, path, from, at) == PathOffsetFrom(s, path, p, offset)
      decreases |path| - p, 1
    {
      while path[p] == SLASH
        invariant p < |path| && PathOffsetFrom(s, path, from, at) == PathOffsetFrom(s, path, p, offset)
        decreases |path| - p
      {
        p := p + 1;
        if p == |path| {
          return;
        }
      }
      var q := FindSlash(path, p);
      SlashPast(path, p);
      offset := FindSubnode(f, offset, path[p..q]);
      if offset < 0 {
        return;
      }
      p := q;
    }
  }

  /** fdt_get_alias_namelen. */
  method FindAlias(f: Fdt, name: seq<byte>) returns (p: int)
    requires Sound(f.State()) && RoProbe(f.State()) >= 0
    ensures p == AliasAt(f.State(), name)
  {
    hide PathOffsetFrom, GetProp, Clip, RoProbe;
    var node := WalkPath(f, ALIASES, 0, 0);
    if node < 0 {
      return node;
    }
    p := FindProperty(f, node, name);
  }

  /** fdt_path_offset_namelen. */
  method ResolvePath(f: Fdt, path: seq<byte>, fuel: nat) returns (found: Option<int>)
    requires Sound(f.State())
    ensures found == if RoProbe(f.State()) < 0 then Some(RoProbe(f.State())) else Lookup(f.State(), path, fuel)
    decreases fuel
  {
    hide PathOffsetFrom, AliasAt, StringIn, Clip, SlashFrom, RoProbe;
    var err := ProbeRo(f);
    if err < 0 {
      return Some(err);
    }
    if path != [] && path[0] == SLASH {
      var offset := WalkPath(f, path, 0, 0);
      return Some(offset);
    }
    var q := FindSlash(path, 0);
    var p := FindAlias(f, path[..q]);
    if p < 0 {
      return Some(-BADPATH);
    }
    if fuel == 0 {
      return None;
    }
    var value := ReadString(f, p + 12);
    found := ResolvePath(f, value, fuel - 1);
    if found.Some? {
      var offset := WalkPath(f, path, q, found.value);
      found := Some(offset);
    }
  }

  /** The string at `from`, up to its NUL or the end of the block. */
  method ReadString(f: Fdt, from: nat) returns (path: seq<byte>)
    requires Sound(f.State()) && from <= |Struct(f.State())|
    ensures path == StringIn(Struct(f.State()), from)
  {
    hide Clip;
    ghost var s := Struct(f.State());
    var at := from;
    path := [];
    while true
      invariant from <= at <= |s| && path == s[from..at] && NulFrom(s, at) == NulFrom(s, from)
      decreases |s| - at
    {
      var inside := f.OffsetPtr(at, 1);
      if !inside {
        return;
      }
      var c := f.ByteAt(at);
      if c == 0 {
        return;
      }
      path := path + [c];
      at := at + 1;
    }
  }

  lemma SlashPast(path: seq<byte>, p: nat)
    requires p < |path| && path[p] != SLASH
    ensures SlashFrom(path, p) > p
  {
  }

  /** memchr for a slash. */
  method FindSlash(path: seq<byte>, p: nat) returns (q: nat)
    requires p <= |path|
    ensures q == SlashFrom(path, p)
  {
    q := p;
    while q < |path| && path[q] != SLASH
      invariant p <= q <= |path| && SlashFrom(path, p) == SlashFrom(path, q)
    {
      q := q + 1;
    }
  }

  // ---------------------------------------------------------------- checking

  /** fdt_num_mem_rsv. */
  method CountRsv(f: Fdt) returns (n: int)
    requires Sound(f.State())
    ensures n == NumMemRsv(f.State(), 0)
  {
    hide U32;
    ghost var b := f.State();
    n := 0;
    while f.offRsv + RSV_ENTRY * n + RSV_ENTRY <= f.total
      invariant n >= 0 && NumMemRsv(b, 0) == NumMemRsv(b, n)
      decreases f.total - (f.offRsv + RSV_ENTRY * n)
    {
      var hi := f.Word(f.offRsv + RSV_ENTRY * n + 8);
      var lo := f.Word(f.offRsv + RSV_ENTRY * n + 12);
      if hi == 0 && lo == 0 {
        return;
      }
      n := n + 1;
    }
    n := -TRUNCATED;
  }

  /** fdt_check_header. */
  method VerifyHeader(f: Fdt) returns (r: int)
    ensures r == CheckHeader(f.State())
  {
    if f.magic != MAGIC {
      return -BADMAGIC;
    }
    if f.total < HEADER || f.total > INT_MAX {
      return -TRUNCATED;
    }
    if f.offRsv < HEADER || f.offRsv > f.total {
      return -TRUNCATED;
    }
    if f.offStruct < HEADER || f.offStruct + f.sizeStruct > f.total {
      return -TRUNCATED;
    }
    if f.offStrings < HEADER || f.offStrings + f.sizeStrings > f.total {
      return -TRUNCATED;
    }
    return 0;
  }

  /** fdt_check_full. */
  method VerifyFull(f: Fdt, bufsize: nat) returns (r: int)
    requires Sound(f.State()) && f.total != INT_MAX && Unwrapped(Struct(f.State()), Strings(f.State()), 0, 0)
    ensures r == CheckFull(f.State(), bufsize)
  {
    hide NextTag, U32, Clip, StringAt, NumMemRsv, StringError;
    ghost var b := f.State();
    ghost var (s, t) := (Struct(b), Strings(b));
    if bufsize < 28 {
      return -TRUNCATED;
    }
    r := VerifyHeader(f);
    if r != 0 {
      return;
    }
    if bufsize < f.total {
      return -TRUNCATED;
    }
    var rsv := CountRsv(f);
    if rsv < 0 {
      return rsv;
    }
    var next, depth := 0, 0;
    while true
      invariant next >= 0 && depth >= 0 && CheckWalk(s, t, 0, 0) == CheckWalk(s, t, next, depth)
      decreases |s| + 4 - next
    {
      var offset := next;
      NextTagFacts(s, offset);
      var tag;
      tag, next := WalkTag(f, offset);
      if next < 0 {
        return next;
      }
      if tag == END {
        return if depth != 0 then -BADSTRUCTURE else 0;
      } else if tag == BEGIN_NODE {
        depth := depth + 1;
      } else if tag == END_NODE {
        if depth == 0 {
          return -BADSTRUCTURE;
        }
        depth := depth - 1;
      } else if tag == PROP {
        r := CheckProp(f, offset);
        if r < 0 {
          return;
        }
        var nameoff := f.Load(offset + 8);
        var name;
        r, name := GetString(f, nameoff);
        if r < 0 {
          return;
        }
      }
    }
  }
}
