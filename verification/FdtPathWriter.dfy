/** fdt_get_path as the loop that pushes and pops path components in the caller's buffer. */
module FdtPathWriter {
  import opened Bytes
  import opened FdtFormat
  import opened FdtRead
  import opened FdtEdit
  import opened FdtBuffer
  import opened FdtWalkers
  import opened FdtReaders
  import opened FdtPath

  function Slashes(b: seq<byte>): (n: nat)
    ensures n > 0 ==> b != []
  {
    if b == [] then 0 else Slashes(b[..|b| - 1]) + if b[|b| - 1] == SLASH then 1 else 0
  }

  /** Enough components to pop: every one ends in a slash of its own. */
  predicate Stacked(b: seq<byte>, pdepth: nat) {
    Slashes(b) >= pdepth && (b != [] ==> b[|b| - 1] == SLASH)
  }

  lemma {:induction false} SlashesUpTo(b: seq<byte>, i: nat)
    requires i <= |b|
    ensures Slashes(b) >= Slashes(b[..i])
    decreases |b|
  {
    if i == |b| {
      assert b[..i] == b;
    } else {
      assert b[..|b| - 1][..i] == b[..i];
      SlashesUpTo(b[..|b| - 1], i);
    }
  }

  lemma Push(b: seq<byte>, pdepth: nat, name: seq<byte>)
    requires Stacked(b, pdepth)
    ensures Stacked(b + name + [SLASH], pdepth + 1)
  {
    var c := b + name + [SLASH];
    assert c[..|c| - 1] == b + name;
    assert (b + name)[..|b|] == b;
    SlashesUpTo(b + name, |b|);
  }

  /** Dropping characters until the one before the last is a slash. */
  lemma {:induction false} PopKeeps(b: seq<byte>, n: nat)
    requires b != [] && Slashes(b[..|b| - 1]) >= n
    ensures Stacked(Pop(b), n) && (n > 0 ==> |b| > 1)
    decreases |b|
  {
    if |b| > 1 && b[|b| - 2] != SLASH {
      assert b[..|b| - 1][|b| - 2] == b[|b| - 2];
      PopKeeps(b[..|b| - 1], n);
    }
  }

  /** The popping loop. */
  method PopLast(buf: array<byte>, p: nat, pdepth: nat) returns (q: nat)
    requires 0 < p <= buf.Length && Stacked(buf[..p], pdepth) && pdepth >= 2
    ensures q < p && buf[..q] == Pop(buf[..p]) && Stacked(buf[..q], pdepth - 1)
  {
    ghost var b := buf[..p];
    PopKeeps(b, pdepth - 1);
    assert b[..p - 1] == buf[..p - 1];
    q := p - 1;
    while buf[q - 1] != SLASH
      invariant 0 < q < p && Slashes(buf[..q]) >= pdepth - 1
      invariant Pop(b) == if buf[q - 1] == SLASH then buf[..q] else Pop(buf[..q])
      decreases q
    {
      assert buf[..q][..q - 1] == buf[..q - 1];
      q := q - 1;
    }
  }

  method PopTo(buf: array<byte>, p: nat, pdepth: nat, depth: nat) returns (q: nat, d: nat)
    requires p <= buf.Length && Stacked(buf[..p], pdepth) && (depth > 0 || pdepth == 0)
    ensures q <= p && Stack(buf[..q], d) == FdtPath.PopTo(Stack(buf[..p], pdepth), depth) && Stacked(buf[..q], d)
  {
    hide Stacked, Pop;
    q, d := p, pdepth;
    while d > depth
      invariant 0 <= q <= p && d >= 0 && Stacked(buf[..q], d)
      invariant FdtPath.PopTo(Stack(buf[..p], pdepth), depth) == FdtPath.PopTo(Stack(buf[..q], d), depth)
    {
      Tall(buf[..q], d);
      q := PopLast(buf, q, d);
      d := d - 1;
    }
  }

  method PushName(buf: array<byte>, p: nat, name: seq<byte>) returns (q: nat)
    requires p + |name| + 1 <= buf.Length
    modifies buf
    ensures q == p + |name| + 1 && buf[..q] == old(buf[..p]) + name + [SLASH]
  {
    Memcpy(buf, p, name);
    q := p + |name|;
    buf[q] := SLASH;
    q := q + 1;
  }

  /** The last slash, but not the only one, becomes the NUL. */
  method Terminate(buf: array<byte>, p: nat)
    requires 0 < p <= buf.Length && buf.Length >= 2
    modifies buf
    ensures var path := if p > 1 then old(buf[..p - 1]) else old(buf[..p]);
      |path| < buf.Length && buf[..|path| + 1] == path + [0]
  {
    buf[if p > 1 then p - 1 else p] := 0;
  }

  /** fdt_get_path. */
  method WritePath(f: Fdt, node: int, buf: array<byte>) returns (err: int)
    requires Sound(f.State()) && buf != f.buf
    modifies buf
    ensures f.State() == old(f.State())
    ensures RoProbe(f.State()) < 0 ==> err == RoProbe(f.State())
    ensures RoProbe(f.State()) >= 0 ==>
      var g := GetPath(Struct(f.State()), node, buf.Length);
      err == g.err && (err == 0 ==> |g.path| < buf.Length && buf[..|g.path| + 1] == g.path + [0])
  {
    hide NextTag, U32, NulFrom, NextNode, Clip, NodeName, Stacked, Pop, RoProbe, FdtPath.PopTo, CheckNodeOffset;
    ghost var s := Struct(f.State());
    ghost var buflen := buf.Length;
    err := ProbeRo(f);
    if err < 0 {
      return;
    }
    if buf.Length < 2 {
      return -NOSPACE;
    }
    var pdepth, p := 0, 0;
    var offset, depth := 0, 0;
    assert buf[..p] == [];
    Nothing();
    while 0 <= offset <= node && depth >= 0
      invariant f.State() == old(f.State())
      invariant 0 <= p <= buf.Length && pdepth >= 0 && Stacked(buf[..p], pdepth)
      invariant GetPath(s, node, buflen) == GetPathLoop(s, node, Place(offset, depth), Stack(buf[..p], pdepth), buflen)
      invariant offset >= 0 ==> depth > 0 || depth < 0 || pdepth == 0
      decreases if offset >= 0 && depth >= 0 then 1 + (if offset < |s| then |s| - offset else 0) else 0
    {
      p, pdepth := PopTo(buf, p, pdepth, depth);
      var len, name := GetName(f, offset);
      if len < 0 {
        assert CheckNodeOffset(s, offset) < 0;
        return -BADOFFSET;
      }
      if pdepth >= depth && p + len + 1 <= buf.Length {
        Push(buf[..p], pdepth, name);
        p := PushName(buf, p, name);
        pdepth := pdepth + 1;
      }
      if offset == node {
        if pdepth < depth + 1 {
          return -NOSPACE;
        }
        Tall(buf[..p], pdepth);
        Terminate(buf, p);
        return 0;
      }
      DeeperOrOut(s, offset, depth);
      offset, depth := WalkNode(f, offset, depth);
    }
    return if offset == -NOTFOUND || offset >= 0 then -BADOFFSET
      else if offset == -BADOFFSET then -BADSTRUCTURE else offset;
  }

  lemma Nothing()
    ensures Stacked([], 0)
  {
  }

  lemma Tall(b: seq<byte>, pdepth: nat)
    requires Stacked(b, pdepth) && pdepth > 0
    ensures b != []
  {
  }

  lemma {:induction false} BelowFrom(s: seq<byte>, pos: nat, depth: nat)
    ensures var r := NextNodeFrom(s, pos, depth); r.offset >= 0 ==> r.depth != 0
    decreases |s| - pos
  {
    hide NextTag;
    NextTagFacts(s, pos);
    var t := NextTag(s, pos);
    if t.tag == END_NODE && depth > 0 {
      BelowFrom(s, t.next, depth - 1);
    } else if t.tag == PROP || t.tag == NOP {
      BelowFrom(s, t.next, depth);
    }
  }

  /** The walk from inside a node never comes to a node at its starting level. */
  lemma DeeperOrOut(s: seq<byte>, off: nat, depth: nat)
    ensures var r := NextNode(s, off, depth); r.offset >= 0 ==> r.depth != 0
  {
    hide NextTag, NextNodeFrom;
    NextTagFacts(s, off);
    var n := CheckNodeOffset(s, off);
    if n >= 0 {
      BelowFrom(s, n, depth);
    }
  }
}
