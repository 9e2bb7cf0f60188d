/** The sequential writer of fdt_sw.c at work on the buffer. */
module FdtSwWriter {
  import opened Wrappers
  import opened Bytes
  import opened FdtFormat
  import opened FdtTree
  import opened FdtEdit
  import opened FdtEditBlocks
  import opened FdtBuild
  import opened FdtBuffer
  import opened FdtWalkers
  import opened FdtEditors

  const NO_NAME_DEDUP: nat := 1

  method ProbeSw(f: Fdt) returns (r: int)
    ensures r == SwProbe(f.State())
  {
    r := if f.magic == MAGIC then -BADSTATE else if f.magic != SW_MAGIC then -BADMAGIC else 0;
  }

  method ProbeStruct(f: Fdt) returns (r: int)
    ensures r == SwProbeStruct(f.State())
  {
    r := ProbeSw(f);
    if r == 0 && f.offStrings != f.total {
      r := -BADSTATE;
    }
  }

  method ProbeMemrsv(f: Fdt) returns (r: int)
    ensures r == SwProbeMemrsv(f.State())
  {
    r := ProbeSw(f);
    if r == 0 && f.offStrings != 0 {
      r := -BADSTATE;
    }
  }

  /** fdt_create_with_flags: a cleared buffer in the reservation state. */
  method CreateTree(buf: array<byte>, flags: nat) returns (err: int, f: Fdt?)
    modifies buf
    ensures err == Create(buf.Length, flags).err
    ensures err == 0 <==> f != null
    ensures f != null ==> fresh(f) && f.buf == buf && f.flags == flags && f.State() == Create(buf.Length, flags).blob
  {
    f := null;
    if buf.Length < CREATE_OFFSET {
      return -NOSPACE, null;
    }
    if flags > NO_NAME_DEDUP {
      return -BADFLAGS, null;
    }
    for i := 0 to buf.Length
      invariant forall k :: 0 <= k < i ==> buf[k] == 0
    {
      buf[i] := 0;
    }
    AllZeros(buf[..]);
    f := new Fdt(buf, SW_MAGIC, buf.Length, CREATE_OFFSET, CREATE_OFFSET, 0, 0, 0, flags);
    err := 0;
  }

  lemma {:induction false} AllZeros(s: seq<byte>)
    requires forall k :: 0 <= k < |s| ==> s[k] == 0
    ensures s == Zeros(|s|)
  {
    if s != [] {
      AllZeros(s[1..]);
      assert s == [s[0]] + s[1..];
    }
  }

  /** fdt_add_reservemap_entry. */
  method AddReserve(f: Fdt, addr: nat, size: nat) returns (err: int)
    requires Room(f.State()) && addr < WORD * WORD && size < WORD * WORD
    modifies f, f.buf
    ensures Edited(err, f.State()) == AddReservemapEntry(old(f.State()), addr, size)
    ensures f.flags == old(f.flags)
  {
    hide BE64, Put;
    err := ProbeMemrsv(f);
    if err != 0 {
      return;
    }
    if f.offStruct + RSV_ENTRY > f.total {
      return -NOSPACE;
    }
    Memcpy(f.buf, f.offStruct, BE64(addr) + BE64(size));
    f.offStruct := f.offStruct + RSV_ENTRY;
  }

  /** fdt_finish_reservemap. */
  method FinishReserves(f: Fdt) returns (err: int)
    requires Room(f.State())
    modifies f, f.buf
    ensures Edited(err, f.State()) == FinishReservemap(old(f.State()))
    ensures f.flags == old(f.flags)
  {
    hide AddReservemapEntry;
    err := AddReserve(f, 0, 0);
    if err != 0 {
      return;
    }
    f.offStrings := f.total;
  }

  /** fdt_grab_space_: the offset of the new bytes in the structure block, or -1. */
  method Grab(f: Fdt, len: nat) returns (at: int)
    requires Room(f.State())
    modifies f
    ensures f.flags == old(f.flags)
    ensures match GrabSpace(old(f.State()), len)
      case None => at == -1 && f.State() == old(f.State())
      case Some(g) => at == old(f.sizeStruct) && f.State() == g
  {
    at := f.sizeStruct;
    if at + len > f.total - f.offStruct - f.sizeStrings {
      return -1;
    }
    f.sizeStruct := at + len;
  }

  /** Bytes stored into the structure block. */
  method WriteAt(f: Fdt, at: nat, x: seq<byte>)
    requires f.offStruct + at + |x| <= f.buf.Length
    modifies f.buf
    ensures f.State() == Write(old(f.State()), at, x)
  {
    hide Put;
    Memcpy(f.buf, f.offStruct + at, x);
  }

  /** fdt_begin_node. */
  method BeginNode(f: Fdt, name: seq<byte>) returns (err: int)
    requires Room(f.State())
    modifies f, f.buf
    ensures Edited(err, f.State()) == Begin(old(f.State()), name)
    ensures f.flags == old(f.flags)
  {
    hide Align4, BE32, Put;
    err := ProbeStruct(f);
    if err != 0 {
      return;
    }
    var at := Grab(f, 4 + Align4(|name| + 1));
    if at < 0 {
      return -NOSPACE;
    }
    WriteAt(f, at, BE32(BEGIN_NODE));
    WriteAt(f, at + 4, name + [0]);
  }

  /** fdt_end_node. */
  method EndNode(f: Fdt) returns (err: int)
    requires Room(f.State())
    modifies f, f.buf
    ensures Edited(err, f.State()) == EndIt(old(f.State()))
    ensures f.flags == old(f.flags)
  {
    hide BE32, Put;
    err := ProbeStruct(f);
    if err != 0 {
      return;
    }
    var at := Grab(f, 4);
    if at < 0 {
      return -NOSPACE;
    }
    WriteAt(f, at, BE32(END_NODE));
  }

  /** fdt_add_string_ and fdt_find_add_string_. */
  method AddName(f: Fdt, name: seq<byte>, dedup: bool) returns (off: int, grew: bool)
    requires Room(f.State()) && f.offStrings == f.total
    modifies f, f.buf
    ensures Added(off, grew, f.State()) == FindAdd(old(f.State()), name, dedup)
    ensures f.flags == old(f.flags)
  {
    hide FindString, Put;
    var size := f.sizeStrings;
    if dedup {
      var i := SearchString(f.buf, f.total - size, size, name);
      if i >= 0 {
        return i - size, false;
      }
    }
    grew := true;
    off := -size - (|name| + 1);
    if f.total + off < f.offStruct + f.sizeStruct {
      return 0, true;
    }
    Memcpy(f.buf, f.total + off, name + [0]);
    f.sizeStrings := size + |name| + 1;
  }

  /** fdt_property. */
  method WriteProperty(f: Fdt, name: seq<byte>, val: seq<byte>) returns (err: int)
    requires Room(f.State()) && |val| < WORD
    modifies f, f.buf
    ensures Edited(err, f.State()) == Property(old(f.State()), name, val, old(f.flags) % 2 == 0)
    ensures f.flags == old(f.flags)
  {
    hide Align4, BE32, Put, FindAdd;
    err := ProbeStruct(f);
    if err != 0 {
      return;
    }
    var off, grew := AddName(f, name, f.flags % 2 == 0);
    if off == 0 {
      return -NOSPACE;
    }
    var at := Grab(f, 12 + Align4(|val|));
    if at < 0 {
      if grew {
        f.sizeStrings := f.sizeStrings - (|name| + 1);
      }
      return -NOSPACE;
    }
    WriteAt(f, at, BE32(PROP));
    WriteAt(f, at + 8, BE32(WORD + off));
    WriteAt(f, at + 4, BE32(|val|));
    WriteAt(f, at + 12, val);
  }

  /** The name-correcting walk of fdt_finish: where it stopped. */
  method CorrectNames(f: Fdt) returns (next: int)
    requires f.total <= f.buf.Length && f.offStruct + f.sizeStruct <= f.total
    modifies f.buf
    ensures var (lo, hi) := (f.offStruct, f.offStruct + f.sizeStruct);
      var walk := FixNames(old(f.buf[lo..hi]), 0, f.sizeStrings);
      next == walk.1 && f.buf[..] == Put(old(f.buf[..]), lo, walk.0)
  {
    hide NextTag, BE32, U32, Put;
    var lo, hi := f.offStruct, f.offStruct + f.sizeStruct;
    ghost var all := FixNames(f.buf[lo..hi], 0, f.sizeStrings);
    PutBack(f.buf[..], lo, hi, f.buf[..]);
    var offset := 0;
    var tag;
    tag, next := WalkTag(f, offset);
    while tag != END
      invariant f.offStruct == lo && Struct(f.State()) == f.buf[lo..hi]
      invariant offset >= 0 && NextTag(f.buf[lo..hi], offset) == Step(tag, next)
      invariant FixNames(f.buf[lo..hi], offset, f.sizeStrings) == all
      invariant f.buf[..] == Put(old(f.buf[..]), lo, f.buf[lo..hi])
      decreases hi - lo + 4 - offset
    {
      ghost var s := f.buf[lo..hi];
      NextTagFacts(s, offset);
      if tag == PROP {
        var nameoff := f.Load(offset + 8);
        f.StoreWord(lo + offset + 8, Moved32(nameoff, f.sizeStrings));
        StoreInside(old(f.buf[..]), s, lo, offset + 8, BE32(Moved32(nameoff, f.sizeStrings)), f.buf[..]);
      }
      offset := next;
      tag, next := WalkTag(f, offset);
    }
  }

  /** fdt_finish. */
  method FinishTree(f: Fdt) returns (err: int)
    requires Room(f.State())
    modifies f, f.buf
    ensures Edited(err, f.State()) == Finish(old(f.State()))
  {
    hide BE32, FixNames, Put;
    err := ProbeStruct(f);
    if err != 0 {
      return;
    }
    var at := Grab(f, 4);
    if at < 0 {
      return -NOSPACE;
    }
    WriteAt(f, at, BE32(END));
    var newoff := f.offStruct + f.sizeStruct;
    Memmove(f.buf, newoff, f.total - f.sizeStrings, f.sizeStrings);
    f.offStrings := newoff;
    var next := CorrectNames(f);
    if next < 0 {
      return next;
    }
    f.total := newoff + f.sizeStrings;
    f.flags := 2;
    f.magic := MAGIC;
  }

  lemma PutBack(was: seq<byte>, lo: nat, hi: nat, now: seq<byte>)
    requires lo <= hi <= |was| && now == was
    ensures now == Put(was, lo, now[lo..hi])
  {
  }

  /** A store inside the region of an earlier store. */
  lemma StoreInside(was: seq<byte>, s: seq<byte>, lo: nat, at: nat, x: seq<byte>, now: seq<byte>)
    requires lo + |s| <= |was| && at + |x| <= |s|
    requires now == Put(Put(was, lo, s), lo + at, x)
    ensures now[lo..lo + |s|] == Put(s, at, x) && now == Put(was, lo, Put(s, at, x))
  {
    PutHere(was, lo, s);
    PutInside(Put(was, lo, s), lo + at, x, lo, lo + |s|);
  }
}
