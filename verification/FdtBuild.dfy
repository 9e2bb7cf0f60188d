/** The sequential writer of fdt_sw.c as functions on the blob under construction.
    Until fdt_finish the strings block grows down from the end of the buffer, name
    offsets are negative, and header fields hold the writer's state. */
module FdtBuild {
  import opened Wrappers
  import opened Bytes
  import opened FdtFormat
  import opened FdtTree
  import opened FdtRead
  import opened FdtEdit
  import opened FdtEditBlocks
  import opened FdtEditTheorems

  const CREATE_OFFSET: nat := 48

  function SwProbe(b: Blob): int {
    if b.magic == MAGIC then -BADSTATE else if b.magic != SW_MAGIC then -BADMAGIC else 0
  }

  function SwProbeStruct(b: Blob): int {
    if SwProbe(b) != 0 then SwProbe(b) else if b.offStrings != b.total then -BADSTATE else 0
  }

  function SwProbeMemrsv(b: Blob): int {
    if SwProbe(b) != 0 then SwProbe(b) else if b.offStrings != 0 then -BADSTATE else 0
  }

  /** The structure block and the strings block do not overlap in the buffer. */
  predicate Room(b: Blob) {
    && b.total == |b.buf| < INT_MAX && b.sizeStruct % 4 == 0
    && b.offStruct + b.sizeStruct + b.sizeStrings <= b.total
    && b.offRsv == CREATE_OFFSET <= b.offStruct
    && (b.offStrings != b.total ==> b.sizeStruct == 0 && b.sizeStrings == 0)
  }

  function Create(bufsize: nat, flags: nat): (r: Edited)
  {
    var zero := Blob(Zeros(bufsize), SW_MAGIC, bufsize, CREATE_OFFSET, CREATE_OFFSET, 0, 0, 0);
    if bufsize < CREATE_OFFSET then Edited(-NOSPACE, zero)
    else if flags > 1 then Edited(-BADFLAGS, zero)
    else Edited(0, zero)
  }

  function BE64(v: nat): (b: seq<byte>)
    requires v < WORD * WORD
    ensures |b| == 8
  {
    BE32(v / WORD) + BE32(v % WORD)
  }

  function AddReservemapEntry(b: Blob, addr: nat, size: nat): (r: Edited)
    requires Room(b) && addr < WORD * WORD && size < WORD * WORD
    ensures Room(r.blob)
  {
    hide BE32;
    if SwProbeMemrsv(b) != 0 then Edited(SwProbeMemrsv(b), b)
    else if b.offStruct + RSV_ENTRY > b.total then Edited(-NOSPACE, b)
    else Edited(0, b.(buf := Put(b.buf, b.offStruct, BE64(addr) + BE64(size)), offStruct := b.offStruct + RSV_ENTRY))
  }

  function FinishReservemap(b: Blob): (r: Edited)
    requires Room(b)
    ensures Room(r.blob)
  {
    var e := AddReservemapEntry(b, 0, 0);
    if e.err != 0 then e else Edited(0, e.blob.(offStrings := e.blob.total))
  }

  // ---------------------------------------------------------------- structure

  /** fdt_grab_space_: the blob with `len` more bytes of structure, if they fit. */
  function GrabSpace(b: Blob, len: nat): Option<Blob>
    requires Room(b)
  {
    if b.sizeStruct + len > b.total - b.offStruct - b.sizeStrings then None
    else Some(b.(sizeStruct := b.sizeStruct + len))
  }

  /** Bytes stored where the structure block ended before the last grab. */
  function Write(b: Blob, at: nat, x: seq<byte>): Blob
    requires b.offStruct + at + |x| <= |b.buf|
  {
    b.(buf := Put(b.buf, b.offStruct + at, x))
  }

  function Begin(b: Blob, name: seq<byte>): (r: Edited)
    requires Room(b)
    ensures Room(r.blob)
  {
    hide Align4, BE32, Put;
    if SwProbeStruct(b) != 0 then Edited(SwProbeStruct(b), b)
    else match GrabSpace(b, 4 + Align4(|name| + 1))
      case None => Edited(-NOSPACE, b)
      case Some(g) => Edited(0, Write(Write(g, b.sizeStruct, BE32(BEGIN_NODE)), b.sizeStruct + 4, name + [0]))
  }

  function EndIt(b: Blob): (r: Edited)
    requires Room(b)
    ensures Room(r.blob)
  {
    hide BE32;
    if SwProbeStruct(b) != 0 then Edited(SwProbeStruct(b), b)
    else match GrabSpace(b, 4)
      case None => Edited(-NOSPACE, b)
      case Some(g) => Edited(0, Write(g, b.sizeStruct, BE32(END_NODE)))
  }

  /** The strings block while it grows down from the end of the buffer. */
  function Table(b: Blob): seq<byte>
    requires Room(b)
  {
    b.buf[b.total - b.sizeStrings..b.total]
  }

  /** fdt_add_string_ and fdt_find_add_string_: the offset from the end of the buffer,
      0 for "no more room". */
  function FindAdd(b: Blob, name: seq<byte>, dedup: bool): (r: Added)
    requires Room(b) && b.offStrings == b.total
    ensures r.off <= 0
    ensures r.off < 0 ==> -r.off <= r.blob.sizeStrings && Room(r.blob) && r.blob == b.(buf := r.blob.buf, sizeStrings := r.blob.sizeStrings)
    ensures r.off < 0 && r.grew ==> r.blob.sizeStrings == b.sizeStrings + |name| + 1
    ensures r.off < 0 && !r.grew ==> r.blob == b
    ensures r.off == 0 ==> r.blob == b
  {
    var size: int := b.sizeStrings;
    var i := if dedup then FindString(Table(b), 0, name) else -1;
    if i >= 0 then Added(i - size, false, b)
    else if b.total - size - (|name| + 1) < b.offStruct + b.sizeStruct then Added(0, true, b)
    else Added(-size - (|name| + 1), true, b.(
      buf := Put(b.buf, b.total - size - (|name| + 1), name + [0]),
      sizeStrings := size + |name| + 1))
  }

  /** Tag, name offset, length and value stored in the bytes just grabbed at `q`. */
  function WriteProp(g: Blob, q: nat, nameoff: nat, val: seq<byte>): (r: Blob)
    requires Room(g) && nameoff < WORD && |val| < WORD && g.offStruct + q + 12 + |val| <= |g.buf|
    ensures Room(r)
  {
    hide BE32, Put;
    var b1 := Write(g, q, BE32(PROP));
    var b2 := Write(b1, q + 8, BE32(nameoff));
    var b3 := Write(b2, q + 4, BE32(|val|));
    Write(b3, q + 12, val)
  }

  function Property(b: Blob, name: seq<byte>, val: seq<byte>, dedup: bool): (r: Edited)
    requires Room(b) && |val| < WORD
    ensures Room(r.blob)
  {
    hide Align4, BE32, FindAdd;
    if SwProbeStruct(b) != 0 then Edited(SwProbeStruct(b), b)
    else
      var a := FindAdd(b, name, dedup);
      if a.off == 0 then Edited(-NOSPACE, b)
      else match GrabSpace(a.blob, 12 + Align4(|val|))
        case None =>
          Edited(-NOSPACE, if a.grew then a.blob.(sizeStrings := a.blob.sizeStrings - (|name| + 1)) else a.blob)
        case Some(g) =>
          Edited(0, WriteProp(g, b.sizeStruct, WORD + a.off, val))
  }

  // ---------------------------------------------------------------- finishing

  /** A stored name offset moved by `n`, in 32-bit arithmetic. */
  function Moved32(nameoff: nat, n: nat): (r: nat)
    ensures r < WORD
  {
    (nameoff + n) % WORD
  }

  /** The block after the name-correcting walk of fdt_finish, and where it stopped. */
  function FixNames(s: seq<byte>, pos: nat, n: nat): (r: (seq<byte>, int))
    ensures |r.0| == |s|
    decreases |s| - pos
  {
    hide U32, BE32, NulFrom, NextTag;
    NextTagFacts(s, pos);
    var t := NextTag(s, pos);
    if t.tag == END then (s, t.next)
    else
      var s' := if t.tag == PROP then Put(s, pos + 8, BE32(Moved32(U32(s, pos + 8), n))) else s;
      FixNames(s', t.next, n)
  }

  function Finish(b: Blob): (r: Edited)
    requires Room(b)
  {
    hide BE32, FixNames;
    if SwProbeStruct(b) != 0 then Edited(SwProbeStruct(b), b)
    else match GrabSpace(b, 4)
      case None => Edited(-NOSPACE, b)
      case Some(g) =>
        var b1 := Write(g, b.sizeStruct, BE32(END));
        var newoff := b1.offStruct + b1.sizeStruct;
        var buf := Moved(b1.buf, newoff, b1.total - b1.sizeStrings, b1.sizeStrings);
        var walk := FixNames(buf[b1.offStruct..newoff], 0, b1.sizeStrings);
        var b2 := b1.(buf := Put(buf, b1.offStruct, walk.0), offStrings := newoff);
        if walk.1 < 0 then Edited(walk.1, b2)
        else Edited(0, b2.(total := newoff + b1.sizeStrings, magic := MAGIC))
  }

  // ---------------------------------------------------------------- what a builder call list spells

  /** Builder calls are items: begin, end and property calls with their arguments. */
  function Call(b: Blob, i: Item, dedup: bool): (r: Edited)
    requires Room(b) && (i.IProp? ==> i.name.Some? && |i.val| < WORD) && !i.INop?
    ensures Room(r.blob)
  {
    match i
    case IBegin(name) => Begin(b, name)
    case IEnd => EndIt(b)
    case IProp(name, val) => Property(b, name.value, val, dedup)
  }

  /** A call that the writer can make: names without NUL, a value shorter than 2^32. */
  predicate Callable(i: Item) {
    match i
    case IBegin(name) => 0 !in name
    case IEnd => true
    case IProp(name, val) => name.Some? && 0 !in name.value && |val| < WORD
    case INop => false
  }

  /** The token with its name offset counted from the start of the strings block. */
  function Rebase(k: Token, n: nat): Token {
    if k.Prop? then k.(nameoff := Moved32(k.nameoff, n)) else k
  }

  function RebaseAll(toks: seq<Token>, n: nat): (r: seq<Token>)
    ensures |r| == |toks|
  {
    if toks == [] then [] else [Rebase(toks[0], n)] + RebaseAll(toks[1..], n)
  }

  /** Every name offset is negative and points into a strings block of `n` bytes. */
  ghost predicate Negative(toks: seq<Token>, n: nat) {
    forall i :: 0 <= i < |toks| && toks[i].Prop? ==> WORD <= toks[i].nameoff + n < WORD + n
  }

  /** The builder has been given exactly the calls `calls`. */
  ghost predicate Built(b: Blob, toks: seq<Token>, calls: seq<Item>) {
    && Room(b) && SwProbeStruct(b) == 0
    && AllOk(toks) && b.buf[b.offStruct..b.offStruct + b.sizeStruct] == Flat(toks)
    && Negative(toks, b.sizeStrings)
    && Items(RebaseAll(toks, b.sizeStrings), Table(b)) == calls
  }

  // ---------------------------------------------------------------- one call

  lemma RebaseCons(k: Token, toks: seq<Token>, n: nat)
    ensures RebaseAll([k] + toks, n) == [Rebase(k, n)] + RebaseAll(toks, n)
  {
    hide Rebase;
    assert ([k] + toks)[1..] == toks;
  }

  lemma {:induction false} RebaseConcat(a: seq<Token>, c: seq<Token>, n: nat)
    ensures RebaseAll(a + c, n) == RebaseAll(a, n) + RebaseAll(c, n)
  {
    hide RebaseAll, Rebase;
    if a == [] {
      assert a + c == c && RebaseAll(a, n) == [];
    } else {
      var rest := a[1..];
      RebaseConcat(rest, c, n);
      RebaseCons(a[0], rest, n);
      RebaseCons(a[0], rest + c, n);
      assert a == [a[0]] + rest;
      assert a + c == [a[0]] + (rest + c);
    }
  }

  lemma StringShift(t: seq<byte>, x: seq<byte>, off: nat)
    ensures StringAt(x + t, |x| + off) == StringAt(t, off)
  {
    hide NulFrom;
    if off < |t| {
      NulShift(t, x, off);
      var e := NulFrom(t, off);
      assert (x + t)[|x| + off..|x| + e] == t[off..e];
    }
  }

  lemma {:induction false} NulShift(t: seq<byte>, x: seq<byte>, i: nat)
    requires i <= |t|
    ensures NulFrom(x + t, |x| + i) == |x| + NulFrom(t, i)
    decreases |t| - i
  {
    if i < |t| && t[i] != 0 {
      NulShift(t, x, i + 1);
    }
  }

  lemma NegativeTail(toks: seq<Token>, n: nat)
    requires toks != [] && Negative(toks, n)
    ensures Negative(toks[1..], n)
  {
    assert forall i :: 0 <= i < |toks[1..]| ==> toks[1..][i] == toks[i + 1];
  }

  lemma NegativeMove(k: Token, n: nat)
    requires k.Prop? && WORD <= k.nameoff + n < WORD + n && n < WORD
    ensures Moved32(k.nameoff, n) == k.nameoff + n - WORD
  {
  }

  /** Strings put in front of the table move no name already in use. */
  lemma {:induction false} ItemsPrepend(toks: seq<Token>, t: seq<byte>, x: seq<byte>)
    requires Negative(toks, |t|) && |t| + |x| < WORD
    ensures Negative(toks, |x| + |t|)
    ensures Items(RebaseAll(toks, |x| + |t|), x + t) == Items(RebaseAll(toks, |t|), t)
  {
    hide Moved32, StringAt;
    if toks != [] {
      NegativeTail(toks, |t|);
      ItemsPrepend(toks[1..], t, x);
      if toks[0].Prop? {
        NegativeMove(toks[0], |t|);
        NegativeMove(toks[0], |x| + |t|);
        StringShift(t, x, toks[0].nameoff + |t| - WORD);
      }
      var a, c := RebaseAll(toks, |x| + |t|), RebaseAll(toks, |t|);
      assert a[1..] == RebaseAll(toks[1..], |x| + |t|) && c[1..] == RebaseAll(toks[1..], |t|);
    }
  }

  /** The chunk written by a call, and the token it spells. */
  lemma Extend(b: Blob, toks: seq<Token>, calls: seq<Item>, k: Token, item: Item, b': Blob)
    requires Built(b, toks, calls) && TokenOk(k)
    requires Room(b') && SwProbeStruct(b') == 0
    requires b'.buf[b'.offStruct..b'.offStruct + b'.sizeStruct] == Flat(toks) + BytesOf(k)
    requires exists x :: Table(b') == x + Table(b)
    requires k.Prop? ==> WORD <= k.nameoff + b'.sizeStrings < WORD + b'.sizeStrings
    requires ItemOf(Rebase(k, b'.sizeStrings), Table(b')) == item
    ensures Built(b', toks + [k], calls + [item])
  {
    hide Flat, BytesOf, Table, Moved32, StringAt, TokenOk, Items, RebaseAll, Room;
    var x :| Table(b') == x + Table(b);
    TableLen(b);
    TableLen(b');
    ItemsPrepend(toks, Table(b), x);
    FlatSingleOk(k);
    FlatConcat(toks, [k]);
    var n := b'.sizeStrings;
    RebaseConcat(toks, [k], n);
    RebaseOne(k, n);
    ItemsConcat(RebaseAll(toks, n), [Rebase(k, n)], Table(b'));
    ItemsOne(Rebase(k, n), Table(b'));
  }

  lemma TableLen(b: Blob)
    requires Room(b)
    ensures |Table(b)| == b.sizeStrings < WORD
  {
  }

  lemma FlatSingleOk(k: Token)
    requires TokenOk(k)
    ensures AllOk([k]) && Flat([k]) == BytesOf(k)
  {
    FlatOne(k);
  }

  lemma RebaseOne(k: Token, n: nat)
    ensures RebaseAll([k], n) == [Rebase(k, n)]
  {
    assert [k][1..] == [];
  }

  lemma ItemsOne(k: Token, st: seq<byte>)
    ensures Items([k], st) == [ItemOf(k, st)]
  {
    assert [k][1..] == [];
  }

  function Area(b: Blob): seq<byte>
    requires Room(b)
  {
    b.buf[b.offStruct..b.offStruct + b.sizeStruct]
  }

  lemma GrabArea(b: Blob, len: nat) returns (hole: seq<byte>)
    requires Room(b) && b.offStrings == b.total && GrabSpace(b, len).Some? && len % 4 == 0
    ensures |hole| == len
    ensures var g := GrabSpace(b, len).value;
      && g == b.(sizeStruct := b.sizeStruct + len) && Room(g)
      && Area(g) == Area(b) + hole && Table(g) == Table(b)
  {
    var g := GrabSpace(b, len).value;
    hole := b.buf[b.offStruct + b.sizeStruct..b.offStruct + b.sizeStruct + len];
    Cut(b.buf, b.offStruct, b.offStruct, b.offStruct + b.sizeStruct, b.offStruct + g.sizeStruct);
    assert b.buf[b.offStruct..b.offStruct] == [];
  }

  lemma WriteHole(b: Blob, pre: seq<byte>, hole: seq<byte>, k: nat, x: seq<byte>)
    requires Room(b) && Area(b) == pre + hole && k + |x| <= |hole|
    ensures b.offStruct + |pre| + k + |x| <= |b.buf|
    ensures var b' := Write(b, |pre| + k, x);
      && b' == b.(buf := b'.buf) && Room(b')
      && Area(b') == pre + Put(hole, k, x) && Table(b') == Table(b)
  {
    hide Put;
    assert |Area(b)| == b.sizeStruct;
    var at := b.offStruct + |pre| + k;
    PutInside(b.buf, at, x, b.offStruct, b.offStruct + b.sizeStruct);
    PutElsewhere(b.buf, at, x, b.total - b.sizeStrings, b.total);
    HolePut(pre, hole, [], k, x);
    assert pre + hole + [] == pre + hole && pre + Put(hole, k, x) + [] == pre + Put(hole, k, x);
  }

  lemma SameTable(b: Blob, b': Blob)
    requires Room(b) && Room(b') && Table(b') == Table(b)
    ensures exists x :: Table(b') == x + Table(b)
  {
    assert Table(b') == [] + Table(b);
  }

  lemma BeginExtends(b: Blob, toks: seq<Token>, calls: seq<Item>, name: seq<byte>) returns (toks': seq<Token>)
    requires Built(b, toks, calls) && 0 !in name
    ensures var e := Begin(b, name);
      if e.err == 0 then Built(e.blob, toks', calls + [IBegin(name)]) else e == Edited(-NOSPACE, b)
  {
    hide Align4, BE32, Flat, Table, Area, Room, Write, RebaseAll, Items;
    toks' := toks;
    RoomFacts(b);
    var e := Begin(b, name);
    if e.err == 0 {
      var len := 4 + Align4(|name| + 1);
      var g := GrabSpace(b, len).value;
      var hole := GrabArea(b, len);
      var w := BE32(BEGIN_NODE);
      AreaLen(b);
      WriteHole(g, Area(b), hole, 0, w);
      var b1, h1 := Write(g, b.sizeStruct, w), Put(hole, 0, w);
      WriteHole(b1, Area(b), h1, 4, name + [0]);
      var pad := hole[4 + |name| + 1..];
      var k := BeginNode(name, pad);
      assert Put(h1, 4, name + [0]) == w + (name + [0] + pad);
      AreaIs(b);
      AreaIs(e.blob);
      SameTable(b, e.blob);
      RoomFacts(e.blob);
      Extend(b, toks, calls, k, IBegin(name), e.blob);
      toks' := toks + [k];
    }
  }

  lemma RoomFacts(b: Blob)
    requires Room(b)
    ensures b.total == |b.buf| < INT_MAX && b.offStruct + b.sizeStruct + b.sizeStrings <= b.total && b.sizeStruct % 4 == 0
  {
  }

  lemma AreaLen(b: Blob)
    requires Room(b)
    ensures |Area(b)| == b.sizeStruct
  {
  }

  lemma AreaIs(b: Blob)
    requires Room(b)
    ensures Area(b) == b.buf[b.offStruct..b.offStruct + b.sizeStruct]
  {
  }

  lemma EndExtends(b: Blob, toks: seq<Token>, calls: seq<Item>) returns (toks': seq<Token>)
    requires Built(b, toks, calls)
    ensures var e := EndIt(b);
      if e.err == 0 then Built(e.blob, toks', calls + [IEnd]) else e == Edited(-NOSPACE, b)
  {
    hide BE32, Flat, Table, Area, Room, Write, RebaseAll, Items;
    toks' := toks;
    RoomFacts(b);
    var e := EndIt(b);
    if e.err == 0 {
      var g := GrabSpace(b, 4).value;
      var hole := GrabArea(b, 4);
      var w := BE32(END_NODE);
      AreaLen(b);
      WriteHole(g, Area(b), hole, 0, w);
      assert Put(hole, 0, w) == w;
      AreaIs(b);
      AreaIs(e.blob);
      SameTable(b, e.blob);
      RoomFacts(e.blob);
      Extend(b, toks, calls, EndNode, IEnd, e.blob);
      toks' := toks + [EndNode];
    }
  }

  /** The name found or added, as the offset from the end of the buffer names it. */
  lemma FindAddTable(b: Blob, name: seq<byte>, dedup: bool) returns (x: seq<byte>)
    requires Room(b) && b.offStrings == b.total && 0 !in name && FindAdd(b, name, dedup).off < 0
    ensures var a := FindAdd(b, name, dedup);
      && Room(a.blob) && Table(a.blob) == x + Table(b) && Area(a.blob) == Area(b)
      && a.blob.sizeStruct == b.sizeStruct
      && |Table(a.blob)| == a.blob.sizeStrings >= -a.off
      && StringAt(Table(a.blob), a.blob.sizeStrings + a.off) == Some(name)
  {
    hide FindString, StringAt, Put;
    var a := FindAdd(b, name, dedup);
    if a.grew {
      x := name + [0];
      TableGrows(b.buf, b.total - b.sizeStrings - |x|, x, b.offStruct, b.offStruct + b.sizeStruct, b.total);
    } else {
      x := [];
    }
    StringTerminated(Table(a.blob), a.blob.sizeStrings + a.off, name);
  }

  /** Bytes stored right in front of a tail of the buffer, clear of the block `lo` to `hi`. */
  lemma TableGrows(buf: seq<byte>, at: nat, x: seq<byte>, lo: nat, hi: nat, end: nat)
    requires lo <= hi <= at && at + |x| <= end <= |buf|
    ensures var r := Put(buf, at, x); r[at..end] == x + buf[at + |x|..end] && r[lo..hi] == buf[lo..hi]
  {
    hide Put;
    PutElsewhere(buf, at, x, lo, hi);
    PutElsewhere(buf, at, x, at + |x|, end);
    PutHere(buf, at, x);
    Cut(Put(buf, at, x), at, at, at + |x|, end);
  }

  /** The bytes grabbed for a property spell its token. */
  lemma WritesProp(b: Blob, nameoff: nat, val: seq<byte>) returns (k: Token)
    requires Room(b) && b.offStrings == b.total && nameoff < WORD && |val| < WORD
    requires GrabSpace(b, 12 + Align4(|val|)).Some?
    ensures TokenOk(k) && k.Prop? && k.nameoff == nameoff && k.val == val
    ensures var g := GrabSpace(b, 12 + Align4(|val|)).value;
      && Room(g) && g.offStruct + b.sizeStruct + 12 + |val| <= |g.buf|
      && var b' := WriteProp(g, b.sizeStruct, nameoff, val);
      && b' == b.(buf := b'.buf, sizeStruct := g.sizeStruct)
      && Area(b') == Area(b) + BytesOf(k) && Table(b') == Table(b)
  {
    hide Align4, BE32, Table, Area, Room, Write, BytesOf;
    var len := 12 + Align4(|val|);
    RoomFacts(b);
    AreaLen(b);
    var g := GrabSpace(b, len).value;
    var hole := GrabArea(b, len);
    var q, pre := b.sizeStruct, Area(b);
    var pad := FillProp(hole, nameoff, val);
    k := Prop(nameoff, val, pad);
    WriteHole(g, pre, hole, 0, BE32(PROP));
    var b1, h1 := Write(g, q, BE32(PROP)), Put(hole, 0, BE32(PROP));
    WriteHole(b1, pre, h1, 8, BE32(nameoff));
    var b2, h2 := Write(b1, q + 8, BE32(nameoff)), Put(h1, 8, BE32(nameoff));
    WriteHole(b2, pre, h2, 4, BE32(|val|));
    var b3, h3 := Write(b2, q + 4, BE32(|val|)), Put(h2, 4, BE32(|val|));
    WriteHole(b3, pre, h3, 12, val);
    RoomFacts(g);
  }

  lemma PropertyExtends(b: Blob, toks: seq<Token>, calls: seq<Item>, name: seq<byte>, val: seq<byte>, dedup: bool)
    returns (toks': seq<Token>)
    requires Built(b, toks, calls) && 0 !in name && |val| < WORD
    ensures var e := Property(b, name, val, dedup);
      if e.err == 0 then Built(e.blob, toks', calls + [IProp(Some(name), val)])
      else e.err == -NOSPACE && Built(e.blob, toks, calls)
  {
    hide Align4, BE32, Flat, Table, Area, Room, WriteProp, RebaseAll, Items, FindAdd, StringAt, Moved32, BytesOf;
    toks' := toks;
    RoomFacts(b);
    AreaIs(b);
    var e := Property(b, name, val, dedup);
    var a := FindAdd(b, name, dedup);
    if a.off < 0 {
      var x := FindAddTable(b, name, dedup);
      var len := 12 + Align4(|val|);
      RoomFacts(a.blob);
      AreaLen(a.blob);
      AreaIs(a.blob);
      if e.err == 0 {
        var k := WritesProp(a.blob, WORD + a.off, val);
        RoomFacts(e.blob);
        NegativeMove(k, e.blob.sizeStrings);
        AreaIs(e.blob);
        assert exists x :: Table(e.blob) == x + Table(b);
        Extend(b, toks, calls, k, IProp(Some(name), val), e.blob);
        toks' := toks + [k];
      } else {
        RollBack(b, toks, calls, name, dedup);
      }
    }
  }

  /** Taking a name back after it did not help leaves the writer where it was. */
  lemma RollBack(b: Blob, toks: seq<Token>, calls: seq<Item>, name: seq<byte>, dedup: bool)
    requires Built(b, toks, calls) && FindAdd(b, name, dedup).off < 0
    ensures var a := FindAdd(b, name, dedup);
      Built(if a.grew then a.blob.(sizeStrings := a.blob.sizeStrings - (|name| + 1)) else a.blob, toks, calls)
  {
    hide FindString, RebaseAll, Items, Flat;
    var a := FindAdd(b, name, dedup);
    if a.grew {
      var at := b.total - b.sizeStrings - (|name| + 1);
      PutElsewhere(b.buf, at, name + [0], b.offStruct, b.offStruct + b.sizeStruct);
      PutElsewhere(b.buf, at, name + [0], b.total - b.sizeStrings, b.total);
    }
  }

  /** One builder call that returns 0 adds exactly its own item; one that fails adds
      nothing, not even a string. */
  lemma CallExtends(b: Blob, toks: seq<Token>, calls: seq<Item>, i: Item, dedup: bool) returns (toks': seq<Token>)
    requires Built(b, toks, calls) && Callable(i)
    ensures var e := Call(b, i, dedup);
      if e.err == 0 then Built(e.blob, toks', calls + [i])
      else e.err == -NOSPACE && Built(e.blob, toks, calls)
  {
    hide Built, Begin, EndIt, Property;
    match i
    case IBegin(name) => toks' := BeginExtends(b, toks, calls, name);
    case IEnd => toks' := EndExtends(b, toks, calls);
    case IProp(name, val) => toks' := PropertyExtends(b, toks, calls, name.value, val, dedup);
  }

  // ---------------------------------------------------------------- finishing

  lemma FixOne(done: seq<byte>, k: Token, post: seq<byte>, n: nat)
    requires TokenOk(k) && |done| % 4 == 0
    ensures TokenOk(Rebase(k, n)) && Size(Rebase(k, n)) == Size(k)
    ensures var s := done + BytesOf(k) + post;
      && NextTag(s, |done|) == Step(TagOf(k), |done| + Size(k))
      && (k.Prop? ==>
          && |done| + 12 <= |s|
          && Put(s, |done| + 8, BE32(Moved32(U32(s, |done| + 8), n))) == done + BytesOf(Rebase(k, n)) + post)
  {
    hide NextTag, U32, NulFrom, BE32, Moved32, Align4, Put, BytesOf;
    var s := done + BytesOf(k) + post;
    NextTagReads(done, k, post);
    if k.Prop? {
      var m := Moved32(k.nameoff, n);
      FixToken(k, m);
      HolePut(done, BytesOf(k), post, 8, BE32(m));
    }
  }

  /** A property token with another name offset stored. */
  lemma FixToken(k: Token, m: nat)
    requires TokenOk(k) && k.Prop? && m < WORD
    ensures TokenOk(k.(nameoff := m)) && |BytesOf(k)| >= 12
    ensures Put(BytesOf(k), 8, BE32(m)) == BytesOf(k.(nameoff := m))
  {
    hide BE32, Align4;
    var head, tail := BE32(PROP) + BE32(|k.val|), k.val + k.pad;
    assert BytesOf(k) == head + BE32(k.nameoff) + tail;
    assert BytesOf(k.(nameoff := m)) == head + BE32(m) + tail;
    HolePut(head, BE32(k.nameoff), tail, 0, BE32(m));
    assert Put(BE32(k.nameoff), 0, BE32(m)) == BE32(m);
  }

  /** The name-correcting walk rebases every property token and nothing else. */
  lemma {:induction false} FixAll(done: seq<byte>, rest: seq<Token>, n: nat)
    requires AllOk(rest) && |done| % 4 == 0
    ensures AllOk(RebaseAll(rest, n))
    ensures FixNames(done + Flat(rest) + BE32(END), |done|, n) ==
      (done + Flat(RebaseAll(rest, n)) + BE32(END), |done| + Len(rest) + 4)
    decreases |rest|
  {
    hide NextTag, U32, NulFrom, BE32, Moved32, BytesOf, TokenOk, Size, Put;
    var e := BE32(END);
    var s := done + Flat(rest) + e;
    if rest == [] {
      ReadsPlain(done, END, []);
      assert s == done + e + [] && done + Flat(RebaseAll(rest, n)) + e == s;
    } else {
      var k := rest[0];
      var post := Flat(rest[1..]) + e;
      Gather(done, BytesOf(k), Flat(rest[1..]), e);
      assert s == done + BytesOf(k) + post;
      FixOne(done, k, post, n);
      FixAll(done + BytesOf(Rebase(k, n)), rest[1..], n);
      Gather(done, BytesOf(Rebase(k, n)), Flat(rest[1..]), e);
      Gather(done, BytesOf(Rebase(k, n)), Flat(RebaseAll(rest[1..], n)), e);
      var r := RebaseAll(rest, n);
      assert r[0] == Rebase(k, n) && r[1..] == RebaseAll(rest[1..], n);
      OkCons(r);
    }
  }

  lemma Gather(a: seq<byte>, b: seq<byte>, c: seq<byte>, d: seq<byte>)
    ensures a + (b + c) + d == a + b + (c + d) == (a + b) + c + d
  {
  }

  lemma OkCons(r: seq<Token>)
    requires r != [] && TokenOk(r[0]) && AllOk(r[1..])
    ensures AllOk(r)
  {
    forall i | 0 <= i < |r| ensures TokenOk(r[i]) {
      if i > 0 {
        assert r[i] == r[1..][i - 1];
      }
    }
  }

  /** The strings after the relocating move. */
  lemma FinishMove(buf: seq<byte>, o: nat, newoff: nat, total: nat, n: nat)
    requires o <= newoff && newoff + n <= total <= |buf|
    ensures var m := Moved(buf, newoff, total - n, n);
      && m[o..newoff] == buf[o..newoff] && m[newoff..newoff + n] == buf[total - n..total]
  {
  }

  /** fdt_finish: either there is no room for the end tag, or the blob is complete and
      its structure and strings blocks spell exactly the calls that were made. */
  lemma FinishTheorem(b: Blob, toks: seq<Token>, calls: seq<Item>) returns (toks': seq<Token>)
    requires Built(b, toks, calls) && b.offStruct >= CREATE_OFFSET + RSV_ENTRY
    ensures Finish(b).err == 0 <==> b.offStruct + b.sizeStruct + b.sizeStrings + 4 <= b.total
    ensures var e := Finish(b);
      if e.err == 0 then
        && Sound(e.blob) && RwProbe(e.blob) == 0 && Holds(Struct(e.blob), toks')
        && Items(toks', Strings(e.blob)) == calls
        && Struct(e.blob) == Flat(toks') + BE32(END) && e.blob.total <= b.total
        && e.blob == b.(buf := e.blob.buf, magic := MAGIC, total := e.blob.total, sizeStruct := b.sizeStruct + 4, offStrings := e.blob.offStrings)
        && e.blob.buf[..b.offStruct] == b.buf[..b.offStruct]
      else e == Edited(-NOSPACE, b)
  {
    hide BE32, Flat, RebaseAll, Items, Table, Finish, RoProbe;
    var n := b.sizeStrings;
    toks' := RebaseAll(toks, n);
    var e := Finish(b);
    if GrabSpace(b, 4).Some? {
      FinishBytes(b, toks);
      TableIs(b);
      BlockSlices(e.blob);
      assert RwProbe(e.blob) == 0 by { CompleteProbe(e.blob); }
    } else {
      NoRoomAtEnd(b);
    }
  }

  lemma NoRoomAtEnd(b: Blob)
    requires Room(b) && SwProbeStruct(b) == 0 && GrabSpace(b, 4).None?
    ensures Finish(b) == Edited(-NOSPACE, b)
  {
  }

  lemma CompleteProbe(b: Blob)
    requires Ordered(b) && b.magic == MAGIC
    ensures RwProbe(b) == 0
  {
  }

  /** The bytes that fdt_finish leaves behind. */
  lemma FinishBytes(b: Blob, toks: seq<Token>)
    requires Room(b) && SwProbeStruct(b) == 0 && GrabSpace(b, 4).Some?
    requires AllOk(toks) && b.buf[b.offStruct..b.offStruct + b.sizeStruct] == Flat(toks)
    ensures var e := Finish(b);
      var newoff := b.offStruct + b.sizeStruct + 4;
      var toks' := RebaseAll(toks, b.sizeStrings);
      && e.err == 0 && AllOk(toks') && newoff + b.sizeStrings <= b.total
      && e.blob == b.(buf := e.blob.buf, magic := MAGIC, total := newoff + b.sizeStrings, sizeStruct := b.sizeStruct + 4, offStrings := newoff)
      && |e.blob.buf| == |b.buf|
      && e.blob.buf[..b.offStruct] == b.buf[..b.offStruct]
      && e.blob.buf[b.offStruct..newoff] == Flat(toks') + BE32(END)
      && e.blob.buf[newoff..newoff + b.sizeStrings] == Table(b)
  {
    hide BE32, Flat, RebaseAll, FixNames, Table, Moved, BytesOf, U32, NulFrom, Put, AllOk, Finish;
    var n := b.sizeStrings;
    var o, newoff := b.offStruct, b.offStruct + b.sizeStruct + 4;
    var b1 := FinishBuffer(b, toks);
    var buf := Moved(b1.buf, newoff, b.total - n, n);
    var fixed := Flat(RebaseAll(toks, n)) + BE32(END);
    FinishMove(b1.buf, o, newoff, b.total, n);
    PutElsewhere(buf, o, fixed, newoff, newoff + n);
    PutElsewhere(buf, o, fixed, 0, o);
    PutHere(buf, o, fixed);
    MovedHead(b1.buf, newoff, b.total - n, n, o);
    TableIs(b);
    TableIs(b1);
  }

  /** The buffer of fdt_finish, move by move. */
  lemma FinishBuffer(b: Blob, toks: seq<Token>) returns (b1: Blob)
    requires Room(b) && SwProbeStruct(b) == 0 && GrabSpace(b, 4).Some?
    requires AllOk(toks) && b.buf[b.offStruct..b.offStruct + b.sizeStruct] == Flat(toks)
    ensures Room(b1) && b1 == b.(buf := b1.buf, sizeStruct := b.sizeStruct + 4) && Table(b1) == Table(b)
    ensures b1.buf[..b.offStruct] == b.buf[..b.offStruct]
    ensures var (o, newoff, n) := (b.offStruct, b.offStruct + b.sizeStruct + 4, b.sizeStrings);
      var toks' := RebaseAll(toks, n);
      && AllOk(toks') && |Flat(toks')| + 4 == newoff - o && newoff + n <= b.total
      && Finish(b) == Edited(0, b.(buf := Put(Moved(b1.buf, newoff, b.total - n, n), o, Flat(toks') + BE32(END)),
                                   magic := MAGIC, total := newoff + n, sizeStruct := b.sizeStruct + 4, offStrings := newoff))
  {
    hide BE32, Flat, RebaseAll, FixNames, Table, Moved, BytesOf, U32, NulFrom, Put, AllOk;
    var n := b.sizeStrings;
    var toks' := RebaseAll(toks, n);
    var o, newoff := b.offStruct, b.offStruct + b.sizeStruct + 4;
    b1 := EndTagged(b);
    AreaIs(b);
    FinishMove(b1.buf, o, newoff, b.total, n);
    LenFlat(toks);
    FixAll([], toks, n);
    assert [] + Flat(toks') == Flat(toks') && [] + Flat(toks) == Flat(toks);
  }

  /** The writer's blob with the end tag in place. */
  lemma EndTagged(b: Blob) returns (b1: Blob)
    requires Room(b) && b.offStrings == b.total && GrabSpace(b, 4).Some?
    ensures b1 == Write(GrabSpace(b, 4).value, b.sizeStruct, BE32(END))
    ensures Room(b1) && b1 == b.(buf := b1.buf, sizeStruct := b.sizeStruct + 4) && Table(b1) == Table(b)
    ensures b1.buf[b.offStruct..b.offStruct + b.sizeStruct + 4] == Area(b) + BE32(END)
    ensures b1.buf[..b.offStruct] == b.buf[..b.offStruct]
  {
    hide BE32, Put, Table;
    var g := GrabSpace(b, 4).value;
    var hole := GrabArea(b, 4);
    var w := BE32(END);
    AreaLen(b);
    WriteHole(g, Area(b), hole, 0, w);
    PutAll(hole, w);
    b1 := Write(g, b.sizeStruct, w);
    PutElsewhere(b.buf, b.offStruct + b.sizeStruct, w, 0, b.offStruct);
    AreaIs(b1);
  }

  lemma MovedHead(buf: seq<byte>, dst: nat, src: nat, n: nat, o: nat)
    requires dst + n <= |buf| && src + n <= |buf| && o <= dst
    ensures Moved(buf, dst, src, n)[0..o] == buf[..o]
  {
  }

  lemma PutAll(hole: seq<byte>, w: seq<byte>)
    requires |hole| == |w|
    ensures Put(hole, 0, w) == w
  {
  }

  lemma TableIs(b: Blob)
    requires Room(b)
    ensures Table(b) == b.buf[b.total - b.sizeStrings..b.total]
  {
  }
}
