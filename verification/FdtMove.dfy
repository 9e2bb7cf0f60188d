/** Moves between overlapping buffers: fdt_resize, fdt_pack and fdt_open_into. Each later
    memmove reads a buffer that an earlier one has already partly overwritten. */
module FdtMove {
  import opened Bytes
  import opened FdtFormat
  import opened FdtTree
  import opened FdtRead
  import opened FdtEdit
  import opened FdtEditBlocks
  import opened FdtEditTheorems
  import opened FdtBuffer
  import opened FdtBuild
  import opened FdtCheck
  import opened FdtReaders
  import opened FdtEditors

  predicate Disjoint(a: nat, n: nat, b: nat, m: nat) {
    a + n <= b || b + m <= a
  }

  /** A byte after a move. */
  lemma MovedByte(buf: seq<byte>, dst: nat, src: nat, n: nat, x: nat)
    requires dst + n <= |buf| && src + n <= |buf| && x < |buf|
    ensures Moved(buf, dst, src, n)[x] == if dst <= x < dst + n then buf[x - dst + src] else buf[x]
  {
  }

  lemma MovedHere(buf: seq<byte>, dst: nat, src: nat, n: nat)
    requires dst + n <= |buf| && src + n <= |buf|
    ensures Moved(buf, dst, src, n)[dst..dst + n] == buf[src..src + n]
  {
  }

  lemma MovedElsewhere(buf: seq<byte>, dst: nat, src: nat, n: nat, lo: nat, m: nat)
    requires dst + n <= |buf| && src + n <= |buf| && lo + m <= |buf| && Disjoint(dst, n, lo, m)
    ensures Moved(buf, dst, src, n)[lo..lo + m] == buf[lo..lo + m]
  {
    hide Put;
    if m > 0 && n > 0 {
      PutElsewhere(buf, dst, buf[src..src + n], lo, lo + m);
    } else if m > 0 {
      NoMove(buf, dst, src);
    }
  }

  lemma NoMove(buf: seq<byte>, dst: nat, src: nat)
    requires dst <= |buf| && src <= |buf|
    ensures Moved(buf, dst, src, 0) == buf
  {
  }

  // ---------------------------------------------------------------- trees in one memory

  /** The header fields of a tree. */
  datatype Header = Header(magic: nat, total: nat, offRsv: nat, offStruct: nat, sizeStruct: nat, offStrings: nat, sizeStrings: nat)

  /** The blob with this header at `at` of a memory that may hold several. */
  function Image(mem: seq<byte>, at: nat, h: Header): (b: Blob)
    requires at + h.total <= |mem|
  {
    Blob(mem[at..at + h.total], h.magic, h.total, h.offRsv, h.offStruct, h.sizeStruct, h.offStrings, h.sizeStrings)
  }

  // ---------------------------------------------------------------- fdt_resize

  /** Why fdt_resize refuses. */
  function ResizeError(h: Header, bufsize: nat): int {
    var size := h.offStruct + h.sizeStruct + h.sizeStrings;
    if h.magic == MAGIC then -BADSTATE
    else if h.magic != SW_MAGIC then -BADMAGIC
    else if size > h.total then -INTERNAL
    else if size > bufsize then -NOSPACE
    else 0
  }

  /** The blob of the writer in a buffer of another size: its two ends are in place. */
  ghost predicate Resized(b: Blob, b': Blob, bufsize: nat) {
    var (head, tail) := (b.offStruct + b.sizeStruct, b.sizeStrings);
    && |b.buf| == b.total >= head + tail && |b'.buf| == bufsize >= head + tail
    && b'.buf[..head] == b.buf[..head] && b'.buf[bufsize - tail..] == b.buf[b.total - tail..]
    && b' == b.(buf := b'.buf, total := bufsize, offStrings := if b.offStrings == 0 then 0 else bufsize)
  }

  /** fdt_resize: head and tail of the tree at `fdt` end up at the ends of the buffer at
      `buf`, however the two overlap, and a tree under construction goes on from there. */
  method Resize(mem: array<byte>, fdt: nat, h: Header, buf: nat, bufsize: nat) returns (err: int, h': Header)
    requires fdt + h.total <= mem.Length && buf + bufsize <= mem.Length
    modifies mem
    ensures err == ResizeError(h, bufsize)
    ensures err != 0 ==> mem[..] == old(mem[..]) && h' == h
    ensures err == 0 ==> h'.total == bufsize && Resized(Image(old(mem[..]), fdt, h), Image(mem[..], buf, h'), bufsize)
    ensures err == 0 && bufsize < INT_MAX ==> GoesOn(Image(old(mem[..]), fdt, h), Image(mem[..], buf, h'))
  {
    hide Moved, Built, GoesOn;
    err, h' := ResizeError(h, bufsize), h;
    if err != 0 {
      return;
    }
    var headsize, tailsize := h.offStruct + h.sizeStruct, h.sizeStrings;
    MoveEnds(mem, fdt, h.total, buf, bufsize, headsize, tailsize);
    h' := h.(total := bufsize);
    if h'.offStrings != 0 {
      h' := h'.(offStrings := bufsize);
    }
    ghost var b, b' := Image(old(mem[..]), fdt, h), Image(mem[..], buf, h');
    assert Resized(b, b', bufsize) by {
      assert b.buf == old(mem[fdt..fdt + h.total]) && b'.buf == mem[buf..buf + bufsize];
    }
    if bufsize < INT_MAX {
      ResizedGoesOn(b, b', bufsize);
    }
  }

  /** Whatever calls have built the first blob have built the second. */
  ghost predicate GoesOn(b: Blob, b': Blob) {
    forall toks: seq<Token>, calls: seq<Item> :: Built(b, toks, calls) ==> Built(b', toks, calls)
  }

  lemma ResizedGoesOn(b: Blob, b': Blob, bufsize: nat)
    requires Resized(b, b', bufsize) && bufsize < INT_MAX
    ensures GoesOn(b, b')
  {
    hide Resized, Built;
    forall toks: seq<Token>, calls: seq<Item> | Built(b, toks, calls) ensures Built(b', toks, calls) {
      ResizeKeepsBuilt(b, toks, calls, b', bufsize);
    }
  }

  lemma EndsOf(m: seq<byte>, at: nat, total: nat, head: nat, tail: nat)
    requires at + total <= |m| && head + tail <= total
    ensures m[at..at + total][..head] == m[at..at + head]
    ensures m[at..at + total][total - tail..] == m[at + total - tail..at + total]
  {
  }

  /** The two moves, in the order in which neither reads what the other has overwritten. */
  method MoveEnds(mem: array<byte>, fdt: nat, total: nat, buf: nat, bufsize: nat, headsize: nat, tailsize: nat)
    requires fdt + total <= mem.Length && buf + bufsize <= mem.Length
    requires headsize + tailsize <= total && headsize + tailsize <= bufsize
    modifies mem
    ensures mem[buf..buf + bufsize][..headsize] == old(mem[fdt..fdt + total])[..headsize]
    ensures mem[buf..buf + bufsize][bufsize - tailsize..] == old(mem[fdt..fdt + total])[total - tailsize..]
  {
    hide Moved;
    ghost var m0 := mem[..];
    var oldtail, newtail := fdt + total - tailsize, buf + bufsize - tailsize;
    if buf <= fdt {
      Memmove(mem, buf, fdt, headsize);
      ghost var m1 := mem[..];
      MovedHere(m0, buf, fdt, headsize);
      MovedElsewhere(m0, buf, fdt, headsize, oldtail, tailsize);
      Memmove(mem, newtail, oldtail, tailsize);
      MovedHere(m1, newtail, oldtail, tailsize);
      MovedElsewhere(m1, newtail, oldtail, tailsize, buf, headsize);
    } else {
      Memmove(mem, newtail, oldtail, tailsize);
      ghost var m1 := mem[..];
      MovedHere(m0, newtail, oldtail, tailsize);
      MovedElsewhere(m0, newtail, oldtail, tailsize, fdt, headsize);
      Memmove(mem, buf, fdt, headsize);
      MovedHere(m1, buf, fdt, headsize);
      MovedElsewhere(m1, buf, fdt, headsize, newtail, tailsize);
    }
    EndsOf(m0, fdt, total, headsize, tailsize);
    EndsOf(mem[..], buf, bufsize, headsize, tailsize);
  }

  /** A tree under construction goes on from where it was. */
  lemma ResizeKeepsBuilt(b: Blob, toks: seq<Token>, calls: seq<Item>, b': Blob, bufsize: nat)
    requires Built(b, toks, calls) && Resized(b, b', bufsize) && bufsize < INT_MAX
    ensures Built(b', toks, calls)
  {
    hide Flat, Items, RebaseAll, Negative, AllOk;
    var head := b.offStruct + b.sizeStruct;
    SliceOfSlice(b.buf, 0, head, b.offStruct, head);
    SliceOfSlice(b'.buf, 0, head, b.offStruct, head);
    assert b'.buf[bufsize - b.sizeStrings..] == b'.buf[bufsize - b.sizeStrings..bufsize];
    assert b.buf[b.total - b.sizeStrings..] == b.buf[b.total - b.sizeStrings..b.total];
  }

  // ---------------------------------------------------------------- fdt_packblocks_

  /** Where the blocks of a tree are. */
  datatype Layout = Layout(rsv: nat, rsvSize: nat, struct: nat, structSize: nat, strings: nat, stringsSize: nat)

  function Packed(l: Layout): Layout {
    Layout(HEADER, l.rsvSize, HEADER + l.rsvSize, l.structSize, HEADER + l.rsvSize + l.structSize, l.stringsSize)
  }

  predicate Within(l: Layout, n: nat) {
    l.rsv + l.rsvSize <= n && l.struct + l.structSize <= n && l.strings + l.stringsSize <= n
  }

  /** fdt_packblocks_ in place: the three moves one after the other. */
  function PackMoves(buf: seq<byte>, l: Layout): (r: seq<byte>)
    requires Within(l, |buf|) && Within(Packed(l), |buf|)
    ensures |r| == |buf|
  {
    var p := Packed(l);
    var b1 := Moved(buf, p.rsv, l.rsv, l.rsvSize);
    var b2 := Moved(b1, p.struct, l.struct, l.structSize);
    Moved(b2, p.strings, l.strings, l.stringsSize)
  }

  /** The three blocks are, byte for byte, where the new layout says. */
  ghost predicate Same(was: seq<byte>, l: Layout, now: seq<byte>, p: Layout)
    requires Within(l, |was|) && Within(p, |now|)
  {
    && now[p.rsv..p.rsv + p.rsvSize] == was[l.rsv..l.rsv + l.rsvSize]
    && now[p.struct..p.struct + p.structSize] == was[l.struct..l.struct + l.structSize]
    && now[p.strings..p.strings + p.stringsSize] == was[l.strings..l.strings + l.stringsSize]
  }

  /** A move changes nothing of a block that is still to be moved. */
  predicate Safe(dst: nat, src: nat, n: nat, block: nat, m: nat) {
    dst == src || Disjoint(dst, n, block, m) || n == 0 || m == 0
  }

  /** No move runs over a block that is still to be moved. */
  predicate SafeLayout(l: Layout) {
    var p := Packed(l);
    && Safe(p.rsv, l.rsv, l.rsvSize, l.struct, l.structSize)
    && Safe(p.rsv, l.rsv, l.rsvSize, l.strings, l.stringsSize)
    && Safe(p.struct, l.struct, l.structSize, l.strings, l.stringsSize)
  }

  lemma SafeKeeps(buf: seq<byte>, dst: nat, src: nat, n: nat, block: nat, m: nat)
    requires dst + n <= |buf| && src + n <= |buf| && block + m <= |buf| && Safe(dst, src, n, block, m)
    ensures Moved(buf, dst, src, n)[block..block + m] == buf[block..block + m]
  {
    if dst == src {
      MoveToSelf(buf, dst, n);
    } else if n == 0 {
      NoMove(buf, dst, src);
    } else if m > 0 {
      MovedElsewhere(buf, dst, src, n, block, m);
    }
  }

  lemma MoveToSelf(buf: seq<byte>, dst: nat, n: nat)
    requires dst + n <= |buf|
    ensures Moved(buf, dst, dst, n) == buf
  {
  }

  lemma SafePacks(buf: seq<byte>, l: Layout)
    requires Within(l, |buf|) && Within(Packed(l), |buf|) && SafeLayout(l)
    ensures Same(buf, l, PackMoves(buf, l), Packed(l))
  {
    hide Moved, Safe;
    var p := Packed(l);
    var b1 := Moved(buf, p.rsv, l.rsv, l.rsvSize);
    var b2 := Moved(b1, p.struct, l.struct, l.structSize);
    MovedHere(buf, p.rsv, l.rsv, l.rsvSize);
    SafeKeeps(buf, p.rsv, l.rsv, l.rsvSize, l.struct, l.structSize);
    SafeKeeps(buf, p.rsv, l.rsv, l.rsvSize, l.strings, l.stringsSize);
    MovedHere(b1, p.struct, l.struct, l.structSize);
    SafeKeeps(b1, p.struct, l.struct, l.structSize, l.strings, l.stringsSize);
    MovedElsewhere(b1, p.struct, l.struct, l.structSize, p.rsv, p.rsvSize);
    MovedHere(b2, p.strings, l.strings, l.stringsSize);
    MovedElsewhere(b2, p.strings, l.strings, l.stringsSize, p.rsv, p.rsvSize);
    MovedElsewhere(b2, p.strings, l.strings, l.stringsSize, p.struct, p.structSize);
  }

  /** All zeros but for a one at `x`. */
  function Spot(n: nat, x: nat): (s: seq<byte>)
    ensures |s| == n && forall k :: 0 <= k < n ==> s[k] == if k == x then 1 else 0
  {
    seq(n, k => if k == x then 1 else 0)
  }

  /** A byte of a block that an unsafe move runs over. */
  lemma Hit(dst: nat, src: nat, n: nat, block: nat, m: nat) returns (x: nat)
    requires !Safe(dst, src, n, block, m)
    ensures dst != src && dst <= x < dst + n && block <= x < block + m
  {
    x := if dst < block then block else dst;
  }

  /** An unsafe layout is one on which some contents are lost. */
  lemma UnsafeLoses(n: nat, l: Layout) returns (buf: seq<byte>)
    requires Within(l, n) && Within(Packed(l), n) && !SafeLayout(l)
    ensures |buf| == n && !Same(buf, l, PackMoves(buf, l), Packed(l))
  {
    hide Moved, Safe;
    var p := Packed(l);
    var x;
    if !Safe(p.rsv, l.rsv, l.rsvSize, l.struct, l.structSize) {
      x := Hit(p.rsv, l.rsv, l.rsvSize, l.struct, l.structSize);
      buf := Spot(n, x);
      FirstLosesStruct(buf, l, x);
    } else if !Safe(p.rsv, l.rsv, l.rsvSize, l.strings, l.stringsSize) {
      x := Hit(p.rsv, l.rsv, l.rsvSize, l.strings, l.stringsSize);
      buf := Spot(n, x);
      FirstLosesStrings(buf, l, x);
    } else {
      x := Hit(p.struct, l.struct, l.structSize, l.strings, l.stringsSize);
      buf := Spot(n, x);
      SecondLosesStrings(buf, l, x);
    }
  }

  lemma FirstLosesStruct(buf: seq<byte>, l: Layout, x: nat)
    requires Within(l, |buf|) && Within(Packed(l), |buf|) && buf == Spot(|buf|, x)
    requires HEADER != l.rsv && HEADER <= x < HEADER + l.rsvSize && l.struct <= x < l.struct + l.structSize
    ensures !Same(buf, l, PackMoves(buf, l), Packed(l))
  {
    hide Moved;
    var p := Packed(l);
    var b1 := Moved(buf, p.rsv, l.rsv, l.rsvSize);
    var b2 := Moved(b1, p.struct, l.struct, l.structSize);
    var b3 := Moved(b2, p.strings, l.strings, l.stringsSize);
    var k := x - l.struct;
    MovedByte(buf, p.rsv, l.rsv, l.rsvSize, x);
    MovedByte(b1, p.struct, l.struct, l.structSize, p.struct + k);
    MovedByte(b2, p.strings, l.strings, l.stringsSize, p.struct + k);
    assert b3[p.struct..p.struct + p.structSize][k] == 0 && buf[l.struct..l.struct + l.structSize][k] == 1;
  }

  lemma FirstLosesStrings(buf: seq<byte>, l: Layout, x: nat)
    requires Within(l, |buf|) && Within(Packed(l), |buf|) && buf == Spot(|buf|, x)
    requires HEADER != l.rsv && HEADER <= x < HEADER + l.rsvSize && l.strings <= x < l.strings + l.stringsSize
    ensures !Same(buf, l, PackMoves(buf, l), Packed(l))
  {
    hide Moved;
    var p := Packed(l);
    var b1 := Moved(buf, p.rsv, l.rsv, l.rsvSize);
    var b2 := Moved(b1, p.struct, l.struct, l.structSize);
    var b3 := Moved(b2, p.strings, l.strings, l.stringsSize);
    var k := x - l.strings;
    MovedByte(buf, p.rsv, l.rsv, l.rsvSize, x);
    MovedByte(b1, p.struct, l.struct, l.structSize, x);
    MovedByte(b2, p.strings, l.strings, l.stringsSize, p.strings + k);
    assert b3[p.strings..p.strings + p.stringsSize][k] == 0 && buf[l.strings..l.strings + l.stringsSize][k] == 1;
  }

  lemma SecondLosesStrings(buf: seq<byte>, l: Layout, x: nat)
    requires Within(l, |buf|) && Within(Packed(l), |buf|) && buf == Spot(|buf|, x)
    requires Safe(HEADER, l.rsv, l.rsvSize, l.struct, l.structSize)
    requires HEADER + l.rsvSize != l.struct
    requires HEADER + l.rsvSize <= x < HEADER + l.rsvSize + l.structSize && l.strings <= x < l.strings + l.stringsSize
    ensures !Same(buf, l, PackMoves(buf, l), Packed(l))
  {
    hide Moved;
    var p := Packed(l);
    var b1 := Moved(buf, p.rsv, l.rsv, l.rsvSize);
    var b2 := Moved(b1, p.struct, l.struct, l.structSize);
    var b3 := Moved(b2, p.strings, l.strings, l.stringsSize);
    var k, y := x - l.strings, x - p.struct + l.struct;
    MovedByte(buf, p.rsv, l.rsv, l.rsvSize, y);
    MovedByte(b1, p.struct, l.struct, l.structSize, x);
    MovedByte(b2, p.strings, l.strings, l.stringsSize, p.strings + k);
    assert b3[p.strings..p.strings + p.stringsSize][k] == 0 && buf[l.strings..l.strings + l.stringsSize][k] == 1;
  }

  /** Packing in place keeps the three blocks whatever they contain, if and only if no
      move runs over a block that is still to be moved. */
  lemma PackSafeIff(n: nat, l: Layout)
    requires Within(l, n) && Within(Packed(l), n)
    ensures SafeLayout(l) <==> forall buf: seq<byte> | |buf| == n :: Same(buf, l, PackMoves(buf, l), Packed(l))
  {
    hide SafeLayout, Same, PackMoves;
    if SafeLayout(l) {
      forall buf: seq<byte> | |buf| == n ensures Same(buf, l, PackMoves(buf, l), Packed(l)) {
        SafePacks(buf, l);
      }
    } else {
      var buf := UnsafeLoses(n, l);
    }
  }

  // ---------------------------------------------------------------- fdt_pack

  /** The layout that fdt_pack works from; `n` is the number of reservations it counted. */
  function LayoutOf(b: Blob, n: nat): Layout {
    Layout(b.offRsv, RSV_ENTRY * (n + 1), b.offStruct, b.sizeStruct, b.offStrings, b.sizeStrings)
  }

  /** With a reservation list that really ends before the structure block, the probe's
      order of the blocks makes every move safe. fdt_rw_probe_ itself only leaves room
      for one entry. */
  lemma OrderedIsSafe(b: Blob, n: nat)
    requires Sound(b) && Ordered(b) && b.offRsv + RSV_ENTRY * (n + 1) <= b.offStruct
    ensures var l := LayoutOf(b, n); SafeLayout(l) && Within(l, |b.buf|) && Within(Packed(l), |b.buf|)
  {
  }

  /** The second reservation entry, the terminator, lies in the structure block, which
      starts with a begin tag. */
  predicate Crowded(b: Blob) {
    && |b.buf| == 200 && b == Blob(b.buf, MAGIC, 200, 48, 64, 32, 96, 8)
    && b.buf[63] == 1 && b.buf[67] == 1
    && b.buf[72] == 0 && b.buf[73] == 0 && b.buf[74] == 0 && b.buf[75] == 0
    && b.buf[76] == 0 && b.buf[77] == 0 && b.buf[78] == 0 && b.buf[79] == 0
  }

  lemma CountsOne(b: Blob)
    requires b.total <= |b.buf| && b.offRsv + 2 * RSV_ENTRY <= b.total && !RsvEnds(b, 0) && RsvEnds(b, 1)
    ensures NumMemRsv(b, 0) == 1
  {
    hide RsvEnds;
    assert NumMemRsv(b, 1) == 1;
  }

  lemma WordIsZero(s: seq<byte>, i: nat)
    requires i + 4 <= |s|
    ensures U32(s, i) == 0 <==> s[i] == 0 && s[i + 1] == 0 && s[i + 2] == 0 && s[i + 3] == 0
  {
  }

  /** An entry ends the list when the eight bytes of its size are zero. */
  lemma EndsWhenZero(b: Blob, i: nat)
    requires b.total <= |b.buf| && b.offRsv + RSV_ENTRY * (i + 1) <= b.total
    ensures RsvEnds(b, i) <==>
      var s := b.buf[b.offRsv + RSV_ENTRY * i + 8..b.offRsv + RSV_ENTRY * i + 16];
      s[0] == 0 && s[1] == 0 && s[2] == 0 && s[3] == 0 && s[4] == 0 && s[5] == 0 && s[6] == 0 && s[7] == 0
  {
    hide U32;
    var at := b.offRsv + RSV_ENTRY * i + 8;
    WordIsZero(b.buf, at);
    WordIsZero(b.buf, at + 4);
  }

  /** The probe accepts such a blob, ... */
  lemma CrowdedPasses(b: Blob)
    requires Crowded(b)
    ensures Sound(b) && RwProbe(b) == 0
  {
  }

  lemma CrowdedCounts(b: Blob)
    requires Crowded(b)
    ensures NumMemRsv(b, 0) == 1
  {
    hide RsvEnds, NumMemRsv;
    EndsWhenZero(b, 0);
    EndsWhenZero(b, 1);
    CountsOne(b);
  }

  /** ... and packing it, with the reservations that are counted, loses the first tag of its
      structure block. */
  lemma CrowdedLoses(b: Blob)
    requires Crowded(b)
    ensures NumMemRsv(b, 0) == 1
    ensures var l := LayoutOf(b, NumMemRsv(b, 0));
      && Within(l, |b.buf|) && Within(Packed(l), |b.buf|) && !Same(b.buf, l, PackMoves(b.buf, l), Packed(l))
  {
    hide Same, PackMoves, NumMemRsv;
    CrowdedCounts(b);
    LosesTag(b.buf, LayoutOf(b, 1));
  }

  lemma CrowdedExists() returns (b: Blob)
    ensures Crowded(b)
  {
    hide Spot;
    var buf := Spot(200, 63)[67 := 1];
    b := Blob(buf, MAGIC, 200, 48, 64, 32, 96, 8);
  }

  lemma LosesTag(buf: seq<byte>, l: Layout)
    requires l == Layout(48, 32, 64, 32, 96, 8) && |buf| == 200 && buf[67] == 1 && buf[75] == 0
    ensures !Same(buf, l, PackMoves(buf, l), Packed(l))
  {
    hide Moved;
    var p := Packed(l);
    var b1 := Moved(buf, p.rsv, l.rsv, l.rsvSize);
    var b2 := Moved(b1, p.struct, l.struct, l.structSize);
    MovedByte(buf, p.rsv, l.rsv, l.rsvSize, 67);
    MovedByte(b1, p.struct, l.struct, l.structSize, p.struct + 3);
    MovedByte(b2, p.strings, l.strings, l.stringsSize, p.struct + 3);
    assert PackMoves(buf, l)[p.struct..p.struct + p.structSize][3] == 0 && buf[l.struct..l.struct + l.structSize][3] == 1;
  }

  function PackedBlob(b: Blob, n: nat, buf: seq<byte>): Blob {
    var p := Packed(LayoutOf(b, n));
    b.(buf := buf, total := p.strings + p.stringsSize, offRsv := p.rsv, offStruct := p.struct, offStrings := p.strings)
  }

  /** fdt_packblocks_ in place. */
  method PackBlocks(f: Fdt, rsvSize: nat, structSize: nat)
    requires structSize == f.sizeStruct
    requires var l := Layout(f.offRsv, rsvSize, f.offStruct, structSize, f.offStrings, f.sizeStrings);
      Within(l, f.buf.Length) && Within(Packed(l), f.buf.Length)
    modifies f, f.buf
    ensures var l := Layout(old(f.offRsv), rsvSize, old(f.offStruct), structSize, old(f.offStrings), old(f.sizeStrings));
      var p := Packed(l);
      f.State() == old(f.State()).(buf := PackMoves(old(f.buf[..]), l), offRsv := p.rsv, offStruct := p.struct, offStrings := p.strings)
  {
    hide Moved;
    var rsvOff := HEADER;
    var structOff := rsvOff + rsvSize;
    var stringsOff := structOff + structSize;
    Memmove(f.buf, rsvOff, f.offRsv, rsvSize);
    f.offRsv := rsvOff;
    Memmove(f.buf, structOff, f.offStruct, structSize);
    f.offStruct := structOff;
    f.sizeStruct := structSize;
    Memmove(f.buf, stringsOff, f.offStrings, f.sizeStrings);
    f.offStrings := stringsOff;
  }

  /** A packed blob denotes the same tree. */
  lemma PackKeepsTree(b: Blob, toks: seq<Token>, t: Tree, n: nat)
    requires Denotes(b, toks, t) && b.offRsv + RSV_ENTRY * (n + 1) <= b.offStruct
    ensures Within(LayoutOf(b, n), |b.buf|) && Within(Packed(LayoutOf(b, n)), |b.buf|)
    ensures var b' := PackedBlob(b, n, PackMoves(b.buf, LayoutOf(b, n)));
      && Denotes(b', toks, t) && b'.total <= b.total
      && Same(b.buf, LayoutOf(b, n), b'.buf, Packed(LayoutOf(b, n)))
  {
    hide PackMoves, SafeLayout, Holds, Strip, Items, Ser;
    OrderedIsSafe(b, n);
    var l := LayoutOf(b, n);
    SafePacks(b.buf, l);
    var b' := PackedBlob(b, n, PackMoves(b.buf, l));
    BlockSlices(b);
    BlockSlices(b');
  }

  /** fdt_pack. */
  method Pack(f: Fdt) returns (err: int)
    requires Sound(f.State())
    requires RwProbe(f.State()) == 0 ==> PackInside(f.State())
    modifies f, f.buf
    ensures err == RwProbe(old(f.State()))
    ensures err == 0 ==> NumMemRsv(old(f.State()), 0) >= 0 && PackInside(old(f.State()))
    ensures f.State() == if err != 0 then old(f.State()) else
      var n := NumMemRsv(old(f.State()), 0);
      PackedBlob(old(f.State()), n, PackMoves(old(f.buf[..]), LayoutOf(old(f.State()), n)))
  {
    hide PackMoves;
    err := ProbeRw(f);
    if err != 0 {
      return;
    }
    var n := CountRsv(f);
    PackInsideIff(f.State());
    CountedInside(f.State());
    PackBlocks(f, RSV_ENTRY * (n + 1), f.sizeStruct);
    f.total := f.offStrings + f.sizeStrings;
  }

  /** The ranges that fdt_pack moves, with the reservation count that it gets: a list that
      does not end counts as a negative size. */
  predicate PackInside(b: Blob)
    requires Sound(b)
  {
    && RSV_ENTRY * (NumMemRsv(b, 0) + 1) >= 0
    && var l := Layout(b.offRsv, RSV_ENTRY * (NumMemRsv(b, 0) + 1), b.offStruct, b.sizeStruct, b.offStrings, b.sizeStrings);
    Within(l, |b.buf|) && Within(Packed(l), |b.buf|)
  }

  /** fdt_pack stays inside the buffer if and only if the reservation list ends and the
      packed blocks fit. */
  lemma PackInsideIff(b: Blob)
    requires Sound(b) && RwProbe(b) == 0
    ensures PackInside(b) <==>
      NumMemRsv(b, 0) >= 0 && HEADER + RSV_ENTRY * (NumMemRsv(b, 0) + 1) + b.sizeStruct + b.sizeStrings <= |b.buf|
  {
    hide NumMemRsv;
    RsvError(b, 0);
    if NumMemRsv(b, 0) >= 0 {
      CountedInside(b);
    }
  }

  lemma {:induction false} RsvError(b: Blob, i: nat)
    requires b.total <= |b.buf|
    ensures NumMemRsv(b, i) >= 0 || NumMemRsv(b, i) == -TRUNCATED
    decreases b.total - (b.offRsv + RSV_ENTRY * i)
  {
    hide RsvEnds;
    if b.offRsv + RSV_ENTRY * i + RSV_ENTRY <= b.total && !RsvEnds(b, i) {
      RsvError(b, i + 1);
    }
  }

  lemma CountedInside(b: Blob)
    requires Sound(b) && Ordered(b) && NumMemRsv(b, 0) >= 0
    ensures Within(LayoutOf(b, NumMemRsv(b, 0)), |b.buf|)
  {
    hide NumMemRsv;
  }

  // ---------------------------------------------------------------- fdt_open_into

  /** The tree at `fdt` and the buffer at `buf`, both in one memory, share bytes. */
  predicate Overlap(fdt: nat, total: nat, buf: nat, n: nat) {
    buf + n > fdt && buf < fdt + total
  }

  /** Whether fdt_open_into has to put the blocks in order, and what it works from. */
  predicate Reorders(b: Blob)
    requires b.total <= |b.buf|
  {
    var n := NumMemRsv(b, 0);
    n < 0 || Misordered(b, RSV_ENTRY * (n + 1), b.sizeStruct)
  }

  /** Why fdt_open_into refuses: not a tree, not enough room, or none behind the old tree. */
  function OpenError(b: Blob, l: Layout, fdt: nat, buf: nat, bufsize: nat): int
    requires b.total <= |b.buf|
  {
    var newsize := Packed(l).strings + Packed(l).stringsSize;
    if RoProbe(b) < 0 then RoProbe(b)
    else if !Reorders(b) then (if b.total > bufsize then -NOSPACE else 0)
    else if bufsize < newsize then -NOSPACE
    else if Overlap(fdt, b.total, buf, newsize) && fdt + b.total + newsize > buf + bufsize then -NOSPACE
    else 0
  }

  /** What fdt_open_into starts from: its reservation list ends and its blocks are inside. */
  predicate Openable(b: Blob) {
    Sound(b) && |b.buf| == b.total && NumMemRsv(b, 0) >= 0 && Within(LayoutOf(b, NumMemRsv(b, 0)), b.total)
  }

  /** The header that fdt_open_into leaves. */
  function OpenHeader(b: Blob, bufsize: nat): (h: Header)
    requires Openable(b)
    ensures h.total == bufsize
  {
    if Reorders(b) then
      var p := Packed(LayoutOf(b, NumMemRsv(b, 0)));
      Header(MAGIC, bufsize, p.rsv, p.struct, b.sizeStruct, p.strings, b.sizeStrings)
    else Header(b.magic, bufsize, b.offRsv, b.offStruct, b.sizeStruct, b.offStrings, b.sizeStrings)
  }

  /** fdt_open_into: the tree is copied as it is when its blocks are in order, and else
      rebuilt in order, in the buffer or behind the old tree, and moved into place. */
  method OpenInto(mem: array<byte>, fdt: nat, h: Header, buf: nat, bufsize: nat) returns (err: int, h': Header)
    requires fdt + h.total <= mem.Length && buf + bufsize <= mem.Length && Openable(Image(mem[..], fdt, h))
    modifies mem
    ensures var b := Image(old(mem[..]), fdt, h);
      && err == OpenError(b, LayoutOf(b, NumMemRsv(b, 0)), fdt, buf, bufsize)
      && (err != 0 ==> mem[..] == old(mem[..]))
      && (err == 0 ==> h' == OpenHeader(b, bufsize))
      && (err == 0 && bufsize < INT_MAX ==> Opens(b, Image(mem[..], buf, h')))
  {
    hide Moved, Same, Opens, NumMemRsv, Overlap, Within, Packed, OpenError, OpenHeader, Reorders, MoveError, Openable, RoProbe, Image;
    ghost var b := Image(mem[..], fdt, h);
    OpenableParts(b);
    ImageIs(mem[..], fdt, h);
    h' := h;
    err := OpenProbe(h);
    ProbeOf(b);
    if err < 0 {
      OpenErrors(b, LayoutOf(b, NumMemRsv(b, 0)), fdt, buf, bufsize);
      return;
    }
    var n := CountAt(mem, fdt, h);
    var l := Layout(h.offRsv, RSV_ENTRY * (n + 1), h.offStruct, h.sizeStruct, h.offStrings, h.sizeStrings);
    OpenErrors(b, l, fdt, buf, bufsize);
    var misordered := h.offRsv < HEADER || h.offStruct < h.offRsv + l.rsvSize || h.offStrings < h.offStruct + h.sizeStruct
      || h.total < h.offStrings + h.sizeStrings;
    err := MoveBlocks(mem, fdt, h.total, l, misordered, buf, bufsize);
    if err != 0 {
      return;
    }
    h' := NewHeader(h, l, misordered, bufsize);
    ImageIs(mem[..], buf, h');
    if bufsize < INT_MAX {
      SameOpens(b, l, Image(mem[..], buf, h'));
    }
  }

  function NewHeader(h: Header, l: Layout, misordered: bool, bufsize: nat): Header {
    var p := Packed(l);
    if misordered then Header(MAGIC, bufsize, p.rsv, p.struct, h.sizeStruct, p.strings, h.sizeStrings) else h.(total := bufsize)
  }

  lemma OpenableParts(b: Blob)
    requires Openable(b)
    ensures b.total <= |b.buf| && NumMemRsv(b, 0) >= 0 && Within(LayoutOf(b, NumMemRsv(b, 0)), b.total)
  {
    hide NumMemRsv;
  }

  lemma ImageIs(m: seq<byte>, at: nat, h: Header)
    requires at + h.total <= |m|
    ensures Image(m, at, h) == Blob(m[at..at + h.total], h.magic, h.total, h.offRsv, h.offStruct, h.sizeStruct, h.offStrings, h.sizeStrings)
  {
  }

  lemma ProbeOf(b: Blob)
    ensures RoProbe(b) == if b.magic == SW_MAGIC && b.sizeStruct == 0 then -BADSTATE
      else if b.magic != MAGIC && b.magic != SW_MAGIC then -BADMAGIC
      else if b.total < INT_MAX then b.total else -TRUNCATED
  {
  }

  /** The error and the new header in terms of the moves. */
  lemma OpenErrors(b: Blob, l: Layout, fdt: nat, buf: nat, bufsize: nat)
    requires Openable(b) && l == LayoutOf(b, NumMemRsv(b, 0))
    ensures Reorders(b) == (b.offRsv < HEADER || b.offStruct < b.offRsv + l.rsvSize || b.offStrings < b.offStruct + b.sizeStruct
      || b.total < b.offStrings + b.sizeStrings)
    ensures OpenError(b, l, fdt, buf, bufsize) ==
      if RoProbe(b) < 0 then RoProbe(b) else MoveError(b.total, l, Reorders(b), fdt, buf, bufsize)
    ensures RoProbe(b) >= 0 ==> b.magic == MAGIC
    ensures OpenHeader(b, bufsize) ==
      NewHeader(Header(b.magic, b.total, b.offRsv, b.offStruct, b.sizeStruct, b.offStrings, b.sizeStrings), l, Reorders(b), bufsize)
  {
    hide NumMemRsv;
  }

  /** Whatever tree the first blob denotes to its readers, the second denotes it and is
      open for editing. */
  ghost predicate Opens(b: Blob, b': Blob) {
    forall toks: seq<Token>, t: Tree :: Reads(b, toks, t) ==> Denotes(b', toks, t)
  }

  lemma SameOpens(b: Blob, l: Layout, b': Blob)
    requires Openable(b) && RoProbe(b) >= 0 && l == LayoutOf(b, NumMemRsv(b, 0))
    requires |b'.buf| == b'.total < INT_MAX
    requires b' == Blob(b'.buf, MAGIC, b'.total, b'.offRsv, b'.offStruct, b.sizeStruct, b'.offStrings, b.sizeStrings)
    requires var l' := if Reorders(b) then Packed(l) else l;
      && Within(l', b'.total) && Same(b.buf, l, b'.buf, l')
      && b'.offRsv == l'.rsv && b'.offStruct == l'.struct && b'.offStrings == l'.strings
    ensures Opens(b, b')
  {
    hide NumMemRsv, Same, Reads, Denotes, Openable, RoProbe;
    forall toks: seq<Token>, t: Tree | Reads(b, toks, t) ensures Denotes(b', toks, t) {
      OpenedDenotes(b, l, b', toks, t);
    }
  }

  /** fdt_ro_probe_ of a header. */
  method OpenProbe(h: Header) returns (r: int)
    ensures r == if h.magic == SW_MAGIC && h.sizeStruct == 0 then -BADSTATE
      else if h.magic != MAGIC && h.magic != SW_MAGIC then -BADMAGIC
      else if h.total < INT_MAX then h.total else -TRUNCATED
  {
    if h.magic == SW_MAGIC && h.sizeStruct == 0 {
      return -BADSTATE;
    }
    if h.magic != MAGIC && h.magic != SW_MAGIC {
      return -BADMAGIC;
    }
    return if h.total < INT_MAX then h.total else -TRUNCATED;
  }

  /** fdt_num_mem_rsv of the tree at `fdt`. */
  method CountAt(mem: array<byte>, fdt: nat, h: Header) returns (n: int)
    requires fdt + h.total <= mem.Length
    ensures n == NumMemRsv(Image(mem[..], fdt, h), 0)
  {
    hide U32;
    ghost var b := Image(mem[..], fdt, h);
    n := 0;
    while h.offRsv + RSV_ENTRY * n + RSV_ENTRY <= h.total
      invariant n >= 0 && NumMemRsv(b, 0) == NumMemRsv(b, n)
      decreases h.total - (h.offRsv + RSV_ENTRY * n)
    {
      var at := h.offRsv + RSV_ENTRY * n + 8;
      WordAt(mem[..], fdt, h, at);
      WordAt(mem[..], fdt, h, at + 4);
      var hi := U32(mem[fdt + at..fdt + at + 4], 0);
      var lo := U32(mem[fdt + at + 4..fdt + at + 8], 0);
      if hi == 0 && lo == 0 {
        return;
      }
      n := n + 1;
    }
    n := -TRUNCATED;
  }

  lemma WordAt(m: seq<byte>, fdt: nat, h: Header, at: nat)
    requires fdt + h.total <= |m| && at + 4 <= h.total
    ensures U32(Image(m, fdt, h).buf, at) == U32(m[fdt + at..fdt + at + 4], 0)
  {
  }

  /** The blocks in the new buffer are those of the old one, at the places that the new
      header names: it denotes the same tree. */
  lemma OpenedDenotes(b: Blob, l: Layout, b': Blob, toks: seq<Token>, t: Tree)
    requires Openable(b) && RoProbe(b) >= 0 && l == LayoutOf(b, NumMemRsv(b, 0)) && Reads(b, toks, t)
    requires |b'.buf| == b'.total < INT_MAX
    requires b' == Blob(b'.buf, MAGIC, b'.total, b'.offRsv, b'.offStruct, b.sizeStruct, b'.offStrings, b.sizeStrings)
    requires var l' := if Reorders(b) then Packed(l) else l;
      && Within(l', b'.total) && Same(b.buf, l, b'.buf, l')
      && b'.offRsv == l'.rsv && b'.offStruct == l'.struct && b'.offStrings == l'.strings
    ensures Denotes(b', toks, t)
  {
    hide NumMemRsv, Holds, Strip, Items, Ser, Reorders, Same, Packed, Clip, RoProbe, RwProbe;
    var l' := if Reorders(b) then Packed(l) else l;
    OpenedProbe(b, l, b');
    SameBlocks(b.buf, l, b'.buf, l');
    SameSizes(l);
    ClipInside(b.buf, b.total, b.offStruct, b.sizeStruct);
    ClipInside(b.buf, b.total, b.offStrings, b.sizeStrings);
    ClipInside(b'.buf, b'.total, b'.offStruct, b'.sizeStruct);
    ClipInside(b'.buf, b'.total, b'.offStrings, b'.sizeStrings);
  }

  lemma SameSizes(l: Layout)
    ensures Packed(l).structSize == l.structSize && Packed(l).stringsSize == l.stringsSize
  {
  }

  lemma SameBlocks(x: seq<byte>, l: Layout, y: seq<byte>, p: Layout)
    requires Within(l, |x|) && Within(p, |y|) && Same(x, l, y, p)
    ensures y[p.struct..p.struct + p.structSize] == x[l.struct..l.struct + l.structSize]
    ensures y[p.strings..p.strings + p.stringsSize] == x[l.strings..l.strings + l.stringsSize]
  {
  }

  lemma OpenedProbe(b: Blob, l: Layout, b': Blob)
    requires Openable(b) && l == LayoutOf(b, NumMemRsv(b, 0)) && b'.total < INT_MAX
    requires b' == Blob(b'.buf, MAGIC, b'.total, b'.offRsv, b'.offStruct, b.sizeStruct, b'.offStrings, b.sizeStrings)
    requires var l' := if Reorders(b) then Packed(l) else l;
      && Within(l', b'.total) && b'.offRsv == l'.rsv && b'.offStruct == l'.struct && b'.offStrings == l'.strings
    ensures RwProbe(b') == 0
  {
    hide NumMemRsv;
  }

  lemma ClipInside(buf: seq<byte>, total: nat, off: nat, size: nat)
    requires total <= |buf| && off + size <= total
    ensures Clip(buf, total, off, size) == buf[off..off + size]
  {
  }

  /** Why the blocks cannot be moved. */
  function MoveError(total: nat, l: Layout, misordered: bool, fdt: nat, buf: nat, bufsize: nat): int {
    var newsize := Packed(l).strings + Packed(l).stringsSize;
    if !misordered then (if total > bufsize then -NOSPACE else 0)
    else if bufsize < newsize then -NOSPACE
    else if Overlap(fdt, total, buf, newsize) && fdt + total + newsize > buf + bufsize then -NOSPACE
    else 0
  }

  /** The moves of fdt_open_into, whatever bytes the tree and the buffer share. */
  method MoveBlocks(mem: array<byte>, fdt: nat, total: nat, l: Layout, misordered: bool, buf: nat, bufsize: nat) returns (err: int)
    requires fdt + total <= mem.Length && buf + bufsize <= mem.Length && Within(l, total)
    modifies mem
    ensures err == MoveError(total, l, misordered, fdt, buf, bufsize)
    ensures err != 0 ==> mem[..] == old(mem[..])
    ensures var l' := if misordered then Packed(l) else l;
      err == 0 ==> Within(l', bufsize) && Same(old(mem[fdt..fdt + total]), l, mem[buf..buf + bufsize], l')
  {
    hide Moved, Same, Packed, Overlap;
    if misordered {
      var p := Packed(l);
      var newsize := p.strings + p.stringsSize;
      PackedWithin(l);
      if bufsize < newsize {
        return -NOSPACE;
      }
      var tmp := buf;
      if tmp + newsize > fdt && tmp < fdt + total {
        tmp := fdt + total;
        OverlapIs(fdt, total, buf, newsize);
        if tmp + newsize > buf + bufsize {
          return -NOSPACE;
        }
      }
      OverlapIs(fdt, total, buf, newsize);
      OverlapIs(fdt, total, tmp, newsize);
      MoveVia(mem, fdt, total, l, tmp, buf, bufsize);
      return 0;
    }
    if total > bufsize {
      return -NOSPACE;
    }
    ghost var m0 := mem[..];
    Memmove(mem, buf, fdt, total);
    MovedHere(m0, buf, fdt, total);
    Carried(m0, fdt, total, l, mem[..], buf, bufsize, total);
    return 0;
  }

  lemma PackedWithin(l: Layout)
    ensures Within(Packed(l), Packed(l).strings + Packed(l).stringsSize)
  {
  }

  lemma OverlapIs(fdt: nat, total: nat, buf: nat, n: nat)
    ensures Overlap(fdt, total, buf, n) == (buf + n > fdt && buf < fdt + total)
  {
  }

  /** The blocks put in order at `tmp`, clear of the old tree, and then moved to `buf`. */
  method MoveVia(mem: array<byte>, fdt: nat, total: nat, l: Layout, tmp: nat, buf: nat, bufsize: nat)
    requires fdt + total <= mem.Length && buf + bufsize <= mem.Length && Within(l, total)
    requires var n := Packed(l).strings + Packed(l).stringsSize;
      n <= bufsize && tmp + n <= mem.Length && !Overlap(fdt, total, tmp, n)
    modifies mem
    ensures Within(Packed(l), bufsize) && Same(old(mem[fdt..fdt + total]), l, mem[buf..buf + bufsize], Packed(l))
  {
    hide Moved, Same, Packed, Overlap;
    var p := Packed(l);
    var newsize := p.strings + p.stringsSize;
    PackedWithin(l);
    ghost var was := mem[fdt..fdt + total];
    PackTo(mem, fdt, total, l, tmp);
    ghost var m1 := mem[..];
    Memmove(mem, buf, tmp, newsize);
    MovedHere(m1, buf, tmp, newsize);
    Carried(m1, tmp, newsize, p, mem[..], buf, bufsize, newsize);
    SameTwice(was, l, m1[tmp..tmp + newsize], p, mem[buf..buf + bufsize]);
  }

  lemma SameTwice(x: seq<byte>, l: Layout, y: seq<byte>, p: Layout, z: seq<byte>)
    requires Within(l, |x|) && Within(p, |y|) && Within(p, |z|) && Same(x, l, y, p) && Same(y, p, z, p)
    ensures Same(x, l, z, p)
  {
  }

  /** What is the same in a copied range is the same block by block. */
  lemma Carried(m: seq<byte>, from: nat, n: nat, l: Layout, m': seq<byte>, to: nat, size: nat, k: nat)
    requires from + n <= |m| && to + size <= |m'| && k <= n && k <= size && Within(l, k)
    requires m'[to..to + k] == m[from..from + k]
    ensures Same(m[from..from + n], l, m'[to..to + size], l)
  {
    SliceSame(m, from, n, m', to, size, k, l.rsv, l.rsvSize);
    SliceSame(m, from, n, m', to, size, k, l.struct, l.structSize);
    SliceSame(m, from, n, m', to, size, k, l.strings, l.stringsSize);
  }

  lemma SliceSame(m: seq<byte>, from: nat, n: nat, m': seq<byte>, to: nat, size: nat, k: nat, at: nat, len: nat)
    requires from + n <= |m| && to + size <= |m'| && k <= n && k <= size && at + len <= k
    requires m'[to..to + k] == m[from..from + k]
    ensures m'[to..to + size][at..at + len] == m[from..from + n][at..at + len]
  {
    SliceOfSlice(m, from, from + n, at, at + len);
    SliceOfSlice(m', to, to + size, at, at + len);
    SliceOfSlice(m, from, from + k, at, at + len);
    SliceOfSlice(m', to, to + k, at, at + len);
  }

  /** fdt_packblocks_ into a buffer that shares no byte with the old tree. */
  method PackTo(mem: array<byte>, fdt: nat, total: nat, l: Layout, tmp: nat)
    requires fdt + total <= mem.Length && Within(l, total)
    requires var n := Packed(l).strings + Packed(l).stringsSize; tmp + n <= mem.Length && !Overlap(fdt, total, tmp, n)
    modifies mem
    ensures var n := Packed(l).strings + Packed(l).stringsSize;
      Same(old(mem[fdt..fdt + total]), l, mem[tmp..tmp + n], Packed(l))
  {
    hide Moved, Same, Overlap;
    ghost var m0 := mem[..];
    var p := Packed(l);
    Memmove(mem, tmp + p.rsv, fdt + l.rsv, l.rsvSize);
    Memmove(mem, tmp + p.struct, fdt + l.struct, l.structSize);
    Memmove(mem, tmp + p.strings, fdt + l.strings, l.stringsSize);
    Arrives(m0, fdt, total, l, tmp);
  }

  function ThreeMoves(m: seq<byte>, d1: nat, s1: nat, n1: nat, d2: nat, s2: nat, n2: nat, d3: nat, s3: nat, n3: nat): (r: seq<byte>)
    requires d1 + n1 <= |m| && s1 + n1 <= |m| && d2 + n2 <= |m| && s2 + n2 <= |m| && d3 + n3 <= |m| && s3 + n3 <= |m|
    ensures |r| == |m|
  {
    Moved(Moved(Moved(m, d1, s1, n1), d2, s2, n2), d3, s3, n3)
  }

  /** Three moves to places apart from each other, none onto a block still to be moved. */
  lemma AllArrive(m: seq<byte>, d1: nat, s1: nat, n1: nat, d2: nat, s2: nat, n2: nat, d3: nat, s3: nat, n3: nat)
    requires d1 + n1 <= |m| && s1 + n1 <= |m| && d2 + n2 <= |m| && s2 + n2 <= |m| && d3 + n3 <= |m| && s3 + n3 <= |m|
    requires Disjoint(d1, n1, d2, n2) && Disjoint(d1, n1, d3, n3) && Disjoint(d2, n2, d3, n3)
    requires Disjoint(d1, n1, s2, n2) && Disjoint(d1, n1, s3, n3) && Disjoint(d2, n2, s3, n3)
    ensures var r := ThreeMoves(m, d1, s1, n1, d2, s2, n2, d3, s3, n3);
      r[d1..d1 + n1] == m[s1..s1 + n1] && r[d2..d2 + n2] == m[s2..s2 + n2] && r[d3..d3 + n3] == m[s3..s3 + n3]
  {
    hide Moved;
    var m1 := Moved(m, d1, s1, n1);
    var m2 := Moved(m1, d2, s2, n2);
    MovedHere(m, d1, s1, n1);
    MovedElsewhere(m1, d2, s2, n2, d1, n1);
    MovedElsewhere(m2, d3, s3, n3, d1, n1);
    MovedElsewhere(m, d1, s1, n1, s2, n2);
    MovedHere(m1, d2, s2, n2);
    MovedElsewhere(m2, d3, s3, n3, d2, n2);
    MovedElsewhere(m, d1, s1, n1, s3, n3);
    MovedElsewhere(m1, d2, s2, n2, s3, n3);
    MovedHere(m2, d3, s3, n3);
  }

  lemma Apart(fdt: nat, total: nat, l: Layout, tmp: nat)
    requires Within(l, total) && !Overlap(fdt, total, tmp, Packed(l).strings + Packed(l).stringsSize)
    ensures var p := Packed(l);
      && Disjoint(tmp + p.rsv, l.rsvSize, tmp + p.struct, l.structSize)
      && Disjoint(tmp + p.rsv, l.rsvSize, tmp + p.strings, l.stringsSize)
      && Disjoint(tmp + p.struct, l.structSize, tmp + p.strings, l.stringsSize)
      && Disjoint(tmp + p.rsv, l.rsvSize, fdt + l.struct, l.structSize)
      && Disjoint(tmp + p.rsv, l.rsvSize, fdt + l.strings, l.stringsSize)
      && Disjoint(tmp + p.struct, l.structSize, fdt + l.strings, l.stringsSize)
  {
  }

  lemma Arrives(m0: seq<byte>, fdt: nat, total: nat, l: Layout, tmp: nat)
    requires fdt + total <= |m0| && Within(l, total)
    requires var n := Packed(l).strings + Packed(l).stringsSize; tmp + n <= |m0| && !Overlap(fdt, total, tmp, n)
    ensures var p := Packed(l);
      var r := ThreeMoves(m0, tmp + p.rsv, fdt + l.rsv, l.rsvSize, tmp + p.struct, fdt + l.struct, l.structSize,
                          tmp + p.strings, fdt + l.strings, l.stringsSize);
      Same(m0[fdt..fdt + total], l, r[tmp..tmp + p.strings + p.stringsSize], p)
  {
    hide ThreeMoves, Disjoint, Overlap, Same;
    Apart(fdt, total, l, tmp);
    var p := Packed(l);
    var r := ThreeMoves(m0, tmp + p.rsv, fdt + l.rsv, l.rsvSize, tmp + p.struct, fdt + l.struct, l.structSize,
                        tmp + p.strings, fdt + l.strings, l.stringsSize);
    AllArrive(m0, tmp + p.rsv, fdt + l.rsv, l.rsvSize, tmp + p.struct, fdt + l.struct, l.structSize,
              tmp + p.strings, fdt + l.strings, l.stringsSize);
    ArrivedSame(m0, fdt, total, l, tmp, r);
  }

  lemma ArrivedSame(m: seq<byte>, fdt: nat, total: nat, l: Layout, tmp: nat, r: seq<byte>)
    requires fdt + total <= |m| && Within(l, total) && tmp + Packed(l).strings + Packed(l).stringsSize <= |r|
    requires var p := Packed(l);
      && r[tmp + p.rsv..tmp + p.rsv + l.rsvSize] == m[fdt + l.rsv..fdt + l.rsv + l.rsvSize]
      && r[tmp + p.struct..tmp + p.struct + l.structSize] == m[fdt + l.struct..fdt + l.struct + l.structSize]
      && r[tmp + p.strings..tmp + p.strings + l.stringsSize] == m[fdt + l.strings..fdt + l.strings + l.stringsSize]
    ensures Same(m[fdt..fdt + total], l, r[tmp..tmp + Packed(l).strings + Packed(l).stringsSize], Packed(l))
  {
    var p := Packed(l);
    var n := p.strings + p.stringsSize;
    BlockAt(m, fdt, total, l.rsv, l.rsvSize, r, tmp, n, p.rsv);
    BlockAt(m, fdt, total, l.struct, l.structSize, r, tmp, n, p.struct);
    BlockAt(m, fdt, total, l.strings, l.stringsSize, r, tmp, n, p.strings);
  }

  lemma BlockAt(m: seq<byte>, fdt: nat, total: nat, at: nat, n: nat, m': seq<byte>, tmp: nat, size: nat, to: nat)
    requires fdt + total <= |m| && tmp + size <= |m'| && at + n <= total && to + n <= size
    requires m'[tmp + to..tmp + to + n] == m[fdt + at..fdt + at + n]
    ensures m'[tmp..tmp + size][to..to + n] == m[fdt..fdt + total][at..at + n]
  {
    SliceOfSlice(m, fdt, fdt + total, at, at + n);
    SliceOfSlice(m', tmp, tmp + size, to, to + n);
  }
}
