/** For which buffers the sequential writer of fdt_sw.c takes a whole tree: exactly those
    that hold its bytes. */
module FdtSize {
  import opened Wrappers
  import opened Bytes
  import opened FdtFormat
  import opened FdtTree
  import opened FdtRead
  import opened FdtEdit
  import opened FdtEditBlocks
  import opened FdtEditTheorems
  import opened FdtBuild
  import opened FdtCheck
  import opened FdtLife

  /** What a call adds to the strings block: nothing if the name is already in there. */
  function NewName(table: seq<byte>, i: Item, dedup: bool): seq<byte> {
    if !i.IProp? || i.name.None? || (dedup && FindString(table, 0, i.name.value) >= 0) then []
    else i.name.value + [0]
  }

  /** What a call adds to the structure block. */
  function CallSize(i: Item): nat {
    match i
    case IBegin(name) => 4 + Align4(|name| + 1)
    case IEnd => 4
    case IProp(_, val) => 12 + Align4(|val|)
    case INop => 0
  }

  /** What the calls add to both, the strings block being `table` already. */
  function Need(calls: seq<Item>, table: seq<byte>, dedup: bool): nat
    decreases calls
  {
    if calls == [] then 0
    else
      var x := NewName(table, calls[0], dedup);
      CallSize(calls[0]) + |x| + Need(calls[1..], x + table, dedup)
  }

  function Used(b: Blob): nat {
    b.offStruct + b.sizeStruct + b.sizeStrings
  }

  /** The writer after a call: open, with that much more in it, its strings block grown by `x`. */
  ghost predicate Grown(b: Blob, b': Blob, n: nat, x: seq<byte>)
    requires Room(b)
  {
    && Room(b') && SwProbeStruct(b') == 0 && b'.total == b.total
    && Used(b') == Used(b) + n + |x| && Table(b') == x + Table(b)
  }

  lemma NodeFits(b: Blob, i: Item)
    requires Room(b) && SwProbeStruct(b) == 0 && Callable(i) && !i.IProp?
    ensures var e := Call(b, i, true);
      && e == Call(b, i, false)
      && (e.err == 0 <==> Used(b) + CallSize(i) <= b.total)
      && (e.err == 0 ==> Grown(b, e.blob, CallSize(i), []))
  {
    hide BE32, Align4, Put;
    var e := Call(b, i, true);
    if e.err == 0 {
      var (lo, hi) := (b.total - b.sizeStrings, b.total);
      var at := b.offStruct + b.sizeStruct;
      if i.IBegin? {
        var b1 := Put(b.buf, at, BE32(BEGIN_NODE));
        PutElsewhere(b.buf, at, BE32(BEGIN_NODE), lo, hi);
        PutElsewhere(b1, at + 4, i.node + [0], lo, hi);
      } else {
        PutElsewhere(b.buf, at, BE32(END_NODE), lo, hi);
      }
    }
  }

  /** The name of a property found or added. */
  lemma NameFits(b: Blob, name: seq<byte>, x: seq<byte>, dedup: bool)
    requires Room(b) && b.offStrings == b.total
    requires x == if dedup && FindString(Table(b), 0, name) >= 0 then [] else name + [0]
    ensures var a := FindAdd(b, name, dedup);
      && (a.off < 0 <==> Used(b) + |x| <= b.total)
      && (a.off < 0 ==>
        && Room(a.blob) && Table(a.blob) == x + Table(b)
        && a.blob == b.(buf := a.blob.buf, sizeStrings := b.sizeStrings + |x|))
  {
    hide Put, FindString;
    var a := FindAdd(b, name, dedup);
    if a.off < 0 && a.grew {
      TableGrows(b.buf, b.total - b.sizeStrings - |x|, x, b.offStruct, b.offStruct + b.sizeStruct, b.total);
    }
  }

  lemma PropFits(b: Blob, i: Item, dedup: bool)
    requires Room(b) && SwProbeStruct(b) == 0 && Callable(i) && i.IProp?
    ensures var (e, x) := (Call(b, i, dedup), NewName(Table(b), i, dedup));
      && (e.err == 0 <==> Used(b) + CallSize(i) + |x| <= b.total)
      && (e.err == 0 ==> Grown(b, e.blob, CallSize(i), x))
  {
    hide BE32, Align4, Put, FindString, WriteProp, FindAdd, Table;
    NameFits(b, i.name.value, NewName(Table(b), i, dedup), dedup);
    var a := FindAdd(b, i.name.value, dedup);
    if a.off < 0 && GrabSpace(a.blob, CallSize(i)).Some? {
      var g := GrabSpace(a.blob, CallSize(i)).value;
      SameStrings(a.blob, g);
      PropKeepsTable(g, b.sizeStruct, WORD + a.off, i.val);
    }
  }

  lemma SameStrings(b: Blob, g: Blob)
    requires Room(b) && Room(g) && g == b.(sizeStruct := g.sizeStruct)
    ensures Table(g) == Table(b)
  {
  }

  lemma PropKeepsTable(g: Blob, q: nat, nameoff: nat, val: seq<byte>)
    requires Room(g) && nameoff < WORD && |val| < WORD && g.offStruct + q + 12 + |val| <= g.total - g.sizeStrings
    ensures var r := WriteProp(g, q, nameoff, val);
      Table(r) == Table(g) && r == g.(buf := r.buf)
  {
    hide BE32, Put;
    var at, lo, hi := g.offStruct + q, g.total - g.sizeStrings, g.total;
    var b1 := Put(g.buf, at, BE32(PROP));
    var b2 := Put(b1, at + 8, BE32(nameoff));
    var b3 := Put(b2, at + 4, BE32(|val|));
    PutElsewhere(g.buf, at, BE32(PROP), lo, hi);
    PutElsewhere(b1, at + 8, BE32(nameoff), lo, hi);
    PutElsewhere(b2, at + 4, BE32(|val|), lo, hi);
    PutElsewhere(b3, at + 12, val, lo, hi);
  }

  /** All calls return 0 if and only if there is room for what they need. */
  lemma {:induction false} CallsFit(b: Blob, calls: seq<Item>, dedup: bool)
    requires Room(b) && SwProbeStruct(b) == 0 && AllCallable(calls)
    ensures var r := MakeCalls(b, calls, dedup);
      && (r.Some? <==> Used(b) + Need(calls, Table(b), dedup) <= b.total)
      && (r.Some? ==> Room(r.value) && Used(r.value) == Used(b) + Need(calls, Table(b), dedup) && r.value.total == b.total)
    decreases calls
  {
    hide Call, CallSize, NewName, Table, SwProbeStruct;
    if calls != [] {
      var i := calls[0];
      if i.IProp? {
        PropFits(b, i, dedup);
      } else {
        NodeFits(b, i);
        assert NewName(Table(b), i, dedup) == [] by { NoName(Table(b), i, dedup); }
      }
      var e := Call(b, i, dedup);
      if e.err == 0 {
        CallsFit(e.blob, calls[1..], dedup);
      }
    }
  }

  lemma NoName(table: seq<byte>, i: Item, dedup: bool)
    requires !i.IProp?
    ensures NewName(table, i, dedup) == []
  {
  }

  lemma {:induction false} ReservesFit(b: Blob, rs: seq<Reserve>)
    requires Room(b) && ReservesOk(rs) && SwProbeMemrsv(b) == 0
    ensures var r := AddReserves(b, rs);
      && (r.Some? <==> b.offStruct + RSV_ENTRY * |rs| <= b.total || rs == [])
      && (r.Some? ==>
          && Room(r.value) && SwProbeMemrsv(r.value) == 0 && r.value.offStruct == b.offStruct + RSV_ENTRY * |rs|
          && r.value.total == b.total && r.value.sizeStruct == b.sizeStruct && r.value.sizeStrings == b.sizeStrings)
    decreases rs
  {
    hide BE64, Put;
    if rs != [] {
      assert ReservesOk(rs[1..]);
      var e := AddReservemapEntry(b, rs[0].addr, rs[0].size);
      if e.err == 0 {
        ReservesFit(e.blob, rs[1..]);
      }
    }
  }

  /** The writer takes the reservations and the calls if and only if the buffer holds the
      header, the reservation list with its end, what the calls need and the end tag. */
  lemma BuildIff(bufsize: nat, flags: nat, rs: seq<Reserve>, calls: seq<Item>)
    requires bufsize < INT_MAX && ReservesOk(rs) && AllCallable(calls)
    ensures Build(bufsize, flags, rs, calls).Some? <==>
      flags <= 1 && CREATE_OFFSET + RSV_ENTRY * (|rs| + 1) + Need(calls, [], flags == 0) + 4 <= bufsize
  {
    hide MakeCalls, Finish, ReservesOk, AllCallable, AddReserves, Need, Entries, Built, BE64, Put;
    var c := Create(bufsize, flags);
    if c.err == 0 {
      CreateRoom(bufsize, flags);
      ReservesFit(c.blob, rs);
      var r := AddReserves(c.blob, rs);
      if r.Some? && FinishReservemap(r.value).err == 0 {
        var f := Prepare(bufsize, flags, rs);
        OpenTable(f);
        CallsFit(f, calls, flags == 0);
        var k := MakeCalls(f, calls, flags == 0);
        if k.Some? {
          var toks := CallsExtend(f, [], [], calls, flags == 0);
          KeptFacts(f, k.value);
          var toks' := FinishTheorem(k.value, toks, [] + calls);
        }
      }
    }
  }

  lemma OpenTable(f: Blob)
    requires Built(f, [], []) && f.sizeStruct == f.sizeStrings == 0
    ensures Room(f) && SwProbeStruct(f) == 0 && Table(f) == [] && Used(f) == f.offStruct
  {
  }

  /** Every tree goes into every buffer that is large enough, and is read back from it. */
  lemma TreeFits(bufsize: nat, flags: nat, rs: seq<Reserve>, t: Tree, fuel: nat) returns (toks: seq<Token>)
    requires bufsize < INT_MAX && ReservesOk(rs) && AllCallable(Ser(t)) && flags <= 1
    requires CREATE_OFFSET + RSV_ENTRY * (|rs| + 1) + Need(Ser(t), [], flags == 0) + 4 <= bufsize
    ensures Build(bufsize, flags, rs, Ser(t)).Some?
    ensures var b := Build(bufsize, flags, rs, Ser(t)).value;
      Denotes(b, toks, t) && (4 * fuel > b.total ==> CheckFull32(b, bufsize, fuel) == Verdict(0))
  {
    hide Build, Ser, Need, ReservesOk, AllCallable, CheckFull32, Reads, RwProbe;
    BuildIff(bufsize, flags, rs, Ser(t));
    toks := TreeRoundTrip(bufsize, flags, rs, t, fuel);
  }
}
