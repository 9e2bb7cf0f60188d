/** The whole life of a built blob: create, reserve, write a tree, finish; what
    fdt_check_full says of it and what its readers recover. */
module FdtLife {
  import opened Wrappers
  import opened Bytes
  import opened FdtFormat
  import opened FdtTree
  import opened FdtRead
  import opened FdtEdit
  import opened FdtEditBlocks
  import opened FdtEditTheorems
  import opened FdtBuild
  import opened FdtCheck

  datatype Reserve = Reserve(addr: nat, size: nat)

  predicate ReservesOk(rs: seq<Reserve>) {
    forall i :: 0 <= i < |rs| ==> rs[i].addr < WORD * WORD && 0 < rs[i].size < WORD * WORD
  }

  /** Every call returns 0, or there is no blob. */
  function AddReserves(b: Blob, rs: seq<Reserve>): (r: Option<Blob>)
    requires Room(b) && ReservesOk(rs)
    ensures r.Some? ==> Room(r.value)
    decreases rs
  {
    if rs == [] then Some(b)
    else
      var e := AddReservemapEntry(b, rs[0].addr, rs[0].size);
      if e.err != 0 then None else AddReserves(e.blob, rs[1..])
  }

  predicate AllCallable(calls: seq<Item>) {
    forall i :: 0 <= i < |calls| ==> Callable(calls[i])
  }

  function MakeCalls(b: Blob, calls: seq<Item>, dedup: bool): (r: Option<Blob>)
    requires Room(b) && AllCallable(calls)
    ensures r.Some? ==> Room(r.value)
    decreases calls
  {
    if calls == [] then Some(b)
    else
      var e := Call(b, calls[0], dedup);
      if e.err != 0 then None else MakeCalls(e.blob, calls[1..], dedup)
  }

  /** The flag FDT_CREATE_FLAG_NO_NAME_DEDUP is the only one there is. */
  function Build(bufsize: nat, flags: nat, rs: seq<Reserve>, calls: seq<Item>): Option<Blob>
    requires bufsize < INT_MAX && ReservesOk(rs) && AllCallable(calls)
  {
    var c := Create(bufsize, flags);
    if c.err != 0 then None
    else match AddReserves(c.blob, rs)
      case None => None
      case Some(b1) =>
        var f := FinishReservemap(b1);
        if f.err != 0 then None
        else match MakeCalls(f.blob, calls, flags == 0)
          case None => None
          case Some(b2) =>
            var e := Finish(b2);
            if e.err != 0 then None else Some(e.blob)
  }

  // ---------------------------------------------------------------- reservations

  /** Entry `i` of the reservation list holds `r`. */
  ghost predicate EntryIs(buf: seq<byte>, i: nat, r: Reserve)
    requires r.addr < WORD * WORD && r.size < WORD * WORD
  {
    var at := CREATE_OFFSET + RSV_ENTRY * i;
    at + RSV_ENTRY <= |buf| && buf[at..at + RSV_ENTRY] == BE64(r.addr) + BE64(r.size)
  }

  /** The reservation list is exactly `rs` and its terminator. */
  ghost predicate Entries(buf: seq<byte>, rs: seq<Reserve>)
    requires ReservesOk(rs)
  {
    EntryIs(buf, |rs|, Reserve(0, 0)) && forall i :: 0 <= i < |rs| ==> EntryIs(buf, i, rs[i])
  }

  ghost predicate Reserved(b: Blob, rs: seq<Reserve>)
    requires ReservesOk(rs)
  {
    && b.offStruct == CREATE_OFFSET + RSV_ENTRY * |rs| && b.offStruct <= |b.buf|
    && forall i :: 0 <= i < |rs| ==> EntryIs(b.buf, i, rs[i])
  }

  lemma ReserveOne(b: Blob, rs: seq<Reserve>, r: Reserve)
    requires Room(b) && ReservesOk(rs) && Reserved(b, rs) && r.addr < WORD * WORD && r.size < WORD * WORD
    requires AddReservemapEntry(b, r.addr, r.size).err == 0
    ensures var b' := AddReservemapEntry(b, r.addr, r.size).blob;
      && EntryIs(b'.buf, |rs|, r)
      && (forall i :: 0 <= i < |rs| ==> EntryIs(b'.buf, i, rs[i]))
      && b' == b.(buf := b'.buf, offStruct := b.offStruct + RSV_ENTRY) && |b'.buf| == |b.buf|
  {
    hide BE32, Put, BE64;
    var x := BE64(r.addr) + BE64(r.size);
    var b' := AddReservemapEntry(b, r.addr, r.size).blob;
    PutHere(b.buf, b.offStruct, x);
    forall i | 0 <= i < |rs| ensures EntryIs(b'.buf, i, rs[i]) {
      assert EntryIs(b.buf, i, rs[i]);
      var at := CREATE_OFFSET + RSV_ENTRY * i;
      PutElsewhere(b.buf, b.offStruct, x, at, at + RSV_ENTRY);
    }
  }

  lemma {:induction false} ReserveAll(b: Blob, was: seq<Reserve>, rs: seq<Reserve>)
    requires Room(b) && ReservesOk(was) && ReservesOk(rs) && Reserved(b, was) && SwProbeMemrsv(b) == 0
    requires AddReserves(b, rs).Some?
    ensures ReservesOk(was + rs)
    ensures var b' := AddReserves(b, rs).value;
      Reserved(b', was + rs) && SwProbeMemrsv(b') == 0 && b' == b.(buf := b'.buf, offStruct := b'.offStruct)
    decreases rs
  {
    hide AddReservemapEntry, Room, EntryIs;
    if rs == [] {
      assert was + rs == was;
    } else {
      var e := AddReservemapEntry(b, rs[0].addr, rs[0].size);
      ReserveOne(b, was, rs[0]);
      var now := was + [rs[0]];
      assert ReservesOk(now);
      assert ReservesOk(rs[1..]);
      forall i | 0 <= i < |now| ensures EntryIs(e.blob.buf, i, now[i]) {
        if i < |was| {
          assert now[i] == was[i];
        }
      }
      RoomFacts(e.blob);
      ReserveAll(e.blob, now, rs[1..]);
      assert now + rs[1..] == was + rs;
    }
  }

  lemma WordTwice(pre: seq<byte>, v: nat, post: seq<byte>)
    requires v < WORD * WORD
    ensures var s := pre + BE64(v) + post;
      U32(s, |pre|) == v / WORD && U32(s, |pre| + 4) == v % WORD
  {
    hide BE32, U32;
    var h, l := BE32(v / WORD), BE32(v % WORD);
    assert pre + BE64(v) + post == pre + h + (l + post);
    WordInside(pre, v / WORD, l + post);
    assert pre + BE64(v) + post == (pre + h) + l + post;
    WordInside(pre + h, v % WORD, post);
  }

  /** The list ends at an entry exactly when the entry's size is zero. */
  lemma EntryEnds(b: Blob, i: nat, r: Reserve)
    requires r.addr < WORD * WORD && r.size < WORD * WORD && EntryIs(b.buf, i, r)
    requires b.total <= |b.buf| && b.offRsv == CREATE_OFFSET && CREATE_OFFSET + RSV_ENTRY * (i + 1) <= b.total
    ensures RsvEnds(b, i) <==> r.size == 0
  {
    hide BE32, U32, BE64;
    var at := CREATE_OFFSET + RSV_ENTRY * i;
    var pre, post := b.buf[..at] + BE64(r.addr), b.buf[at + RSV_ENTRY..];
    assert b.buf == b.buf[..at] + b.buf[at..at + RSV_ENTRY] + post;
    assert b.buf == pre + BE64(r.size) + post;
    WordTwice(pre, r.size, post);
  }

  /** fdt_num_mem_rsv counts exactly the entries that were added. */
  lemma {:induction false} CountReserves(b: Blob, rs: seq<Reserve>, i: nat)
    requires b.total <= |b.buf| && b.offRsv == CREATE_OFFSET && ReservesOk(rs) && i <= |rs|
    requires CREATE_OFFSET + RSV_ENTRY * (|rs| + 1) <= b.total && Entries(b.buf, rs)
    ensures NumMemRsv(b, i) == |rs|
    decreases |rs| - i
  {
    hide EntryIs, RsvEnds;
    if i == |rs| {
      EntryEnds(b, i, Reserve(0, 0));
    } else {
      EntryEnds(b, i, rs[i]);
      CountReserves(b, rs, i + 1);
    }
  }

  // ---------------------------------------------------------------- calls

  lemma {:induction false} CallsExtend(b: Blob, toks: seq<Token>, was: seq<Item>, calls: seq<Item>, dedup: bool)
    returns (toks': seq<Token>)
    requires Built(b, toks, was) && AllCallable(calls)
    ensures var r := MakeCalls(b, calls, dedup);
      r.Some? ==> Built(r.value, toks', was + calls) && Kept(b, r.value)
    decreases calls
  {
    hide Built, Call, Room, Kept;
    BuiltRoom(b, toks, was);
    if calls == [] {
      toks' := toks;
      assert was + calls == was;
      RoomFacts(b);
      KeptSame(b);
    } else {
      var e := Call(b, calls[0], dedup);
      toks' := CallExtends(b, toks, was, calls[0], dedup);
      if e.err == 0 {
        CallKeeps(b, calls[0], dedup);
        toks' := CallsExtend(e.blob, toks', was + [calls[0]], calls[1..], dedup);
        assert was + [calls[0]] + calls[1..] == was + calls;
        if MakeCalls(b, calls, dedup).Some? {
          KeptTrans(b, e.blob, MakeCalls(b, calls, dedup).value);
        }
      }
    }
  }

  lemma BuiltRoom(b: Blob, toks: seq<Token>, was: seq<Item>)
    requires Built(b, toks, was)
    ensures Room(b)
  {
  }

  /** Everything before the structure block is as it was. */
  ghost predicate Kept(b: Blob, b': Blob) {
    && b'.offStruct == b.offStruct && b'.offRsv == b.offRsv && |b'.buf| == |b.buf| && b'.total == b.total
    && b.offStruct <= |b.buf| && b'.buf[..b.offStruct] == b.buf[..b.offStruct]
  }

  lemma KeptSame(b: Blob)
    ensures b.offStruct <= |b.buf| ==> Kept(b, b)
  {
  }

  lemma KeptTrans(a: Blob, b: Blob, c: Blob)
    requires Kept(a, b) && Kept(b, c)
    ensures Kept(a, c)
  {
  }

  lemma PutAfter(buf: seq<byte>, at: nat, x: seq<byte>, o: nat)
    requires o <= at && at + |x| <= |buf|
    ensures Put(buf, at, x)[..o] == buf[..o]
  {
  }

  lemma WriteKeeps(a: Blob, b: Blob, at: nat, x: seq<byte>)
    requires Kept(a, b) && b.offStruct + at + |x| <= |b.buf|
    ensures Kept(a, Write(b, at, x))
  {
    hide Put;
    PutAfter(b.buf, b.offStruct + at, x, b.offStruct);
  }

  lemma CallKeeps(b: Blob, i: Item, dedup: bool)
    requires Room(b) && Callable(i) && Call(b, i, dedup).err == 0
    ensures Kept(b, Call(b, i, dedup).blob)
  {
    hide Kept, Write, FindAdd, Align4, BE32;
    KeptSame(b);
    match i
    case IBegin(name) =>
      var g := GrabSpace(b, 4 + Align4(|name| + 1)).value;
      KeptGrab(b, b, g);
      WriteKeeps(b, g, b.sizeStruct, BE32(BEGIN_NODE));
      WriteSame(g, b.sizeStruct, BE32(BEGIN_NODE));
      WriteKeeps(b, Write(g, b.sizeStruct, BE32(BEGIN_NODE)), b.sizeStruct + 4, name + [0]);
    case IEnd =>
      var g := GrabSpace(b, 4).value;
      KeptGrab(b, b, g);
      WriteKeeps(b, g, b.sizeStruct, BE32(END_NODE));
    case IProp(name, val) =>
      FindAddKeeps(b, name.value, dedup);
      var a := FindAdd(b, name.value, dedup);
      var g := GrabSpace(a.blob, 12 + Align4(|val|)).value;
      KeptGrab(b, a.blob, g);
      var q := b.sizeStruct;
      WriteKeeps(b, g, q, BE32(PROP));
      WriteSame(g, q, BE32(PROP));
      var b1 := Write(g, q, BE32(PROP));
      WriteKeeps(b, b1, q + 8, BE32(WORD + a.off));
      WriteSame(b1, q + 8, BE32(WORD + a.off));
      var b2 := Write(b1, q + 8, BE32(WORD + a.off));
      WriteKeeps(b, b2, q + 4, BE32(|val|));
      WriteSame(b2, q + 4, BE32(|val|));
      WriteKeeps(b, Write(b2, q + 4, BE32(|val|)), q + 12, val);
  }

  lemma WriteSame(b: Blob, at: nat, x: seq<byte>)
    requires b.offStruct + at + |x| <= |b.buf|
    ensures var b' := Write(b, at, x); b' == b.(buf := b'.buf) && |b'.buf| == |b.buf|
  {
  }

  lemma KeptGrab(a: Blob, b: Blob, g: Blob)
    requires Kept(a, b) && g == b.(sizeStruct := g.sizeStruct)
    ensures Kept(a, g)
  {
  }

  lemma FindAddKeeps(b: Blob, name: seq<byte>, dedup: bool)
    requires Room(b) && b.offStrings == b.total && FindAdd(b, name, dedup).off < 0
    ensures Kept(b, FindAdd(b, name, dedup).blob)
  {
    hide FindString;
  }

  // ---------------------------------------------------------------- the round trip

  lemma Opened(b: Blob)
    requires Room(b) && SwProbeStruct(b) == 0 && b.sizeStruct == 0 && b.sizeStrings == 0
    ensures Built(b, [], [])
  {
    assert b.buf[b.offStruct..b.offStruct] == [];
    assert Flat([]) == [];
  }

  lemma KeptEntry(b: Blob, b': Blob, i: nat, r: Reserve)
    requires r.addr < WORD * WORD && r.size < WORD * WORD
    requires b.offStruct <= |b.buf| && b.offStruct <= |b'.buf| && b'.buf[..b.offStruct] == b.buf[..b.offStruct]
    requires EntryIs(b.buf, i, r) && CREATE_OFFSET + RSV_ENTRY * (i + 1) <= b.offStruct
    ensures EntryIs(b'.buf, i, r)
  {
    hide BE64;
    var at := CREATE_OFFSET + RSV_ENTRY * i;
    assert b'.buf[at..at + RSV_ENTRY] == b'.buf[..b.offStruct][at..at + RSV_ENTRY];
    assert b.buf[at..at + RSV_ENTRY] == b.buf[..b.offStruct][at..at + RSV_ENTRY];
  }

  lemma KeptEntries(b: Blob, b': Blob, rs: seq<Reserve>)
    requires ReservesOk(rs) && Entries(b.buf, rs) && b.offStruct == CREATE_OFFSET + RSV_ENTRY * (|rs| + 1)
    requires b.offStruct <= |b.buf| && b.offStruct <= |b'.buf| && b'.buf[..b.offStruct] == b.buf[..b.offStruct]
    ensures Entries(b'.buf, rs)
  {
    hide EntryIs;
    forall i | 0 <= i < |rs| ensures EntryIs(b'.buf, i, rs[i]) {
      KeptEntry(b, b', i, rs[i]);
    }
    KeptEntry(b, b', |rs|, Reserve(0, 0));
  }

  /** Build-then-read: a blob that the writer completed holds exactly the calls that
      were made, with every name resolved through the relocated strings block, and
      exactly the reservations that were added. */
  lemma BuildTheorem(bufsize: nat, flags: nat, rs: seq<Reserve>, calls: seq<Item>) returns (toks: seq<Token>)
    requires bufsize < INT_MAX && ReservesOk(rs) && AllCallable(calls)
    requires Build(bufsize, flags, rs, calls).Some?
    ensures var b := Build(bufsize, flags, rs, calls).value;
      && Sound(b) && RwProbe(b) == 0 && b.magic == MAGIC && b.total <= bufsize && Holds(Struct(b), toks) && Items(toks, Strings(b)) == calls
      && NumMemRsv(b, 0) == |rs| && Entries(b.buf, rs)
  {
    hide Room, Built, MakeCalls, Finish, Entries, Holds, ReservesOk, AllCallable, Items, NumMemRsv, AddReserves, FinishReservemap, Create,
      Flat, Struct, Strings, RwProbe, Sound, Kept;
    var f := Prepare(bufsize, flags, rs);
    var mid := CallsExtend(f, [], [], calls, flags == 0);
    assert [] + calls == calls;
    var b2 := MakeCalls(f, calls, flags == 0).value;
    KeptFacts(f, b2);
    toks := FinishTheorem(b2, mid, calls);
    var b := Finish(b2).blob;
    Ends(b, f, rs);
    KeptEntries(f, b, rs);
    CountReserves(b, rs, 0);
  }

  /** The writer after its reservations, ready for the structure. */
  lemma Prepare(bufsize: nat, flags: nat, rs: seq<Reserve>) returns (f: Blob)
    requires bufsize < INT_MAX && ReservesOk(rs) && Create(bufsize, flags).err == 0
    requires AddReserves(Create(bufsize, flags).blob, rs).Some?
    requires FinishReservemap(AddReserves(Create(bufsize, flags).blob, rs).value).err == 0
    ensures f == FinishReservemap(AddReserves(Create(bufsize, flags).blob, rs).value).blob
    ensures Built(f, [], []) && f.offStruct == CREATE_OFFSET + RSV_ENTRY * (|rs| + 1) <= |f.buf|
    ensures f.total == bufsize && f.offRsv == CREATE_OFFSET && f.sizeStruct == f.sizeStrings == 0
    ensures Entries(f.buf, rs)
  {
    hide EntryIs, AddReserves, Flat, AddReservemapEntry;
    var c := Create(bufsize, flags);
    CreateRoom(bufsize, flags);
    ReserveAll(c.blob, [], rs);
    assert [] + rs == rs;
    var b1 := AddReserves(c.blob, rs).value;
    ReserveOne(b1, rs, Reserve(0, 0));
    f := FinishReservemap(b1).blob;
    Opened(f);
  }

  lemma KeptFacts(b: Blob, b': Blob)
    requires Kept(b, b')
    ensures b'.offStruct == b.offStruct && b'.offRsv == b.offRsv && b'.buf[..b.offStruct] == b.buf[..b.offStruct] && |b'.buf| == |b.buf|
    ensures b'.total == b.total
  {
  }

  lemma Ends(b: Blob, f: Blob, rs: seq<Reserve>)
    requires Sound(b) && RwProbe(b) == 0 && b.offStruct == f.offStruct && f.offStruct == CREATE_OFFSET + RSV_ENTRY * (|rs| + 1)
    ensures CREATE_OFFSET + RSV_ENTRY * (|rs| + 1) <= b.total <= |b.buf|
  {
  }

  lemma CreateRoom(bufsize: nat, flags: nat)
    requires bufsize < INT_MAX && Create(bufsize, flags).err == 0
    ensures Room(Create(bufsize, flags).blob) && SwProbeMemrsv(Create(bufsize, flags).blob) == 0
  {
    hide Zeros;
  }

  lemma {:induction false} BalancedBody(t: Tree, x: seq<Item>, d: nat)
    requires d > 0
    ensures Balanced(Body(t) + x, d) == Balanced(x, d - 1)
    decreases t, 0
  {
    Join4(SerProps(t.props), SerKids(t.kids), [IEnd], x);
    BalancedProps(t.props, SerKids(t.kids) + ([IEnd] + x), d);
    BalancedKids(t.kids, [IEnd] + x, d);
    assert ([IEnd] + x)[1..] == x;
  }

  lemma {:induction false} BalancedProps(ps: seq<PropVal>, x: seq<Item>, d: nat)
    ensures Balanced(SerProps(ps) + x, d) == Balanced(x, d)
  {
    if ps == [] {
      assert SerProps(ps) + x == x;
    } else {
      assert (SerProps(ps) + x)[1..] == SerProps(ps[1..]) + x;
      BalancedProps(ps[1..], x, d);
    }
  }

  lemma {:induction false} BalancedKids(ks: seq<Tree>, x: seq<Item>, d: nat)
    ensures Balanced(SerKids(ks) + x, d) == Balanced(x, d)
    decreases ks
  {
    if ks == [] {
      assert SerKids(ks) + x == x;
    } else {
      var y := SerKids(ks[1..]) + x;
      KidsShape(ks, x);
      var l := SerKids(ks) + x;
      assert l[0] == IBegin(ks[0].name) && l[1..] == Body(ks[0]) + y;
      BalancedBody(ks[0], y, d + 1);
      BalancedKids(ks[1..], x, d);
    }
  }

  lemma TreeBalanced(t: Tree)
    ensures Balanced(Ser(t), 0)
  {
    assert Ser(t)[0] == IBegin(t.name) && Ser(t)[1..] == Body(t) + [];
    BalancedBody(t, [], 1);
  }

  lemma {:induction false} StripNothing(x: seq<Item>)
    requires forall i :: 0 <= i < |x| ==> !x[i].INop?
    ensures Strip(x) == x
  {
    if x != [] {
      assert forall i :: 0 <= i < |x[1..]| ==> x[1..][i] == x[i + 1];
      StripNothing(x[1..]);
    }
  }

  /** Writing out a tree with every call returning 0 gives a blob that denotes exactly
      that tree and that fdt_check_full accepts. */
  lemma TreeRoundTrip(bufsize: nat, flags: nat, rs: seq<Reserve>, t: Tree, fuel: nat) returns (toks: seq<Token>)
    requires bufsize < INT_MAX && ReservesOk(rs) && AllCallable(Ser(t))
    requires Build(bufsize, flags, rs, Ser(t)).Some?
    ensures var b := Build(bufsize, flags, rs, Ser(t)).value;
      Denotes(b, toks, t) && (4 * fuel > b.total ==> CheckFull32(b, bufsize, fuel) == Verdict(0))
  {
    hide Build, Ser, Items, Holds, Named, Balanced, NumMemRsv, CheckFull32, Struct, Strings, Strip, Entries, ReservesOk;
    toks := BuildTheorem(bufsize, flags, rs, Ser(t));
    var b := Build(bufsize, flags, rs, Ser(t)).value;
    StripNothing(Ser(t));
    SerNamed(t);
    TreeBalanced(t);
    assert Holds(Struct(b), toks) && Named(Items(toks, Strings(b))) && Balanced(Items(toks, Strings(b)), 0);
    if 4 * fuel > b.total {
      var k := CheckFullTheorem(b, bufsize, fuel);
    }
  }
}
