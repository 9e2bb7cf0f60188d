/** The set-associative cache of cachesim.cc: what its tags hold over every run, and
    what becomes of every line that gets dirty. */
module CacheModel {
  /** A tag word: a line number with a valid bit and a dirty bit. */
  datatype Slot = Slot(line: nat, valid: bool, dirty: bool)

  datatype Stats = Stats(
    readAccesses: nat, readMisses: nat, bytesRead: nat,
    writeAccesses: nat, writeMisses: nat, bytesWritten: nat, writebacks: nat)

  datatype Cache = Cache(sets: nat, ways: nat, linesz: nat, tags: seq<Slot>, lfsr: bv32, stats: Stats)

  /** An access passed on to the next level. */
  datatype Request = Request(addr: nat, bytes: nat, store: bool)

  predicate Shape(c: Cache) {
    c.sets > 0 && c.ways > 0 && c.linesz > 0 && |c.tags| == c.sets * c.ways
  }

  function LineOf(c: Cache, addr: nat): nat
    requires c.linesz > 0
  {
    addr / c.linesz
  }

  /** First slot of the set that `line` belongs to. */
  function SetOf(c: Cache, line: nat): (i: nat)
    requires Shape(c)
    ensures i + c.ways <= |c.tags|
  {
    SetFits(line % c.sets, c.sets, c.ways);
    (line % c.sets) * c.ways
  }

  lemma SetFits(s: nat, sets: nat, ways: nat)
    requires s < sets
    ensures s * ways + ways <= sets * ways
  {
    assert (s + 1) * ways <= sets * ways;
  }

  predicate Match(s: Slot, line: nat) {
    s.valid && s.line == line
  }

  /** check_tag: the first slot from `i` on before `end` that holds the line, or `end`. */
  function Find(tags: seq<Slot>, i: nat, end: nat, line: nat): (k: nat)
    requires i <= end <= |tags|
    ensures i <= k <= end
    ensures k < end ==> Match(tags[k], line)
    ensures forall j :: i <= j < k ==> !Match(tags[j], line)
    decreases end - i
  {
    if i == end || Match(tags[i], line) then i else Find(tags, i + 1, end, line)
  }

  /** The slot that holds the line, or the end of its set. */
  function Lookup(c: Cache, line: nat): (k: nat)
    requires Shape(c)
    ensures SetOf(c, line) <= k <= SetOf(c, line) + c.ways
  {
    Find(c.tags, SetOf(c, line), SetOf(c, line) + c.ways, line)
  }

  predicate Hit(c: Cache, line: nat)
    requires Shape(c)
  {
    Lookup(c, line) < SetOf(c, line) + c.ways
  }

  /** lfsr_t::next. */
  function NextRandom(r: bv32): bv32 {
    (r >> 1) ^ ((0 - (r & 1)) & 0xd000_0001)
  }

  /** The slot that victimize replaces. */
  function Victim(c: Cache, line: nat): (k: nat)
    requires Shape(c)
    ensures SetOf(c, line) <= k < SetOf(c, line) + c.ways
  {
    SetOf(c, line) + NextRandom(c.lfsr) as nat % c.ways
  }

  function CountAccess(s: Stats, bytes: nat, store: bool, miss: bool, writeback: bool): Stats {
    var s1 := if store
      then s.(writeAccesses := s.writeAccesses + 1, bytesWritten := s.bytesWritten + bytes)
      else s.(readAccesses := s.readAccesses + 1, bytesRead := s.bytesRead + bytes);
    var s2 := if !miss then s1
      else if store then s1.(writeMisses := s1.writeMisses + 1) else s1.(readMisses := s1.readMisses + 1);
    if writeback then s2.(writebacks := s2.writebacks + 1) else s2
  }

  predicate IsDirty(s: Slot) {
    s.valid && s.dirty
  }

  /** access: the cache afterwards, and what the next level is asked for. */
  function Access(c: Cache, addr: nat, bytes: nat, store: bool): (r: (Cache, seq<Request>))
    requires Shape(c)
    ensures Shape(r.0) && r.0.sets == c.sets && r.0.ways == c.ways && r.0.linesz == c.linesz
  {
    var line := LineOf(c, addr);
    if Hit(c, line) then
      var k := Lookup(c, line);
      (c.(tags := if store then c.tags[k := c.tags[k].(dirty := true)] else c.tags,
          stats := CountAccess(c.stats, bytes, store, false, false)), [])
    else
      var k := Victim(c, line);
      var victim := c.tags[k];
      (c.(tags := c.tags[k := Slot(line, true, store)], lfsr := NextRandom(c.lfsr),
          stats := CountAccess(c.stats, bytes, store, true, IsDirty(victim))),
       (if IsDirty(victim) then [Request(victim.line * c.linesz, c.linesz, true)] else [])
       + [Request(addr - addr % c.linesz, c.linesz, false)])
  }

  /** One line of clean_invalidate. */
  function Flush(c: Cache, line: nat, clean: bool, inval: bool): (r: Cache)
    requires Shape(c)
    ensures Shape(r) && r == c.(tags := r.tags, stats := c.stats.(writebacks := r.stats.writebacks))
  {
    if !Hit(c, line) then c
    else
      var k := Lookup(c, line);
      var s := c.tags[k];
      c.(tags := c.tags[k := Slot(line, !inval, s.dirty && !clean)],
         stats := c.stats.(writebacks := c.stats.writebacks + if clean && s.dirty then 1 else 0))
  }

  /** The loop of clean_invalidate over the lines from `line` up to `end`. */
  function FlushAll(c: Cache, line: nat, end: nat, clean: bool, inval: bool): (r: Cache)
    requires Shape(c)
    ensures Shape(r)
    decreases end - line
  {
    if line >= end then c else FlushAll(Flush(c, line, clean, inval), line + 1, end, clean, inval)
  }

  function CleanInvalidate(c: Cache, addr: nat, bytes: nat, clean: bool, inval: bool): (r: Cache)
    requires Shape(c)
    ensures Shape(r)
  {
    FlushAll(c, addr / c.linesz, (addr + bytes + c.linesz - 1) / c.linesz, clean, inval)
  }

  // ---------------------------------------------------------------- the run invariant

  /** Valid lines are in their own set, and no line is there twice. */
  ghost predicate Inv(c: Cache) {
    && Shape(c)
    && (forall k :: 0 <= k < |c.tags| && c.tags[k].valid ==>
        SetOf(c, c.tags[k].line) <= k < SetOf(c, c.tags[k].line) + c.ways)
    && (forall j, k :: 0 <= j < k < |c.tags| && c.tags[j].valid && c.tags[k].valid ==> c.tags[j].line != c.tags[k].line)
  }

  /** With the invariant, check_tag finds a line exactly when some slot holds it. */
  lemma HitIffHeld(c: Cache, line: nat)
    requires Inv(c)
    ensures Hit(c, line) <==> exists k :: 0 <= k < |c.tags| && Match(c.tags[k], line)
  {
    if k :| 0 <= k < |c.tags| && Match(c.tags[k], line) {
      assert SetOf(c, line) <= k < SetOf(c, line) + c.ways;
    }
  }

  lemma InvShape(c: Cache)
    requires Inv(c)
    ensures Shape(c)
  {
  }

  lemma SetSame(c: Cache, c': Cache, line: nat)
    requires Shape(c) && Shape(c') && c'.sets == c.sets && c'.ways == c.ways
    ensures SetOf(c', line) == SetOf(c, line)
  {
  }

  /** Replacing a slot by one that holds nothing new keeps the invariant. */
  lemma ReplaceKeepsInv(c: Cache, c': Cache, k: nat, s: Slot)
    requires Inv(c) && k < |c.tags| && c'.tags == c.tags[k := s]
    requires c'.sets == c.sets && c'.ways == c.ways && c'.linesz == c.linesz
    requires s.valid ==> SetOf(c, s.line) <= k < SetOf(c, s.line) + c.ways
    requires s.valid ==> forall j :: 0 <= j < |c.tags| && j != k ==> !Match(c.tags[j], s.line)
    ensures Inv(c')
  {
    hide SetOf;
    forall j | 0 <= j < |c'.tags| && c'.tags[j].valid
      ensures SetOf(c', c'.tags[j].line) <= j < SetOf(c', c'.tags[j].line) + c'.ways
    {
      SetSame(c, c', c'.tags[j].line);
    }
    forall i, j | 0 <= i < j < |c'.tags| && c'.tags[i].valid && c'.tags[j].valid
      ensures c'.tags[i].line != c'.tags[j].line
    {
      if i == k {
        assert !Match(c.tags[j], s.line);
      } else if j == k {
        assert !Match(c.tags[i], s.line);
      }
    }
  }

  lemma HeldOnce(c: Cache, k: nat)
    requires Inv(c) && k < |c.tags| && c.tags[k].valid
    ensures forall j :: 0 <= j < |c.tags| && j != k ==> !Match(c.tags[j], c.tags[k].line)
  {
  }

  lemma AccessKeepsInv(c: Cache, addr: nat, bytes: nat, store: bool)
    requires Inv(c)
    ensures Inv(Access(c, addr, bytes, store).0)
  {
    hide SetOf, Find, CountAccess;
    var c' := Access(c, addr, bytes, store).0;
    var line := LineOf(c, addr);
    HitIffHeld(c, line);
    if Hit(c, line) {
      var k := Lookup(c, line);
      HeldOnce(c, k);
      var s := if store then c.tags[k].(dirty := true) else c.tags[k];
      assert c'.tags == c.tags[k := s];
      ReplaceKeepsInv(c, c', k, s);
    } else {
      ReplaceKeepsInv(c, c', Victim(c, line), Slot(line, true, store));
    }
  }

  lemma FlushKeepsInv(c: Cache, line: nat, clean: bool, inval: bool)
    requires Inv(c)
    ensures Inv(Flush(c, line, clean, inval))
  {
    hide SetOf, Find;
    if Hit(c, line) {
      var k := Lookup(c, line);
      HeldOnce(c, k);
      ReplaceKeepsInv(c, Flush(c, line, clean, inval), k, Slot(line, !inval, c.tags[k].dirty && !clean));
    }
  }

  // ---------------------------------------------------------------- dirty lines

  function Count(tags: seq<Slot>): nat {
    if tags == [] then 0 else Count(tags[..|tags| - 1]) + if IsDirty(tags[|tags| - 1]) then 1 else 0
  }

  lemma {:induction false} CountReplaced(tags: seq<Slot>, k: nat, s: Slot)
    requires k < |tags|
    ensures Count(tags[k := s]) == Count(tags) - (if IsDirty(tags[k]) then 1 else 0) + if IsDirty(s) then 1 else 0
    decreases |tags|
  {
    var n := |tags| - 1;
    if k == n {
      assert tags[k := s][..n] == tags[..n];
    } else {
      CountReplaced(tags[..n], k, s);
      assert tags[k := s][..n] == tags[..n][k := s];
    }
  }

  /** What the debugger of a cache would count: lines turned dirty, and dirty lines thrown
      away without being written back. */
  datatype Ledger = Ledger(marked: nat, discarded: nat)

  datatype Op = Touch(addr: nat, bytes: nat, store: bool) | Sync(addr: nat, bytes: nat, clean: bool, inval: bool)

  /** Does the access turn a clean line dirty? */
  predicate Marks(c: Cache, addr: nat, store: bool)
    requires Shape(c)
  {
    var line := LineOf(c, addr);
    store && (Hit(c, line) ==> !c.tags[Lookup(c, line)].dirty)
  }

  /** Does the flush throw a dirty line away? */
  predicate Discards(c: Cache, line: nat, clean: bool, inval: bool)
    requires Shape(c)
  {
    Hit(c, line) && inval && !clean && c.tags[Lookup(c, line)].dirty
  }

  function DiscardsIn(c: Cache, line: nat, end: nat, clean: bool, inval: bool): nat
    requires Shape(c)
    decreases end - line
  {
    if line >= end then 0
    else (if Discards(c, line, clean, inval) then 1 else 0) + DiscardsIn(Flush(c, line, clean, inval), line + 1, end, clean, inval)
  }

  function Run(c: Cache, l: Ledger, ops: seq<Op>): (r: (Cache, Ledger))
    requires Shape(c)
    ensures Shape(r.0)
    decreases ops
  {
    hide Access, CleanInvalidate, Marks, DiscardsIn;
    if ops == [] then (c, l)
    else match ops[0]
      case Touch(addr, bytes, store) =>
        Run(Access(c, addr, bytes, store).0, l.(marked := l.marked + if Marks(c, addr, store) then 1 else 0), ops[1..])
      case Sync(addr, bytes, clean, inval) =>
        var from, end := addr / c.linesz, (addr + bytes + c.linesz - 1) / c.linesz;
        Run(CleanInvalidate(c, addr, bytes, clean, inval),
            l.(discarded := l.discarded + DiscardsIn(c, from, end, clean, inval)), ops[1..])
  }

  /** Every line that was turned dirty is still there, was written back, or was thrown away. */
  ghost predicate Balanced(c: Cache, l: Ledger) {
    l.marked == c.stats.writebacks + Count(c.tags) + l.discarded
  }

  lemma AccessBalance(c: Cache, addr: nat, bytes: nat, store: bool)
    requires Inv(c)
    ensures var c' := Access(c, addr, bytes, store).0;
      c'.stats.writebacks + Count(c'.tags) == c.stats.writebacks + Count(c.tags) + if Marks(c, addr, store) then 1 else 0
  {
    hide SetOf, Find, Count;
    var line := LineOf(c, addr);
    if Hit(c, line) {
      var k := Lookup(c, line);
      CountReplaced(c.tags, k, c.tags[k].(dirty := true));
    } else {
      CountReplaced(c.tags, Victim(c, line), Slot(line, true, store));
    }
  }

  lemma FlushBalance(c: Cache, line: nat, clean: bool, inval: bool)
    requires Inv(c)
    ensures var c' := Flush(c, line, clean, inval);
      c'.stats.writebacks + Count(c'.tags) + (if Discards(c, line, clean, inval) then 1 else 0) == c.stats.writebacks + Count(c.tags)
  {
    hide SetOf, Find, Count;
    if Hit(c, line) {
      var k := Lookup(c, line);
      CountReplaced(c.tags, k, Slot(line, !inval, c.tags[k].dirty && !clean));
    }
  }

  lemma {:induction false} FlushAllBalance(c: Cache, line: nat, end: nat, clean: bool, inval: bool)
    requires Inv(c)
    ensures var c' := FlushAll(c, line, end, clean, inval);
      && Inv(c')
      && c'.stats.writebacks + Count(c'.tags) + DiscardsIn(c, line, end, clean, inval) == c.stats.writebacks + Count(c.tags)
    decreases end - line
  {
    hide Flush, Discards, Count, Inv;
    InvShape(c);
    if line < end {
      FlushKeepsInv(c, line, clean, inval);
      FlushBalance(c, line, clean, inval);
      FlushAllBalance(Flush(c, line, clean, inval), line + 1, end, clean, inval);
    }
  }

  /** Over every run: valid lines are in their own set and there once, and clean-to-dirty
      transitions are exactly the writebacks, the lines still dirty and the lines
      discarded by invalidation without cleaning. */
  lemma {:induction false} RunKeeps(c: Cache, l: Ledger, ops: seq<Op>)
    requires Inv(c) && Balanced(c, l)
    ensures var (c', l') := Run(c, l, ops); Inv(c') && Balanced(c', l')
    decreases ops
  {
    hide Access, FlushAll, Count, Inv, Marks, DiscardsIn;
    InvShape(c);
    if ops != [] {
      match ops[0]
      case Touch(addr, bytes, store) =>
        AccessKeepsInv(c, addr, bytes, store);
        AccessBalance(c, addr, bytes, store);
        var l1 := l.(marked := l.marked + if Marks(c, addr, store) then 1 else 0);
        RunKeeps(Access(c, addr, bytes, store).0, l1, ops[1..]);
      case Sync(addr, bytes, clean, inval) =>
        var from, end := addr / c.linesz, (addr + bytes + c.linesz - 1) / c.linesz;
        FlushAllBalance(c, from, end, clean, inval);
        var l1 := l.(discarded := l.discarded + DiscardsIn(c, from, end, clean, inval));
        RunKeeps(CleanInvalidate(c, addr, bytes, clean, inval), l1, ops[1..]);
    }
  }

  function EmptyTags(n: nat): (t: seq<Slot>)
    ensures |t| == n && forall k :: 0 <= k < n ==> t[k] == Slot(0, false, false)
  {
    seq(n, i => Slot(0, false, false))
  }

  function NewCache(sets: nat, ways: nat, linesz: nat): Cache {
    Cache(sets, ways, linesz, EmptyTags(sets * ways), 1, Stats(0, 0, 0, 0, 0, 0, 0))
  }

  lemma {:induction false} NothingDirty(tags: seq<Slot>)
    requires forall k :: 0 <= k < |tags| ==> !IsDirty(tags[k])
    ensures Count(tags) == 0
    decreases |tags|
  {
    if tags != [] {
      NothingDirty(tags[..|tags| - 1]);
    }
  }

  lemma RunFromEmpty(sets: nat, ways: nat, linesz: nat, ops: seq<Op>)
    requires sets > 0 && ways > 0 && linesz > 0
    ensures Shape(NewCache(sets, ways, linesz))
    ensures var (c, l) := Run(NewCache(sets, ways, linesz), Ledger(0, 0), ops);
      Inv(c) && l.marked == c.stats.writebacks + Count(c.tags) + l.discarded
  {
    var c := NewCache(sets, ways, linesz);
    NothingDirty(c.tags);
    RunKeeps(c, Ledger(0, 0), ops);
  }

  // ---------------------------------------------------------------- the next level

  function After(c: Cache, op: Op): (r: Cache)
    requires Shape(c)
    ensures Shape(r) && r.linesz == c.linesz
  {
    match op
    case Touch(addr, bytes, store) => Access(c, addr, bytes, store).0
    case Sync(addr, bytes, clean, inval) =>
      FlushAllSize(c, addr / c.linesz, (addr + bytes + c.linesz - 1) / c.linesz, clean, inval);
      CleanInvalidate(c, addr, bytes, clean, inval)
  }

  lemma {:induction false} FlushAllSize(c: Cache, line: nat, end: nat, clean: bool, inval: bool)
    requires Shape(c)
    ensures var r := FlushAll(c, line, end, clean, inval); r.linesz == c.linesz && Misses(r.stats) == Misses(c.stats)
    decreases end - line
  {
    hide Flush;
    if line < end {
      FlushAllSize(Flush(c, line, clean, inval), line + 1, end, clean, inval);
    }
  }

  /** The line that an operation misses, and the dirty line that it evicts for it. */
  function Missed(c: Cache, op: Op): seq<nat>
    requires Shape(c)
  {
    if op.Touch? && !Hit(c, LineOf(c, op.addr)) then [LineOf(c, op.addr)] else []
  }

  function Evicted(c: Cache, op: Op): seq<nat>
    requires Shape(c)
  {
    if op.Touch? && !Hit(c, LineOf(c, op.addr)) && IsDirty(c.tags[Victim(c, LineOf(c, op.addr))])
      then [c.tags[Victim(c, LineOf(c, op.addr))].line] else []
  }

  /** What a sole next level is asked for during an operation: cleaning only counts. */
  function Asks(c: Cache, op: Op): seq<Request>
    requires Shape(c)
  {
    if op.Touch? then Access(c, op.addr, op.bytes, op.store).1 else []
  }

  // The same over a run, one operation after the other.
  function MissedIn(c: Cache, ops: seq<Op>): seq<nat>
    requires Shape(c)
    decreases ops
  {
    if ops == [] then [] else Missed(c, ops[0]) + MissedIn(After(c, ops[0]), ops[1..])
  }

  function EvictedIn(c: Cache, ops: seq<Op>): seq<nat>
    requires Shape(c)
    decreases ops
  {
    if ops == [] then [] else Evicted(c, ops[0]) + EvictedIn(After(c, ops[0]), ops[1..])
  }

  function Traffic(c: Cache, ops: seq<Op>): seq<Request>
    requires Shape(c)
    decreases ops
  {
    if ops == [] then [] else Asks(c, ops[0]) + Traffic(After(c, ops[0]), ops[1..])
  }

  /** The requests of one kind, in order. */
  function Pick(rs: seq<Request>, store: bool): seq<Request> {
    if rs == [] then [] else (if rs[0].store == store then [rs[0]] else []) + Pick(rs[1..], store)
  }

  /** One request for each line, for the whole line at the line's own address. */
  function Whole(lines: seq<nat>, linesz: nat, store: bool): (r: seq<Request>)
    ensures |r| == |lines| && forall i :: 0 <= i < |lines| ==> r[i] == Request(lines[i] * linesz, linesz, store)
  {
    if lines == [] then [] else [Request(lines[0] * linesz, linesz, store)] + Whole(lines[1..], linesz, store)
  }

  function Misses(s: Stats): nat {
    s.readMisses + s.writeMisses
  }

  lemma PickCons(r: Request, rs: seq<Request>, store: bool)
    ensures Pick([r] + rs, store) == (if r.store == store then [r] else []) + Pick(rs, store)
  {
    assert ([r] + rs)[1..] == rs;
  }

  lemma {:induction false} PickConcat(a: seq<Request>, b: seq<Request>, store: bool)
    ensures Pick(a + b, store) == Pick(a, store) + Pick(b, store)
  {
    hide Pick;
    if a == [] {
      PickNone();
      assert a + b == b;
    } else {
      var rest := a[1..];
      PickConcat(rest, b, store);
      PickCons(a[0], rest + b, store);
      PickCons(a[0], rest, store);
      assert a == [a[0]] + rest;
      assert a + b == [a[0]] + (rest + b);
    }
  }

  lemma PickOne(r: Request, store: bool)
    ensures Pick([r], store) == if r.store == store then [r] else []
  {
    assert [r][1..] == [];
  }

  lemma WholeConcat(a: seq<nat>, b: seq<nat>, linesz: nat, store: bool)
    ensures Whole(a + b, linesz, store) == Whole(a, linesz, store) + Whole(b, linesz, store)
  {
    hide Whole;
    var x, y, z := Whole(a + b, linesz, store), Whole(a, linesz, store), Whole(b, linesz, store);
    forall i | 0 <= i < |x| ensures x[i] == (y + z)[i] {
      assert (a + b)[i] == if i < |a| then a[i] else b[i - |a|];
    }
  }

  lemma LineAddress(addr: nat, linesz: nat)
    requires linesz > 0
    ensures addr - addr % linesz == addr / linesz * linesz
  {
  }

  /** One operation: the next level gets a read of the missing line, and before it a write
      of the dirty line thrown out for it, and nothing else. */
  lemma OpTraffic(c: Cache, op: Op)
    requires Inv(c)
    ensures Pick(Asks(c, op), false) == Whole(Missed(c, op), c.linesz, false)
    ensures Pick(Asks(c, op), true) == Whole(Evicted(c, op), c.linesz, true)
    ensures Misses(After(c, op).stats) == Misses(c.stats) + |Missed(c, op)|
  {
    hide SetOf, Find, Pick, FlushAll;
    match op
    case Sync(addr, bytes, clean, inval) =>
      FlushAllSize(c, addr / c.linesz, (addr + bytes + c.linesz - 1) / c.linesz, clean, inval);
      PickNone();
    case Touch(addr, bytes, store) =>
      var line := LineOf(c, addr);
      if Hit(c, line) {
        PickNone();
      } else {
        LineAddress(addr, c.linesz);
        var read := Request(line * c.linesz, c.linesz, false);
        var victim := c.tags[Victim(c, line)];
        var write := Request(victim.line * c.linesz, c.linesz, true);
        PickOne(read, false);
        PickOne(read, true);
        PickOne(write, false);
        PickOne(write, true);
        PickConcat([write], [read], false);
        PickConcat([write], [read], true);
        assert [] + [read] == [read];
      }
  }

  lemma PickNone()
    ensures forall store :: Pick([], store) == []
  {
  }

  /** Over every run, cleaning and invalidation included: the reads that the next level
      sees are, one for one and in order, the lines missed, the writes are the dirty
      lines evicted, each a whole line at the line's own address. */
  lemma {:induction false} NextLevelSees(c: Cache, l: Ledger, ops: seq<Op>)
    requires Inv(c)
    ensures Pick(Traffic(c, ops), false) == Whole(MissedIn(c, ops), c.linesz, false)
    ensures Pick(Traffic(c, ops), true) == Whole(EvictedIn(c, ops), c.linesz, true)
    ensures Misses(Run(c, l, ops).0.stats) == Misses(c.stats) + |MissedIn(c, ops)|
    decreases ops
  {
    hide Inv, Marks, Pick, Whole, Asks, Missed, Evicted, After, DiscardsIn, Access, CleanInvalidate;
    InvShape(c);
    if ops == [] {
      PickNone();
      NoLines(c.linesz);
    } else {
      var op := ops[0];
      OpTraffic(c, op);
      AfterKeepsInv(c, op);
      var l1 := OneOp(c, l, ops);
      var c1 := After(c, op);
      NextLevelSees(c1, l1, ops[1..]);
      PickConcat(Asks(c, op), Traffic(c1, ops[1..]), false);
      PickConcat(Asks(c, op), Traffic(c1, ops[1..]), true);
      WholeConcat(Missed(c, op), MissedIn(c1, ops[1..]), c.linesz, false);
      WholeConcat(Evicted(c, op), EvictedIn(c1, ops[1..]), c.linesz, true);
    }
  }

  lemma NoLines(linesz: nat)
    ensures forall store :: Whole([], linesz, store) == []
  {
  }

  lemma OneOp(c: Cache, l: Ledger, ops: seq<Op>) returns (l1: Ledger)
    requires Shape(c) && ops != []
    ensures Run(c, l, ops) == Run(After(c, ops[0]), l1, ops[1..])
  {
    hide Access, CleanInvalidate, Marks, DiscardsIn;
    match ops[0]
    case Touch(addr, bytes, store) => l1 := l.(marked := l.marked + if Marks(c, addr, store) then 1 else 0);
    case Sync(addr, bytes, clean, inval) =>
      l1 := l.(discarded := l.discarded + DiscardsIn(c, addr / c.linesz, (addr + bytes + c.linesz - 1) / c.linesz, clean, inval));
  }

  lemma AfterKeepsInv(c: Cache, op: Op)
    requires Inv(c)
    ensures Inv(After(c, op))
  {
    hide Access, FlushAll, Inv, Count, DiscardsIn;
    InvShape(c);
    match op
    case Touch(addr, bytes, store) => AccessKeepsInv(c, addr, bytes, store);
    case Sync(addr, bytes, clean, inval) =>
      FlushAllBalance(c, addr / c.linesz, (addr + bytes + c.linesz - 1) / c.linesz, clean, inval);
  }

  /** Dirty lines written back by cleaning. */
  function CleanedIn(c: Cache, ops: seq<Op>): int
    requires Shape(c)
    decreases ops
  {
    if ops == [] then 0
    else (if ops[0].Sync? then After(c, ops[0]).stats.writebacks - c.stats.writebacks else 0) + CleanedIn(After(c, ops[0]), ops[1..])
  }

  /** Every writeback counted is a dirty eviction that the next level sees, or a cleaning. */
  lemma {:induction false} WritebacksAre(c: Cache, l: Ledger, ops: seq<Op>)
    requires Inv(c)
    ensures Run(c, l, ops).0.stats.writebacks == c.stats.writebacks + |EvictedIn(c, ops)| + CleanedIn(c, ops)
    decreases ops
  {
    hide Inv, Marks, DiscardsIn, SetOf, Find, CleanInvalidate, Run;
    InvShape(c);
    if ops == [] {
      RunNone(c, l);
    } else {
      AfterKeepsInv(c, ops[0]);
      var l1 := OneOp(c, l, ops);
      WritebacksAre(After(c, ops[0]), l1, ops[1..]);
    }
  }

  lemma RunNone(c: Cache, l: Ledger)
    requires Shape(c)
    ensures Run(c, l, []) == (c, l)
  {
  }

  /** A line that has been accessed is there: the next access to it hits. */
  lemma HitAfterAccess(c: Cache, addr: nat, bytes: nat, store: bool)
    requires Inv(c)
    ensures var c' := Access(c, addr, bytes, store).0; Hit(c', LineOf(c', addr))
    ensures var c' := Access(c, addr, bytes, store).0; store ==> c'.tags[Lookup(c', LineOf(c', addr))].dirty
  {
    hide SetOf, Find, CountAccess;
    var c' := Access(c, addr, bytes, store).0;
    var line := LineOf(c, addr);
    AccessKeepsInv(c, addr, bytes, store);
    HitIffHeld(c', line);
    var k := if Hit(c, line) then Lookup(c, line) else Victim(c, line);
    assert Match(c'.tags[k], line);
    HeldOnce(c', k);
  }
}
