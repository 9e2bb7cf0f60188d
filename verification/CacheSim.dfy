/** cache_sim_t: a cache object over its tag array, with the next level as miss handler. */
module CacheSim {
  import opened CacheModel

  ghost predicate AllShape(cs: seq<Cache>) {
    forall i :: 0 <= i < |cs| ==> Shape(cs[i])
  }

  /** An access to the first of several levels, each the miss handler of the one before. */
  ghost function AccessLevels(cs: seq<Cache>, addr: nat, bytes: nat, store: bool): (r: seq<Cache>)
    requires cs != [] && AllShape(cs)
    ensures |r| == |cs| && AllShape(r)
    decreases |cs|, 0
  {
    var a := CacheModel.Access(cs[0], addr, bytes, store);
    [a.0] + Serve(cs[1..], a.1)
  }

  /** The requests of the level above, in order. */
  ghost function Serve(cs: seq<Cache>, rs: seq<Request>): (r: seq<Cache>)
    requires AllShape(cs)
    ensures |r| == |cs| && AllShape(r)
    decreases |cs|, |rs|
  {
    if cs == [] || rs == [] then cs
    else Serve(AccessLevels(cs, rs[0].addr, rs[0].bytes, rs[0].store), rs[1..])
  }

  function CountMiss(s: Stats, store: bool, writeback: bool): Stats {
    var s1 := if store then s.(writeMisses := s.writeMisses + 1) else s.(readMisses := s.readMisses + 1);
    if writeback then s1.(writebacks := s1.writebacks + 1) else s1
  }

  lemma CountsAdd(s: Stats, bytes: nat, store: bool, writeback: bool)
    ensures CountMiss(CountAccess(s, bytes, store, false, false), store, writeback) == CountAccess(s, bytes, store, true, writeback)
  {
  }

  class CacheLevel {
    const sets: nat
    const ways: nat
    const linesz: nat
    const tags: array<Slot>
    const missHandler: CacheLevel?
    var lfsr: bv32
    var readAccesses: nat
    var readMisses: nat
    var bytesRead: nat
    var writeAccesses: nat
    var writeMisses: nat
    var bytesWritten: nat
    var writebacks: nat
    ghost const Repr: set<object>

    ghost predicate Valid()
      reads this, Repr
      decreases Repr
    {
      && this in Repr && tags in Repr && Shape(State())
      && (missHandler != null ==>
          && missHandler in Repr && missHandler.Repr < Repr
          && this !in missHandler.Repr && tags !in missHandler.Repr && missHandler.Valid())
    }

    /** This level alone. */
    ghost function State(): (c: Cache)
      reads this, tags
    {
      Cache(sets, ways, linesz, tags[..], lfsr,
            Stats(readAccesses, readMisses, bytesRead, writeAccesses, writeMisses, bytesWritten, writebacks))
    }

    /** This level and those below it. */
    ghost function Levels(): (cs: seq<Cache>)
      requires Valid()
      reads this, Repr
      ensures cs != [] && AllShape(cs) && cs[0] == State()
      decreases Repr, 1
    {
      [State()] + Below()
    }

    /** The levels below this one. */
    ghost function Below(): (cs: seq<Cache>)
      requires Valid()
      reads this, Repr
      ensures AllShape(cs)
      decreases Repr, 0
    {
      if missHandler == null then [] else missHandler.Levels()
    }

    constructor (sets: nat, ways: nat, linesz: nat, missHandler: CacheLevel?)
      requires sets > 0 && ways > 0 && linesz > 0
      requires missHandler != null ==> missHandler.Valid()
      ensures Valid() && this.missHandler == missHandler && State() == NewCache(sets, ways, linesz)
      ensures Repr == {this, tags} + (if missHandler == null then {} else missHandler.Repr) && fresh(this) && fresh(tags)
    {
      this.sets, this.ways, this.linesz := sets, ways, linesz;
      this.missHandler := missHandler;
      var t := new Slot[sets * ways](_ => Slot(0, false, false));
      tags := t;
      lfsr := 1;
      readAccesses, readMisses, bytesRead := 0, 0, 0;
      writeAccesses, writeMisses, bytesWritten, writebacks := 0, 0, 0, 0;
      Repr := {this, t} + if missHandler == null then {} else missHandler.Repr;
      new;
      assert tags[..] == EmptyTags(sets * ways);
    }

    /** check_tag: the slot that holds the line, or the end of its set. */
    method CheckTag(line: nat) returns (k: nat)
      requires Valid()
      ensures k == Lookup(State(), line)
    {
      ghost var c := State();
      var base := (line % sets) * ways;
      SetFits(line % sets, sets, ways);
      k := base;
      while k < base + ways && !(tags[k].valid && tags[k].line == line)
        invariant base <= k <= base + ways
        invariant Find(c.tags, k, base + ways, line) == Lookup(c, line)
      {
        k := k + 1;
      }
    }

    /** victimize: the slot replaced and what it held. */
    method Victimize(line: nat) returns (k: nat, victim: Slot)
      requires Valid()
      modifies tags, this`lfsr
      ensures k == Victim(old(State()), line) && victim == old(State()).tags[k]
      ensures State() == old(State()).(tags := old(State()).tags[k := Slot(line, true, false)], lfsr := NextRandom(old(lfsr)))
    {
      SetFits(line % sets, sets, ways);
      lfsr := NextRandom(lfsr);
      k := (line % sets) * ways + lfsr as nat % ways;
      victim := tags[k];
      tags[k] := Slot(line, true, false);
    }

    method CountTouch(bytes: nat, store: bool)
      modifies this
      ensures State() == old(State()).(stats := CountAccess(old(State()).stats, bytes, store, false, false))
    {
      if store {
        writeAccesses, bytesWritten := writeAccesses + 1, bytesWritten + bytes;
      } else {
        readAccesses, bytesRead := readAccesses + 1, bytesRead + bytes;
      }
    }

    /** The line taken in on a miss, and what it displaced. */
    method Fill(line: nat, store: bool) returns (victim: Slot)
      requires Valid() && !Hit(State(), line)
      modifies this, tags
      ensures var c := old(State()); var k := Victim(c, line);
        && victim == c.tags[k]
        && State() == c.(tags := c.tags[k := Slot(line, true, store)], lfsr := NextRandom(c.lfsr), stats := State().stats)
        && State().stats == CountMiss(c.stats, store, IsDirty(victim))
    {
      hide NextRandom, Find, SetOf, Hit, Lookup, Victim, Shape;
      ghost var c := State();
      var k;
      k, victim := Victimize(line);
      if store {
        writeMisses := writeMisses + 1;
      } else {
        readMisses := readMisses + 1;
      }
      if victim.valid && victim.dirty {
        writebacks := writebacks + 1;
      }
      if store {
        FoundAgain(c, State(), k, line);
        k := CheckTag(line);
        tags[k] := tags[k].(dirty := true);
      }
    }

    /** What access does to this level: whether it missed, and the victim of a miss. */
    method Touch(addr: nat, bytes: nat, store: bool) returns (miss: bool, victim: Slot)
      requires Valid()
      modifies this, tags
      ensures var c := old(State()); var line := LineOf(c, addr);
        && State() == CacheModel.Access(c, addr, bytes, store).0
        && miss == !Hit(c, line) && (miss ==> victim == c.tags[Victim(c, line)])
    {
      hide NextRandom, Find, Victim, Lookup, CountAccess, CountMiss;
      ghost var c := State();
      victim := Slot(0, false, false);
      var line := addr / linesz;
      CountTouch(bytes, store);
      SameTags(c, State(), line);
      var k := CheckTag(line);
      miss := k == (line % sets) * ways + ways;
      if miss {
        victim := Fill(line, store);
        CountsAdd(c.stats, bytes, store, IsDirty(victim));
      } else if store {
        tags[k] := tags[k].(dirty := true);
      }
    }

    /** What a miss asks of the next level: the dirty victim written back, the line read. */
    method PassOn(victim: Slot, addr: nat)
      requires Valid()
      modifies Repr - {this, tags}
      ensures Valid()
      ensures var read := [Request(addr - addr % linesz, linesz, false)];
        Below() == Serve(old(Below()), (if IsDirty(victim) then [Request(victim.line * linesz, linesz, true)] else []) + read)
      decreases Repr, 0
    {
      hide AccessLevels, Serve;
      ghost var below := Below();
      ghost var read := Request(addr - addr % linesz, linesz, false);
      if missHandler == null {
        ServeNothing(below, []);
        ServeNothing(below, (if IsDirty(victim) then [Request(victim.line * linesz, linesz, true)] else []) + [read]);
      } else if IsDirty(victim) {
        ServeTwo(below, Request(victim.line * linesz, linesz, true), read);
        missHandler.Access(victim.line * linesz, linesz, true);
        missHandler.Access(addr - addr % linesz, linesz, false);
      } else {
        assert [] + [read] == [read];
        ServeOne(below, read);
        missHandler.Access(addr - addr % linesz, linesz, false);
      }
    }

    /** access, with everything that it makes the lower levels do. */
    method Access(addr: nat, bytes: nat, store: bool)
      requires Valid()
      modifies Repr
      ensures Valid() && Levels() == AccessLevels(old(Levels()), addr, bytes, store)
      decreases Repr, 1
    {
      hide CacheModel.Access, Lookup, Victim, Hit, LineOf, AccessLevels, Serve;
      ghost var below := Below();
      ghost var c := State();
      AccessRequests(c, addr, bytes, store);
      LevelsStep(Levels(), addr, bytes, store);
      assert Levels()[1..] == below;
      var miss, victim := Touch(addr, bytes, store);
      if miss {
        PassOn(victim, addr);
      } else {
        ServeNothing(below, []);
      }
    }

    /** One line of clean_invalidate. */
    method FlushLine(line: nat, clean: bool, inval: bool)
      requires Valid()
      modifies this`writebacks, tags
      ensures State() == Flush(old(State()), line, clean, inval)
    {
      hide Find;
      ghost var c := State();
      var k := CheckTag(line);
      SetFits(line % sets, sets, ways);
      if k < (line % sets) * ways + ways {
        if clean {
          if tags[k].dirty {
            writebacks := writebacks + 1;
            tags[k] := tags[k].(dirty := false);
          }
        }
        if inval {
          tags[k] := tags[k].(valid := false);
        }
        assert tags[..] == c.tags[k := Slot(line, !inval, c.tags[k].dirty && !clean)];
      }
    }

    /** The loop of clean_invalidate over the lines of this level. */
    method FlushLines(addr: nat, bytes: nat, clean: bool, inval: bool)
      requires Valid()
      modifies this, tags
      ensures State() == CacheModel.CleanInvalidate(old(State()), addr, bytes, clean, inval)
    {
      hide Flush;
      ghost var c := State();
      var line := addr / linesz;
      var end := (addr + bytes + linesz - 1) / linesz;
      ghost var all := FlushAll(c, line, end, clean, inval);
      while line < end
        invariant Valid() && FlushAll(State(), line, end, clean, inval) == all
        decreases end - line
      {
        FlushLine(line, clean, inval);
        line := line + 1;
      }
    }

    /** clean_invalidate, on every level. */
    method CleanInvalidate(addr: nat, bytes: nat, clean: bool, inval: bool)
      requires Valid()
      modifies Repr
      ensures Valid() && Levels() == SyncLevels(old(Levels()), addr, bytes, clean, inval)
      decreases Repr
    {
      hide CacheModel.CleanInvalidate, Shape;
      ghost var below := Below();
      FlushLines(addr, bytes, clean, inval);
      FlushShape(old(State()), addr, bytes, clean, inval);
      if missHandler != null {
        missHandler.CleanInvalidate(addr, bytes, clean, inval);
      }
      assert old(Levels())[1..] == below;
    }
  }

  lemma FlushShape(c: Cache, addr: nat, bytes: nat, clean: bool, inval: bool)
    requires Shape(c)
    ensures Shape(CacheModel.CleanInvalidate(c, addr, bytes, clean, inval))
  {
  }

  /** clean_invalidate goes through all levels with the same arguments. */
  ghost function SyncLevels(cs: seq<Cache>, addr: nat, bytes: nat, clean: bool, inval: bool): (r: seq<Cache>)
    requires AllShape(cs)
    ensures |r| == |cs| && AllShape(r)
  {
    if cs == [] then []
    else [CacheModel.CleanInvalidate(cs[0], addr, bytes, clean, inval)] + SyncLevels(cs[1..], addr, bytes, clean, inval)
  }

  /** The requests of one access. */
  lemma AccessRequests(c: Cache, addr: nat, bytes: nat, store: bool)
    requires Shape(c)
    ensures var line := LineOf(c, addr);
      var a := CacheModel.Access(c, addr, bytes, store);
      var victim := c.tags[Victim(c, line)];
      var read := Request(addr - addr % c.linesz, c.linesz, false);
      && Shape(a.0)
      && (Hit(c, line) ==> a.1 == [])
      && (!Hit(c, line) ==> a.1 == (if IsDirty(victim) then [Request(victim.line * c.linesz, c.linesz, true)] else []) + [read])
  {
  }

  /** The next level counts exactly the requests of the level above. */
  lemma {:induction false} ServeCounts(cs: seq<Cache>, rs: seq<Request>)
    requires AllShape(cs) && cs != []
    ensures var s, s' := cs[0].stats, Serve(cs, rs)[0].stats;
      && s'.readAccesses == s.readAccesses + |Pick(rs, false)|
      && s'.writeAccesses == s.writeAccesses + |Pick(rs, true)|
    decreases |rs|
  {
    hide Lookup, Victim, Hit, LineOf;
    if rs != [] {
      ServeCounts(AccessLevels(cs, rs[0].addr, rs[0].bytes, rs[0].store), rs[1..]);
    }
  }

  lemma ServeTwo(cs: seq<Cache>, w: Request, r: Request)
    requires AllShape(cs) && cs != []
    ensures Serve(cs, [w] + [r]) == AccessLevels(AccessLevels(cs, w.addr, w.bytes, w.store), r.addr, r.bytes, r.store)
  {
    hide AccessLevels;
    assert ([w] + [r])[1..] == [r];
    ServeOne(AccessLevels(cs, w.addr, w.bytes, w.store), r);
  }

  lemma LevelsStep(cs: seq<Cache>, addr: nat, bytes: nat, store: bool)
    requires cs != [] && AllShape(cs)
    ensures AccessLevels(cs, addr, bytes, store) ==
      [CacheModel.Access(cs[0], addr, bytes, store).0] + Serve(cs[1..], CacheModel.Access(cs[0], addr, bytes, store).1)
  {
  }

  lemma ServeNothing(cs: seq<Cache>, rs: seq<Request>)
    requires AllShape(cs) && (cs == [] || rs == [])
    ensures Serve(cs, rs) == cs
  {
  }

  lemma ServeOne(cs: seq<Cache>, r: Request)
    requires AllShape(cs) && cs != []
    ensures Serve(cs, [r]) == AccessLevels(cs, r.addr, r.bytes, r.store)
  {
    assert [r][1..] == [];
  }

  /** The line that a miss has just put in is the one that check_tag finds. */
  lemma FoundAgain(c: Cache, c': Cache, k: nat, line: nat)
    requires Shape(c) && !Hit(c, line) && k == Victim(c, line)
    requires c'.sets == c.sets && c'.ways == c.ways && c'.linesz == c.linesz && c'.tags == c.tags[k := Slot(line, true, false)]
    ensures Shape(c') && Lookup(c', line) == k
  {
    hide NextRandom;
    var base, end := SetOf(c, line), SetOf(c, line) + c.ways;
    assert SetOf(c', line) == base;
    assert Match(c'.tags[k], line);
    var j := Find(c'.tags, base, end, line);
  }

  /** Counting leaves the tags alone. */
  lemma SameTags(c: Cache, c1: Cache, line: nat)
    requires Shape(c) && c1 == c.(stats := c1.stats)
    ensures Shape(c1) && Lookup(c1, line) == Lookup(c, line) && Victim(c1, line) == Victim(c, line) && SetOf(c1, line) == SetOf(c, line)
  {
  }
}
