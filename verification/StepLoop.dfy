/** processor_t::step and the chained instruction cache: the fast path retires exactly
    what fetching and executing one instruction after the other would. */
module StepLoop {
  const SERIALIZE_BEFORE: nat := 3
  const SERIALIZE_AFTER: nat := 5
  const ICACHE_ENTRIES: nat := 1024
  const NO_TAG: int := -1

  /** What the loop itself looks at, and the rest of the machine. */
  datatype Core<R> = Core(pc: nat, serialized: bool, rest: R)

  datatype Fetched<D> = Fetched(insn: D, length: nat)

  /** An executed instruction: the next address or a sentinel, the machine, and whether
      the instruction cache was flushed. */
  datatype Executed<R> = Executed(npc: nat, core: Core<R>, flush: bool)

  /** The instruction set, seen from the loop. */
  datatype Isa<!R, !D> = Isa(fetch: (R, nat) -> Fetched<D>, exec: (D, nat, Core<R>) -> Executed<R>)

  predicate InvalidPc(pc: nat) {
    pc % 2 == 1
  }

  // ---------------------------------------------------------------- plain execution

  function Insn<R, D>(isa: Isa<R, D>, c: Core<R>): D {
    isa.fetch(c.rest, c.pc).insn
  }

  function Execute<R, D>(isa: Isa<R, D>, c: Core<R>): Executed<R> {
    isa.exec(Insn(isa, c), c.pc, c)
  }

  /** The machine once the instruction has been executed and the pc advanced. */
  function After<R>(r: Executed<R>): Core<R> {
    if r.npc == SERIALIZE_BEFORE then r.core.(serialized := true)
    else if r.npc == SERIALIZE_AFTER then r.core
    else r.core.(pc := r.npc)
  }

  predicate Retires<R>(r: Executed<R>) {
    r.npc != SERIALIZE_BEFORE
  }

  /** An instruction that sets the program counter itself does so to serialize, asks for
      that only once, and leaves an address that can be fetched from. */
  predicate Lawful<R>(c: Core<R>, r: Executed<R>) {
    && (InvalidPc(r.npc) ==> r.npc == SERIALIZE_BEFORE || r.npc == SERIALIZE_AFTER)
    && (r.npc == SERIALIZE_BEFORE ==> !c.serialized && r.core.pc == c.pc)
    && (r.npc == SERIALIZE_AFTER ==> !InvalidPc(r.core.pc))
  }

  /** The addresses at which the code has changed since the last flush, after one more
      instruction: any store may change some, and a flush makes all of them fresh. */
  ghost function NextStale<R(!new), D(!new)>(isa: Isa<R, D>, c: Core<R>, stale: iset<nat>): iset<nat> {
    var r := Execute(isa, c);
    if r.flush then iset{} else stale + (iset a: nat | isa.fetch(r.core.rest, a) != isa.fetch(c.rest, a))
  }

  /** The next `n` instructions of plain execution are lawful, and none of them is at an
      address where the code has changed without a flush in between. */
  ghost predicate LawfulRun<R(!new), D(!new)>(isa: Isa<R, D>, c: Core<R>, stale: iset<nat>, n: nat)
    decreases n, if c.serialized then 0 else 1
  {
    n == 0 ||
    var r := Execute(isa, c);
    && !InvalidPc(c.pc) && c.pc !in stale && Lawful(c, r)
    && LawfulRun(isa, After(r), NextStale(isa, c, stale), if Retires(r) then n - 1 else n)
  }

  /** Fetching and executing until `n` instructions have retired. */
  ghost function Plain<R(!new), D(!new)>(isa: Isa<R, D>, c: Core<R>, stale: iset<nat>, n: nat): (r: Core<R>)
    requires LawfulRun(isa, c, stale, n)
    decreases n, if c.serialized then 0 else 1
  {
    var r := Execute(isa, c);
    if n == 0 then c else Plain(isa, After(r), NextStale(isa, c, stale), if Retires(r) then n - 1 else n)
  }

  /** The addresses where the code has changed since the last flush by then. */
  ghost function Stale<R(!new), D(!new)>(isa: Isa<R, D>, c: Core<R>, stale: iset<nat>, n: nat): iset<nat>
    requires LawfulRun(isa, c, stale, n)
    decreases n, if c.serialized then 0 else 1
  {
    var r := Execute(isa, c);
    if n == 0 then stale else Stale(isa, After(r), NextStale(isa, c, stale), if Retires(r) then n - 1 else n)
  }

  /** The addresses of the instructions that retire on the way. */
  ghost function Trace<R(!new), D(!new)>(isa: Isa<R, D>, c: Core<R>, stale: iset<nat>, n: nat): (t: seq<nat>)
    requires LawfulRun(isa, c, stale, n)
    ensures |t| == n
    decreases n, if c.serialized then 0 else 1
  {
    var r := Execute(isa, c);
    if n == 0 then []
    else (if Retires(r) then [c.pc] else []) + Trace(isa, After(r), NextStale(isa, c, stale), if Retires(r) then n - 1 else n)
  }

  /** A run of `n + m` instructions is a run of `n` and then one of `m`. */
  lemma {:induction false} RunSplit<R(!new), D(!new)>(isa: Isa<R, D>, c: Core<R>, stale: iset<nat>, n: nat, m: nat)
    requires LawfulRun(isa, c, stale, n + m)
    ensures LawfulRun(isa, c, stale, n)
    ensures var (c1, s1) := (Plain(isa, c, stale, n), Stale(isa, c, stale, n));
      && LawfulRun(isa, c1, s1, m)
      && Plain(isa, c, stale, n + m) == Plain(isa, c1, s1, m)
      && Trace(isa, c, stale, n + m) == Trace(isa, c, stale, n) + Trace(isa, c1, s1, m)
    decreases n, if c.serialized then 0 else 1
  {
    hide Execute, NextStale;
    if n > 0 {
      var r := Execute(isa, c);
      RunSplit(isa, After(r), NextStale(isa, c, stale), if Retires(r) then n - 1 else n, m);
    }
  }

  // ---------------------------------------------------------------- the cache and the loop

  datatype Entry<D> = Entry(tag: int, next: nat, data: D)

  /** icache_index. */
  function Index(addr: nat): (i: nat)
    ensures i < ICACHE_ENTRIES
  {
    addr / 2 % ICACHE_ENTRIES
  }

  /** Where the code is as it was at the last flush, a cached instruction is the one in
      memory, and it is chained to its successor's slot. */
  ghost predicate Coherent<R, D>(isa: Isa<R, D>, rest: R, stale: iset<nat>, e: Entry<D>) {
    && e.next < ICACHE_ENTRIES
    && (e.tag != NO_TAG ==> e.tag >= 0 && e.tag % 2 == 0)
    && (e.tag != NO_TAG && e.tag !in stale ==>
        e.data == isa.fetch(rest, e.tag).insn && e.next == Index(e.tag + isa.fetch(rest, e.tag).length))
  }

  /** One instruction keeps the entries of a cache that it does not flush coherent. */
  lemma StillCoherent<R(!new), D(!new)>(isa: Isa<R, D>, c: Core<R>, stale: iset<nat>, e: Entry<D>)
    requires Coherent(isa, c.rest, stale, e)
    ensures var (r, s) := (Execute(isa, c), NextStale(isa, c, stale));
      && (!r.flush ==> Coherent(isa, r.core.rest, s, e))
      && Coherent(isa, r.core.rest, s, e.(tag := NO_TAG))
  {
  }

  class Processor<R(!new), D(!new)> {
    const isa: Isa<R, D>
    const traced: nat -> bool
    const counting: R -> bool
    const icache: array<Entry<D>>
    var core: Core<R>
    var minstret: nat
    /** Addresses of all instructions retired so far. */
    ghost var retired: seq<nat>
    /** Addresses where the code has changed since the last flush. */
    ghost var stale: iset<nat>

    ghost predicate Valid()
      reads this, icache
    {
      && icache.Length == ICACHE_ENTRIES
      && forall i :: 0 <= i < ICACHE_ENTRIES ==> Coherent(isa, core.rest, stale, icache[i])
    }

    /** Plain execution of the next `n` instructions from here. */
    ghost predicate CanRun(n: nat)
      reads this
    {
      LawfulRun(isa, core, stale, n)
    }

    /** Where that leaves the machine, and the addresses that retire on the way. */
    ghost function Goal(n: nat): (Core<R>, iset<nat>, seq<nat>)
      requires CanRun(n)
      reads this
    {
      (Plain(isa, core, stale, n), Stale(isa, core, stale, n), retired + Trace(isa, core, stale, n))
    }

    constructor (isa: Isa<R, D>, traced: nat -> bool, counting: R -> bool, idle: D, core: Core<R>)
      ensures Valid() && this.isa == isa && this.core == core && minstret == 0 && retired == [] && stale == iset{} && fresh(icache)
    {
      this.isa, this.traced, this.counting, this.core := isa, traced, counting, core;
      icache := new Entry<D>[ICACHE_ENTRIES](_ => Entry(NO_TAG, 0, idle));
      minstret, retired, stale := 0, [], iset{};
    }

    /** refill_icache: the entry is left untagged when a tracer wants to see every fetch. */
    method Refill(addr: nat, i: nat)
      requires Valid() && i == Index(addr) && addr % 2 == 0
      modifies icache
      ensures Valid() && icache[i].data == isa.fetch(core.rest, addr).insn && icache[i].next < ICACHE_ENTRIES
    {
      var fetched := isa.fetch(core.rest, addr);
      icache[i] := Entry(if traced(addr) then NO_TAG else addr, Index(addr + fetched.length), fetched.insn);
    }

    /** access_icache. */
    method Access(addr: nat) returns (i: nat)
      requires Valid() && addr % 2 == 0 && addr !in stale
      modifies icache
      ensures Valid() && i < ICACHE_ENTRIES && icache[i].data == isa.fetch(core.rest, addr).insn
    {
      i := Index(addr);
      if icache[i].tag != addr {
        Refill(addr, i);
      }
    }

    /** flush_icache. */
    method Flush()
      requires icache.Length == ICACHE_ENTRIES
      modifies icache
      ensures forall k :: 0 <= k < ICACHE_ENTRIES ==> icache[k] == old(icache[k]).(tag := NO_TAG)
    {
      for i := 0 to ICACHE_ENTRIES
        invariant forall k :: 0 <= k < i ==> icache[k] == old(icache[k]).(tag := NO_TAG)
        invariant forall k :: i <= k < ICACHE_ENTRIES ==> icache[k] == old(icache[k])
      {
        icache[i] := icache[i].(tag := NO_TAG);
      }
    }

    /** One instruction, at its cache entry: the next address or a sentinel. */
    method ExecuteAt(i: nat) returns (pc: nat)
      requires Valid() && i < ICACHE_ENTRIES && icache[i].data == Insn(isa, core)
      modifies this`core, this`stale, icache
      ensures var r := Execute(isa, old(core)); pc == r.npc && core == r.core
      ensures stale == NextStale(isa, old(core), old(stale)) && Valid()
    {
      hide Coherent, NextStale;
      ghost var (c, s) := (core, stale);
      forall k | 0 <= k < ICACHE_ENTRIES
        ensures var (r, s') := (Execute(isa, c), NextStale(isa, c, s));
          && (!r.flush ==> Coherent(isa, r.core.rest, s', icache[k]))
          && Coherent(isa, r.core.rest, s', icache[k].(tag := NO_TAG))
      {
        StillCoherent(isa, c, s, icache[k]);
      }
      var r := isa.exec(icache[i].data, core.pc, core);
      pc, core, stale := r.npc, r.core, NextStale(isa, c, s);
      if r.flush {
        Flush();
      }
    }

    /** The fast path: up to `n` instructions, fewer only when one asks for serialization. */
    method RunFast(n: nat) returns (instret: nat)
      requires Valid() && n > 0 && CanRun(n)
      modifies this`core, this`stale, this`retired, icache
      ensures Valid() && instret <= n && CanRun(n - instret)
      ensures instret > 0 || (core.serialized && !old(core.serialized))
      ensures Goal(n - instret) == old(Goal(n))
    {
      hide Execute, Coherent, Lawful, Trace, Plain, Stale, LawfulRun, NextStale;
      ghost var (was, goal) := (core, Goal(n));
      instret := 0;
      var pc := core.pc;
      while instret < n
        invariant Valid() && instret <= n && pc == core.pc && (instret > 0 || core == was)
        invariant CanRun(n - instret) && Goal(n - instret) == goal
        decreases n - instret
      {
        PlainStep(isa, core, stale, n - instret);
        var e: nat := Access(pc);
        ghost var c, s := core, stale;
        while true
          invariant Valid() && instret < n && 0 <= e < ICACHE_ENTRIES && c == core && s == stale
          invariant icache[e].data == Insn(isa, core) && (instret > 0 || core == was)
          invariant CanRun(n - instret) && Goal(n - instret) == goal
          decreases n - instret
        {
          PlainStep(isa, c, s, n - instret);
          pc := ExecuteAt(e);
          CoherentNext(isa, core.rest, stale, icache[e]);
          e := icache[e].next;
          if icache[e].tag != pc {
            break;
          }
          if instret + 1 == n {
            break;
          }
          instret := instret + 1;
          CoherentTag(isa, core.rest, stale, icache[e]);
          core := core.(pc := pc);
          Chained(isa, core, stale, n - instret);
          Regroup(retired, [c.pc], Trace(isa, core, stale, n - instret));
          retired := retired + [c.pc];
          c, s := core, stale;
        }
        if InvalidPc(pc) {
          if pc == SERIALIZE_BEFORE {
            core := core.(serialized := true);
            assert retired + ([] + Trace(isa, core, stale, n - instret)) == retired + Trace(isa, core, stale, n - instret);
          } else {
            instret := instret + 1;
            Regroup(retired, [c.pc], Trace(isa, core, stale, n - instret));
            retired := retired + [c.pc];
          }
          return;
        }
        core := core.(pc := pc);
        instret := instret + 1;
        Regroup(retired, [c.pc], Trace(isa, core, stale, n - instret));
        retired := retired + [c.pc];
      }
    }

    /** step: exactly `n` instructions retire, in the order and with the effect of plain
        execution; pc is then the next one, and minstret has counted them. */
    method Step(count: nat)
      requires Valid() && CanRun(count)
      modifies this, icache
      ensures Valid() && core == Plain(isa, old(core), old(stale), count)
      ensures stale == Stale(isa, old(core), old(stale), count)
      ensures retired == old(retired) + Trace(isa, old(core), old(stale), count)
      ensures (forall r :: counting(r)) ==> minstret == old(minstret) + count
    {
      hide Coherent;
      ghost var goal := Goal(count);
      var n: nat := count;
      while n > 0
        invariant Valid() && n <= count && CanRun(n) && Goal(n) == goal
        invariant (forall r :: counting(r)) ==> minstret == old(minstret) + count - n
        decreases n, if core.serialized then 0 else 1
      {
        var instret := RunFast(n);
        if counting(core.rest) {
          minstret := minstret + instret;
        }
        n := n - instret;
      }
    }
  }

  lemma Regroup(a: seq<nat>, x: seq<nat>, b: seq<nat>)
    ensures a + (x + b) == (a + x) + b
  {
  }

  /** One instruction of plain execution. */
  lemma PlainStep<R(!new), D(!new)>(isa: Isa<R, D>, c: Core<R>, stale: iset<nat>, n: nat)
    requires LawfulRun(isa, c, stale, n) && n > 0
    ensures var r := Execute(isa, c);
      var m := if Retires(r) then n - 1 else n;
      var s := NextStale(isa, c, stale);
      && c.pc % 2 == 0 && c.pc !in stale && LawfulRun(isa, After(r), s, m)
      && (InvalidPc(r.npc) ==> r.npc in {SERIALIZE_BEFORE, SERIALIZE_AFTER})
      && (!Retires(r) ==> !c.serialized)
      && Plain(isa, c, stale, n) == Plain(isa, After(r), s, m) && Stale(isa, c, stale, n) == Stale(isa, After(r), s, m)
      && Trace(isa, c, stale, n) == (if Retires(r) then [c.pc] else []) + Trace(isa, After(r), s, m)
  {
    hide Execute, NextStale;
  }

  /** The next instruction of a run is not at a stale address. */
  lemma Chained<R(!new), D(!new)>(isa: Isa<R, D>, c: Core<R>, stale: iset<nat>, n: nat)
    requires LawfulRun(isa, c, stale, n) && n > 0
    ensures c.pc !in stale
  {
    hide Execute, NextStale;
  }

  lemma CoherentNext<R(!new), D(!new)>(isa: Isa<R, D>, rest: R, stale: iset<nat>, e: Entry<D>)
    requires Coherent(isa, rest, stale, e)
    ensures e.next < ICACHE_ENTRIES
  {
  }

  lemma CoherentTag<R(!new), D(!new)>(isa: Isa<R, D>, rest: R, stale: iset<nat>, e: Entry<D>)
    requires Coherent(isa, rest, stale, e) && e.tag != NO_TAG
    ensures e.tag >= 0 && e.tag % 2 == 0 && (e.tag !in stale ==> e.data == isa.fetch(rest, e.tag).insn)
  {
  }
}
