/** Writes to pmpaddr, pmpcfg and mseccfg, and the locks that survive every run of them. */
module PmpLock {
  import opened PmpMatch

  const MSECCFG_MML: reg := 0x1
  const MSECCFG_MMWP: reg := 0x2
  const MSECCFG_RLB: reg := 0x4
  const MSECCFG_SEED: reg := 0x300
  const MSECCFG_MLPE: reg := 0x400
  const MSECCFG_PMM: reg := 0x3_0000_0000
  const MAX_PMP: nat := 64
  const GRAIN: nat := 2

  /** What reset fixes: entries in use, granularity and the extensions. */
  datatype Config = Config(nPmp: nat, lgGrain: nat, entriesPerReg: nat, zkr: bool, zicfilp: bool, smmpm: bool) {
    ghost predicate Valid() {
      nPmp <= MAX_PMP && GRAIN <= lgGrain < GRAIN + 64 && entriesPerReg in {4, 8}
    }

    /** pmp_tor_mask: all ones but for the bits below the granularity. */
    function TorMask(): reg
      requires Valid()
    {
      0 - (1 << (lgGrain - GRAIN) as bv7)
    }
  }

  datatype Bank = Bank(vals: seq<reg>, cfgs: seq<bv8>, sec: reg) {
    ghost predicate Valid() {
      |vals| == |cfgs| == MAX_PMP
    }

    predicate Rlb() {
      sec & MSECCFG_RLB != 0
    }

    predicate Mml() {
      sec & MSECCFG_MML != 0
    }

    predicate Mmwp() {
      sec & MSECCFG_MMWP != 0
    }

    predicate Locked(i: nat)
      requires i < |cfgs|
    {
      cfgs[i] & PMP_L != 0
    }

    /** next_locked_and_tor. */
    predicate NextLockedTor(i: nat)
    {
      i + 1 < |cfgs| && !Rlb() && Locked(i + 1) && cfgs[i + 1] & PMP_A == PMP_TOR
    }

    /** The entry as match4 sees it. */
    function EntryAt(i: nat): Entry
      requires i < |cfgs| == |vals|
    {
      Entry(vals[i], cfgs[i], if i == 0 then 0 else vals[i - 1])
    }
  }

  // ---------------------------------------------------------------- single writes

  /** The value that a pmpaddr register keeps of what is written. */
  function Kept(v: reg): reg {
    v & 0x3fff_ffff_ffff_ffff
  }

  function WriteAddr(c: Config, b: Bank, i: nat, v: reg): (r: (Bank, bool))
    requires b.Valid() && i < MAX_PMP
    ensures r.0.Valid() && (!r.1 ==> r.0 == b)
  {
    if c.nPmp > 0 && i < c.nPmp && (b.Rlb() || !b.Locked(i)) && !b.NextLockedTor(i)
    then (b.(vals := b.vals[i := Kept(v)]), true)
    else (b, false)
  }

  /** A configuration byte after the reserved combinations have been replaced. */
  function Legal(c: Config, mml: bool, raw: bv8): bv8 {
    var a := raw & (PMP_R | PMP_W | PMP_X | PMP_A | PMP_L);
    var w := if !mml && a & PMP_R == 0 then a & !PMP_W else a;
    if c.lgGrain != GRAIN && w & PMP_A == PMP_NA4 then w | PMP_NAPOT else w
  }

  /** An executable rule that only machine mode could use, or a locked shared region. */
  predicate MachineExecutable(cfg: bv8) {
    var x, w, r := cfg & PMP_X != 0, cfg & PMP_W != 0, cfg & PMP_R != 0;
    cfg & PMP_L != 0 && !(x && w && r) && (x || (w && !r))
  }

  /** One entry's configuration after a pmpcfg write offers it the byte `raw`. */
  function NewCfg(c: Config, b: Bank, was: bv8, raw: bv8): bv8 {
    var cfg := Legal(c, b.Mml(), raw);
    if !b.Rlb() && was & PMP_L != 0 then was
    else if b.Rlb() || !(b.Mml() && MachineExecutable(cfg)) then cfg
    else was
  }

  /** Byte `j` of a register. */
  function ByteOf(v: reg, j: nat): bv8
    requires j < 8
  {
    ((v >> (8 * j) as bv7) & 0xff) as bv8
  }

  /** The configurations after entries `i0` up to `i0 + j` have been offered their bytes. */
  function CfgsAfter(c: Config, b: Bank, i0: nat, v: reg, j: nat): (r: seq<bv8>)
    requires b.Valid() && c.Valid() && j <= 8
    ensures |r| == MAX_PMP
  {
    if j == 0 then b.cfgs
    else
      var r := CfgsAfter(c, b, i0, v, j - 1);
      var i := i0 + j - 1;
      if i < c.nPmp then r[i := NewCfg(c, b, r[i], ByteOf(v, j - 1))] else r
  }

  function WriteCfg(c: Config, b: Bank, i0: nat, v: reg): (r: (Bank, bool))
    requires b.Valid() && c.Valid()
    ensures r.0.Valid() && (!r.1 ==> r.0 == b)
  {
    NoEntries(c, b, i0, v, c.entriesPerReg);
    (b.(cfgs := CfgsAfter(c, b, i0, v, c.entriesPerReg)), i0 < c.nPmp)
  }

  lemma {:induction false} NoEntries(c: Config, b: Bank, i0: nat, v: reg, j: nat)
    requires b.Valid() && c.Valid() && j <= 8
    ensures c.nPmp <= i0 ==> CfgsAfter(c, b, i0, v, j) == b.cfgs
  {
    if j > 0 {
      NoEntries(c, b, i0, v, j - 1);
    }
  }

  predicate AnyLocked(b: Bank, n: nat)
    requires n <= |b.cfgs|
  {
    exists i :: 0 <= i < n && b.Locked(i)
  }

  function NewSec(c: Config, b: Bank, v: reg): reg
    requires b.Valid() && c.Valid()
  {
    var rlbFixed := AnyLocked(b, c.nPmp) && !b.Rlb();
    var s0 := if rlbFixed then b.sec else (b.sec & !MSECCFG_RLB) | (v & MSECCFG_RLB);
    var s1 := s0 | (v & MSECCFG_MMWP) | (v & MSECCFG_MML);
    var s2 := if c.zkr then (s1 & !MSECCFG_SEED) | (v & MSECCFG_SEED) else s1;
    var s3 := if c.zicfilp then (s2 & !MSECCFG_MLPE) | (v & MSECCFG_MLPE) else s2;
    if c.smmpm then
      var pmm := v & MSECCFG_PMM;
      (s3 & !MSECCFG_PMM) | (if pmm == 0x1_0000_0000 then 0 else pmm)
    else s3
  }

  function WriteSec(c: Config, b: Bank, v: reg): (r: (Bank, bool))
    requires b.Valid() && c.Valid()
    ensures r.0.Valid() && (!r.1 ==> r.0 == b)
  {
    if c.nPmp == 0 then (b, false) else (b.(sec := NewSec(c, b, v)), true)
  }

  // ---------------------------------------------------------------- runs

  datatype Write = ToAddr(i: nat, v: reg) | ToCfg(i0: nat, v: reg) | ToSec(v: reg)

  function Apply(c: Config, b: Bank, w: Write): (r: Bank)
    requires b.Valid() && c.Valid()
    ensures r.Valid()
  {
    match w
    case ToAddr(i, v) => if i < MAX_PMP then WriteAddr(c, b, i, v).0 else b
    case ToCfg(i0, v) => WriteCfg(c, b, i0, v).0
    case ToSec(v) => WriteSec(c, b, v).0
  }

  function Run(c: Config, b: Bank, ws: seq<Write>): (r: Bank)
    requires b.Valid() && c.Valid()
    ensures r.Valid()
    decreases ws
  {
    if ws == [] then b else Run(c, Apply(c, b, ws[0]), ws[1..])
  }

  /** Entry `i` is locked and the lock cannot be bypassed. */
  ghost predicate Frozen(c: Config, b: Bank, i: nat) {
    b.Valid() && i < c.nPmp <= MAX_PMP && !b.Rlb() && b.Locked(i)
  }

  /** Everything that decides what entry `i` matches and allows. */
  ghost predicate SameEntry(b: Bank, b': Bank, i: nat)
    requires b.Valid() && b'.Valid() && i < MAX_PMP
  {
    && b'.cfgs[i] == b.cfgs[i] && b'.vals[i] == b.vals[i]
    && (i > 0 && b.cfgs[i] & PMP_A == PMP_TOR ==> b'.vals[i - 1] == b.vals[i - 1])
  }

  lemma SecBits(c: Config, b: Bank, v: reg)
    requires b.Valid() && c.Valid()
    ensures var b' := b.(sec := NewSec(c, b, v));
      && (b.Mml() ==> b'.Mml()) && (b.Mmwp() ==> b'.Mmwp())
      && (AnyLocked(b, c.nPmp) && !b.Rlb() ==> !b'.Rlb())
  {
  }

  lemma {:induction false} CfgKept(c: Config, b: Bank, i0: nat, v: reg, j: nat, i: nat)
    requires Frozen(c, b, i) && c.Valid() && j <= 8
    ensures CfgsAfter(c, b, i0, v, j)[i] == b.cfgs[i]
  {
    if j > 0 {
      CfgKept(c, b, i0, v, j - 1, i);
    }
  }

  lemma FrozenStep(c: Config, b: Bank, w: Write, i: nat)
    requires c.Valid() && Frozen(c, b, i)
    ensures var b' := Apply(c, b, w); Frozen(c, b', i) && SameEntry(b, b', i)
  {
    hide NewSec, CfgsAfter, Kept;
    match w
    case ToAddr(k, v) =>
      if i > 0 && k == i - 1 && b.cfgs[i] & PMP_A == PMP_TOR {
        assert b.NextLockedTor(k);
      }
    case ToCfg(i0, v) => CfgKept(c, b, i0, v, c.entriesPerReg, i);
    case ToSec(v) => SecBits(c, b, v);
  }

  lemma SameMatch(e: Entry, e': Entry, torMask: reg, a: reg)
    requires e.val == e'.val && e.cfg == e'.cfg && (Mode(e) == PMP_TOR ==> e.below == e'.below)
    ensures Match4(e, torMask, a) == Match4(e', torMask, a)
  {
    hide Differ, Below, TorPaddr, NapotMask;
  }

  /** Once an entry is locked with RLB clear, no run of writes changes its configuration
      or any address that it matches, and RLB stays clear. */
  lemma {:induction false} LockedForever(c: Config, b: Bank, ws: seq<Write>, i: nat)
    requires c.Valid() && Frozen(c, b, i)
    ensures var b' := Run(c, b, ws);
      && Frozen(c, b', i) && SameEntry(b, b', i)
      && forall a :: Match4(b'.EntryAt(i), c.TorMask(), a) == Match4(b.EntryAt(i), c.TorMask(), a)
    decreases ws
  {
    hide Apply, Match4;
    if ws != [] {
      FrozenStep(c, b, ws[0], i);
      LockedForever(c, Apply(c, b, ws[0]), ws[1..], i);
    }
    var b' := Run(c, b, ws);
    forall a ensures Match4(b'.EntryAt(i), c.TorMask(), a) == Match4(b.EntryAt(i), c.TorMask(), a) {
      SameMatch(b.EntryAt(i), b'.EntryAt(i), c.TorMask(), a);
    }
  }

  /** MML and MMWP never clear. */
  lemma {:induction false} StickyForever(c: Config, b: Bank, ws: seq<Write>)
    requires c.Valid() && b.Valid()
    ensures var b' := Run(c, b, ws); (b.Mml() ==> b'.Mml()) && (b.Mmwp() ==> b'.Mmwp())
    decreases ws
  {
    hide NewSec, CfgsAfter, Kept;
    if ws != [] {
      match ws[0] {
        case ToSec(v) => SecBits(c, b, v);
        case _ =>
      }
      StickyForever(c, Apply(c, b, ws[0]), ws[1..]);
    }
  }

  // ---------------------------------------------------------------- the registers

  class Pmp {
    const config: Config
    var vals: seq<reg>
    var cfgs: seq<bv8>
    var sec: reg

    ghost predicate Valid()
      reads this
    {
      config.Valid() && State().Valid()
    }

    function State(): Bank
      reads this
    {
      Bank(vals, cfgs, sec)
    }

    constructor (config: Config)
      requires config.Valid()
      ensures Valid() && this.config == config
      ensures State() == Bank(seq(MAX_PMP, i => 0), seq(MAX_PMP, i => 0), 0)
    {
      this.config := config;
      vals, cfgs, sec := seq(MAX_PMP, i => 0), seq(MAX_PMP, i => 0), 0;
    }

    /** pmpaddr_csr_t::unlogged_write. */
    method SetAddr(i: nat, v: reg) returns (ok: bool)
      requires Valid() && i < MAX_PMP
      modifies this
      ensures Valid() && (State(), ok) == WriteAddr(config, old(State()), i, v)
    {
      if config.nPmp == 0 {
        return false;
      }
      var locked := !State().Rlb() && State().Locked(i);
      if i < config.nPmp && !locked && !State().NextLockedTor(i) {
        vals := vals[i := Kept(v)];
      } else {
        return false;
      }
      return true;
    }

    /** pmpcfg_csr_t::unlogged_write of the register whose first entry is `i0`. */
    method SetCfg(i0: nat, v: reg) returns (ok: bool)
      requires Valid()
      modifies this
      ensures Valid() && (State(), ok) == WriteCfg(config, old(State()), i0, v)
    {
      hide NewCfg;
      ok := false;
      ghost var b := State();
      if config.nPmp == 0 {
        NoEntries(config, b, i0, v, config.entriesPerReg);
        return;
      }
      for j := 0 to config.entriesPerReg
        invariant State() == b.(cfgs := CfgsAfter(config, b, i0, v, j))
        invariant ok == (j > 0 && i0 < config.nPmp)
      {
        var i := i0 + j;
        if i < config.nPmp {
          SameSec(config, b, State(), cfgs[i], ByteOf(v, j));
          cfgs := cfgs[i := NewCfg(config, State(), cfgs[i], ByteOf(v, j))];
          ok := true;
        }
      }
    }

    /** mseccfg_csr_t::unlogged_write. */
    method SetSec(v: reg) returns (ok: bool)
      requires Valid()
      modifies this
      ensures Valid() && (State(), ok) == WriteSec(config, old(State()), v)
    {
      if config.nPmp == 0 {
        return false;
      }
      sec := NewSec(config, State(), v);
      return true;
    }
  }

  lemma SameSec(c: Config, b: Bank, b': Bank, was: bv8, raw: bv8)
    requires b.sec == b'.sec
    ensures NewCfg(c, b, was, raw) == NewCfg(c, b', was, raw)
  {
  }
}
