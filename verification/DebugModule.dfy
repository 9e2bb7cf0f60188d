/** The debug module's abstract commands: the program written for the hart, and the
    busy / go / halted handshake with it. */
module DebugModule {
  import opened DebugHart
  import opened DebugProgram

  const GO: bv8 := 1
  const RESUME: bv8 := 2
  const FLAGS: nat := 1024

  // ---------------------------------------------------------------- words in byte memory

  /** write32: little-endian. */
  function Put32(mem: seq<bv8>, i: nat, v: word): (r: seq<bv8>)
    requires 4 * i + 4 <= |mem|
    ensures |r| == |mem|
  {
    mem[4 * i := (v & 0xff) as bv8][4 * i + 1 := ((v >> 8) & 0xff) as bv8]
       [4 * i + 2 := ((v >> 16) & 0xff) as bv8][4 * i + 3 := ((v >> 24) & 0xff) as bv8]
  }

  function Join(b0: bv8, b1: bv8, b2: bv8, b3: bv8): word {
    (b0 as word) | ((b1 as word) << 8) | ((b2 as word) << 16) | ((b3 as word) << 24)
  }

  /** read32. */
  function Get32(mem: seq<bv8>, i: nat): word
    requires 4 * i + 4 <= |mem|
  {
    Join(mem[4 * i], mem[4 * i + 1], mem[4 * i + 2], mem[4 * i + 3])
  }

  lemma JoinSplit(v: word)
    ensures Join((v & 0xff) as bv8, ((v >> 8) & 0xff) as bv8, ((v >> 16) & 0xff) as bv8, ((v >> 24) & 0xff) as bv8) == v
  {
  }

  lemma GetPut(mem: seq<bv8>, i: nat, v: word, j: nat)
    requires 4 * i + 4 <= |mem| && 4 * j + 4 <= |mem|
    ensures Get32(Put32(mem, i, v), j) == if j == i then v else Get32(mem, j)
  {
    hide Join;
    JoinSplit(v);
  }

  /** Words written one after the other from word `i` on. */
  function PutAll(mem: seq<bv8>, i: nat, words: seq<word>): (r: seq<bv8>)
    requires 4 * (i + |words|) <= |mem|
    ensures |r| == |mem|
    decreases words
  {
    if words == [] then mem else PutAll(Put32(mem, i, words[0]), i + 1, words[1..])
  }

  /** The first `n` words of the memory. */
  function Words(mem: seq<bv8>, n: nat): (r: seq<word>)
    requires 4 * n <= |mem|
    ensures |r| == n
  {
    if n == 0 then [] else Words(mem, n - 1) + [Get32(mem, n - 1)]
  }

  lemma {:induction false} PutAllSnoc(mem: seq<bv8>, i: nat, words: seq<word>, w: word)
    requires 4 * (i + |words| + 1) <= |mem|
    ensures PutAll(mem, i, words + [w]) == Put32(PutAll(mem, i, words), i + |words|, w)
    decreases words
  {
    hide Put32;
    if words == [] {
      assert words + [w] == [w] && [w][1..] == [];
    } else {
      assert (words + [w])[1..] == words[1..] + [w];
      PutAllSnoc(Put32(mem, i, words[0]), i + 1, words[1..], w);
    }
  }

  lemma {:induction false} WordsSame(mem: seq<bv8>, mem': seq<bv8>, n: nat)
    requires |mem| == |mem'| && 4 * n <= |mem|
    requires forall j :: 0 <= j < n ==> Get32(mem, j) == Get32(mem', j)
    ensures Words(mem, n) == Words(mem', n)
  {
    hide Get32;
    if n > 0 {
      WordsSame(mem, mem', n - 1);
    }
  }

  /** What has been written is what is read. */
  lemma {:induction false} WordsBack(mem: seq<bv8>, words: seq<word>)
    requires 4 * |words| <= |mem|
    ensures Words(PutAll(mem, 0, words), |words|) == words
    decreases |words|
  {
    hide Put32, Get32;
    if words != [] {
      var n := |words| - 1;
      var init, w := words[..n], words[n];
      assert words == init + [w];
      WordsBack(mem, init);
      PutAllSnoc(mem, 0, init, w);
      var m := PutAll(mem, 0, init);
      forall j | 0 <= j < n ensures Get32(Put32(m, n, w), j) == Get32(m, j) {
        GetPut(m, n, w, j);
      }
      GetPut(m, n, w, n);
      WordsSame(Put32(m, n, w), m, n);
    }
  }

  // ---------------------------------------------------------------- state

  datatype Config = Config(support: Support, abstractRti: nat, authenticate: bool, hasel: bool, progbufsize: nat, hartids: seq<nat>)

  /** What the debugger sets up between commands. */
  datatype Settings = Settings(
    authenticated: bool, autoProgbuf: word, autoData: word, available: seq<bool>, mask: seq<bool>)

  datatype Dm = Dm(
    busy: bool, cmderr: word, command: word, completed: bool, rti: nat,
    dmactive: bool, hasel: bool, hartsel: nat, own: Settings,
    halted: seq<bool>, resumeack: seq<bool>, flags: seq<bv8>,
    code: seq<bv8>, data: seq<bv8>, progbuf: seq<bv8>, customBase: word)

  predicate HartsOk(c: Config) {
    forall i :: 0 <= i < |c.hartids| ==> c.hartids[i] < FLAGS
  }

  predicate Valid(c: Config, d: Dm) {
    && HartsOk(c) && d.hartsel < |c.hartids| && |d.own.available| == 2 && c.progbufsize <= 16
    && |d.halted| == |d.resumeack| == |d.flags| == |d.own.mask| == FLAGS
    && |d.code| == 4 * ABSTRACT_WORDS && |d.data| == 8 && |d.progbuf| >= 4 * c.progbufsize
  }

  function Selected(c: Config, d: Dm): nat
    requires d.hartsel < |c.hartids|
  {
    c.hartids[d.hartsel]
  }

  lemma HartInRange(c: Config, d: Dm)
    requires Valid(c, d)
    ensures Selected(c, d) < FLAGS
  {
  }

  predicate Available(d: Dm, id: nat) {
    id < |d.own.available| ==> d.own.available[id]
  }

  // A hart's flags byte.
  predicate HasGo(f: bv8) { f & GO != 0 }
  function SetGo(f: bv8): bv8 { f | GO }
  function ClearGo(f: bv8): bv8 { f & !GO }
  function SetResume(f: bv8): bv8 { f | RESUME }
  function ClearResume(f: bv8): bv8 { f & !RESUME }

  lemma FlagBits(f: bv8)
    ensures HasGo(SetGo(f)) && !HasGo(ClearGo(f)) && HasGo(SetResume(f)) == HasGo(f) == HasGo(ClearResume(f))
  {
  }

  predicate Go(d: Dm, id: nat) {
    id < |d.flags| && HasGo(d.flags[id])
  }

  // ---------------------------------------------------------------- commands

  /** The instructions that perform_abstract_command writes for a transfer, even when it
      then finds out that the access is not supported. */
  function Emitted(s: Support, a: Access): seq<Insn> {
    match Transfer(s, a)
    case Code(code) => code
    case _ =>
      (if FpuReg(a.regno) then FpuSave() else [])
      + if CsrNo(a.regno) && s.csrs then
          (if FpuReg(a.regno) then [] else [Csrw(S0, DSCRATCH0)]) + (if a.write then [] else [Csrr(S0, a.regno)])
        else []
  }

  lemma EmittedShort(s: Support, a: Access)
    ensures |Emitted(s, a)| < ABSTRACT_WORDS
  {
    CodeShort(s, a);
  }

  // The value of custom register `regno` is its number plus a base.
  function BaseFor(value: word, regno: word): word { value - (regno - 0xc000) }
  function CustomValue(base: word, regno: word): word { (regno - 0xc000) + base }

  /** Odd custom registers: a write moves the base that later reads add to. */
  function CustomAccess(d: Dm, a: Access): (r: Dm)
    requires |d.data| == 8
    ensures r == d.(data := r.data, customBase := r.customBase) && |r.data| == 8
  {
    hide Put32, Get32, BaseFor, CustomValue;
    if a.write then d.(customBase := BaseFor(Get32(d.data, 0), a.regno))
    else d.(data := Put32(Put32(d.data, 0, CustomValue(d.customBase, a.regno)), 1, 0))
  }

  /** The hart is told to go and the module waits for it. */
  function Start(c: Config, d: Dm, code: seq<Insn>): (r: Dm)
    requires Valid(c, d) && |code| <= ABSTRACT_WORDS
    ensures Valid(c, r)
  {
    HartInRange(c, d);
    hide PutAll, Assemble, SetGo, HartsOk;
    var id := Selected(c, d);
    d.(code := PutAll(d.code, 0, Assemble(code)), flags := d.flags[id := SetGo(d.flags[id])],
       rti := c.abstractRti, completed := false, busy := true)
  }

  /** Nothing has been started and the module waits for nothing new. */
  predicate Idled(d: Dm, r: Dm) {
    r == d.(cmderr := r.cmderr, code := r.code, data := r.data, customBase := r.customBase)
  }

  function Access32(c: Config, d: Dm, a: Access): (r: Dm)
    requires Valid(c, d)
    ensures Valid(c, r)
    ensures Idled(d, r) || r.busy
  {
    HartInRange(c, d);
    hide PutAll, Assemble, Program, Emitted, CustomAccess, HartsOk;
    if !d.halted[Selected(c, d)] then d.(cmderr := CMDERR_HALTRESUME)
    else
      EmittedShort(c.support, a);
      ProgramFits(c.support, a);
      match Program(c.support, a)
      case Reject(e) => d.(cmderr := e, code := PutAll(d.code, 0, Assemble(Emitted(c.support, a))))
      case Custom => CustomAccess(d, a)
      case Code(code) => Start(c, d, code)
  }

  /** perform_abstract_command. */
  function Perform(c: Config, d: Dm): (r: Dm)
    requires Valid(c, d)
    ensures Valid(c, r)
  {
    hide Access32, AccessOf;
    if d.cmderr != CMDERR_NONE then d
    else if d.busy then d.(cmderr := CMDERR_BUSY)
    else if !Available(d, d.hartsel) then d.(cmderr := CMDERR_HALTRESUME)
    else if !RegisterAccess(d.command) then d.(cmderr := CMDERR_NOTSUP)
    else Access32(c, d, AccessOf(d.command))
  }

  /** The command can be carried out. */
  predicate Accepted(c: Config, d: Dm)
    requires Valid(c, d)
  {
    HartInRange(c, d);
    && d.cmderr == CMDERR_NONE && Available(d, d.hartsel) && RegisterAccess(d.command)
    && d.halted[Selected(c, d)] && Program(c.support, AccessOf(d.command)).Code?
  }

  /** Exactly `code` is in memory, GO is set of the selected hart only, and the module is busy. */
  ghost predicate Started(c: Config, d: Dm, r: Dm, code: seq<Insn>)
    requires Valid(c, d) && Valid(c, r)
  {
    && r.busy && !r.completed && r.cmderr == d.cmderr && r.rti == c.abstractRti
    && 4 * |code| <= |r.code| && Words(r.code, |code|) == Assemble(code)
    && Go(r, Selected(c, d)) && forall id :: id != Selected(c, d) ==> Go(r, id) == Go(d, id)
  }

  lemma StartEffect(c: Config, d: Dm, code: seq<Insn>)
    requires Valid(c, d) && |code| <= ABSTRACT_WORDS
    ensures Started(c, d, Start(c, d, code), code)
  {
    hide Assemble, PutAll, Words, HasGo, SetGo, HartsOk;
    HartInRange(c, d);
    WordsBack(d.code, Assemble(code));
    FlagBits(d.flags[Selected(c, d)]);
  }

  lemma AccessStarts(c: Config, d: Dm, a: Access)
    requires Valid(c, d) && !d.busy
    ensures Selected(c, d) < |d.halted|
    ensures var r := Access32(c, d, a); var p := Program(c.support, a);
      && (r.busy <==> d.halted[Selected(c, d)] && p.Code?)
      && (r.busy ==> |p.code| <= ABSTRACT_WORDS && r == Start(c, d, p.code))
      && (!r.busy ==> Idled(d, r))
  {
    hide Program, PutAll, CustomAccess, Emitted, HartsOk, Idled;
    HartInRange(c, d);
    ProgramFits(c.support, a);
  }

  lemma PerformIs(c: Config, d: Dm)
    requires Valid(c, d) && !d.busy
    ensures var r := Perform(c, d);
      if d.cmderr == CMDERR_NONE && Available(d, d.hartsel) && RegisterAccess(d.command)
      then r == Access32(c, d, AccessOf(d.command)) else !r.busy && Idled(d, r)
  {
    hide Access32, AccessOf, HartsOk;
  }

  /** An accepted command starts exactly its program; any other starts nothing. */
  lemma PerformStarts(c: Config, d: Dm)
    requires Valid(c, d) && !d.busy
    ensures var r := Perform(c, d);
      if Accepted(c, d) then Started(c, d, r, Program(c.support, AccessOf(d.command)).code)
      else !r.busy && Idled(d, r)
  {
    hide Program, AccessOf, HartsOk, Start, Started, Access32, Perform, Idled;
    var a := AccessOf(d.command);
    PerformIs(c, d);
    AccessStarts(c, d, a);
    if Accepted(c, d) {
      StartEffect(c, d, Program(c.support, a).code);
    }
  }

  lemma RegnoFits(command: word)
    ensures AccessOf(command).regno <= 0xffff
  {
  }

  /** A hart that executes what an accepted transfer command has put into memory moves
      exactly the requested value. */
  lemma CommandMoves(c: Config, d: Dm, h: Hart) returns (h': Hart)
    requires Valid(c, d) && !d.busy && Accepted(c, d) && h.x(ZERO) == 0
    requires var a := AccessOf(d.command); a.transfer && a.regno != DSCRATCH0
    ensures var a := AccessOf(d.command); var n := |Program(c.support, a).code|;
      && Moved(a, h, h') && 0 < n && 4 * n <= |Perform(c, d).code|
      && Execute(Words(Perform(c, d).code, n), 0, h) == if a.postexec then Jump(h', n - 1, ToProgbuf(n - 1)) else Break(h')
  {
    hide Program, AccessOf, HartsOk, Perform, Moved, Execute, Words, Assemble, ToProgbuf;
    RegnoFits(d.command);
    PerformStarts(c, d);
    ProgramFits(c.support, AccessOf(d.command));
    h' := ProgramMoves(c.support, AccessOf(d.command), h);
  }

  // ---------------------------------------------------------------- events

  /** The fields of a dmcontrol write. */
  datatype Control = Control(dmactive: bool, resumereq: bool, hasel: bool, hartsel: nat)

  /** What the debugger, the harts and the scan chain do to the module. */
  datatype Event =
    | ReadData(i: nat) | ReadProgbuf(i: nat)
    | WriteData(i: nat, v: word) | WriteProgbuf(i: nat, v: word)
    | WriteControl(ctl: Control) | WriteCommand(v: word)
    | WriteAbstractCs(clear: word) | WriteAuto(progbuf: word, data: word)
    | WriteAvailable(a: bool, b: bool) | WriteMask(id: nat, on: bool) | Authenticate(ok: bool)
    | Idle
    | Halted(id: nat) | Going(id: nat) | Resuming(id: nat) | Exception | ProcReset(id: nat)

  function Reset(c: Config, d: Dm): Dm {
    d.(busy := false, cmderr := CMDERR_NONE, dmactive := false, hasel := false, hartsel := 0,
       own := d.own.(authenticated := !c.authenticate, autoProgbuf := 0, autoData := 0))
  }

  predicate HartSelected(c: Config, d: Dm, id: nat)
    requires d.hartsel < |c.hartids|
  {
    id == Selected(c, d) || (d.hasel && id < |d.own.mask| && d.own.mask[id])
  }

  /** The harts that a resume request goes to, among the first `k`. */
  function Resumed(c: Config, d: Dm, k: nat): (r: Dm)
    requires Valid(c, d) && k <= |c.hartids|
    ensures Valid(c, r)
    ensures r == d.(flags := r.flags, resumeack := r.resumeack)
  {
    if k == 0 then d
    else
      var r := Resumed(c, d, k - 1);
      var id := c.hartids[k - 1];
      if HartSelected(c, d, id) && Available(d, id)
      then r.(flags := r.flags[id := SetResume(r.flags[id])], resumeack := r.resumeack[id := false])
      else r
  }

  function Min(a: nat, b: nat): nat {
    if a < b then a else b
  }

  predicate Resets(d: Dm, ctl: Control) {
    !d.dmactive && ctl.dmactive
  }

  /** dmcontrol with the hart selection of a write in place. */
  function Reselected(c: Config, d: Dm, ctl: Control): (r: Dm)
    requires Valid(c, d)
    ensures Valid(c, r)
    ensures r == d.(dmactive := true, hasel := r.hasel, hartsel := r.hartsel)
  {
    hide HartsOk;
    d.(dmactive := true, hasel := c.hasel && ctl.hasel, hartsel := Min(ctl.hartsel, |c.hartids| - 1))
  }

  function SetControl(c: Config, d: Dm, ctl: Control): (r: Dm)
    requires Valid(c, d)
    ensures Valid(c, r)
  {
    hide HartsOk;
    var d1 := (if Resets(d, ctl) then Reset(c, d) else d).(dmactive := ctl.dmactive);
    if !d1.own.authenticated || !d1.dmactive then d1
    else
      var d2 := Reselected(c, d1, ctl);
      if ctl.resumereq then Resumed(c, d2, |c.hartids|) else d2
  }

  /** Bit `i` of an autoexec field. */
  predicate Auto(v: word, i: nat) {
    i < 16 && (v >> i as bv6) & 1 == 1
  }

  function BusyRead(d: Dm): Dm {
    if d.busy && d.cmderr == CMDERR_NONE then d.(cmderr := CMDERR_BUSY) else d
  }

  function Then(c: Config, d: Dm, auto: bool): (r: Dm)
    requires Valid(c, d)
    ensures Valid(c, r)
  {
    if !d.busy && auto then Perform(c, d) else d
  }

  /** dmi_write by an unauthenticated debugger reaches nothing else. */
  predicate Allowed(d: Dm, e: Event) {
    d.own.authenticated || e.WriteControl? || e.Authenticate? || e.ReadData? || e.ReadProgbuf? || FromHart(e)
  }

  function OnGoing(c: Config, d: Dm, id: nat): (r: Dm)
    requires Valid(c, d)
    ensures Valid(c, r)
  {
    hide ClearGo, HartsOk;
    if id < FLAGS then d.(flags := d.flags[id := ClearGo(d.flags[id])]) else d
  }

  function OnResuming(c: Config, d: Dm, id: nat): (r: Dm)
    requires Valid(c, d)
    ensures Valid(c, r)
  {
    hide ClearResume, HartsOk;
    if id >= FLAGS then d
    else d.(halted := d.halted[id := false], resumeack := d.resumeack[id := true],
            flags := d.flags[id := ClearResume(d.flags[id])])
  }

  function OnException(c: Config, d: Dm): (r: Dm)
    requires Valid(c, d)
    ensures Valid(c, r)
  {
    hide HartsOk;
    if d.cmderr == CMDERR_NONE then d.(cmderr := CMDERR_EXCEPTION) else d
  }

  function OnReset(c: Config, d: Dm, id: nat): (r: Dm)
    requires Valid(c, d)
    ensures Valid(c, r)
  {
    hide HartsOk;
    if id < FLAGS then d.(halted := d.halted[id := false]) else d
  }

  /** What a hart's stores, its reset and the scan chain do. */
  function HartNext(c: Config, d: Dm, e: Event): (r: Dm)
    requires Valid(c, d)
    ensures Valid(c, r)
  {
    hide OnHalted, OnGoing, OnResuming, OnException, OnReset, RunIdle, HartsOk;
    match e
    case Idle => RunIdle(c, d)
    case Halted(id) => OnHalted(c, d, id)
    case Going(id) => OnGoing(c, d, id)
    case Resuming(id) => OnResuming(c, d, id)
    case Exception => OnException(c, d)
    case ProcReset(id) => OnReset(c, d, id)
    case _ => d
  }

  /** dmi_read and dmi_write of the data registers and of the program buffer. */
  function DataNext(c: Config, d: Dm, e: Event): (r: Dm)
    requires Valid(c, d)
    ensures Valid(c, r)
  {
    hide Put32, Auto, Perform, HartsOk;
    match e
    case ReadData(i) => if i < 2 then Then(c, BusyRead(d), Auto(d.own.autoData, i)) else d
    case ReadProgbuf(i) => if i < c.progbufsize then Then(c, d, Auto(d.own.autoProgbuf, i)) else d
    case WriteData(i, v) =>
      if i >= 2 then d
      else Then(c, BusyRead(if d.busy then d else d.(data := Put32(d.data, i, v))), Auto(d.own.autoData, i))
    case WriteProgbuf(i, v) =>
      if i >= c.progbufsize then d
      else Then(c, if d.busy then d else d.(progbuf := Put32(d.progbuf, i, v)), Auto(d.own.autoProgbuf, i))
    case _ => d
  }

  function OnAbstractCs(c: Config, d: Dm, clear: word): (r: Dm)
    requires Valid(c, d)
    ensures Valid(c, r)
  {
    hide HartsOk, ClearError;
    d.(cmderr := ClearError(d.cmderr, clear))
  }

  function SetMask(mask: seq<bool>, id: nat, on: bool): (r: seq<bool>)
    ensures |r| == |mask|
  {
    if id < |mask| then mask[id := on] else mask
  }

  /** Writes that reach neither the command nor the harts. */
  function NewSettings(c: Config, o: Settings, e: Event): (r: Settings)
    requires |o.available| == 2
    ensures |r.available| == 2 && |r.mask| == |o.mask|
  {
    match e
    case WriteAuto(p, a) => o.(autoProgbuf := p, autoData := a)
    case WriteAvailable(a, b) => o.(available := [a, b])
    case WriteMask(id, on) => o.(mask := SetMask(o.mask, id, on))
    case Authenticate(ok) => if c.authenticate then o.(authenticated := ok) else o
    case _ => o
  }

  function OnSetting(c: Config, d: Dm, e: Event): (r: Dm)
    requires Valid(c, d)
    ensures Valid(c, r)
  {
    hide HartsOk, NewSettings;
    d.(own := NewSettings(c, d.own, e))
  }

  /** dmi_write of the control registers. */
  function ControlNext(c: Config, d: Dm, e: Event): (r: Dm)
    requires Valid(c, d)
    ensures Valid(c, r)
  {
    hide SetControl, Perform, HartsOk, OnAbstractCs, OnSetting;
    match e
    case WriteControl(ctl) => SetControl(c, d, ctl)
    case WriteCommand(v) => Perform(c, d.(command := v))
    case WriteAbstractCs(clear) => OnAbstractCs(c, d, clear)
    case _ => OnSetting(c, d, e)
  }

  function ClearError(cmderr: word, clear: word): word {
    cmderr & !(clear & 7)
  }

  predicate FromHart(e: Event) {
    e.Idle? || e.Halted? || e.Going? || e.Resuming? || e.Exception? || e.ProcReset?
  }

  predicate ToData(e: Event) {
    e.ReadData? || e.ReadProgbuf? || e.WriteData? || e.WriteProgbuf?
  }

  function Next(c: Config, d: Dm, e: Event): (r: Dm)
    requires Valid(c, d)
    ensures Valid(c, r)
  {
    hide HartNext, DataNext, ControlNext;
    if !Allowed(d, e) then d
    else if FromHart(e) then HartNext(c, d, e)
    else if ToData(e) then DataNext(c, d, e)
    else ControlNext(c, d, e)
  }

  /** A hart has stored its number to the halted register. */
  function OnHalted(c: Config, d: Dm, id: nat): (r: Dm)
    requires Valid(c, d)
    ensures Valid(c, r)
  {
    hide HartsOk, HasGo;
    if id >= FLAGS then d
    else d.(halted := d.halted[id := true], completed := d.completed || (Selected(c, d) == id && !Go(d, id)))
  }

  function RunIdle(c: Config, d: Dm): (r: Dm)
    requires Valid(c, d)
    ensures Valid(c, r)
    ensures r == d.(rti := r.rti, busy := r.busy) && (r.busy ==> d.busy) && (d.busy && !r.busy ==> d.completed)
  {
    hide HartsOk;
    var d1 := if d.rti > 0 then d.(rti := d.rti - 1) else d;
    if d1.rti == 0 && d1.busy && d1.completed then d1.(busy := false) else d1
  }

  function Run(c: Config, d: Dm, es: seq<Event>): (r: Dm)
    requires Valid(c, d)
    ensures Valid(c, r)
    decreases es
  {
    if es == [] then d else Run(c, Next(c, d, es[0]), es[1..])
  }

  // ---------------------------------------------------------------- the handshake

  /** While a command runs the debugger neither resets the module nor selects another hart. */
  ghost predicate Quiet(c: Config, d: Dm, es: seq<Event>)
    requires Valid(c, d)
    decreases es
  {
    es == [] || (
      && (d.busy && es[0].WriteControl? ==>
          !Resets(d, es[0].ctl) && Selected(c, SetControl(c, d, es[0].ctl)) == Selected(c, d))
      && Quiet(c, Next(c, d, es[0]), es[1..]))
  }

  /** The events `want` all happen, in this order. */
  predicate InOrder(want: seq<Event>, es: seq<Event>)
    decreases es
  {
    want == [] || (es != [] && InOrder(if es[0] == want[0] then want[1..] else want, es[1..]))
  }

  /** Where a running command stands: 0 the hart has yet to take GO, 1 it has yet to
      report back, 2 the module has yet to notice. */
  function Phase(c: Config, d: Dm): (p: nat)
    requires Valid(c, d)
    ensures p <= 2
  {
    if d.completed then 2 else if Go(d, Selected(c, d)) then 0 else 1
  }

  /** The events that a command in a phase waits for. */
  function Waits(id: nat, phase: nat): (r: seq<Event>)
    requires phase <= 2
    ensures r != []
  {
    if phase == 0 then [Going(id), Halted(id), Idle] else if phase == 1 then [Halted(id), Idle] else [Idle]
  }

  /** Nothing that the phase of a command depends on has changed. */
  ghost predicate SamePhase(c: Config, d: Dm, d': Dm)
    requires Valid(c, d) && Valid(c, d')
  {
    d'.busy == d.busy && d'.completed == d.completed && Selected(c, d') == Selected(c, d)
    && Go(d', Selected(c, d)) == Go(d, Selected(c, d))
  }

  lemma BusyData(c: Config, d: Dm, e: Event)
    requires Valid(c, d) && d.busy
    ensures SamePhase(c, d, DataNext(c, d, e))
  {
    hide Put32, Auto, Perform, HasGo, HartsOk;
  }

  lemma BusyPerform(c: Config, d: Dm)
    requires Valid(c, d) && (d.busy || d.cmderr != CMDERR_NONE)
    ensures Perform(c, d) == d.(cmderr := if d.cmderr != CMDERR_NONE then d.cmderr else CMDERR_BUSY)
  {
    hide Access32, AccessOf;
  }

  lemma SettingSame(c: Config, d: Dm, e: Event)
    requires Valid(c, d)
    ensures SamePhase(c, d, OnSetting(c, d, e)) && OnSetting(c, d, e).cmderr == d.cmderr
    ensures NothingStarted(d, OnSetting(c, d, e))
  {
    hide HasGo, HartsOk, NewSettings;
  }

  lemma AbstractCsSame(c: Config, d: Dm, clear: word)
    requires Valid(c, d)
    ensures SamePhase(c, d, OnAbstractCs(c, d, clear))
  {
    hide HasGo, HartsOk, ClearError;
  }

  lemma BusyControl(c: Config, d: Dm, e: Event)
    requires Valid(c, d) && d.busy
    requires e.WriteControl? ==> !Resets(d, e.ctl) && Selected(c, SetControl(c, d, e.ctl)) == Selected(c, d)
    ensures SamePhase(c, d, ControlNext(c, d, e))
  {
    hide Perform, HasGo, SetControl, HartsOk, OnSetting, OnAbstractCs, Resets;
    match e
    case WriteControl(ctl) => ControlKeepsGo(c, d, ctl);
    case WriteCommand(v) => BusyPerform(c, d.(command := v));
    case WriteAbstractCs(clear) => AbstractCsSame(c, d, clear);
    case _ => SettingSame(c, d, e);
  }

  lemma BusyGoing(c: Config, d: Dm, id: nat)
    requires Valid(c, d) && d.busy
    ensures var d' := OnGoing(c, d, id);
      && d'.busy && d'.completed == d.completed && Selected(c, d') == Selected(c, d)
      && Go(d', Selected(c, d)) == (Go(d, Selected(c, d)) && id != Selected(c, d))
  {
    hide HasGo, ClearGo, HartsOk;
    if id < FLAGS {
      FlagBits(d.flags[id]);
    }
  }

  lemma BusyResuming(c: Config, d: Dm, id: nat)
    requires Valid(c, d)
    ensures SamePhase(c, d, OnResuming(c, d, id)) && OnResuming(c, d, id).cmderr == d.cmderr
    ensures NothingStarted(d, OnResuming(c, d, id))
  {
    hide HasGo, ClearResume, HartsOk;
    if id < FLAGS {
      FlagBits(d.flags[id]);
    }
  }

  lemma BusyHalted(c: Config, d: Dm, id: nat)
    requires Valid(c, d)
    ensures var d' := OnHalted(c, d, id);
      && d'.busy == d.busy && d'.cmderr == d.cmderr && Selected(c, d') == Selected(c, d) && d'.flags == d.flags && d'.code == d.code
      && d'.completed == (d.completed || (id == Selected(c, d) && !Go(d, id)))
  {
    hide HasGo, HartsOk;
    HartInRange(c, d);
  }

  lemma BusyIdle(c: Config, d: Dm)
    requires Valid(c, d)
    ensures var d' := RunIdle(c, d);
      && d'.cmderr == d.cmderr && Selected(c, d') == Selected(c, d) && d'.flags == d.flags && d'.code == d.code
      && d'.completed == d.completed && (d'.busy ==> d.busy) && (d.busy && !d'.busy ==> d.completed)
  {
    hide HasGo, HartsOk, RunIdle;
  }

  lemma AfterException(c: Config, d: Dm)
    requires Valid(c, d)
    ensures SamePhase(c, d, OnException(c, d)) && NothingStarted(d, OnException(c, d))
    ensures d.cmderr != CMDERR_NONE ==> OnException(c, d) == d
  {
    hide HasGo, HartsOk;
  }

  lemma AfterReset(c: Config, d: Dm, id: nat)
    requires Valid(c, d)
    ensures SamePhase(c, d, OnReset(c, d, id)) && NothingStarted(d, OnReset(c, d, id)) && OnReset(c, d, id).cmderr == d.cmderr
  {
    hide HasGo, HartsOk;
  }

  lemma BusyHart(c: Config, d: Dm, e: Event)
    requires Valid(c, d) && d.busy
    ensures var d' := HartNext(c, d, e); var id := Selected(c, d);
      && Selected(c, d') == id
      && (d'.busy ==> Phase(c, d') == Phase(c, d) || (Phase(c, d') == Phase(c, d) + 1 && e == Waits(id, Phase(c, d))[0]))
      && (!d'.busy ==> Phase(c, d) == 2 && e == Idle)
  {
    hide HasGo, HartsOk, OnGoing, OnResuming, OnHalted, RunIdle, OnException, OnReset;
    match e
    case Going(id) => BusyGoing(c, d, id);
    case Resuming(id) => BusyResuming(c, d, id);
    case Halted(id) => BusyHalted(c, d, id);
    case Idle => BusyIdle(c, d);
    case Exception => AfterException(c, d);
    case ProcReset(id) => AfterReset(c, d, id);
    case _ =>
  }

  /** While the module is busy only the awaited event moves a command on, and it stays
      busy until the last one. */
  lemma PhaseStep(c: Config, d: Dm, e: Event)
    requires Valid(c, d) && d.busy && Quiet(c, d, [e])
    ensures var d' := Next(c, d, e); var id := Selected(c, d);
      && Selected(c, d') == id
      && (d'.busy ==> Phase(c, d') == Phase(c, d) || (Phase(c, d') == Phase(c, d) + 1 && e == Waits(id, Phase(c, d))[0]))
      && (!d'.busy ==> Phase(c, d) == 2 && e == Idle)
  {
    hide HartNext, DataNext, ControlNext, HasGo, SetControl;
    if FromHart(e) {
      BusyHart(c, d, e);
    } else if ToData(e) {
      BusyData(c, d, e);
    } else {
      BusyControl(c, d, e);
    }
  }

  lemma {:induction false} ResumedKeepsGo(c: Config, d: Dm, k: nat, id: nat)
    requires Valid(c, d) && k <= |c.hartids|
    ensures Go(Resumed(c, d, k), id) == Go(d, id)
  {
    hide HasGo, SetResume;
    if k > 0 {
      ResumedKeepsGo(c, d, k - 1, id);
      if id < FLAGS {
        FlagBits(Resumed(c, d, k - 1).flags[id]);
      }
    }
  }

  lemma ControlCases(c: Config, d: Dm, ctl: Control)
    requires Valid(c, d) && !Resets(d, ctl)
    ensures var r := SetControl(c, d, ctl);
      || r == d.(dmactive := ctl.dmactive)
      || r == Reselected(c, d, ctl)
      || r == Resumed(c, Reselected(c, d, ctl), |c.hartids|)
  {
    hide HartsOk, Resumed;
  }

  lemma ControlKeepsGo(c: Config, d: Dm, ctl: Control)
    requires Valid(c, d) && !Resets(d, ctl)
    ensures var r := SetControl(c, d, ctl);
      && (forall id :: Go(r, id) == Go(d, id))
      && r.busy == d.busy && r.completed == d.completed && r.cmderr == d.cmderr && r.code == d.code
  {
    hide Resumed, HasGo, HartsOk, SetControl, Reselected, Resets;
    ControlCases(c, d, ctl);
    var d2 := Reselected(c, d, ctl);
    forall id ensures Go(Resumed(c, d2, |c.hartids|), id) == Go(d2, id) {
      ResumedKeepsGo(c, d2, |c.hartids|, id);
    }
  }

  /** busy clears only after the selected hart has consumed GO and then reported that it
      has halted again. */
  lemma {:induction false} BusyClearsAfterHalt(c: Config, d: Dm, es: seq<Event>)
    requires Valid(c, d) && d.busy && Quiet(c, d, es) && !Run(c, d, es).busy
    ensures InOrder(Waits(Selected(c, d), Phase(c, d)), es)
    decreases es
  {
    hide Next, Selected, Go;
    if es != [] {
      var d' := Next(c, d, es[0]);
      assert Quiet(c, d, [es[0]]) by {
        assert [es[0]][1..] == [];
      }
      PhaseStep(c, d, es[0]);
      if d'.busy {
        BusyClearsAfterHalt(c, d', es[1..]);
        FewerWaits(Selected(c, d), Phase(c, d), es);
      }
    }
  }

  lemma FewerWaits(id: nat, phase: nat, es: seq<Event>)
    requires es != [] && phase <= 2
    requires InOrder(Waits(id, phase), es[1..]) || (phase < 2 && es[0] == Waits(id, phase)[0] && InOrder(Waits(id, phase + 1), es[1..]))
    ensures InOrder(Waits(id, phase), es)
  {
    if InOrder(Waits(id, phase), es[1..]) {
      InOrderTail(Waits(id, phase), es);
    } else {
      assert Waits(id, phase)[1..] == Waits(id, phase + 1);
    }
  }

  lemma {:induction false} InOrderTail(want: seq<Event>, es: seq<Event>)
    requires es != [] && InOrder(want, es[1..])
    ensures InOrder(want, es)
    decreases |es|, 0
  {
    if want != [] && es[0] == want[0] {
      InOrderFewer(want, es[1..]);
    }
  }

  /** Less is wanted, so less has to happen. */
  lemma {:induction false} InOrderFewer(want: seq<Event>, es: seq<Event>)
    requires want != [] && InOrder(want, es)
    ensures InOrder(want[1..], es)
    decreases |es|, 1
  {
    if es[0] != want[0] {
      InOrderFewer(want, es[1..]);
    }
    InOrderTail(want[1..], es);
  }

  // ---------------------------------------------------------------- errors

  /** The events that may clear an error: a write to abstractcs and a module reset. */
  ghost predicate KeepsErrors(c: Config, d: Dm, es: seq<Event>)
    requires Valid(c, d)
    decreases es
  {
    es == [] || (
      && !es[0].WriteAbstractCs? && (es[0].WriteControl? ==> !Resets(d, es[0].ctl))
      && KeepsErrors(c, Next(c, d, es[0]), es[1..]))
  }

  /** No command has been started: no program, no GO flag, no busy. */
  ghost predicate NothingStarted(d: Dm, d': Dm) {
    d'.code == d.code && (d'.busy ==> d.busy) && forall id :: Go(d', id) ==> Go(d, id)
  }

  lemma ErrorData(c: Config, d: Dm, e: Event)
    requires Valid(c, d) && d.cmderr != CMDERR_NONE
    ensures DataNext(c, d, e).cmderr == d.cmderr && NothingStarted(d, DataNext(c, d, e))
  {
    hide Put32, Auto, HasGo, HartsOk, Access32, AccessOf;
  }

  lemma ErrorControl(c: Config, d: Dm, e: Event)
    requires Valid(c, d) && d.cmderr != CMDERR_NONE && !e.WriteAbstractCs? && (e.WriteControl? ==> !Resets(d, e.ctl))
    ensures ControlNext(c, d, e).cmderr == d.cmderr && NothingStarted(d, ControlNext(c, d, e))
  {
    hide Perform, HasGo, SetControl, HartsOk, OnSetting, Resets;
    match e
    case WriteControl(ctl) => ControlKeepsGo(c, d, ctl);
    case WriteCommand(v) => BusyPerform(c, d.(command := v));
    case _ => SettingSame(c, d, e);
  }

  lemma ErrorGoing(c: Config, d: Dm, id: nat)
    requires Valid(c, d)
    ensures OnGoing(c, d, id).cmderr == d.cmderr && NothingStarted(d, OnGoing(c, d, id))
  {
    hide HasGo, ClearGo, HartsOk;
    if id < FLAGS {
      FlagBits(d.flags[id]);
    }
  }

  lemma ErrorHart(c: Config, d: Dm, e: Event)
    requires Valid(c, d) && d.cmderr != CMDERR_NONE
    ensures HartNext(c, d, e).cmderr == d.cmderr && NothingStarted(d, HartNext(c, d, e))
  {
    hide HasGo, HartsOk, OnGoing, OnResuming, OnHalted, RunIdle, OnException, OnReset;
    match e
    case Going(id) => ErrorGoing(c, d, id);
    case Resuming(id) => BusyResuming(c, d, id);
    case Halted(id) => BusyHalted(c, d, id);
    case Idle => BusyIdle(c, d);
    case Exception => AfterException(c, d);
    case ProcReset(id) => AfterReset(c, d, id);
    case _ =>
  }

  lemma ErrorStep(c: Config, d: Dm, e: Event)
    requires Valid(c, d) && d.cmderr != CMDERR_NONE && KeepsErrors(c, d, [e])
    ensures Next(c, d, e).cmderr == d.cmderr && NothingStarted(d, Next(c, d, e))
  {
    hide HartNext, DataNext, ControlNext, HasGo;
    if FromHart(e) {
      ErrorHart(c, d, e);
    } else if ToData(e) {
      ErrorData(c, d, e);
    } else {
      ErrorControl(c, d, e);
    }
  }

  /** While cmderr is set no command starts, autoexec included, and nothing but a write to
      abstractcs or a module reset changes it. */
  lemma {:induction false} ErrorsStick(c: Config, d: Dm, es: seq<Event>)
    requires Valid(c, d) && d.cmderr != CMDERR_NONE && KeepsErrors(c, d, es)
    ensures Run(c, d, es).cmderr == d.cmderr && NothingStarted(d, Run(c, d, es))
    decreases es
  {
    hide Next, Go;
    if es != [] {
      assert KeepsErrors(c, d, [es[0]]) by {
        assert [es[0]][1..] == [];
      }
      ErrorStep(c, d, es[0]);
      ErrorsStick(c, Next(c, d, es[0]), es[1..]);
    }
  }

  /** A write to abstractcs clears exactly the error bits it names, and starts nothing. */
  lemma AbstractCsClears(c: Config, d: Dm, clear: word)
    requires Valid(c, d) && d.own.authenticated && d.cmderr < 8
    ensures var r := Next(c, d, WriteAbstractCs(clear));
      r.cmderr & clear == 0 && r.cmderr | (d.cmderr & clear) == d.cmderr && NothingStarted(d, r)
  {
  }
}
