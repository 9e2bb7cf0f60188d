/** debug_module_t: the device object whose fields and byte buffers the debugger and the
    harts change. */
module DebugDevice {
  import opened DebugHart
  import opened DebugProgram
  import opened DebugModule

  lemma {:induction false} AssembleSnoc(code: seq<Insn>, i: Insn)
    ensures Assemble(code + [i]) == Assemble(code) + [Encode(i)]
    decreases code
  {
    hide Encode;
    if code == [] {
      assert code + [i] == [i] && [i][1..] == [];
    } else {
      assert (code + [i])[1..] == code[1..] + [i];
      AssembleSnoc(code[1..], i);
    }
  }

  class Device {
    const config: Config
    const debugAbstract: array<bv8>
    const dmdata: array<bv8>
    const programBuffer: array<bv8>
    const romFlags: array<bv8>
    var busy: bool
    var cmderr: word
    var command: word
    var completed: bool
    var rti: nat
    var dmactive: bool
    var hasel: bool
    var hartsel: nat
    var own: Settings
    var halted: seq<bool>
    var resumeack: seq<bool>
    var customBase: word

    ghost predicate Ok()
      reads this, debugAbstract, dmdata, programBuffer, romFlags
    {
      && Valid(config, State())
      && debugAbstract != dmdata && debugAbstract != programBuffer && debugAbstract != romFlags
      && dmdata != programBuffer && dmdata != romFlags && programBuffer != romFlags
    }

    ghost function State(): (d: Dm)
      reads this, debugAbstract, dmdata, programBuffer, romFlags
    {
      Dm(busy, cmderr, command, completed, rti, dmactive, hasel, hartsel, own,
         halted, resumeack, romFlags[..], debugAbstract[..], dmdata[..], programBuffer[..], customBase)
    }

    constructor (config: Config)
      requires HartsOk(config) && config.hartids != [] && config.progbufsize <= 16
      ensures Ok() && fresh(debugAbstract) && fresh(dmdata) && fresh(programBuffer) && fresh(romFlags)
      ensures this.config == config && !busy && cmderr == CMDERR_NONE && !dmactive
    {
      this.config := config;
      debugAbstract := new bv8[4 * ABSTRACT_WORDS](_ => 0);
      dmdata := new bv8[8](_ => 0);
      programBuffer := new bv8[4 * config.progbufsize + 4](_ => 0);
      romFlags := new bv8[FLAGS](_ => 0);
      busy, cmderr, command, completed, rti := false, CMDERR_NONE, 0, false, 0;
      dmactive, hasel, hartsel := false, false, 0;
      own := Settings(!config.authenticate, 0, 0, [true, true], seq(FLAGS, i => false));
      halted, resumeack := seq(FLAGS, i => false), seq(FLAGS, i => false);
      customBase := 0;
    }

    /** write32. */
    method Write32(mem: array<bv8>, index: nat, value: word)
      requires 4 * index + 4 <= mem.Length
      modifies mem
      ensures mem[..] == Put32(old(mem[..]), index, value)
    {
      var base := 4 * index;
      mem[base] := (value & 0xff) as bv8;
      mem[base + 1] := ((value >> 8) & 0xff) as bv8;
      mem[base + 2] := ((value >> 16) & 0xff) as bv8;
      mem[base + 3] := ((value >> 24) & 0xff) as bv8;
    }

    /** One more instruction of the program. */
    method Emit(i: nat, insn: Insn, ghost was: seq<bv8>, ghost code: seq<Insn>) returns (j: nat)
      requires debugAbstract.Length == 4 * ABSTRACT_WORDS == |was| && i == |code| < ABSTRACT_WORDS
      requires debugAbstract[..] == PutAll(was, 0, Assemble(code))
      modifies debugAbstract
      ensures j == i + 1 && debugAbstract[..] == PutAll(was, 0, Assemble(code + [insn]))
    {
      hide PutAll, Assemble, Put32, Encode;
      Write32(debugAbstract, i, Encode(insn));
      AssembleSnoc(code, insn);
      PutAllSnoc(was, 0, Assemble(code), Encode(insn));
      j := i + 1;
    }

    /** The switch of perform_abstract_command over the register number: the instructions
        of a transfer, or the reason why there is none. */
    method EmitTransfer(a: Access, ghost was: seq<bv8>) returns (i: nat, err: word, custom: bool, ghost code: seq<Insn>)
      requires debugAbstract.Length == 4 * ABSTRACT_WORDS && was == debugAbstract[..]
      modifies debugAbstract
      ensures i == |code| < ABSTRACT_WORDS && debugAbstract[..] == PutAll(was, 0, Assemble(code))
      ensures code == Emitted(config.support, a)
      ensures Transfer(config.support, a) ==
        if err != CMDERR_NONE then Reject(err) else if custom then Custom else Code(code)
    {
      hide PutAll, Assemble, FpuSave, FpuRestore, CsrAccess, GprAccess, FprAccess, CsrNo, GprNo, FprNo, CustomNo, Wide, FpuReg;
      EmittedShort(config.support, a);
      RegisterKinds(a.regno);
      BlockLengths(a);
      i, err, custom, code := 0, CMDERR_NONE, false, [];
      NothingPut(was);
      var fpu := FpuReg(a.regno);
      if fpu {
        i, code := EmitSave(i, was, code);
      }
      if CsrNo(a.regno) && config.support.csrs {
        i, err, code := EmitCsr(a, i, was, code);
        if err != CMDERR_NONE {
          return;
        }
      } else if GprNo(a.regno) {
        if !Wide(a.size) {
          err := CMDERR_NOTSUP;
          return;
        }
        i, code := EmitGpr(a, i, was, code);
      } else if FprNo(a.regno) && config.support.fprs {
        if !Wide(a.size) {
          err := CMDERR_NOTSUP;
          return;
        }
        i, code := EmitFpr(a, i, was, code);
      } else if CustomNo(a.regno) {
        custom := true;
        return;
      } else {
        err := CMDERR_NOTSUP;
        return;
      }
      if fpu {
        i, code := EmitRestore(i, was, code);
      }
    }

    /** The accesses to control and status registers. */
    method EmitCsr(a: Access, i0: nat, ghost was: seq<bv8>, ghost code0: seq<Insn>) returns (i: nat, err: word, ghost code: seq<Insn>)
      requires debugAbstract.Length == 4 * ABSTRACT_WORDS == |was| && i0 == |code0| && i0 + 4 <= ABSTRACT_WORDS
      requires debugAbstract[..] == PutAll(was, 0, Assemble(code0))
      modifies debugAbstract
      ensures i == |code| <= i0 + 4 && debugAbstract[..] == PutAll(was, 0, Assemble(code))
      ensures err == if !Wide(a.size) then CMDERR_NOTSUP else CMDERR_NONE
      ensures var save := if FpuReg(a.regno) then [] else [Csrw(S0, DSCRATCH0)];
        var restore := if FpuReg(a.regno) then [] else [Csrr(S0, DSCRATCH0)];
        code == if err == CMDERR_NONE then code0 + save + CsrAccess(a) + restore
          else code0 + save + (if a.write then [] else [Csrr(S0, a.regno)])
    {
      hide PutAll, Assemble;
      i, err, code := i0, CMDERR_NONE, code0;
      var fpu := FpuReg(a.regno);
      if !fpu {
        i := Emit(i, Csrw(S0, DSCRATCH0), was, code);
        code := code + [Csrw(S0, DSCRATCH0)];
      }
      if a.write {
        if !Wide(a.size) {
          err := CMDERR_NOTSUP;
          return;
        }
        var load := if a.size == 2 then Lw(S0) else Ld(S0);
        i := Emit(i, load, was, code);
        code := code + [load];
        i := Emit(i, Csrw(S0, a.regno), was, code);
        code := code + [Csrw(S0, a.regno)];
      } else {
        i := Emit(i, Csrr(S0, a.regno), was, code);
        code := code + [Csrr(S0, a.regno)];
        if !Wide(a.size) {
          err := CMDERR_NOTSUP;
          return;
        }
        var store := if a.size == 2 then Sw(S0) else Sd(S0);
        i := Emit(i, store, was, code);
        code := code + [store];
      }
      if !fpu {
        i := Emit(i, Csrr(S0, DSCRATCH0), was, code);
        code := code + [Csrr(S0, DSCRATCH0)];
      }
    }

    /** The accesses to integer registers. */
    method EmitGpr(a: Access, i0: nat, ghost was: seq<bv8>, ghost code0: seq<Insn>) returns (i: nat, ghost code: seq<Insn>)
      requires debugAbstract.Length == 4 * ABSTRACT_WORDS == |was| && i0 == |code0| && i0 + 2 <= ABSTRACT_WORDS
      requires debugAbstract[..] == PutAll(was, 0, Assemble(code0)) && GprNo(a.regno)
      modifies debugAbstract
      ensures i == |code| && code == code0 + GprAccess(a) && debugAbstract[..] == PutAll(was, 0, Assemble(code))
    {
      hide PutAll, Assemble;
      i, code := i0, code0;
      var n := a.regno - 0x1000;
      var move := if a.size == 2 then (if a.write then Lw(n) else Sw(n)) else if a.write then Ld(n) else Sd(n);
      i := Emit(i, move, was, code);
      code := code + [move];
      if a.regno == 0x1000 + S0 && a.write {
        i := Emit(i, Csrw(S0, DSCRATCH0), was, code);
        code := code + [Csrw(S0, DSCRATCH0)];
      }
    }

    /** The accesses to floating-point registers. */
    method EmitFpr(a: Access, i0: nat, ghost was: seq<bv8>, ghost code0: seq<Insn>) returns (i: nat, ghost code: seq<Insn>)
      requires debugAbstract.Length == 4 * ABSTRACT_WORDS == |was| && i0 == |code0| && i0 + 2 <= ABSTRACT_WORDS
      requires debugAbstract[..] == PutAll(was, 0, Assemble(code0)) && FprNo(a.regno)
      modifies debugAbstract
      ensures i == |code| && code == code0 + FprAccess(a) && debugAbstract[..] == PutAll(was, 0, Assemble(code))
    {
      hide PutAll, Assemble;
      i, code := i0, code0;
      var n := a.regno - 0x1020;
      var move := if a.size == 2 then (if a.write then Flw(n) else Fsw(n)) else if a.write then Fld(n) else Fsd(n);
      i := Emit(i, move, was, code);
      code := code + [move];
    }

    /** Saving s0 and mstatus and turning the floating-point unit on. */
    method EmitSave(i0: nat, ghost was: seq<bv8>, ghost code0: seq<Insn>) returns (i: nat, ghost code: seq<Insn>)
      requires debugAbstract.Length == 4 * ABSTRACT_WORDS == |was| && i0 == |code0| && i0 + 5 <= ABSTRACT_WORDS
      requires debugAbstract[..] == PutAll(was, 0, Assemble(code0))
      modifies debugAbstract
      ensures i == |code| && code == code0 + FpuSave() && debugAbstract[..] == PutAll(was, 0, Assemble(code))
    {
      hide PutAll, Assemble;
      i, code := i0, code0;
      i := Emit(i, Csrw(S0, DSCRATCH0), was, code);
      code := code + [Csrw(S0, DSCRATCH0)];
      i := Emit(i, Csrr(S0, MSTATUS), was, code);
      code := code + [Csrr(S0, MSTATUS)];
      i := Emit(i, Csrw(S0, DSCRATCH1), was, code);
      code := code + [Csrw(S0, DSCRATCH1)];
      i := Emit(i, Lui(S0, 6), was, code);
      code := code + [Lui(S0, 6)];
      i := Emit(i, Csrrs(ZERO, S0, MSTATUS), was, code);
      code := code + [Csrrs(ZERO, S0, MSTATUS)];
    }

    method EmitRestore(i0: nat, ghost was: seq<bv8>, ghost code0: seq<Insn>) returns (i: nat, ghost code: seq<Insn>)
      requires debugAbstract.Length == 4 * ABSTRACT_WORDS == |was| && i0 == |code0| && i0 + 3 <= ABSTRACT_WORDS
      requires debugAbstract[..] == PutAll(was, 0, Assemble(code0))
      modifies debugAbstract
      ensures i == |code| && code == code0 + FpuRestore() && debugAbstract[..] == PutAll(was, 0, Assemble(code))
    {
      hide PutAll, Assemble;
      i, code := i0, code0;
      i := Emit(i, Csrr(S0, DSCRATCH1), was, code);
      code := code + [Csrr(S0, DSCRATCH1)];
      i := Emit(i, Csrw(S0, MSTATUS), was, code);
      code := code + [Csrw(S0, MSTATUS)];
      i := Emit(i, Csrr(S0, DSCRATCH0), was, code);
      code := code + [Csrr(S0, DSCRATCH0)];
    }

    /** perform_abstract_command. */
    method PerformCommand()
      requires Ok()
      modifies this, debugAbstract, dmdata, romFlags
      ensures Ok() && State() == Perform(config, old(State()))
    {
      hide AccessOf, HartsOk, RegisterAccess, Access32;
      if cmderr != CMDERR_NONE {
        return;
      }
      if busy {
        cmderr := CMDERR_BUSY;
        return;
      }
      if hartsel < |own.available| && !own.available[hartsel] {
        cmderr := CMDERR_HALTRESUME;
        return;
      }
      if !RegisterAccess(command) {
        cmderr := CMDERR_NOTSUP;
        return;
      }
      AccessRegister(AccessOf(command));
    }

    /** A register access command. */
    method AccessRegister(a: Access)
      requires Ok()
      modifies this, debugAbstract, dmdata, romFlags
      ensures Ok() && State() == Access32(config, old(State()), a)
    {
      hide PutAll, Assemble, Put32, Emitted, HartsOk, Program, CustomAccess, SetGo, Access32, Valid, ToProgbuf;
      ghost var d := State();
      ValidSizes(config, d);
      HaltedFirst(config, d, a);
      if !halted[config.hartids[hartsel]] {
        cmderr := CMDERR_HALTRESUME;
        return;
      }
      RunRegister(a);
    }

    method RunRegister(a: Access)
      requires Ok() && Selected(config, State()) < FLAGS && halted[Selected(config, State())]
      modifies this, debugAbstract, dmdata, romFlags
      ensures Ok() && State() == Access32(config, old(State()), a)
    {
      hide PutAll, Assemble, Put32, Emitted, HartsOk, Program, CustomAccess, SetGo, Access32, Valid, ToProgbuf;
      ghost var d := State();
      ValidSizes(config, d);
      var err, custom := EmitProgram(a);
      ValidCode(config, d, debugAbstract[..]);
      assert State() == d.(code := debugAbstract[..]);
      ghost var emitted := State();
      Settle(a, err, custom);
      Settled(config, d, a, emitted, err, custom, State());
    }

    /** What follows the emission: an error, a custom register, or the hart is told to go. */
    method Settle(a: Access, err: word, custom: bool)
      requires Ok()
      modifies this, dmdata, romFlags
      ensures var (d, id) := (old(State()), Selected(config, old(State())));
        State() ==
          if err != CMDERR_NONE then d.(cmderr := err)
          else if custom then CustomAccess(d, a)
          else d.(flags := d.flags[id := SetGo(d.flags[id])], rti := config.abstractRti, completed := false, busy := true)
      ensures Ok()
    {
      hide CustomAccess, SetGo, HartsOk;
      if err != CMDERR_NONE {
        cmderr := err;
      } else if custom {
        CustomTransfer(a);
      } else {
        Go();
      }
    }

    /** The instructions of a command, as far as they are written before it is rejected. */
    method EmitProgram(a: Access) returns (err: word, custom: bool)
      requires debugAbstract.Length == 4 * ABSTRACT_WORDS
      modifies debugAbstract
      ensures match Program(config.support, a)
        case Reject(e) => err == e != CMDERR_NONE && |Emitted(config.support, a)| <= ABSTRACT_WORDS && debugAbstract[..] == PutAll(old(debugAbstract[..]), 0, Assemble(Emitted(config.support, a)))
        case Custom => err == CMDERR_NONE && custom && debugAbstract[..] == old(debugAbstract[..])
        case Code(code) => err == CMDERR_NONE && !custom && |code| <= ABSTRACT_WORDS && debugAbstract[..] == PutAll(old(debugAbstract[..]), 0, Assemble(code))
    {
      hide PutAll, Assemble, Transfer, Emitted, Program, ToProgbuf;
      ghost var was := debugAbstract[..];
      ghost var code: seq<Insn> := [];
      NothingPut(was);
      var i := 0;
      err, custom := CMDERR_NONE, false;
      if a.transfer {
        i, err, custom, code := EmitTransfer(a, was);
        if err != CMDERR_NONE {
          ProgramRejects(config.support, a);
          return;
        }
        if custom {
          ProgramRejects(config.support, a);
          NothingEmitted(config.support, a);
          return;
        }
      }
      var last := if a.postexec then Jal(ToProgbuf(i)) else Ebreak;
      i := Emit(i, last, was, code);
      ProgramIs(config.support, a, code);
    }

    /** The hart is told to go. */
    method Go()
      requires Ok()
      modifies this, romFlags
      ensures Ok() && var id := Selected(config, old(State()));
        State() == old(State()).(flags := old(romFlags[..])[id := SetGo(old(romFlags[..])[id])],
                                 rti := config.abstractRti, completed := false, busy := true)
    {
      hide HartsOk, SetGo;
      HartInRange(config, State());
      var id := config.hartids[hartsel];
      romFlags[id] := SetGo(romFlags[id]);
      rti := config.abstractRti;
      completed := false;
      busy := true;
    }

    /** The odd custom registers. */
    method CustomTransfer(a: Access)
      requires dmdata.Length == 8
      modifies this`customBase, dmdata
      ensures dmdata[..] == CustomAccess(old(State()), a).data && customBase == CustomAccess(old(State()), a).customBase
      ensures a.write ==> customBase == BaseFor(Get32(old(dmdata[..]), 0), a.regno) && dmdata[..] == old(dmdata[..])
      ensures !a.write ==>
        && customBase == old(customBase)
        && dmdata[..] == Put32(Put32(old(dmdata[..]), 0, CustomValue(customBase, a.regno)), 1, 0)
    {
      hide Put32, Get32, BaseFor, CustomValue;
      if a.write {
        customBase := BaseFor(Get32(dmdata[..], 0), a.regno);
      } else {
        Write32(dmdata, 0, CustomValue(customBase, a.regno));
        Write32(dmdata, 1, 0);
      }
    }

    // ------------------------------------------------------------ stores by the harts

    method StoreHalted(id: nat)
      requires Ok() && id < FLAGS
      modifies this`halted, this`completed
      ensures Ok() && State() == OnHalted(config, old(State()), id)
    {
      hide HartsOk, HasGo;
      HartInRange(config, State());
      if !halted[id] {
        halted := halted[id := true];
      } else {
        assert halted == halted[id := true];
      }
      if config.hartids[hartsel] == id && !HasGo(romFlags[id]) {
        completed := true;
      }
    }

    method StoreGoing(id: nat)
      requires Ok() && id < FLAGS
      modifies romFlags
      ensures Ok() && State() == OnGoing(config, old(State()), id)
    {
      hide HartsOk, ClearGo;
      romFlags[id] := ClearGo(romFlags[id]);
    }

    method StoreResuming(id: nat)
      requires Ok() && id < FLAGS
      modifies this`halted, this`resumeack, romFlags
      ensures Ok() && State() == OnResuming(config, old(State()), id)
    {
      hide HartsOk, ClearResume;
      halted := halted[id := false];
      resumeack := resumeack[id := true];
      romFlags[id] := ClearResume(romFlags[id]);
    }

    method StoreException()
      requires Ok()
      modifies this`cmderr
      ensures Ok() && State() == OnException(config, old(State()))
    {
      hide HartsOk;
      if cmderr == CMDERR_NONE {
        cmderr := CMDERR_EXCEPTION;
      }
    }

    /** proc_reset. */
    method ResetHart(id: nat)
      requires Ok() && id < FLAGS
      modifies this`halted
      ensures Ok() && State() == OnReset(config, old(State()), id)
    {
      hide HartsOk;
      halted := halted[id := false];
    }

    /** run_test_idle. */
    method RunTestIdle()
      requires Ok()
      modifies this`rti, this`busy
      ensures Ok() && State() == RunIdle(config, old(State()))
    {
      hide HartsOk;
      if rti > 0 {
        rti := rti - 1;
      }
      if rti == 0 && busy && completed {
        busy := false;
      }
    }

    // ------------------------------------------------------------ dmi_read and dmi_write

    method AutoExecute(auto: bool)
      requires Ok()
      modifies this, debugAbstract, dmdata, romFlags
      ensures Ok() && State() == Then(config, old(State()), auto)
    {
      hide Perform;
      if !busy && auto {
        PerformCommand();
      }
    }

    method NoteBusy()
      requires Ok()
      modifies this`cmderr
      ensures Ok() && State() == BusyRead(old(State()))
    {
      hide HartsOk;
      if busy && cmderr == CMDERR_NONE {
        cmderr := CMDERR_BUSY;
      }
    }

    method ReadDataRegister(i: nat)
      requires Ok() && i < 2
      modifies this, debugAbstract, dmdata, romFlags
      ensures Ok() && State() == DataNext(config, old(State()), ReadData(i))
    {
      hide HartsOk, Then, BusyRead, Auto, Valid;
      NoteBusy();
      AutoExecute(Auto(own.autoData, i));
    }

    method WriteDataRegister(i: nat, v: word)
      requires Ok() && i < 2
      modifies this, debugAbstract, dmdata, romFlags
      ensures Ok() && State() == DataNext(config, old(State()), WriteData(i, v))
    {
      hide HartsOk, Then, BusyRead, Auto, Put32;
      if !busy {
        Write32(dmdata, i, v);
      }
      NoteBusy();
      AutoExecute(Auto(own.autoData, i));
    }

    method ReadProgramBuffer(i: nat)
      requires Ok() && i < config.progbufsize
      modifies this, debugAbstract, dmdata, romFlags
      ensures Ok() && State() == DataNext(config, old(State()), ReadProgbuf(i))
    {
      hide HartsOk, Then, Auto;
      AutoExecute(Auto(own.autoProgbuf, i));
    }

    method WriteProgramBuffer(i: nat, v: word)
      requires Ok() && i < config.progbufsize
      modifies this, debugAbstract, dmdata, romFlags, programBuffer
      ensures Ok() && State() == DataNext(config, old(State()), WriteProgbuf(i, v))
    {
      hide HartsOk, Then, Auto, Put32;
      if !busy {
        Write32(programBuffer, i, v);
      }
      AutoExecute(Auto(own.autoProgbuf, i));
    }

    method WriteCommandRegister(v: word)
      requires Ok()
      modifies this, debugAbstract, dmdata, romFlags
      ensures Ok() && State() == ControlNext(config, old(State()), WriteCommand(v))
    {
      hide HartsOk, Perform;
      command := v;
      PerformCommand();
    }

    method WriteAbstractCsRegister(clear: word)
      requires Ok()
      modifies this`cmderr
      ensures Ok() && State() == ControlNext(config, old(State()), WriteAbstractCs(clear))
    {
      hide HartsOk, ClearError;
      cmderr := ClearError(cmderr, clear);
    }

    /** The registers that only set things up. */
    method WriteSetting(e: Event)
      requires Ok()
      modifies this`own
      ensures Ok() && State() == OnSetting(config, old(State()), e)
    {
      hide HartsOk, NewSettings;
      own := NewSettings(config, own, e);
    }

    /** reset. */
    method ResetModule()
      requires Ok()
      modifies this
      ensures Ok() && State() == Reset(config, old(State()))
    {
      hide HartsOk;
      dmactive, hasel, hartsel := false, false, 0;
      own := own.(authenticated := !config.authenticate, autoProgbuf := 0, autoData := 0);
      busy := false;
      cmderr := CMDERR_NONE;
    }

    /** dmcontrol. */
    method WriteDmcontrol(ctl: Control)
      requires Ok()
      modifies this, romFlags
      ensures Ok() && State() == SetControl(config, old(State()), ctl)
    {
      hide HartsOk, Resumed;
      if !dmactive && ctl.dmactive {
        ResetModule();
      }
      dmactive := ctl.dmactive;
      if !own.authenticated || !dmactive {
        return;
      }
      hasel := config.hasel && ctl.hasel;
      hartsel := Min(ctl.hartsel, |config.hartids| - 1);
      if ctl.resumereq {
        ResumeHarts();
      }
    }

    /** The loop over the harts for a resume request. */
    method ResumeHarts()
      requires Ok()
      modifies this`resumeack, romFlags
      ensures Ok() && State() == Resumed(config, old(State()), |config.hartids|)
    {
      hide SetResume, HartsOk, Resumed;
      ghost var d := State();
      ResumedNone(config, d);
      for k := 0 to |config.hartids|
        invariant Ok() && State() == Resumed(config, d, k)
      {
        HartsInRange(config, k);
        ResumedStep(config, d, k);
        var id := config.hartids[k];
        if (id == config.hartids[hartsel] || (hasel && id < |own.mask| && own.mask[id]))
          && (id < |own.available| ==> own.available[id])
        {
          romFlags[id] := SetResume(romFlags[id]);
          resumeack := resumeack[id := false];
        }
      }
    }
  }

  lemma ValidSizes(c: Config, d: Dm)
    requires Valid(c, d)
    ensures |d.code| == 4 * ABSTRACT_WORDS && |d.data| == 8 && d.hartsel < |c.hartids| && |d.halted| == FLAGS
  {
  }

  lemma ValidCode(c: Config, d: Dm, code: seq<bv8>)
    requires Valid(c, d) && |code| == |d.code|
    ensures Valid(c, d.(code := code))
  {
  }

  lemma ResumedNone(c: Config, d: Dm)
    requires Valid(c, d)
    ensures Resumed(c, d, 0) == d
  {
  }

  /** One hart of a resume request. */
  lemma ResumedStep(c: Config, d: Dm, k: nat)
    requires Valid(c, d) && k < |c.hartids|
    ensures var (r, id) := (Resumed(c, d, k), c.hartids[k]);
      && id < FLAGS && Valid(c, r) && r == d.(flags := r.flags, resumeack := r.resumeack)
      && Resumed(c, d, k + 1) ==
        if HartSelected(c, d, id) && Available(d, id)
        then r.(flags := r.flags[id := SetResume(r.flags[id])], resumeack := r.resumeack[id := false])
        else r
  {
    hide SetResume, HartSelected, Available;
    HartsInRange(c, k);
  }

  /** A register access, case by case. */
  lemma AccessIs(c: Config, d: Dm, a: Access)
    requires Valid(c, d)
    ensures Selected(c, d) < FLAGS && |Emitted(c.support, a)| <= ABSTRACT_WORDS
    ensures Program(c.support, a).Code? ==> |Program(c.support, a).code| <= ABSTRACT_WORDS
    ensures Access32(c, d, a) ==
      if !d.halted[Selected(c, d)] then d.(cmderr := CMDERR_HALTRESUME)
      else match Program(c.support, a)
        case Reject(e) => d.(cmderr := e, code := PutAll(d.code, 0, Assemble(Emitted(c.support, a))))
        case Custom => CustomAccess(d, a)
        case Code(code) => d.(code := PutAll(d.code, 0, Assemble(code)),
            flags := d.flags[Selected(c, d) := SetGo(d.flags[Selected(c, d)])], rti := c.abstractRti, completed := false, busy := true)
  {
    hide PutAll, Assemble, Program, Emitted, CustomAccess, HartsOk, SetGo;
    HartInRange(c, d);
    EmittedShort(c.support, a);
    ProgramFits(c.support, a);
  }

  lemma HaltedFirst(c: Config, d: Dm, a: Access)
    requires Valid(c, d)
    ensures Selected(c, d) < FLAGS
    ensures !d.halted[Selected(c, d)] ==> Access32(c, d, a) == d.(cmderr := CMDERR_HALTRESUME)
  {
    hide PutAll, Assemble, Program, Emitted, CustomAccess, HartsOk, SetGo;
    HartInRange(c, d);
  }

  /** What the emission and its conclusion come to. */
  lemma Settled(c: Config, d: Dm, a: Access, e: Dm, err: word, custom: bool, r: Dm)
    requires Valid(c, d) && Valid(c, e) && e == d.(code := e.code) && Selected(c, d) < FLAGS && d.halted[Selected(c, d)]
    requires match Program(c.support, a)
      case Reject(n) => |Emitted(c.support, a)| <= ABSTRACT_WORDS && err == n != CMDERR_NONE && e.code == PutAll(d.code, 0, Assemble(Emitted(c.support, a)))
      case Custom => err == CMDERR_NONE && custom && e.code == d.code
      case Code(code) => |code| <= ABSTRACT_WORDS && err == CMDERR_NONE && !custom && e.code == PutAll(d.code, 0, Assemble(code))
    requires var id := Selected(c, d);
      r ==
        if err != CMDERR_NONE then e.(cmderr := err)
        else if custom then CustomAccess(e, a)
        else e.(flags := e.flags[id := SetGo(e.flags[id])], rti := c.abstractRti, completed := false, busy := true)
    ensures r == Access32(c, d, a)
  {
    hide PutAll, Assemble, Program, Emitted, CustomAccess, HartsOk, SetGo, Access32, Valid;
    AccessIs(c, d, a);
    assert e.code == d.code ==> e == d;
  }

  lemma HartsInRange(c: Config, k: nat)
    requires HartsOk(c) && k < |c.hartids|
    ensures c.hartids[k] < FLAGS
  {
  }

  lemma ProgramIs(s: Support, a: Access, code: seq<Insn>)
    requires if a.transfer then Transfer(s, a) == Code(code) else code == []
    ensures |code| < ABSTRACT_WORDS
    ensures Program(s, a) == Code(code + [if a.postexec then Jal(ToProgbuf(|code|)) else Ebreak])
  {
    hide Transfer;
    CodeShort(s, a);
  }

  lemma ProgramRejects(s: Support, a: Access)
    requires a.transfer && !Transfer(s, a).Code?
    ensures Program(s, a) == Transfer(s, a)
  {
    hide Transfer;
  }

  lemma RegisterKinds(regno: word)
    ensures GprNo(regno) ==> !FpuReg(regno) && !CsrNo(regno)
    ensures FprNo(regno) ==> FpuReg(regno) && !CsrNo(regno) && !GprNo(regno)
    ensures CustomNo(regno) ==> !FpuReg(regno)
  {
  }

  lemma BlockLengths(a: Access)
    ensures |FpuSave()| == 5 && |FpuRestore()| == 3 && |CsrAccess(a)| == 2 && |GprAccess(a)| <= 2 && |FprAccess(a)| == 1
  {
  }

  lemma NothingPut(mem: seq<bv8>)
    ensures PutAll(mem, 0, Assemble([])) == mem
  {
  }

  lemma NothingEmitted(s: Support, a: Access)
    requires Transfer(s, a).Custom?
    ensures Emitted(s, a) == []
  {
  }
}
