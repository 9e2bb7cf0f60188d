/** The programs that an abstract command turns into, and what a hart does with them. */
module DebugProgram {
  import opened DebugHart

  const CMDERR_NONE: word := 0
  const CMDERR_BUSY: word := 1
  const CMDERR_NOTSUP: word := 2
  const CMDERR_EXCEPTION: word := 3
  const CMDERR_HALTRESUME: word := 4

  /** debug_abstract_size. */
  const ABSTRACT_WORDS: nat := 12

  datatype Support = Support(csrs: bool, fprs: bool)

  /** The fields of a register access command. */
  datatype Access = Access(size: word, write: bool, regno: word, transfer: bool, postexec: bool)

  predicate RegisterAccess(command: word) {
    command >> 24 == 0
  }

  function AccessOf(command: word): Access {
    Access((command >> 20) & 7, command & 0x1_0000 != 0, command & 0xffff, command & 0x2_0000 != 0, command & 0x4_0000 != 0)
  }

  predicate FpuReg(regno: word) {
    0x1020 <= regno <= 0x103f || FpuCsr(regno)
  }

  /** What a command comes to: an error, an access to a custom register, or a program. */
  datatype Result = Reject(err: word) | Custom | Code(code: seq<Insn>)

  /** s0 and mstatus saved, and the floating-point unit on. */
  function FpuSave(): seq<Insn> {
    [Csrw(S0, DSCRATCH0), Csrr(S0, MSTATUS), Csrw(S0, DSCRATCH1), Lui(S0, 6), Csrrs(ZERO, S0, MSTATUS)]
  }

  function FpuRestore(): seq<Insn> {
    [Csrr(S0, DSCRATCH1), Csrw(S0, MSTATUS), Csrr(S0, DSCRATCH0)]
  }

  /** The accesses themselves, 32 or 64 bits wide. */
  function CsrAccess(a: Access): seq<Insn> {
    if a.write then [if a.size == 2 then Lw(S0) else Ld(S0), Csrw(S0, a.regno)]
    else [Csrr(S0, a.regno), if a.size == 2 then Sw(S0) else Sd(S0)]
  }

  function GprAccess(a: Access): seq<Insn> {
    var n := a.regno - 0x1000;
    [if a.size == 2 then (if a.write then Lw(n) else Sw(n)) else if a.write then Ld(n) else Sd(n)]
    + if n == S0 && a.write then [Csrw(S0, DSCRATCH0)] else []
  }

  function FprAccess(a: Access): seq<Insn> {
    var n := a.regno - 0x1020;
    [if a.size == 2 then (if a.write then Flw(n) else Fsw(n)) else if a.write then Fld(n) else Fsd(n)]
  }

  // The ranges of register numbers.
  predicate CsrNo(regno: word) { regno < 0x1000 }
  predicate GprNo(regno: word) { 0x1000 <= regno < 0x1020 }
  predicate FprNo(regno: word) { 0x1020 <= regno < 0x1040 }
  predicate CustomNo(regno: word) { regno >= 0xc000 && regno & 1 == 1 }

  predicate Wide(size: word) {
    size == 2 || size == 3
  }

  function Transfer(s: Support, a: Access): Result {
    if CsrNo(a.regno) && s.csrs then
      if !Wide(a.size) then Reject(CMDERR_NOTSUP)
      else if FpuReg(a.regno) then Code(FpuSave() + CsrAccess(a) + FpuRestore())
      else Code([Csrw(S0, DSCRATCH0)] + CsrAccess(a) + [Csrr(S0, DSCRATCH0)])
    else if GprNo(a.regno) then
      if !Wide(a.size) then Reject(CMDERR_NOTSUP) else Code(GprAccess(a))
    else if FprNo(a.regno) && s.fprs then
      if !Wide(a.size) then Reject(CMDERR_NOTSUP)
      else Code(FpuSave() + FprAccess(a) + FpuRestore())
    else if CustomNo(a.regno) then Custom
    else Reject(CMDERR_NOTSUP)
  }

  /** From word `n` of the program to the program buffer, which follows it. */
  function ToProgbuf(n: nat): word
    requires n <= ABSTRACT_WORDS
  {
    (4 * ABSTRACT_WORDS - 4 * n) as word
  }

  /** The whole program: the transfer and the way out. */
  function Program(s: Support, a: Access): Result {
    var t := if a.transfer then Transfer(s, a) else Code([]);
    if !t.Code? then t
    else
      CodeShort(s, a);
      Code(t.code + [if a.postexec then Jal(ToProgbuf(|t.code|)) else Ebreak])
  }

  lemma CodeShort(s: Support, a: Access)
    ensures Transfer(s, a).Code? ==> |Transfer(s, a).code| < ABSTRACT_WORDS
  {
  }

  /** The program fits the buffer that it is written to. */
  lemma ProgramFits(s: Support, a: Access)
    ensures Program(s, a).Code? ==> 0 < |Program(s, a).code| <= ABSTRACT_WORDS
  {
    CodeShort(s, a);
  }

  // ---------------------------------------------------------------- what a transfer is for

  /** The value that a register gets from the data registers. */
  function Incoming(a: Access, data: reg): reg {
    if a.size != 2 then data
    else if 0x1020 <= a.regno then NanBox(data) else SignExtend(data)
  }

  /** The data registers after they have got a register's value. */
  function Outgoing(a: Access, data: reg, v: reg): reg {
    if a.size == 2 then StoreLow(data, v) else v
  }

  /** The register that the command names. */
  function Named(a: Access, h: Hart): reg {
    if a.regno < 0x1000 then h.csr(a.regno)
    else if a.regno < 0x1020 then h.x(a.regno - 0x1000)
    else h.f(a.regno - 0x1020)
  }

  predicate Scratch(csr: word) {
    csr == DSCRATCH0 || csr == DSCRATCH1
  }

  /** Exactly the requested value has moved, and everything else but the debug scratch
      registers is as before. */
  ghost predicate Moved(a: Access, h: Hart, h': Hart) {
    && (forall r :: r != a.regno - 0x1000 || a.regno < 0x1000 || !a.write || r == ZERO ==> h'.x(r) == h.x(r))
    && (forall r :: r != a.regno - 0x1020 || a.regno < 0x1020 || !a.write ==> h'.f(r) == h.f(r))
    && (forall c :: c != a.regno && !Scratch(c) ==> h'.csr(c) == h.csr(c))
    && (!Scratch(a.regno) && !a.write ==> h'.csr(a.regno) == h.csr(a.regno))
    && (a.write ==> h'.data == h.data)
    && (a.write && a.regno != 0x1000 ==> Named(a, h') == Incoming(a, h.data))
    && (!a.write ==> h'.data == Outgoing(a, h.data, Named(a, h)))
  }

  // ---------------------------------------------------------------- blocks of instructions

  lemma One(i: Insn, n: nat, h: Hart)
    ensures Exec([i], n, h) == if Step(h, i).Jump? then Jump(Step(h, i).h, n, Step(h, i).offset) else Step(h, i)
  {
    assert [i][1..] == [];
  }

  lemma Two(i: Insn, j: Insn, n: nat, h: Hart)
    requires Step(h, i).Next?
    ensures Exec([i, j], n, h) == Exec([j], n + 1, Step(h, i).h)
  {
    assert [i, j][1..] == [j];
  }

  lemma Onward(code: seq<Insn>, n: nat, h: Hart)
    requires code != [] && Step(h, code[0]).Next?
    ensures Exec(code, n, h) == Exec(code[1..], n + 1, Step(h, code[0]).h)
  {
  }

  lemma AtEnd(n: nat, h: Hart)
    ensures Exec([], n, h) == Next(h)
  {
  }

  lemma SaveEffect(n: nat, h: Hart) returns (h1: Hart)
    ensures Exec(FpuSave(), n, h) == Next(h1)
    ensures !FpuOff(h1) && h1.f == h.f && h1.data == h.data
    ensures h1.csr(DSCRATCH0) == h.x(S0) && h1.csr(DSCRATCH1) == h.csr(MSTATUS)
    ensures forall r :: r != S0 ==> h1.x(r) == h.x(r)
    ensures forall c :: !Scratch(c) && c != MSTATUS ==> h1.csr(c) == h.csr(c)
  {
    hide Exec, FpuOff, StoreLow, NanBox;
    var s := FpuSave();
    var a := Step(h, s[0]).h;
    var b := Step(a, s[1]).h;
    var c := Step(b, s[2]).h;
    var d := Step(c, s[3]).h;
    h1 := Step(d, s[4]).h;
    Onward(s, n, h);
    Onward(s[1..], n + 1, a);
    Onward(s[1..][1..], n + 2, b);
    Onward(s[1..][1..][1..], n + 3, c);
    Onward(s[1..][1..][1..][1..], n + 4, d);
    assert s[1..][1..][1..][1..][1..] == [];
    AtEnd(n + 5, h1);
    assert d.x(S0) == 0x6000;
    FpuTurnedOn(d.csr(MSTATUS), h1);
  }

  lemma FpuTurnedOn(was: reg, h: Hart)
    requires h.csr(MSTATUS) == was | 0x6000
    ensures !FpuOff(h)
  {
  }

  lemma RestoreEffect(n: nat, h: Hart) returns (h1: Hart)
    ensures Exec(FpuRestore(), n, h) == Next(h1)
    ensures h1.f == h.f && h1.data == h.data
    ensures h1.csr(MSTATUS) == h.csr(DSCRATCH1) && h1.x(S0) == h.csr(DSCRATCH0)
    ensures forall r :: r != S0 ==> h1.x(r) == h.x(r)
    ensures forall c :: c != MSTATUS ==> h1.csr(c) == h.csr(c)
  {
    hide Exec;
    var s := FpuRestore();
    var a := Step(h, s[0]).h;
    var b := Step(a, s[1]).h;
    h1 := Step(b, s[2]).h;
    Onward(s, n, h);
    Onward(s[1..], n + 1, a);
    Onward(s[1..][1..], n + 2, b);
    assert s[1..][1..][1..] == [];
    AtEnd(n + 3, h1);
  }

  lemma FpuSame(h: Hart, m: Hart)
    requires h.csr(MSTATUS) == m.csr(MSTATUS)
    ensures FpuOff(h) == FpuOff(m)
  {
  }

  /** s0 loaded from, and stored to, the data registers. */
  lemma S0Steps(a: Access, h: Hart)
    requires a.regno < 0x1000
    ensures Step(h, if a.size == 2 then Lw(S0) else Ld(S0)) == Next(h.(x := Set(h.x, S0, Incoming(a, h.data))))
    ensures Step(h, if a.size == 2 then Sw(S0) else Sd(S0)) == Next(h.(data := Outgoing(a, h.data, h.x(S0))))
  {
    hide StoreLow, SignExtend, NanBox;
  }

  lemma CsrSteps(h: Hart, csr: word)
    requires FpuCsr(csr) ==> !FpuOff(h)
    ensures Step(h, Csrw(S0, csr)) == Next(h.(csr := Set(h.csr, csr, h.x(S0))))
    ensures Step(h, Csrr(S0, csr)) == Next(h.(x := Set(h.x, S0, h.csr(csr))))
  {
    hide FpuOff;
  }

  lemma CsrEffect(a: Access, n: nat, h: Hart) returns (h1: Hart)
    requires a.regno < 0x1000 && (FpuCsr(a.regno) ==> !FpuOff(h))
    ensures Exec(CsrAccess(a), n, h) == Next(h1)
    ensures h1.f == h.f && forall r :: r != S0 ==> h1.x(r) == h.x(r)
    ensures forall c :: c != a.regno || !a.write ==> h1.csr(c) == h.csr(c)
    ensures a.write ==> h1.data == h.data && h1.csr(a.regno) == Incoming(a, h.data)
    ensures !a.write ==> h1.data == Outgoing(a, h.data, h.csr(a.regno))
  {
    hide Exec, Step, Incoming, Outgoing, FpuOff, FpuCsr;
    var s := CsrAccess(a);
    S0Steps(a, h);
    CsrSteps(h, a.regno);
    var m := Step(h, s[0]).h;
    FpuSame(h, m);
    S0Steps(a, m);
    CsrSteps(m, a.regno);
    h1 := Step(m, s[1]).h;
    Two(s[0], s[1], n, h);
    One(s[1], n + 1, m);
  }

  /** One load or store of the floating-point register `r`. */
  lemma FprStep(i: Insn, a: Access, r: word, h: Hart)
    requires !FpuOff(h) && 0x1020 <= a.regno
    requires i == if a.size == 2 then (if a.write then Flw(r) else Fsw(r)) else if a.write then Fld(r) else Fsd(r)
    ensures Step(h, i) == Next(
      if a.write then h.(f := Set(h.f, r, Incoming(a, h.data))) else h.(data := Outgoing(a, h.data, h.f(r))))
  {
    hide StoreLow, SignExtend, NanBox, FpuOff;
  }

  lemma FprEffect(a: Access, n: nat, h: Hart) returns (h1: Hart)
    requires 0x1020 <= a.regno < 0x1040 && !FpuOff(h)
    ensures Exec(FprAccess(a), n, h) == Next(h1)
    ensures h1.x == h.x && h1.csr == h.csr
    ensures forall r :: r != a.regno - 0x1020 || !a.write ==> h1.f(r) == h.f(r)
    ensures a.write ==> h1.data == h.data && h1.f(a.regno - 0x1020) == Incoming(a, h.data)
    ensures !a.write ==> h1.data == Outgoing(a, h.data, h.f(a.regno - 0x1020))
  {
    hide Exec, Step, Incoming, Outgoing, FpuOff;
    var i := FprAccess(a)[0];
    assert FprAccess(a) == [i];
    One(i, n, h);
    FprStep(i, a, a.regno - 0x1020, h);
    h1 := Step(h, i).h;
  }

  lemma Three(x: seq<Insn>, y: seq<Insn>, z: seq<Insn>, h: Hart, h1: Hart, h2: Hart)
    requires Exec(x, 0, h) == Next(h1) && Exec(y, |x|, h1) == Next(h2)
    ensures Exec(x + y + z, 0, h) == Exec(z, |x + y|, h2)
  {
    hide Exec;
    ExecConcat(x, y, 0, h);
    ExecConcat(x + y, z, 0, h);
  }

  // ---------------------------------------------------------------- transfers

  lemma FpuCsrMoves(a: Access, h: Hart) returns (h3: Hart)
    requires FpuCsr(a.regno)
    ensures Exec(FpuSave() + CsrAccess(a) + FpuRestore(), 0, h) == Next(h3) && Moved(a, h, h3)
  {
    hide Exec, FpuSave, FpuRestore, CsrAccess, FpuOff, StoreLow, SignExtend, NanBox;
    var h1 := SaveEffect(0, h);
    var h2 := CsrEffect(a, |FpuSave()|, h1);
    h3 := RestoreEffect(|FpuSave() + CsrAccess(a)|, h2);
    Three(FpuSave(), CsrAccess(a), FpuRestore(), h, h1, h2);
  }

  lemma FprMoves(a: Access, h: Hart) returns (h3: Hart)
    requires 0x1020 <= a.regno < 0x1040
    ensures Exec(FpuSave() + FprAccess(a) + FpuRestore(), 0, h) == Next(h3) && Moved(a, h, h3)
  {
    hide Exec, FpuSave, FpuRestore, FprAccess, FpuOff, StoreLow, SignExtend, NanBox;
    var h1 := SaveEffect(0, h);
    var h2 := FprEffect(a, |FpuSave()|, h1);
    h3 := RestoreEffect(|FpuSave() + FprAccess(a)|, h2);
    Three(FpuSave(), FprAccess(a), FpuRestore(), h, h1, h2);
  }

  lemma CsrMoves(a: Access, h: Hart) returns (h3: Hart)
    requires a.regno < 0x1000 && !FpuCsr(a.regno) && a.regno != DSCRATCH0
    ensures Exec([Csrw(S0, DSCRATCH0)] + CsrAccess(a) + [Csrr(S0, DSCRATCH0)], 0, h) == Next(h3) && Moved(a, h, h3)
  {
    hide Exec, CsrAccess, FpuOff, StoreLow, SignExtend, NanBox;
    One(Csrw(S0, DSCRATCH0), 0, h);
    var h1 := Step(h, Csrw(S0, DSCRATCH0)).h;
    var h2 := CsrEffect(a, 1, h1);
    One(Csrr(S0, DSCRATCH0), 3, h2);
    h3 := Step(h2, Csrr(S0, DSCRATCH0)).h;
    Three([Csrw(S0, DSCRATCH0)], CsrAccess(a), [Csrr(S0, DSCRATCH0)], h, h1, h2);
    CsrAccessLength(a);
  }

  lemma CsrAccessLength(a: Access)
    ensures |CsrAccess(a)| == 2
  {
  }

  lemma GprMoves(a: Access, h: Hart) returns (h1: Hart)
    requires 0x1000 <= a.regno < 0x1020 && h.x(ZERO) == 0
    ensures Exec(GprAccess(a), 0, h) == Next(h1) && Moved(a, h, h1)
  {
    hide Exec, StoreLow, SignExtend, NanBox, FpuOff;
    var i := GprAccess(a)[0];
    h1 := Step(h, i).h;
    if a.regno == 0x1008 && a.write {
      Two(i, Csrw(S0, DSCRATCH0), 0, h);
      One(Csrw(S0, DSCRATCH0), 1, h1);
      assert GprAccess(a) == [i, Csrw(S0, DSCRATCH0)];
      h1 := Step(h1, Csrw(S0, DSCRATCH0)).h;
    } else {
      assert GprAccess(a) == [i];
      One(i, 0, h);
    }
  }

  lemma TransferMoves(s: Support, a: Access, h: Hart) returns (h': Hart)
    requires Transfer(s, a).Code? && h.x(ZERO) == 0 && a.regno != DSCRATCH0
    ensures Exec(Transfer(s, a).code, 0, h) == Next(h') && Moved(a, h, h')
  {
    hide Exec, FpuSave, FpuRestore, FprAccess, CsrAccess, GprAccess, Moved, CustomNo, Wide;
    if CsrNo(a.regno) && s.csrs {
      if FpuReg(a.regno) {
        h' := FpuCsrMoves(a, h);
      } else {
        h' := CsrMoves(a, h);
      }
    } else if GprNo(a.regno) {
      h' := GprMoves(a, h);
    } else {
      h' := FprMoves(a, h);
    }
  }

  lemma ProgramFields(s: Support, a: Access)
    requires Program(s, a).Code? && a.regno <= 0xffff
    ensures AllFields(Program(s, a).code)
  {
    hide Fields;
    CodeShort(s, a);
    BlockFields(a);
    var code := Program(s, a).code;
    ExitFields(|code| - 1);
  }

  lemma ExitFields(n: nat)
    requires n < ABSTRACT_WORDS
    ensures Fields(Jal(ToProgbuf(n))) && Fields(Ebreak)
  {
    assert n in {0, 1, 2, 3, 4, 5, 6, 7, 8, 9, 10, 11};
  }

  lemma BlockFields(a: Access)
    ensures AllFields(FpuSave()) && AllFields(FpuRestore())
    ensures Fields(Csrw(S0, DSCRATCH0)) && Fields(Csrr(S0, DSCRATCH0))
    ensures a.regno < 0x1000 ==> AllFields(CsrAccess(a))
    ensures 0x1000 <= a.regno < 0x1020 ==> AllFields(GprAccess(a))
    ensures 0x1020 <= a.regno < 0x1040 ==> AllFields(FprAccess(a))
  {
  }

  /** Executing the words of an accepted transfer moves exactly the requested value and
      ends in the program buffer or at the breakpoint. */
  lemma ProgramMoves(s: Support, a: Access, h: Hart) returns (h': Hart)
    requires Program(s, a).Code? && a.transfer && h.x(ZERO) == 0 && a.regno != DSCRATCH0 && a.regno <= 0xffff
    ensures Moved(a, h, h')
    ensures var code := Program(s, a).code;
      Execute(Assemble(code), 0, h) ==
        if a.postexec then Jump(h', |code| - 1, ToProgbuf(|code| - 1)) else Break(h')
  {
    hide Exec, Execute, Assemble, Transfer, Moved;
    h' := TransferMoves(s, a, h);
    var t := Transfer(s, a).code;
    var code := Program(s, a).code;
    CodeShort(s, a);
    var last := if a.postexec then Jal(ToProgbuf(|t|)) else Ebreak;
    ExecConcat(t, [last], 0, h);
    One(last, |t|, h');
    ProgramFields(s, a);
    ExecuteAssembled(code, 0, h);
  }

  /** Without a transfer the program only leaves. */
  lemma ProgramLeaves(s: Support, a: Access, h: Hart)
    requires !a.transfer
    ensures var code := Program(s, a).code;
      |code| == 1 && Execute(Assemble(code), 0, h) == if a.postexec then Jump(h, 0, ToProgbuf(0)) else Break(h)
  {
    hide Execute, Assemble, Exec, Fields, Transfer, ToProgbuf;
    var last := if a.postexec then Jal(ToProgbuf(0)) else Ebreak;
    assert Program(s, a).code == [last];
    ExitFields(0);
    One(last, 0, h);
    ExecuteAssembled([last], 0, h);
  }

  /** Reading or writing dscratch0 itself goes through s0's own save slot: the read
      delivers s0, and after a write s0 is lost. */
  lemma ScratchClash(s: Support, a: Access, h: Hart)
    requires s.csrs && Wide(a.size) && a.regno == DSCRATCH0
    ensures Transfer(s, a).Code?
    ensures var o := Exec(Transfer(s, a).code, 0, h);
      o.Next? && if a.write then o.h.x(S0) == Incoming(a, h.data) else o.h.data == Outgoing(a, h.data, h.x(S0))
  {
    hide Exec, CsrAccess, FpuOff, StoreLow, SignExtend, NanBox, Incoming, Outgoing;
    One(Csrw(S0, DSCRATCH0), 0, h);
    var h1 := Step(h, Csrw(S0, DSCRATCH0)).h;
    var h2 := CsrEffect(a, 1, h1);
    One(Csrr(S0, DSCRATCH0), 3, h2);
    Three([Csrw(S0, DSCRATCH0)], CsrAccess(a), [Csrr(S0, DSCRATCH0)], h, h1, h2);
    CsrAccessLength(a);
  }

  /** From this state the transfer moves exactly the requested value. */
  ghost predicate Carries(s: Support, a: Access, h: Hart)
    requires Transfer(s, a).Code?
  {
    var o := Exec(Transfer(s, a).code, 0, h);
    o.Next? && Moved(a, h, o.h)
  }

  /** A hart that tells s0 from everything else. */
  function OnlyS0(): Hart {
    Hart(r => if r == S0 then 1 else 0, r => 0, r => 0, 0)
  }

  lemma OnlyS0Tells(a: Access)
    requires a.regno == DSCRATCH0
    ensures Incoming(a, 0) != 1
    ensures Outgoing(a, 0, 1) != Outgoing(a, 0, 0)
  {
  }

  /** An accepted transfer moves exactly the requested value from every state if and only
      if it is not one of dscratch0. */
  lemma CarriesIff(s: Support, a: Access)
    requires Transfer(s, a).Code?
    ensures (forall h: Hart :: h.x(ZERO) == 0 ==> Carries(s, a, h)) <==> a.regno != DSCRATCH0
  {
    hide Exec, Moved, Carries, Transfer;
    if a.regno != DSCRATCH0 {
      forall h: Hart | h.x(ZERO) == 0 ensures Carries(s, a, h) {
        TransferCarries(s, a, h);
      }
    } else {
      ClashShows(s, a);
    }
  }

  lemma TransferCarries(s: Support, a: Access, h: Hart)
    requires Transfer(s, a).Code? && h.x(ZERO) == 0 && a.regno != DSCRATCH0
    ensures Carries(s, a, h)
  {
    hide Exec, Moved, Transfer;
    var h' := TransferMoves(s, a, h);
  }

  lemma ClashShows(s: Support, a: Access)
    requires Transfer(s, a).Code? && a.regno == DSCRATCH0
    ensures OnlyS0().x(ZERO) == 0 && !Carries(s, a, OnlyS0())
  {
    hide Exec, Incoming, Outgoing;
    ScratchClash(s, a, OnlyS0());
    OnlyS0Tells(a);
  }
}
