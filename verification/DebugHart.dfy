/** The instructions that the debug module writes for a hart: their encodings, and a
    small hart that decodes and executes them. */
module DebugHart {
  type word = bv32
  type reg = bv64

  const ZERO: word := 0
  const S0: word := 8
  const MSTATUS: word := 0x300
  const FFLAGS: word := 0x1
  const FCSR: word := 0x3
  const DSCRATCH0: word := 0x7b2
  const DSCRATCH1: word := 0x7b3
  const MSTATUS_FS: reg := 0x6000
  const DATA_START: word := 0x380

  datatype Insn =
    | Lw(rd: word) | Ld(rd: word) | Sw(rs: word) | Sd(rs: word)
    | Flw(rd: word) | Fld(rd: word) | Fsw(rs: word) | Fsd(rs: word)
    | Csrw(rs: word, csr: word)
    | Csrrs(rd: word, rs: word, csr: word)
    | Lui(rd: word, imm: word)
    | Jal(imm: word)
    | Ebreak
    | Illegal

  /** csrr is csrrs with the zero register. */
  function Csrr(rd: word, csr: word): Insn {
    Csrrs(rd, ZERO, csr)
  }

  // ---------------------------------------------------------------- encodings

  function Bits(v: word, hi: bv6, lo: bv6): word
    requires lo <= hi < 31
  {
    (v >> lo) & ((1 << (hi + 1 - lo)) - 1)
  }

  function LoadAt(rd: word, code: word): word {
    (Bits(DATA_START, 11, 0) << 20) | (ZERO << 15) | (Bits(rd, 4, 0) << 7) | code
  }

  function StoreAt(rs: word, code: word): word {
    (Bits(DATA_START, 11, 5) << 25) | (rs << 20) | (ZERO << 15) | (Bits(DATA_START, 4, 0) << 7) | code
  }

  function CsrAt(rd: word, rs: word, csr: word, code: word): word {
    (csr << 20) | (rs << 15) | (rd << 7) | code
  }

  function LuiWord(rd: word, imm: word): word {
    (Bits(imm, 19, 0) << 12) | (rd << 7) | 0x37
  }

  function JalWord(imm: word): word {
    (Bits(imm, 20, 20) << 31) | (Bits(imm, 10, 1) << 21) | (Bits(imm, 11, 11) << 20) | (Bits(imm, 19, 12) << 12) | 0x6f
  }

  /** Loads and stores go to the data registers at a zero base. */
  function Encode(i: Insn): word {
    match i
    case Lw(rd) => LoadAt(rd, 0x2003)
    case Ld(rd) => LoadAt(rd, 0x3003)
    case Sw(rs) => StoreAt(rs, 0x2023)
    case Sd(rs) => StoreAt(rs, 0x3023)
    case Flw(rd) => LoadAt(rd, 0x2007)
    case Fld(rd) => LoadAt(rd, 0x3007)
    case Fsw(rs) => StoreAt(rs, 0x2027)
    case Fsd(rs) => StoreAt(rs, 0x3027)
    case Csrw(rs, csr) => CsrAt(0, rs, csr, 0x1073)
    case Csrrs(rd, rs, csr) => CsrAt(rd, rs, csr, 0x2073)
    case Lui(rd, imm) => LuiWord(rd, imm)
    case Jal(imm) => JalWord(imm)
    case Ebreak => 0x100073
    case Illegal => 0
  }

  // The fields that the instruction set defines in a word.
  function Op(w: word): word { w & 0x7f }
  function F3(w: word): word { (w >> 12) & 7 }
  function Rd(w: word): word { (w >> 7) & 0x1f }
  function Rs1(w: word): word { (w >> 15) & 0x1f }
  function Rs2(w: word): word { (w >> 20) & 0x1f }
  function Imm(w: word): word { w >> 20 }
  function UpperImm(w: word): word { w >> 12 }
  function StoreImm(w: word): word { ((w >> 25) << 5) | Rd(w) }
  function JumpImm(w: word): word {
    ((w >> 31) << 20) | (((w >> 21) & 0x3ff) << 1) | (((w >> 20) & 1) << 11) | (F3(w) << 12) | (Rs1(w) << 15)
  }

  /** What a hart reads in a word, for the instructions above. */
  function Decode(w: word): Insn {
    if w == 0x100073 then Ebreak
    else if Op(w) == 0x03 && Rs1(w) == 0 && Imm(w) == DATA_START && F3(w) == 2 then Lw(Rd(w))
    else if Op(w) == 0x03 && Rs1(w) == 0 && Imm(w) == DATA_START && F3(w) == 3 then Ld(Rd(w))
    else if Op(w) == 0x07 && Rs1(w) == 0 && Imm(w) == DATA_START && F3(w) == 2 then Flw(Rd(w))
    else if Op(w) == 0x07 && Rs1(w) == 0 && Imm(w) == DATA_START && F3(w) == 3 then Fld(Rd(w))
    else if Op(w) == 0x23 && Rs1(w) == 0 && StoreImm(w) == DATA_START && F3(w) == 2 then Sw(Rs2(w))
    else if Op(w) == 0x23 && Rs1(w) == 0 && StoreImm(w) == DATA_START && F3(w) == 3 then Sd(Rs2(w))
    else if Op(w) == 0x27 && Rs1(w) == 0 && StoreImm(w) == DATA_START && F3(w) == 2 then Fsw(Rs2(w))
    else if Op(w) == 0x27 && Rs1(w) == 0 && StoreImm(w) == DATA_START && F3(w) == 3 then Fsd(Rs2(w))
    else if Op(w) == 0x73 && F3(w) == 1 && Rd(w) == 0 then Csrw(Rs1(w), Imm(w))
    else if Op(w) == 0x73 && F3(w) == 2 then Csrrs(Rd(w), Rs1(w), Imm(w))
    else if Op(w) == 0x37 then Lui(Rd(w), UpperImm(w))
    else if Op(w) == 0x6f && Rd(w) == 0 then Jal(JumpImm(w))
    else Illegal
  }

  predicate Fields(i: Insn) {
    match i
    case Lw(r) => r < 32
    case Ld(r) => r < 32
    case Sw(r) => r < 32
    case Sd(r) => r < 32
    case Flw(r) => r < 32
    case Fld(r) => r < 32
    case Fsw(r) => r < 32
    case Fsd(r) => r < 32
    case Csrw(rs, csr) => rs < 32 && csr < 0x1000
    case Csrrs(rd, rs, csr) => rd < 32 && rs < 32 && csr < 0x1000
    case Lui(rd, imm) => rd < 32 && imm < 0x10_0000
    case Jal(imm) => imm < 0x10_0000 && imm & 1 == 0
    case Ebreak => true
    case Illegal => false
  }

  lemma LoadFields(rd: word, code: word)
    requires rd < 32 && code in {0x2003, 0x3003, 0x2007, 0x3007}
    ensures var w := LoadAt(rd, code);
      w != 0x100073 && Op(w) == code & 0x7f && F3(w) == code >> 12 && Rd(w) == rd && Rs1(w) == 0 && Imm(w) == DATA_START
  {
  }

  lemma StoreFields(rs: word, code: word)
    requires rs < 32 && code in {0x2023, 0x3023, 0x2027, 0x3027}
    ensures var w := StoreAt(rs, code);
      w != 0x100073 && Op(w) == code & 0x7f && F3(w) == code >> 12 && Rs2(w) == rs && Rs1(w) == 0 && StoreImm(w) == DATA_START
  {
  }

  lemma CsrFields(rd: word, rs: word, csr: word, code: word)
    requires rd < 32 && rs < 32 && csr < 0x1000 && code in {0x1073, 0x2073}
    ensures var w := CsrAt(rd, rs, csr, code);
      w != 0x100073 && Op(w) == 0x73 && F3(w) == code >> 12 && Rd(w) == rd && Rs1(w) == rs && Imm(w) == csr
  {
  }

  lemma LuiFields(rd: word, imm: word)
    requires rd < 32 && imm < 0x10_0000
    ensures var w := LuiWord(rd, imm); w != 0x100073 && Op(w) == 0x37 && Rd(w) == rd && UpperImm(w) == imm
  {
  }

  lemma JalFields(imm: word)
    requires imm < 0x10_0000 && imm & 1 == 0
    ensures var w := JalWord(imm); w != 0x100073 && Op(w) == 0x6f && Rd(w) == 0 && JumpImm(w) == imm
  {
  }

  lemma LoadsDecode(r: word)
    requires r < 32
    ensures Decode(Encode(Lw(r))) == Lw(r) && Decode(Encode(Ld(r))) == Ld(r)
    ensures Decode(Encode(Flw(r))) == Flw(r) && Decode(Encode(Fld(r))) == Fld(r)
  {
    hide Op, F3, Rd, Rs1, Rs2, Imm, StoreImm, JumpImm, UpperImm, LoadAt, StoreAt, CsrAt, LuiWord, JalWord;
    LoadFields(r, 0x2003);
    LoadFields(r, 0x3003);
    LoadFields(r, 0x2007);
    LoadFields(r, 0x3007);
  }

  lemma StoresDecode(r: word)
    requires r < 32
    ensures Decode(Encode(Sw(r))) == Sw(r) && Decode(Encode(Sd(r))) == Sd(r)
    ensures Decode(Encode(Fsw(r))) == Fsw(r) && Decode(Encode(Fsd(r))) == Fsd(r)
  {
    hide Op, F3, Rd, Rs1, Rs2, Imm, StoreImm, JumpImm, UpperImm, LoadAt, StoreAt, CsrAt, LuiWord, JalWord;
    StoreFields(r, 0x2023);
    StoreFields(r, 0x3023);
    StoreFields(r, 0x2027);
    StoreFields(r, 0x3027);
  }

  lemma CsrsDecode(rd: word, rs: word, csr: word)
    requires rd < 32 && rs < 32 && csr < 0x1000
    ensures Decode(Encode(Csrw(rs, csr))) == Csrw(rs, csr) && Decode(Encode(Csrrs(rd, rs, csr))) == Csrrs(rd, rs, csr)
  {
    hide Op, F3, Rd, Rs1, Rs2, Imm, StoreImm, JumpImm, UpperImm, LoadAt, StoreAt, CsrAt, LuiWord, JalWord;
    CsrFields(0, rs, csr, 0x1073);
    CsrFields(rd, rs, csr, 0x2073);
  }

  lemma LuiDecodes(rd: word, imm: word)
    requires rd < 32 && imm < 0x10_0000
    ensures Decode(Encode(Lui(rd, imm))) == Lui(rd, imm)
  {
    hide Op, F3, Rd, Rs1, Rs2, Imm, StoreImm, JumpImm, UpperImm, LoadAt, StoreAt, CsrAt, LuiWord, JalWord;
    LuiFields(rd, imm);
  }

  lemma JalDecodes(imm: word)
    requires imm < 0x10_0000 && imm & 1 == 0
    ensures Decode(Encode(Jal(imm))) == Jal(imm)
  {
    hide Op, F3, Rd, Rs1, Rs2, Imm, StoreImm, JumpImm, UpperImm, LoadAt, StoreAt, CsrAt, LuiWord, JalWord;
    JalFields(imm);
  }

  lemma EbreakDecodes()
    ensures Decode(Encode(Ebreak)) == Ebreak
  {
  }

  /** Every word that is written is read back as the instruction that was meant. */
  lemma EncodeDecode(i: Insn)
    requires Fields(i)
    ensures Decode(Encode(i)) == i
  {
    hide Encode, Decode;
    if i.Csrw? {
      CsrsDecode(0, i.rs, i.csr);
    } else if i.Csrrs? {
      CsrsDecode(i.rd, i.rs, i.csr);
    } else if i.Lui? {
      LuiDecodes(i.rd, i.imm);
    } else if i.Jal? {
      JalDecodes(i.imm);
    } else if i.Ebreak? {
      EbreakDecodes();
    } else if i.Lw? || i.Ld? || i.Flw? || i.Fld? {
      LoadsDecode(i.rd);
    } else {
      StoresDecode(i.rs);
    }
  }

  // ---------------------------------------------------------------- a hart

  /** Registers by number; the two data registers of the debug module as one double word. */
  datatype Hart = Hart(x: word -> reg, f: word -> reg, csr: word -> reg, data: reg)

  function Set(file: word -> reg, k: word, v: reg): word -> reg {
    r => if r == k then v else file(r)
  }

  function WithX(h: Hart, rd: word, v: reg): Hart {
    if rd == ZERO then h else h.(x := Set(h.x, rd, v))
  }

  function Low(v: reg): reg {
    v & 0xffff_ffff
  }

  function SignExtend(v: reg): reg {
    if v & 0x8000_0000 == 0 then Low(v) else Low(v) | 0xffff_ffff_0000_0000
  }

  /** A single held in a double register has all ones above it. */
  function NanBox(v: reg): reg {
    Low(v) | 0xffff_ffff_0000_0000
  }

  function StoreLow(data: reg, v: reg): reg {
    (data & 0xffff_ffff_0000_0000) | Low(v)
  }

  predicate FpuOff(h: Hart) {
    h.csr(MSTATUS) & MSTATUS_FS == 0
  }

  predicate FpuCsr(csr: word) {
    FFLAGS <= csr <= FCSR
  }

  /** The next state, the end of the program, a jump from an instruction, or a trap. */
  datatype Outcome = Next(h: Hart) | Break(h: Hart) | Jump(h: Hart, at: nat, offset: word) | Trap

  function Step(h: Hart, i: Insn): Outcome {
    match i
    case Lw(rd) => Next(WithX(h, rd, SignExtend(h.data)))
    case Ld(rd) => Next(WithX(h, rd, h.data))
    case Sw(rs) => Next(h.(data := StoreLow(h.data, h.x(rs))))
    case Sd(rs) => Next(h.(data := h.x(rs)))
    case Flw(rd) => if FpuOff(h) then Trap else Next(h.(f := Set(h.f, rd, NanBox(h.data))))
    case Fld(rd) => if FpuOff(h) then Trap else Next(h.(f := Set(h.f, rd, h.data)))
    case Fsw(rs) => if FpuOff(h) then Trap else Next(h.(data := StoreLow(h.data, h.f(rs))))
    case Fsd(rs) => if FpuOff(h) then Trap else Next(h.(data := h.f(rs)))
    case Csrw(rs, csr) =>
      if FpuCsr(csr) && FpuOff(h) then Trap else Next(h.(csr := Set(h.csr, csr, h.x(rs))))
    case Csrrs(rd, rs, csr) =>
      if FpuCsr(csr) && FpuOff(h) then Trap
      else
        var was := h.csr(csr);
        var h' := if rs == ZERO then h else h.(csr := Set(h.csr, csr, was | h.x(rs)));
        Next(WithX(h', rd, was))
    case Lui(rd, imm) => Next(WithX(h, rd, SignExtend((imm << 12) as reg)))
    case Jal(imm) => Jump(h, 0, imm)
    case Ebreak => Break(h)
    case Illegal => Trap
  }

  /** Executing instructions from the first on, which is number `n`; running off the end
      is a next state. */
  function Exec(code: seq<Insn>, n: nat, h: Hart): Outcome {
    if code == [] then Next(h)
    else
      var o := Step(h, code[0]);
      match o
      case Next(h') => Exec(code[1..], n + 1, h')
      case Jump(h', _, offset) => Jump(h', n, offset)
      case _ => o
  }

  /** Executing words in memory. */
  function Execute(words: seq<word>, n: nat, h: Hart): Outcome {
    if words == [] then Next(h)
    else
      var o := Step(h, Decode(words[0]));
      match o
      case Next(h') => Execute(words[1..], n + 1, h')
      case Jump(h', _, offset) => Jump(h', n, offset)
      case _ => o
  }

  function Assemble(code: seq<Insn>): (words: seq<word>)
    ensures |words| == |code|
  {
    if code == [] then [] else [Encode(code[0])] + Assemble(code[1..])
  }

  predicate AllFields(code: seq<Insn>) {
    forall k :: 0 <= k < |code| ==> Fields(code[k])
  }

  /** The words do what the instructions mean. */
  lemma {:induction false} ExecuteAssembled(code: seq<Insn>, n: nat, h: Hart)
    requires AllFields(code)
    ensures Execute(Assemble(code), n, h) == Exec(code, n, h)
    decreases code
  {
    hide Step, Encode, Decode, Fields;
    if code != [] {
      EncodeDecode(code[0]);
      var o := Step(h, code[0]);
      assert Assemble(code)[1..] == Assemble(code[1..]);
      if o.Next? {
        ExecuteAssembled(code[1..], n + 1, o.h);
      }
    }
  }

  lemma {:induction false} ExecConcat(a: seq<Insn>, b: seq<Insn>, n: nat, h: Hart)
    ensures var o := Exec(a, n, h);
      Exec(a + b, n, h) == if o.Next? then Exec(b, n + |a|, o.h) else o
    decreases a
  {
    hide Step;
    if a == [] {
      assert a + b == b;
    } else {
      assert (a + b)[1..] == a[1..] + b;
      var o := Step(h, a[0]);
      if o.Next? {
        ExecConcat(a[1..], b, n + 1, o.h);
      }
    }
  }
}
