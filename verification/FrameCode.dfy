/** The loads and stores of a homogeneous prolog or epilog (AArch64LowerHomogeneousPrologEpilog.cpp)
    and what they do to registers and the stack. */
module FrameCode {

  // X0 to X30 are 0 to 30, SP is 31, D0 onwards are 64 onwards.
  type Reg = int

  const NO_REGISTER: Reg := -1
  const X16: Reg := 16
  const FP: Reg := 29
  const LR: Reg := 30
  const SP: Reg := 31

  predicate IsFloat(r: Reg) { r >= 64 }

  datatype Opcode =
    | STPXpre | STPDpre | STRXpre | STRDpre | STPXi | STPDi | STRXui | STRDui
    | LDPXpost | LDPDpost | LDRXpost | LDRDpost | LDPXi | LDPDi | LDRXui | LDRDui

  predicate IsStore(o: Opcode) {
    o == STPXpre || o == STPDpre || o == STRXpre || o == STRDpre || o == STPXi || o == STPDi || o == STRXui || o == STRDui
  }

  predicate WritesBack(o: Opcode) {
    o == STPXpre || o == STPDpre || o == STRXpre || o == STRDpre
    || o == LDPXpost || o == LDPDpost || o == LDRXpost || o == LDRDpost
  }

  predicate IsPair(o: Opcode) {
    o == STPXpre || o == STPDpre || o == STPXi || o == STPDi || o == LDPXpost || o == LDPDpost || o == LDPXi || o == LDPDi
  }

  // Bytes per unit of the immediate: single-register write-back forms count bytes.
  function Scale(o: Opcode): int {
    if WritesBack(o) && !IsPair(o) then 1 else 8
  }

  // The range of the immediate, in its own units.
  predicate InRange(o: Opcode, imm: int) {
    if IsPair(o) then -64 <= imm <= 63
    else if WritesBack(o) then -256 <= imm <= 255
    else 0 <= imm <= 4095
  }

  // A helper's name: its kind, its frame offset, and the registers printed, which omit NoRegister.
  datatype Helper = Prolog | PrologFrame(fpOffset: int) | Epilog | EpilogTail
  datatype Name = Name(kind: Helper, printed: seq<Reg>)

  datatype Ins =
    | Mem(opc: Opcode, reg2: Reg, reg1: Reg, imm: int)
    | AddFp(imm: int)
    | MovX16LR
    | Ret(reg: Reg)
    | Bl(callee: Name)
    | TailCall(callee: Name)

  datatype State = State(reg: Reg -> int, mem: int -> int)

  function Put(f: int -> int, k: int, v: int): int -> int {
    (x: int) => if x == k then v else f(x)
  }

  function Address(i: Ins, s: State): int
    requires i.Mem?
  {
    if IsStore(i.opc) || !WritesBack(i.opc) then s.reg(SP) + i.imm * Scale(i.opc) else s.reg(SP)
  }

  function Transfer(i: Ins, s: State): State
    requires i.Mem?
  {
    var a := Address(i, s);
    if IsStore(i.opc) then
      if IsPair(i.opc) then s.(mem := Put(Put(s.mem, a, s.reg(i.reg2)), a + 8, s.reg(i.reg1)))
      else s.(mem := Put(s.mem, a, s.reg(i.reg1)))
    else
      if IsPair(i.opc) then s.(reg := Put(Put(s.reg, i.reg2, s.mem(a)), i.reg1, s.mem(a + 8)))
      else s.(reg := Put(s.reg, i.reg1, s.mem(a)))
  }

  // One instruction inside a helper or inline.
  function Exec(i: Ins, s: State): State {
    match i
    case Mem(o, _, _, imm) =>
      var t := Transfer(i, s);
      if WritesBack(o) then t.(reg := Put(t.reg, SP, s.reg(SP) + imm * Scale(o))) else t
    case AddFp(imm) => s.(reg := Put(s.reg, FP, s.reg(SP) + imm))
    case MovX16LR => s.(reg := Put(s.reg, X16, s.reg(LR)))
    case _ => s
  }

  function Run(code: seq<Ins>, s: State): State {
    if code == [] then s else Exec(code[|code| - 1], Run(code[..|code| - 1], s))
  }

  lemma {:induction false} RunJoin(x: seq<Ins>, y: seq<Ins>, s: State)
    ensures Run(x + y, s) == Run(y, Run(x, s))
  {
    hide Exec;
    if y == [] {
      assert x + y == x;
    } else {
      var n := |y| - 1;
      RunJoin(x, y[..n], s);
      assert (x + y)[..|x + y| - 1] == x + y[..n];
    }
  }

  lemma RunOne(i: Ins, s: State)
    ensures Run([i], s) == Exec(i, s)
  {
    hide Exec;
    assert [i][..0] == [];
    assert Run([], s) == s;
  }

  // ----- emitStore and emitLoad -----

  function StoreOpcode(reg1: Reg, paired: bool, isPreDec: bool): Opcode {
    if isPreDec then
      if IsFloat(reg1) then if paired then STPDpre else STRDpre else if paired then STPXpre else STRXpre
    else
      if IsFloat(reg1) then if paired then STPDi else STRDui else if paired then STPXi else STRXui
  }

  function LoadOpcode(reg1: Reg, paired: bool, isPostDec: bool): Opcode {
    if isPostDec then
      if IsFloat(reg1) then if paired then LDPDpost else LDRDpost else if paired then LDPXpost else LDRXpost
    else
      if IsFloat(reg1) then if paired then LDPDi else LDRDui else if paired then LDPXi else LDRXui
  }

  // `offset` counts 8-byte slots.
  function StoreIns(reg1: Reg, reg2: Reg, offset: int, isPreDec: bool): Ins {
    var o := StoreOpcode(reg1, reg2 != NO_REGISTER, isPreDec);
    Mem(o, reg2, reg1, offset * (8 / Scale(o)))
  }

  function LoadIns(reg1: Reg, reg2: Reg, offset: int, isPostDec: bool): Ins {
    var o := LoadOpcode(reg1, reg2 != NO_REGISTER, isPostDec);
    Mem(o, reg2, reg1, offset * (8 / Scale(o)))
  }

  lemma OffsetIsSlots(o: Opcode, offset: int)
    ensures offset * (8 / Scale(o)) * Scale(o) == 8 * offset
  {
  }

  // Immediates count slots, but bytes where one register is stored or loaded with write-back.
  lemma ImmediatesCount(reg1: Reg, reg2: Reg, offset: int, update: bool)
    ensures var paired, n := reg2 != NO_REGISTER, if reg2 == NO_REGISTER && update then 8 * offset else offset;
            && StoreIns(reg1, reg2, offset, update) == Mem(StoreOpcode(reg1, paired, update), reg2, reg1, n)
            && LoadIns(reg1, reg2, offset, update) == Mem(LoadOpcode(reg1, paired, update), reg2, reg1, n)
  {
  }

  class Block {
    var code: seq<Ins>

    constructor ()
      ensures code == []
    {
      code := [];
    }

    method Insert(i: Ins)
      modifies this
      ensures code == old(code) + [i]
    {
      code := code + [i];
    }

    method EmitStore(reg1: Reg, reg2: Reg, offset: int, isPreDec: bool)
      requires reg1 != NO_REGISTER && (reg2 != NO_REGISTER ==> IsFloat(reg1) == IsFloat(reg2)) && (IsFloat(reg1) ==> reg2 != NO_REGISTER)
      modifies this
      ensures code == old(code) + [StoreIns(reg1, reg2, offset, isPreDec)]
    {
      var isPaired := reg2 != NO_REGISTER;
      var isFloat := IsFloat(reg1);
      var opc: Opcode;
      if isPreDec {
        if isFloat { opc := if isPaired then STPDpre else STRDpre; } else { opc := if isPaired then STPXpre else STRXpre; }
      } else {
        if isFloat { opc := if isPaired then STPDi else STRDui; } else { opc := if isPaired then STPXi else STRXui; }
      }
      Insert(Mem(opc, reg2, reg1, offset * (8 / Scale(opc))));
    }

    method EmitLoad(reg1: Reg, reg2: Reg, offset: int, isPostDec: bool)
      requires reg1 != NO_REGISTER && (reg2 != NO_REGISTER ==> IsFloat(reg1) == IsFloat(reg2)) && (IsFloat(reg1) ==> reg2 != NO_REGISTER)
      modifies this
      ensures code == old(code) + [LoadIns(reg1, reg2, offset, isPostDec)]
    {
      var isPaired := reg2 != NO_REGISTER;
      var isFloat := IsFloat(reg1);
      var opc: Opcode;
      if isPostDec {
        if isFloat { opc := if isPaired then LDPDpost else LDRDpost; } else { opc := if isPaired then LDPXpost else LDRXpost; }
      } else {
        if isFloat { opc := if isPaired then LDPDi else LDRDui; } else { opc := if isPaired then LDPXi else LDRXui; }
      }
      Insert(Mem(opc, reg2, reg1, offset * (8 / Scale(opc))));
    }
  }

  // ----- Save lists -----

  // Registers in pairs of one class; beside a general register the odd position may be empty.
  ghost predicate SaveList(regs: seq<Reg>) {
    && |regs| >= 2 && |regs| % 2 == 0
    && (forall p | 0 <= p < |regs| :: PositionOK(regs, p))
    && (forall p, q | 0 <= p < q < |regs| && regs[p] != NO_REGISTER :: regs[p] != regs[q])
  }

  ghost predicate PositionOK(regs: seq<Reg>, p: nat)
    requires p < |regs| && |regs| % 2 == 0
  {
    && regs[p] != SP && regs[p] != X16 && regs[p] >= -1
    && (p % 2 == 0 ==> regs[p] != NO_REGISTER)
    && (p % 2 == 0 && regs[p + 1] != NO_REGISTER ==> IsFloat(regs[p]) == IsFloat(regs[p + 1]))
    && (p % 2 == 0 && regs[p + 1] == NO_REGISTER ==> !IsFloat(regs[p]))
  }

  // The register kept in the slot of position p; -1 for the gap beside an unpaired register, which
  // takes the lower slot of its pair.
  function Cell(regs: seq<Reg>, p: nat): Reg
    requires p < |regs| && |regs| % 2 == 0
  {
    if p % 2 == 0 then if regs[p + 1] == NO_REGISTER then NO_REGISTER else regs[p]
    else if regs[p] == NO_REGISTER then regs[p - 1] else regs[p]
  }

  // Position p lives this far above the final SP: the list is laid out from the highest address down.
  function SlotAddress(base: int, size: nat, p: int): int {
    base + 8 * (size - 1 - p)
  }

  // Exactly the slots of the positions in `done` hold the registers' values of s0; other memory is as in s0.
  ghost predicate Saved(regs: seq<Reg>, done: set<nat>, base: int, s0: State, mem: int -> int)
    requires |regs| % 2 == 0
  {
    && (forall p: nat | p in done && p < |regs| && Cell(regs, p) >= 0 :: mem(SlotAddress(base, |regs|, p)) == s0.reg(Cell(regs, p)))
    && (forall a: int | forall p: nat | p in done && p < |regs| && Cell(regs, p) >= 0 :: a != SlotAddress(base, |regs|, p) :: mem(a) == s0.mem(a))
  }
}
