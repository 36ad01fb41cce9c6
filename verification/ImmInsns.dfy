/** The move-immediate instruction models (ImmInsnModel in AArch64ExpandImm.h), the register
    effect expandMOVImm in AArch64ExpandPseudoInsts.cpp gives each of them, and the
    vector they are collected in. */
module ImmInsns {
  import opened Words
  import opened LogicalImm

  datatype Opcode =
    | ORRWri | ORRXri | ANDXri | EORXri
    | ORRXrs | EORXrs | EONXrs
    | MOVZWi | MOVZXi | MOVNWi | MOVNXi | MOVKWi | MOVKXi

  datatype ImmInsn = ImmInsn(opcode: Opcode, op1: Word, op2: nat)

  // Op1 of a logical-immediate model: zero reads XZR, anything else reads the destination.
  const ONE: Word := Ones(1)

  predicate IsChunk(c: Word) {
    forall i | 16 <= i < 64 :: !c[i]
  }

  predicate ChunkShift(s: nat, bits: nat) {
    s + 16 <= bits && (s == 0 || s == 16 || s == 32 || s == 48)
  }

  // The operand ranges the hardware can encode. Op2 of the shifted forms is getShifterImm(LSL, amount),
  // which is the amount itself.
  predicate Encodable(i: ImmInsn) {
    match i.opcode
    case ORRWri => ValidEncoding(i.op2, 32)
    case ORRXri | ANDXri | EORXri => ValidEncoding(i.op2, 64)
    case ORRXrs | EORXrs | EONXrs => i.op2 < 64
    case MOVZWi | MOVNWi | MOVKWi => IsChunk(i.op1) && ChunkShift(i.op2, 32)
    case MOVZXi | MOVNXi | MOVKXi => IsChunk(i.op1) && ChunkShift(i.op2, 64)
  }

  // MOVK: replace the 16 bits at position s.
  function Insert(x: Word, c: Word, s: nat): (r: Word)
    requires ChunkShift(s, 64)
    ensures forall i | 0 <= i < 64 :: r[i] == if s <= i < s + 16 then c[i - s] else x[i]
  {
    seq(64, i requires 0 <= i < 64 => if s <= i < s + 16 then c[i - s] else x[i])
  }

  // The destination register after the instruction, x being its value before.
  // W-register forms read the low half and clear the high half.
  function Exec(i: ImmInsn, x: Word): Word
    requires Encodable(i)
  {
    var src := if i.op1 == ZERO then ZERO else x;
    match i.opcode
    case ORRWri => And(Or(src, DecodeBitMasks(i.op2, 32)), Ones(32))
    case ORRXri => Or(src, DecodeBitMasks(i.op2, 64))
    case ANDXri => And(src, DecodeBitMasks(i.op2, 64))
    case EORXri => Xor(src, DecodeBitMasks(i.op2, 64))
    case ORRXrs => Or(x, Shl(x, i.op2))
    case EORXrs => Xor(x, Shl(x, i.op2))
    case EONXrs => Xor(x, Not(Shl(x, i.op2)))
    case MOVZWi | MOVZXi => Shl(i.op1, i.op2)
    case MOVNWi => And(Not(Shl(i.op1, i.op2)), Ones(32))
    case MOVNXi => Not(Shl(i.op1, i.op2))
    case MOVKWi => And(Insert(x, i.op1, i.op2), Ones(32))
    case MOVKXi => Insert(x, i.op1, i.op2)
  }

  ghost predicate AllEncodable(code: seq<ImmInsn>) {
    forall k | 0 <= k < |code| :: Encodable(code[k])
  }

  ghost function Run(code: seq<ImmInsn>, x: Word): Word
    requires AllEncodable(code)
  {
    if code == [] then x else Exec(code[|code| - 1], Run(code[..|code| - 1], x))
  }

  // The sequence leaves v in the register, whatever the register held before.
  ghost predicate Builds(code: seq<ImmInsn>, v: Word) {
    AllEncodable(code) && forall x: Word :: Run(code, x) == v
  }

  ghost predicate IgnoresRegister(i: ImmInsn) {
    match i.opcode
    case ORRWri | ORRXri | ANDXri | EORXri => i.op1 == ZERO
    case MOVZWi | MOVZXi | MOVNWi | MOVNXi => true
    case _ => false
  }

  lemma BuildsFirst(i: ImmInsn)
    requires Encodable(i) && IgnoresRegister(i)
    ensures Builds([i], Exec(i, ZERO))
  {
    forall x: Word ensures Run([i], x) == Exec(i, ZERO) {
      assert [i][..0] == [];
    }
  }

  lemma BuildsNext(code: seq<ImmInsn>, v: Word, i: ImmInsn)
    requires Builds(code, v) && Encodable(i)
    ensures Builds(code + [i], Exec(i, v))
  {
    forall x: Word ensures Run(code + [i], x) == Exec(i, v) {
      assert (code + [i])[..|code|] == code;
    }
  }

  // getChunk
  function GetChunk(imm: Word, idx: nat): (c: Word)
    requires idx < 4
    ensures IsChunk(c) && forall i | 0 <= i < 16 :: c[i] == imm[16 * idx + i]
  {
    And(Shr(imm, 16 * idx), Ones(16))
  }

  // MOVK of v's chunk at idx.
  function Repair(x: Word, v: Word, idx: nat): Word
    requires idx < 4
  {
    Insert(x, GetChunk(v, idx), 16 * idx)
  }

  ghost predicate AgreeElsewhere(x: Word, v: Word, idx: nat) {
    forall i | 0 <= i < 64 && !(16 * idx <= i < 16 * idx + 16) :: x[i] == v[i]
  }

  // A MOVK of v's chunk repairs a register that agrees with v everywhere else.
  lemma InsertRepairs(x: Word, v: Word, idx: nat)
    requires idx < 4 && AgreeElsewhere(x, v, idx)
    ensures Repair(x, v, idx) == v
  {
  }

  // SmallVectorImpl<ImmInsnModel>
  class InsnVector {
    var insns: seq<ImmInsn>

    constructor ()
      ensures insns == []
    {
      insns := [];
    }

    method PushBack(opcode: Opcode, op1: Word, op2: nat)
      modifies this
      ensures insns == old(insns) + [ImmInsn(opcode, op1, op2)]
    {
      insns := insns + [ImmInsn(opcode, op1, op2)];
    }

    method PopBack()
      requires insns != []
      modifies this
      ensures insns == old(insns)[..|old(insns)| - 1]
    {
      insns := insns[..|insns| - 1];
    }
  }
}
