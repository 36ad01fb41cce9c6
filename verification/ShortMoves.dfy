/** Which immediates one instruction, or an ORR and a MOVK, can build at all: the yardstick for
    the first strategies of expandMOVImm. */
module ShortMoves {
  import opened Words
  import opened LogicalImm
  import opened ImmInsns
  import opened ExpandSimple

  // ----- One instruction -----

  // The opcodes that write a register of the given width.
  predicate OfWidth(i: ImmInsn, bits: nat) {
    var narrow := i.opcode.ORRWri? || i.opcode.MOVZWi? || i.opcode.MOVNWi? || i.opcode.MOVKWi?;
    if bits == 32 then narrow else !narrow
  }

  // All chunks but one are clear, or all but one are set, or the value is a bitmask immediate.
  ghost predicate SingleMove(imm: Word, bits: nat)
    requires bits == 32 || bits == 64
  {
    || Remaining(imm, bits / 16, false) <= 1
    || Remaining(imm, bits / 16, true) <= 1
    || Logical(Target(imm, bits), bits)
  }

  // An instruction whose result does not depend on the register.
  lemma OneInsnRuns(i: ImmInsn, v: Word, x: Word)
    requires Builds([i], v)
    ensures Encodable(i) && Exec(i, x) == v
  {
    hide Exec, Encodable;
    assert [i][0] == i && [i][..0] == [];
    assert Run([i], x) == v;
  }

  // Outside the chunk at s the value is v.
  lemma OneChunkRemains(imm: Word, bits: nat, s: nat, v: bool)
    requires (bits == 32 || bits == 64) && ChunkShift(s, bits)
    requires forall i | 0 <= i < bits && !(s <= i < s + 16) :: imm[i] == v
    ensures Remaining(imm, bits / 16, v) <= 1
  {
    var c := s / 16;
    assert s == 16 * c;
    forall k | 0 <= k < c ensures UniformChunk(imm, k, v) {}
    RemainingUniform(imm, 0, c, v);
    forall k | c + 1 <= k < bits / 16 ensures UniformChunk(imm, k, v) {}
    RemainingUniform(imm, c + 1, bits / 16, v);
  }

  // Whatever one instruction of the width can build is a single move.
  lemma OneInsnIsSingle(i: ImmInsn, imm: Word, bits: nat)
    requires (bits == 32 || bits == 64) && OfWidth(i, bits) && Builds([i], Target(imm, bits))
    ensures SingleMove(imm, bits)
  {
    hide Builds, DecodeBitMasks, Logical, Remaining, IsPattern;
    OneInsnRuns(i, Target(imm, bits), ZERO);
    OneInsnRuns(i, Target(imm, bits), Not(ZERO));
    match i.opcode
    case MOVZWi | MOVZXi => MoveZero(i.op1, i.op2, imm, bits);
    case MOVNWi | MOVNXi => MoveNot(i.op1, i.op2, imm, bits);
    case MOVKWi | MOVKXi => MoveKeepReads(i.op1, i.op2, bits);
    case ORRWri | ORRXri | ANDXri | EORXri => MaskOnly(i, imm, bits);
    case ORRXrs | EORXrs | EONXrs => ShiftedOnly(i, imm);
  }

  lemma MoveZero(c: Word, s: nat, imm: Word, bits: nat)
    requires (bits == 32 || bits == 64) && IsChunk(c) && ChunkShift(s, bits) && Shl(c, s) == Target(imm, bits)
    ensures SingleMove(imm, bits)
  {
    hide Logical, Remaining, Shl;
    forall i | 0 <= i < bits && !(s <= i < s + 16) ensures imm[i] == false {
      assert Shl(c, s)[i] == Target(imm, bits)[i];
    }
    OneChunkRemains(imm, bits, s, false);
  }

  lemma MoveNot(c: Word, s: nat, imm: Word, bits: nat)
    requires (bits == 32 || bits == 64) && IsChunk(c) && ChunkShift(s, bits)
    requires Target(imm, bits) == if bits == 32 then And(Not(Shl(c, s)), Ones(32)) else Not(Shl(c, s))
    ensures SingleMove(imm, bits)
  {
    hide Logical, Remaining, Shl, Not;
    forall i | 0 <= i < bits && !(s <= i < s + 16) ensures imm[i] == true {
      assert Target(imm, bits)[i] == Not(Shl(c, s))[i];
    }
    OneChunkRemains(imm, bits, s, true);
  }

  // A MOVK keeps a bit of the register.
  lemma MoveKeepReads(c: Word, s: nat, bits: nat)
    requires (bits == 32 || bits == 64) && IsChunk(c) && ChunkShift(s, bits)
    ensures Insert(ZERO, c, s) != Insert(Not(ZERO), c, s)
    ensures bits == 32 ==> And(Insert(ZERO, c, s), Ones(32)) != And(Insert(Not(ZERO), c, s), Ones(32))
  {
    var k := if s == 0 then 16 else 0;
    assert !Insert(ZERO, c, s)[k] && Insert(Not(ZERO), c, s)[k];
    assert bits == 32 ==> !And(Insert(ZERO, c, s), Ones(32))[k] && And(Insert(Not(ZERO), c, s), Ones(32))[k];
  }

  // A bitmask is neither zero nor all ones, at its width.
  lemma MaskIsMixed(x: Word, width: nat)
    requires (width == 32 || width == 64) && Logical(x, width)
    ensures exists i, j | 0 <= i < width && 0 <= j < width :: x[i] && !x[j]
    ensures width == 32 ==> And(x, Ones(32)) == x
  {
    var p: nat, n: nat, r: nat :| IsPattern(x, width, p, n, r);
    assert x[r];
    var e := if r == 0 then p - 1 else r - 1;
    assert InRun(p, n, r, e) <==> r + n - p > e || r + n > e >= r;
    var z := if r + n < p then r + n else r + n - p;
    assert !InRun(p, n, r, z) && z < p;
    assert !x[z];
  }

  lemma MaskOnly(i: ImmInsn, imm: Word, bits: nat)
    requires (bits == 32 || bits == 64) && OfWidth(i, bits) && Encodable(i)
    requires i.opcode.ORRWri? || i.opcode.ORRXri? || i.opcode.ANDXri? || i.opcode.EORXri?
    requires Exec(i, ZERO) == Target(imm, bits) == Exec(i, Not(ZERO))
    ensures SingleMove(imm, bits)
  {
    hide Logical, Remaining, DecodeBitMasks, IsPattern, ValidEncoding;
    var m := DecodeBitMasks(i.op2, bits);
    assert Logical(m, bits) by { DecodedIsLogical(i.op2, bits); }
    MaskIsMixed(m, bits);
    var k, z :| 0 <= k < bits && 0 <= z < bits && m[k] && !m[z];
    if i.op1 != ZERO {
      MaskedBits(i, m, if i.opcode.ANDXri? then k else z);
    } else if i.opcode.ANDXri? {
      ZeroIsSingle(imm, bits, And(ZERO, m));
    } else {
      assert And(Or(ZERO, m), Ones(32)) == And(m, Ones(32)) && Or(ZERO, m) == m && Xor(ZERO, m) == m;
    }
  }

  lemma DecodedIsLogical(enc: nat, width: nat)
    requires (width == 32 || width == 64) && ValidEncoding(enc, width)
    ensures Logical(DecodeBitMasks(enc, width), width)
  {
    hide DecodeBitMasks, IsPattern, ValidEncoding;
    var p := DecodedIsPattern(enc, width);
  }

  // Reading the register, the result shows the register at a set or at a clear bit of the mask.
  lemma MaskedBits(i: ImmInsn, m: Word, k: nat)
    requires Encodable(i) && k < 64
    requires i.opcode.ORRWri? || i.opcode.ORRXri? || i.opcode.ANDXri? || i.opcode.EORXri?
    requires m == DecodeBitMasks(i.op2, if i.opcode.ORRWri? then 32 else 64)
    requires i.op1 != ZERO && (i.opcode.ORRWri? ==> k < 32)
    requires i.opcode.EORXri? || m[k] == i.opcode.ANDXri?
    ensures Exec(i, ZERO)[k] != Exec(i, Not(ZERO))[k]
  {
    hide DecodeBitMasks, ValidEncoding;
  }

  lemma ZeroIsSingle(imm: Word, bits: nat, z: Word)
    requires (bits == 32 || bits == 64) && Target(imm, bits) == z && forall i | 0 <= i < 64 :: !z[i]
    ensures SingleMove(imm, bits)
  {
    hide Logical, Remaining;
    forall i | 0 <= i < bits && !(0 <= i < 16) ensures imm[i] == false { assert !Target(imm, bits)[i]; }
    OneChunkRemains(imm, bits, 0, false);
  }

  // Only the shift by zero hides the register, and it leaves zero or all ones.
  lemma ShiftedOnly(i: ImmInsn, imm: Word)
    requires Encodable(i) && (i.opcode.ORRXrs? || i.opcode.EORXrs? || i.opcode.EONXrs?)
    requires Exec(i, ZERO) == imm == Exec(i, Not(ZERO))
    ensures SingleMove(imm, 64)
  {
    hide Logical, Remaining;
    var u := Exec(i, ZERO);
    assert Exec(i, Not(ZERO))[0] == u[0];
    if i.opcode.EORXrs? {
      ZeroIsSingle(imm, 64, u);
    } else {
      assert i.opcode.EONXrs?;
      OneChunkRemains(imm, 64, 0, true);
    }
  }

  // ----- A 64-bit ORR followed by one MOVK -----

  // UImm & ~ShiftedMask, UImm | ShiftedMask, and the chunk taken from the other half.
  function ZeroChunk(imm: Word, k: nat): Word requires k < 4 { And(imm, Not(Shl(Ones(16), 16 * k))) }
  function OneChunk(imm: Word, k: nat): Word requires k < 4 { Or(imm, Shl(Ones(16), 16 * k)) }
  function ReplicateChunk(imm: Word, k: nat): Word
    requires k < 4
  {
    Or(ZeroChunk(imm, k), And(Rotl(imm, 32), Shl(Ones(16), 16 * k)))
  }

  lemma OnlyOneChunkDiffers(imm: Word, k: nat)
    requires k < 4
    ensures AgreeElsewhere(ZeroChunk(imm, k), imm, k)
    ensures AgreeElsewhere(OneChunk(imm, k), imm, k)
    ensures AgreeElsewhere(ReplicateChunk(imm, k), imm, k)
  {
    hide And, Or, Not, Shl, Rotl, Ones, Span;
  }

  ghost predicate OrrMovk(code: seq<ImmInsn>) {
    |code| == 2 && code[0].opcode.ORRXri? && code[0].op1 == ZERO && code[1].opcode.MOVKXi?
  }

  ghost predicate OrrMovkBuilds(imm: Word) {
    exists code :: OrrMovk(code) && Builds(code, imm)
  }

  // The ORR of such a pair leaves a bitmask that differs from the value in one chunk only.
  lemma OrrMovkLeaves(code: seq<ImmInsn>, imm: Word) returns (x: Word, k: nat)
    requires OrrMovk(code) && Builds(code, imm)
    ensures Logical(x, 64) && k < 4 && AgreeElsewhere(x, imm, k)
  {
    hide Logical, DecodeBitMasks, ValidEncoding, Insert;
    assert code[..2] == code && code[..1][..0] == [] && code[..1][0] == code[0];
    x, k := DecodeBitMasks(code[0].op2, 64), code[1].op2 / 16;
    DecodedIsLogical(code[0].op2, 64);
    assert Or(ZERO, x) == x;
    assert Run(code[..1], ZERO) == x;
    assert Run(code, ZERO) == Insert(x, code[1].op1, code[1].op2);
  }

  // A value that repeats within half the word has the chunk in its other half.
  lemma RepeatedFill(x: Word, imm: Word, k: nat)
    requires k < 4 && AgreeElsewhere(x, imm, k) && Periodic(x, 32, 64)
    ensures ReplicateChunk(imm, k) == x
  {
    hide Periodic;
    var y := ReplicateChunk(imm, k);
    var mask, half := Shl(Ones(16), 16 * k), Rotl(imm, 32);
    forall i | 0 <= i < 64 ensures y[i] == x[i] {
      OtherHalf(x, i);
      assert mask[i] <==> 16 * k <= i < 16 * k + 16;
    }
  }

  lemma OtherHalf(x: Word, i: nat)
    requires i < 64 && Periodic(x, 32, 64)
    ensures x[i] == x[if i < 32 then i + 32 else i - 32]
  {
    assert Back(x, if i < 32 then i + 32 else i, 32);
  }

  predicate InChunk(a: nat, i: nat) {
    a <= i < a + 16
  }

  // The run of n ones from r without its part in the chunk at a.
  function Cleared(n: nat, r: nat, a: nat): (int, nat) {
    var from := if r >= a then r - a else r + 64 - a;   // the run's start, counted from the chunk's
    if from >= 16 then (64 - from, r)
    else (if from + n <= 64 then from + n - 16 else 48, if a == 48 then 0 else a + 16)
  }

  lemma ClearedBits(n: nat, r: nat, a: nat)
    requires 1 <= n < 64 && r < 64 && a in {0, 16, 32, 48}
    requires exists i: nat | i < 64 && !InChunk(a, i) :: InRun(64, n, r, i)
    requires exists i: nat | i < 64 && InChunk(a, i) :: InRun(64, n, r, i)
    requires exists i: nat | i < 64 && InChunk(a, i) :: !InRun(64, n, r, i)
    ensures 1 <= Cleared(n, r, a).0 < 64 && Cleared(n, r, a).1 < 64
    ensures forall i: nat | i < 64 ::
      InRun(64, Cleared(n, r, a).0, Cleared(n, r, a).1, i) <==> InRun(64, n, r, i) && !InChunk(a, i)
  {
    var o: nat :| o < 64 && !InChunk(a, o) && InRun(64, n, r, o);
    var y: nat :| y < 64 && InChunk(a, y) && InRun(64, n, r, y);
    var z: nat :| z < 64 && InChunk(a, z) && !InRun(64, n, r, z);
    var c := Cleared(n, r, a);
    assert 1 <= c.0 < 64 && c.1 < 64;
    forall i: nat | i < 64
      ensures InRun(64, c.0, c.1, i) <==> InRun(64, n, r, i) && !InChunk(a, i)
    {
    }
  }

  lemma WordPattern(x: Word, n: nat, r: nat)
    requires 1 <= n < 64 && r < 64 && forall i: nat | i < 64 :: x[i] == InRun(64, n, r, i)
    ensures Logical(x, 64)
  {
    assert IsPattern(x, 64, 64, n, r);
  }

  // The three fills, bit by bit.
  lemma FillBits(imm: Word, k: nat)
    requires k < 4
    ensures forall i: nat | i < 64 :: ZeroChunk(imm, k)[i] == (imm[i] && !InChunk(16 * k, i))
    ensures forall i: nat | i < 64 :: OneChunk(imm, k)[i] == (imm[i] || InChunk(16 * k, i))
  {
  }

  // One run of ones around the word stays one when a chunk it enters or leaves is cleared, unless it
  // lies within the chunk; then setting the chunk makes it longer.
  lemma RunFill(x: Word, imm: Word, k: nat, n: nat, r: nat)
    requires k < 4 && AgreeElsewhere(x, imm, k) && IsPattern(x, 64, 64, n, r)
    ensures Logical(ZeroChunk(imm, k), 64) || Logical(OneChunk(imm, k), 64)
  {
    var none, all := ZeroChunk(imm, k), OneChunk(imm, k);
    FillBits(imm, k);
    hide ZeroChunk, OneChunk, Logical, Periodic, InRun, IsPattern, Cleared;
    var a := 16 * k;
    assert forall i: nat | i < 64 :: x[i] == InRun(64, n, r, i) by { RunBits(x, n, r); }
    if forall i: nat | i < 64 && InChunk(a, i) :: InRun(64, n, r, i) {
      assert all == x;
      assert Logical(x, 64) by { WordPattern(x, n, r); }
    } else if forall i: nat | i < 64 && InChunk(a, i) :: !InRun(64, n, r, i) {
      assert none == x;
      assert Logical(x, 64) by { WordPattern(x, n, r); }
    } else if forall i: nat | i < 64 && !InChunk(a, i) :: !InRun(64, n, r, i) {
      ChunkRun(a);
      WordPattern(all, 16, a);
    } else {
      ClearedBits(n, r, a);
      WordPattern(none, Cleared(n, r, a).0, Cleared(n, r, a).1);
    }
  }

  lemma RunBits(x: Word, n: nat, r: nat)
    requires IsPattern(x, 64, 64, n, r)
    ensures 1 <= n < 64 && r < 64
    ensures forall i: nat | i < 64 :: x[i] == InRun(64, n, r, i)
  {
  }

  lemma ChunkRun(a: nat)
    requires a <= 48
    ensures forall i: nat | i < 64 :: InRun(64, 16, a, i) <==> InChunk(a, i)
  {
  }

  // Whatever an ORR and a MOVK can build, one of the three fills is a bitmask.
  lemma FillsSuffice(x: Word, imm: Word, k: nat)
    requires Logical(x, 64) && k < 4 && AgreeElsewhere(x, imm, k)
    ensures Logical(ZeroChunk(imm, k), 64) || Logical(OneChunk(imm, k), 64) || Logical(ReplicateChunk(imm, k), 64)
  {
    hide ZeroChunk, OneChunk, ReplicateChunk, Periodic, AgreeElsewhere;
    var p: nat, n: nat, r: nat :| IsPattern(x, 64, p, n, r);
    if p == 64 {
      RunFill(x, imm, k, n, r);
    } else {
      PeriodicUp(x, 64, p, 32);
      RepeatedFill(x, imm, k);
    }
  }
}
