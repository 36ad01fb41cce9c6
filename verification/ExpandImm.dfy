/** AArch64_IMM::expandMOVImm: the search, in the source's order, for a short sequence that
    materializes an immediate. */
module ExpandImm {
  import opened Options
  import opened Words
  import opened LogicalImm
  import opened ImmInsns
  import opened ExpandSimple
  import opened OrrDecomposition
  import opened ExpandStrategies
  import opened SequenceOfOnes
  import opened EorStrategies
  import opened ShortMoves

  // A chunk equals 0xFFFF or 0 exactly when all its bits are v.
  lemma ChunkIsUniformAt(imm: Word, k: nat, v: bool)
    requires k < 4
    ensures GetChunk(imm, k) == (if v then Ones(16) else ZERO) <==> UniformChunk(imm, k, v)
  {
    hide GetChunk, Ones, Span;
    var c, u := GetChunk(imm, k), if v then Ones(16) else ZERO;
    if c == u {
      forall i | 16 * k <= i < 16 * k + 16 ensures imm[i] == v {
        assert c[i - 16 * k] == imm[16 * k + (i - 16 * k)];
      }
    }
    if UniformChunk(imm, k, v) {
      forall i | 0 <= i < 64 ensures c[i] == u[i] {
        if i < 16 { assert c[i] == imm[16 * k + i]; }
      }
    }
  }

  method CountUniformChunks(imm: Word, bits: nat) returns (oneChunks: nat, zeroChunks: nat)
    requires bits == 32 || bits == 64
    ensures oneChunks + Remaining(imm, bits / 16, true) == bits / 16
    ensures zeroChunks + Remaining(imm, bits / 16, false) == bits / 16
    ensures oneChunks + zeroChunks <= bits / 16
  {
    hide GetChunk, Ones, UniformChunk;
    oneChunks, zeroChunks := 0, 0;
    assert Ones(16) != ZERO by { MaskIsNotZero(); }
    for k := 0 to bits / 16
      invariant oneChunks + Remaining(imm, k, true) == k
      invariant zeroChunks + Remaining(imm, k, false) == k
      invariant oneChunks + zeroChunks <= k
    {
      var chunk := GetChunk(imm, k);
      ChunkIsUniformAt(imm, k, true);
      ChunkIsUniformAt(imm, k, false);
      if chunk == Ones(16) {
        oneChunks := oneChunks + 1;
      } else if chunk == ZERO {
        zeroChunks := zeroChunks + 1;
      }
    }
  }

  lemma MaskIsNotZero()
    ensures Ones(16) != ZERO
  {
    assert Ones(16)[0] && !ZERO[0];
  }

  method TryOrrMovk(imm: Word, insn: InsnVector) returns (ok: bool)
    requires insn.insns == []
    modifies insn
    ensures ok ==> Builds(insn.insns, imm) && |insn.insns| == 2
    ensures !ok ==> insn.insns == []
    ensures ok <==> OrrMovkBuilds(imm)
  {
    hide *;
    for k := 0 to 4
      invariant insn.insns == []
      invariant forall j | 0 <= j < k :: !SomeFill(imm, j)
    {
      var x := ZeroChunk(imm, k);
      var enc := ProcessLogicalImmediate(x, 64);
      if enc.None? {
        x := OneChunk(imm, k);
        enc := ProcessLogicalImmediate(x, 64);
        if enc.None? {
          x := ReplicateChunk(imm, k);
          enc := ProcessLogicalImmediate(x, 64);
        }
      }
      if enc.Some? {
        OrrBuilds(enc.value, x);
        insn.PushBack(ORRXri, ZERO, enc.value);
        assert insn.insns == [ImmInsn(ORRXri, ZERO, enc.value)];
        OnlyOneChunkDiffers(imm, k);
        InsertRepairs(x, imm, k);
        RepairBuilds(insn.insns, x, imm, k);
        insn.PushBack(MOVKXi, GetChunk(imm, k), 16 * k);
        IsOrrMovk(insn.insns, imm);
        return true;
      }
      NoFill(imm, k);
    }
    NoOrrMovk(imm);
    return false;
  }

  ghost predicate SomeFill(imm: Word, k: nat)
    requires k < 4
  {
    Logical(ZeroChunk(imm, k), 64) || Logical(OneChunk(imm, k), 64) || Logical(ReplicateChunk(imm, k), 64)
  }

  lemma NoFill(imm: Word, k: nat)
    requires k < 4 && !Logical(ZeroChunk(imm, k), 64) && !Logical(OneChunk(imm, k), 64)
    requires !Logical(ReplicateChunk(imm, k), 64)
    ensures !SomeFill(imm, k)
  {
  }

  lemma IsOrrMovk(code: seq<ImmInsn>, imm: Word)
    requires |code| == 2 && code[0].opcode.ORRXri? && code[0].op1 == ZERO && code[1].opcode.MOVKXi?
    requires Builds(code, imm)
    ensures OrrMovkBuilds(imm)
  {
    hide Builds;
    assert OrrMovk(code);
  }

  // The three fills are comprehensive.
  lemma OrrMovkFills(imm: Word) returns (k: nat)
    requires OrrMovkBuilds(imm)
    ensures k < 4 && SomeFill(imm, k)
  {
    hide Builds, Logical, ZeroChunk, OneChunk, ReplicateChunk, AgreeElsewhere;
    var code :| OrrMovk(code) && Builds(code, imm);
    var x;
    x, k := OrrMovkLeaves(code, imm);
    FillsSuffice(x, imm, k);
  }

  lemma NoOrrMovk(imm: Word)
    requires forall k | 0 <= k < 4 :: !SomeFill(imm, k)
    ensures !OrrMovkBuilds(imm)
  {
    hide *;
    if OrrMovkBuilds(imm) {
      var k := OrrMovkFills(imm);
    }
  }

  // A single ORR, for either width.
  lemma SingleOrr(imm: Word, bits: nat, enc: nat)
    requires (bits == 32 || bits == 64) && ValidEncoding(enc, bits) && DecodeBitMasks(enc, bits) == Target(imm, bits)
    ensures Builds([ImmInsn(if bits == 32 then ORRWri else ORRXri, ZERO, enc)], Target(imm, bits))
  {
    hide Builds, DecodeBitMasks;
    var i := ImmInsn(if bits == 32 then ORRWri else ORRXri, ZERO, enc);
    BuildsFirst(i);
    var t := Target(imm, bits);
    assert Or(ZERO, t) == t;
    if bits == 32 { assert And(t, Ones(32)) == t; }
  }

  method TrySingleOrr(imm: Word, bits: nat, insn: InsnVector) returns (ok: bool)
    requires (bits == 32 || bits == 64) && insn.insns == []
    modifies insn
    ensures ok <==> Logical(Target(imm, bits), bits)
    ensures ok ==> Builds(insn.insns, Target(imm, bits)) && |insn.insns| == 1
    ensures !ok ==> insn.insns == []
  {
    hide *;
    var uimm := Target(imm, bits);   // Imm << (64 - BitSize) >> (64 - BitSize)
    var enc := ProcessLogicalImmediate(uimm, bits);
    if enc.None? {
      return false;
    }
    SingleOrr(imm, bits, enc.value);
    var opc := if bits == 32 then ORRWri else ORRXri;
    insn.PushBack(opc, ZERO, enc.value);
    assert insn.insns == [ImmInsn(opc, ZERO, enc.value)];
    return true;
  }

  lemma NotLogicalIsMixed(imm: Word, chunks: nat, v: bool)
    requires chunks + Remaining(imm, 4, v) == 4 && chunks < 4
    ensures imm != if v then Not(ZERO) else ZERO
  {
    if imm == if v then Not(ZERO) else ZERO {
      forall c | 0 <= c < 4 ensures UniformChunk(imm, c, v) {}
      RemainingUniform(imm, 0, 4, v);
    }
  }

  // The pairs of instructions the search is complete for, besides a move and one MOVK.
  ghost predicate TwoMasks(imm: Word) {
    OrrMovkBuilds(imm) || OrPair(imm) || AndPair(imm) || EorPair(imm)
  }

  // One MOVN and an exclusive-or with its own shifted copy.
  ghost predicate CopyPair(imm: Word) {
    exists n, eon, c :: CopyBuilds(imm, false, n, eon, c)
  }

  // What three instructions are known to build: two or three equal chunks that make a logical immediate, a run of
  // ones that starts in one chunk and ends in another, a MOVN and a MOVK with a copy, or two equal halves.
  ghost predicate ThreeInsns(imm: Word) {
    || (exists c :: 2 <= Occurrences(imm, c, 4) <= 3 && IsChunk(c) && Logical(Replicated(c), 64))
    || (exists s, e | 0 <= s < 4 && 0 <= e < 4 :: Starts(imm, s) && Ends(imm, e) && !Starts(imm, e))
    || (exists n, eon, c :: CopyBuilds(imm, true, n, eon, c))
    || EqualHalves(imm)
  }

  lemma FormsAre(imm: Word)
    ensures CopyPair(imm) <==> exists n, eon, c :: CopyBuilds(imm, false, n, eon, c)
    ensures ThreeInsns(imm) <==>
      || (exists c :: 2 <= Occurrences(imm, c, 4) <= 3 && IsChunk(c) && Logical(Replicated(c), 64))
      || (exists s, e | 0 <= s < 4 && 0 <= e < 4 :: Starts(imm, s) && Ends(imm, e) && !Starts(imm, e))
      || (exists n, eon, c :: CopyBuilds(imm, true, n, eon, c))
      || EqualHalves(imm)
  {
    hide CopyBuilds, Occurrences, Logical, Starts, Ends, EqualHalves;
  }

  // A value that is one run of ones is a logical immediate, so the copy strategy need not look at it.
  lemma OneRunIsLogical(imm: Word)
    requires imm != Not(ZERO) && IsShiftedMask(imm)
    ensures Logical(imm, 64)
  {
    hide IsShiftedMask, IsMask;
    ShiftedMaskIsSpan(imm);
    var lo, n := CountrZero(imm), CountrOne(Shr(imm, CountrZero(imm)));
    assert Span(0, 64) == Not(ZERO);
    if lo > 0 {
      SpanIsPattern(lo, lo + n);
    } else {
      assert IsPattern(imm, 64, 64, n, 0);
    }
  }

  lemma TwoMasksIs(imm: Word)
    ensures TwoMasks(imm) <==> OrrMovkBuilds(imm) || OrPair(imm) || AndPair(imm) || EorPair(imm)
  {
    hide OrrMovkBuilds, OrPair, AndPair, EorPair;
  }

  method ExpandMOVImm(imm: Word, bits: nat, insn: InsnVector)
    requires (bits == 32 || bits == 64) && insn.insns == []
    modifies insn
    ensures Builds(insn.insns, Target(imm, bits))
    ensures 1 <= |insn.insns| <= if bits == 32 then 2 else 4
    ensures |insn.insns| == 1 <==> SingleMove(imm, bits)
    ensures |insn.insns| <= PlainLength(imm, bits)
    ensures bits == 64 && (TwoMasks(imm) || CopyPair(imm)) ==> |insn.insns| <= 2
    ensures bits == 64 && ThreeInsns(imm) ==> |insn.insns| <= 3
  {
    hide *;
    SingleMoveIs(imm, bits);
    PlainLengthIs(imm, bits);
    var oneChunks, zeroChunks := CountUniformChunks(imm, bits);
    var n := bits / 16;
    if n - oneChunks <= 1 || n - zeroChunks <= 1 {
      ExpandMOVImmSimple(imm, bits, oneChunks, zeroChunks, insn);
      assert |insn.insns| == 1;
      return;
    }
    var ok := TrySingleOrr(imm, bits, insn);
    if ok { return; }
    if oneChunks >= n - 2 || zeroChunks >= n - 2 {
      ExpandMOVImmSimple(imm, bits, oneChunks, zeroChunks, insn);
      return;
    }
    assert bits == 64;
    TargetIs64(imm);
    ExpandLonger(imm, oneChunks, zeroChunks, insn);
  }

  function Max(a: nat, b: nat): (m: nat)
    ensures m >= a && m >= b && (m == a || m == b)
  {
    if a < b then b else a
  }

  // The length of the better of the two plain expansions.
  function PlainLength(imm: Word, bits: nat): nat
    requires bits == 32 || bits == 64
  {
    var zeros, ones := Remaining(imm, bits / 16, false), Remaining(imm, bits / 16, true);
    Max(1, if ones < zeros then ones else zeros)
  }

  lemma PlainLengthIs(imm: Word, bits: nat)
    requires bits == 32 || bits == 64
    ensures var zeros, ones := Remaining(imm, bits / 16, false), Remaining(imm, bits / 16, true);
            PlainLength(imm, bits) == Max(1, if ones < zeros then ones else zeros)
  {
    hide Remaining;
  }

  lemma SingleMoveIs(imm: Word, bits: nat)
    requires bits == 32 || bits == 64
    ensures SingleMove(imm, bits) <==>
      || Remaining(imm, bits / 16, false) <= 1
      || Remaining(imm, bits / 16, true) <= 1
      || Logical(Target(imm, bits), bits)
  {
    hide Remaining, Logical;
  }

  lemma TargetIs64(imm: Word)
    ensures Target(imm, 64) == imm
  {
  }

  // The two-, three- and four-instruction sequences for a 64-bit value.
  method ExpandLonger(imm: Word, oneChunks: nat, zeroChunks: nat, insn: InsnVector)
    requires insn.insns == [] && !Logical(imm, 64)
    requires oneChunks + Remaining(imm, 4, true) == 4 && oneChunks < 2
    requires zeroChunks + Remaining(imm, 4, false) == 4 && zeroChunks < 2
    modifies insn
    ensures Builds(insn.insns, imm) && 2 <= |insn.insns| <= 4
    ensures |insn.insns| <= PlainLength(imm, 64)
    ensures TwoMasks(imm) || CopyPair(imm) ==> |insn.insns| == 2
    ensures ThreeInsns(imm) ==> |insn.insns| <= 3
  {
    hide *;
    FormsAre(imm);
    PlainLengthIs(imm, 64);
    NotLogicalIsMixed(imm, oneChunks, true);
    NotLogicalIsMixed(imm, zeroChunks, false);
    if IsShiftedMask(imm) { OneRunIsLogical(imm); }
    TwoMasksIs(imm);
    var ok := TryOrrMovk(imm, insn);
    if ok { return; }
    ok := TryOrrOfLogicalImmediates(imm, insn);
    if ok { return; }
    ok := TryAndOfLogicalImmediates(imm, insn);
    if ok { return; }
    ok := TryEorOfLogicalImmediates(imm, insn);
    if ok { return; }
    ok := TryCopyWithNegation(imm, false, insn);
    if ok { return; }
    TargetIs64(imm);
    if oneChunks != 0 || zeroChunks != 0 {
      ExpandMOVImmSimple(imm, 64, oneChunks, zeroChunks, insn);
      return;
    }
    ok := TryToReplicateChunks(imm, insn);
    if ok { return; }
    ok := TrySequenceOfOnes(imm, insn);
    if ok { return; }
    ok := TryCopyWithNegation(imm, true, insn);
    if ok { return; }
    ExpandMOVImmSimple(imm, 64, oneChunks, zeroChunks, insn);
  }
}
