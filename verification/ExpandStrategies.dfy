/** The two- and three-instruction strategies of AArch64ExpandImm.cpp. Each of them either
    leaves the vector empty or fills it with a sequence that builds the immediate. */
module ExpandStrategies {
  import opened Options
  import opened Words
  import opened LogicalImm
  import opened ImmInsns
  import opened OrrDecomposition

  // ----- Single steps -----

  lemma OrrBuilds(enc: nat, v: Word)
    requires ValidEncoding(enc, 64) && DecodeBitMasks(enc, 64) == v
    ensures Builds([ImmInsn(ORRXri, ZERO, enc)], v)
  {
    hide Builds, Or, DecodeBitMasks;
    BuildsFirst(ImmInsn(ORRXri, ZERO, enc));
    assert Or(ZERO, v) == v;
  }

  lemma OneIsNotZero()
    ensures ONE != ZERO
  {
    assert ONE[0] && !ZERO[0];
  }

  // The second logical immediate of a pair reads the destination register.
  lemma SecondLogical(code: seq<ImmInsn>, x: Word, op: Opcode, enc: nat, v: Word)
    requires Builds(code, x) && ValidEncoding(enc, 64) && DecodeBitMasks(enc, 64) == v
    requires op == ORRXri || op == ANDXri || op == EORXri
    ensures Builds(code + [ImmInsn(op, ONE, enc)],
                   if op == ORRXri then Or(x, v) else if op == ANDXri then And(x, v) else Xor(x, v))
  {
    hide Builds, DecodeBitMasks;
    OneIsNotZero();
    BuildsNext(code, x, ImmInsn(op, ONE, enc));
  }

  lemma MovkBuilds(code: seq<ImmInsn>, x: Word, c: Word, idx: nat)
    requires Builds(code, x) && idx < 4 && IsChunk(c)
    ensures Builds(code + [ImmInsn(MOVKXi, c, 16 * idx)], Insert(x, c, 16 * idx))
  {
    hide Builds;
    BuildsNext(code, x, ImmInsn(MOVKXi, c, 16 * idx));
  }

  lemma RepairBuilds(code: seq<ImmInsn>, x: Word, v: Word, idx: nat)
    requires Builds(code, x) && idx < 4
    ensures IsChunk(GetChunk(v, idx))
    ensures Builds(code + [ImmInsn(MOVKXi, GetChunk(v, idx), 16 * idx)], Repair(x, v, idx))
  {
    hide Builds, Insert;
    MovkBuilds(code, x, GetChunk(v, idx), idx);
  }

  // ----- Words as four chunks -----

  lemma ChunksDecide(x: Word, y: Word)
    requires forall k | 0 <= k < 4 :: GetChunk(x, k) == GetChunk(y, k)
    ensures x == y
  {
    forall i | 0 <= i < 64 ensures x[i] == y[i] {
      var k := i / 16;
      assert GetChunk(x, k)[i - 16 * k] == GetChunk(y, k)[i - 16 * k];
    }
  }

  lemma RepairChunk(x: Word, v: Word, idx: nat, k: nat)
    requires idx < 4 && k < 4
    ensures GetChunk(Repair(x, v, idx), k) == if k == idx then GetChunk(v, idx) else GetChunk(x, k)
  {
    hide GetChunk, Insert;
    var c := GetChunk(v, idx);
    var y := Repair(x, v, idx);
    var g := GetChunk(y, k);
    var e := if k == idx then c else GetChunk(x, k);
    forall i | 0 <= i < 64 ensures g[i] == e[i] {
      if i < 16 { assert g[i] == y[16 * k + i]; }
    }
  }

  // ----- ORR / ORR, ORR / AND -----

  method TryOrrOfLogicalImmediates(imm: Word, insn: InsnVector) returns (ok: bool)
    requires !Logical(imm, 64) && insn.insns == []
    modifies insn
    ensures ok ==> Builds(insn.insns, imm) && |insn.insns| == 2
    ensures !ok ==> insn.insns == []
    ensures ok <==> OrPair(imm) && imm != Not(ZERO)
  {
    hide Builds, Or, DecodeBitMasks, Logical, OrPair;
    DoubleNot(imm);
    DoubleNot(ZERO);
    var d := DecomposeIntoOrrOfLogicalImmediates(imm);
    if d.None? {
      return false;
    }
    var (imm1, imm2) := d.value;
    var e1 := ProcessLogicalImmediate(imm1, 64);
    var e2 := ProcessLogicalImmediate(imm2, 64);
    if e1.Some? && e2.Some? {
      OrrBuilds(e1.value, imm1);
      SecondLogical([ImmInsn(ORRXri, ZERO, e1.value)], imm1, ORRXri, e2.value, imm2);
      insn.PushBack(ORRXri, ZERO, e1.value);
      insn.PushBack(ORRXri, ONE, e2.value);
      assert insn.insns == [ImmInsn(ORRXri, ZERO, e1.value)] + [ImmInsn(ORRXri, ONE, e2.value)];
      return true;
    }
    return false;
  }

  lemma DeMorgan(imm: Word, a: Word, b: Word)
    requires Or(a, b) == Not(imm)
    ensures And(Not(a), Not(b)) == imm
  {
    forall i | 0 <= i < 64 ensures And(Not(a), Not(b))[i] == imm[i] {
      assert Or(a, b)[i] == Not(imm)[i];
    }
  }

  lemma ComplementNotLogical(imm: Word)
    requires !Logical(imm, 64)
    ensures !Logical(Not(imm), 64)
  {
    hide Logical;
    if Logical(Not(imm), 64) {
      NotLogical(Not(imm));
      DoubleNot(imm);
    }
  }

  lemma DoubleNot(imm: Word)
    ensures Not(Not(imm)) == imm
  {
  }

  // imm is the AND of two bitmask immediates.
  ghost predicate AndPair(imm: Word) {
    exists a: Word, b: Word :: Logical(a, 64) && Logical(b, 64) && And(a, b) == imm
  }

  lemma AndPairIsOrPair(imm: Word)
    ensures AndPair(imm) <==> OrPair(Not(imm))
  {
    hide Logical;
    if AndPair(imm) {
      var a: Word, b: Word :| Logical(a, 64) && Logical(b, 64) && And(a, b) == imm;
      NotLogical(a);
      NotLogical(b);
      assert Or(Not(a), Not(b)) == Not(imm);
    }
    if OrPair(Not(imm)) {
      var a: Word, b: Word :| Logical(a, 64) && Logical(b, 64) && Or(a, b) == Not(imm);
      NotLogical(a);
      NotLogical(b);
      DeMorgan(imm, a, b);
    }
  }

  method TryAndOfLogicalImmediates(imm: Word, insn: InsnVector) returns (ok: bool)
    requires !Logical(imm, 64) && insn.insns == []
    modifies insn
    ensures ok ==> Builds(insn.insns, imm) && |insn.insns| == 2
    ensures !ok ==> insn.insns == []
    ensures ok <==> AndPair(imm) && imm != ZERO
  {
    hide Builds, Or, And, Not, DecodeBitMasks, Logical, OrPair, AndPair;
    ComplementNotLogical(imm);
    AndPairIsOrPair(imm);
    DoubleNot(imm);
    var d := DecomposeIntoOrrOfLogicalImmediates(Not(imm));
    if d.None? {
      return false;
    }
    var (imm1, imm2) := d.value;
    NotLogical(imm1);
    NotLogical(imm2);
    var e1 := ProcessLogicalImmediate(Not(imm1), 64);
    var e2 := ProcessLogicalImmediate(Not(imm2), 64);
    if e1.Some? && e2.Some? {
      OrrBuilds(e1.value, Not(imm1));
      SecondLogical([ImmInsn(ORRXri, ZERO, e1.value)], Not(imm1), ANDXri, e2.value, Not(imm2));
      DeMorgan(imm, imm1, imm2);
      insn.PushBack(ORRXri, ZERO, e1.value);
      insn.PushBack(ANDXri, ONE, e2.value);
      assert insn.insns == [ImmInsn(ORRXri, ZERO, e1.value)] + [ImmInsn(ANDXri, ONE, e2.value)];
      return true;
    }
    return false;
  }

  // ----- Replicated chunks -----

  // (Chunk << 48) | (Chunk << 32) | (Chunk << 16) | Chunk
  function Replicated(c: Word): Word {
    Or(Or(Or(Shl(c, 48), Shl(c, 32)), Shl(c, 16)), c)
  }

  lemma ReplicatedChunk(c: Word, k: nat)
    requires IsChunk(c) && k < 4
    ensures GetChunk(Replicated(c), k) == c
  {
    hide GetChunk;
    var g := GetChunk(Replicated(c), k);
    forall i | 0 <= i < 64 ensures g[i] == c[i] {
      if i < 16 { assert g[i] == Replicated(c)[16 * k + i]; }
    }
  }

  method CanUseOrr(c: Word) returns (enc: Option<nat>)
    ensures enc.Some? <==> Logical(Replicated(c), 64)
    ensures enc.Some? ==> ValidEncoding(enc.value, 64) && DecodeBitMasks(enc.value, 64) == Replicated(c)
  {
    hide Logical, Replicated;
    enc := ProcessLogicalImmediate(Replicated(c), 64);
  }

  function Bump(m: map<Word, nat>, c: Word): map<Word, nat> {
    m[c := (if c in m then m[c] else 0) + 1]
  }

  function CountOf(m: map<Word, nat>, c: Word): nat {
    if c in m then m[c] else 0
  }

  function Occurrences(imm: Word, c: Word, n: nat): nat
    requires n <= 4
  {
    if n == 0 then 0 else Occurrences(imm, c, n - 1) + if GetChunk(imm, n - 1) == c then 1 else 0
  }

  // First index at or after `from` whose chunk is not c, 4 when there is none.
  function NextOther(imm: Word, c: Word, from: nat): (k: nat)
    requires from <= 4
    ensures from <= k <= 4
    ensures k < 4 ==> GetChunk(imm, k) != c
    ensures forall j | from <= j < k :: GetChunk(imm, j) == c
    decreases 4 - from
  {
    if from == 4 || GetChunk(imm, from) != c then from else NextOther(imm, c, from + 1)
  }

  lemma OccurrencesOthers(imm: Word, c: Word)
    ensures Occurrences(imm, c, 4) == 3 ==>
      NextOther(imm, c, 0) < 4 && NextOther(imm, c, NextOther(imm, c, 0) + 1) == 4
    ensures Occurrences(imm, c, 4) == 2 ==>
      NextOther(imm, c, 0) < 4 && NextOther(imm, c, NextOther(imm, c, 0) + 1) < 4
      && NextOther(imm, c, NextOther(imm, c, NextOther(imm, c, 0) + 1) + 1) == 4
  {
    hide GetChunk;
    var one, two, three := Occurrences(imm, c, 1), Occurrences(imm, c, 2), Occurrences(imm, c, 3);
    assert Occurrences(imm, c, 0) == 0;
    assert one == if GetChunk(imm, 0) == c then 1 else 0;
    assert two == one + if GetChunk(imm, 1) == c then 1 else 0;
    assert three == two + if GetChunk(imm, 2) == c then 1 else 0;
    assert Occurrences(imm, c, 4) == three + if GetChunk(imm, 3) == c then 1 else 0;
  }

  // The scan for the next chunk that the ORR did not materialize.
  method FindOther(imm: Word, c: Word, from: nat) returns (shiftAmt: nat, imm16: Word)
    requires from <= 4 && NextOther(imm, c, from) < 4
    ensures shiftAmt == 16 * NextOther(imm, c, from) && imm16 == GetChunk(imm, NextOther(imm, c, from))
  {
    hide GetChunk;
    shiftAmt := 16 * from;
    imm16 := GetChunk(imm, from);
    ghost var k := from;
    while imm16 == c
      invariant from <= k < 4 && shiftAmt == 16 * k && imm16 == GetChunk(imm, k)
      invariant NextOther(imm, c, k) == NextOther(imm, c, from)
      decreases 4 - k
    {
      k := k + 1;
      shiftAmt := shiftAmt + 16;
      imm16 := GetChunk(imm, shiftAmt / 16);
    }
  }

  method CountChunks(imm: Word) returns (counts: map<Word, nat>)
    ensures forall c :: CountOf(counts, c) == Occurrences(imm, c, 4)
    ensures forall c | c in counts :: IsChunk(c)
  {
    hide GetChunk, IsChunk;
    counts := map[];
    for idx := 0 to 4
      invariant forall c :: CountOf(counts, c) == Occurrences(imm, c, idx)
      invariant forall c | c in counts :: IsChunk(c)
    {
      counts := Bump(counts, GetChunk(imm, idx));
    }
  }

  // One ORR for the repeated chunk and one or two MOVKs for the others. The map is walked in
  // whatever order the choice below makes.
  method TryToReplicateChunks(imm: Word, insn: InsnVector) returns (ok: bool)
    requires insn.insns == []
    modifies insn
    ensures ok ==> Builds(insn.insns, imm) && 2 <= |insn.insns| <= 3
    ensures !ok ==> insn.insns == []
    ensures ok <==> exists c :: 2 <= Occurrences(imm, c, 4) <= 3 && IsChunk(c) && Logical(Replicated(c), 64)
  {
    hide Builds, GetChunk, Logical, Replicated;
    var counts := CountChunks(imm);
    var todo := counts.Keys;
    while todo != {}
      invariant insn.insns == [] && todo <= counts.Keys
      invariant forall c | c in counts.Keys - todo :: !(2 <= Occurrences(imm, c, 4) <= 3 && Logical(Replicated(c), 64))
      decreases |todo|
    {
      var chunkVal :| chunkVal in todo;
      todo := todo - {chunkVal};
      var count := counts[chunkVal];
      assert count == CountOf(counts, chunkVal);
      if count != 2 && count != 3 {
        continue;
      }
      var enc := CanUseOrr(chunkVal);
      if enc.None? {
        continue;
      }
      OrrBuilds(enc.value, Replicated(chunkVal));
      insn.PushBack(ORRXri, ZERO, enc.value);
      assert insn.insns == [ImmInsn(ORRXri, ZERO, enc.value)];
      EmitOthers(imm, chunkVal, count == 3, insn);
      return true;
    }
    assert forall c | 2 <= Occurrences(imm, c, 4) <= 3 :: CountOf(counts, c) != 0;
    return false;
  }

  method EmitOthers(imm: Word, chunkVal: Word, countThree: bool, insn: InsnVector)
    requires IsChunk(chunkVal) && |insn.insns| == 1 && Builds(insn.insns, Replicated(chunkVal))
    requires Occurrences(imm, chunkVal, 4) == if countThree then 3 else 2
    modifies insn
    ensures Builds(insn.insns, imm) && 2 <= |insn.insns| <= 3
  {
    hide *;
    ghost var a := NextOther(imm, chunkVal, 0);
    OccurrencesOthers(imm, chunkVal);
    var shiftAmt, imm16 := FindOther(imm, chunkVal, 0);
    ghost var x := Replicated(chunkVal);
    RepairBuilds(insn.insns, x, imm, a);
    insn.PushBack(MOVKXi, imm16, shiftAmt);
    if countThree {
      ThreeSame(imm, chunkVal);
      return;
    }
    ghost var b := NextOther(imm, chunkVal, a + 1);
    shiftAmt, imm16 := FindOther(imm, chunkVal, shiftAmt / 16 + 1);
    RepairBuilds(insn.insns, Repair(x, imm, a), imm, b);
    insn.PushBack(MOVKXi, imm16, shiftAmt);
    TwoSame(imm, chunkVal);
  }

  lemma ThreeSame(imm: Word, c: Word)
    requires IsChunk(c) && Occurrences(imm, c, 4) == 3
    ensures var a := NextOther(imm, c, 0); a < 4 && Repair(Replicated(c), imm, a) == imm
  {
    hide GetChunk, Replicated, Repair;
    OccurrencesOthers(imm, c);
    var a := NextOther(imm, c, 0);
    var y := Repair(Replicated(c), imm, a);
    forall k | 0 <= k < 4 ensures GetChunk(y, k) == GetChunk(imm, k) {
      ReplicatedChunk(c, k);
      RepairChunk(Replicated(c), imm, a, k);
    }
    ChunksDecide(y, imm);
  }

  lemma TwoSame(imm: Word, c: Word)
    requires IsChunk(c) && Occurrences(imm, c, 4) == 2
    ensures var a := NextOther(imm, c, 0);
            a < 4 && var b := NextOther(imm, c, a + 1);
            b < 4 && Repair(Repair(Replicated(c), imm, a), imm, b) == imm
  {
    hide GetChunk, Replicated, Repair;
    OccurrencesOthers(imm, c);
    var a := NextOther(imm, c, 0);
    var b := NextOther(imm, c, a + 1);
    var x := Repair(Replicated(c), imm, a);
    var y := Repair(x, imm, b);
    forall k | 0 <= k < 4 ensures GetChunk(y, k) == GetChunk(imm, k) {
      ReplicatedChunk(c, k);
      RepairChunk(Replicated(c), imm, a, k);
      RepairChunk(x, imm, b, k);
    }
    ChunksDecide(y, imm);
  }
}
