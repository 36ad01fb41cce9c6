/** The AdrpAdrp hint is documented to name two ADRPs of one register with no redefinition between
    them. It does so exactly when no middle step between them moved the record of the second. */
module AdrpAdrpHints {
  import opened LinkerHints
  import opened LinkerHintChains

  // The documented meaning of `.loh AdrpAdrp`, from instruction n on: j is an ADRP of r, reached unchanged.
  ghost predicate Reaches(b: Block, n: nat, r: GPR, j: int) {
    && n <= j < |b| && b[j].opcode == ADRP && b[j].op0 == r
    && forall k | n <= k < j :: r !in Redefs(b[k])
  }

  ghost predicate LastOK(b: Block, n: nat, m: Infos) {
    forall r: GPR | 0 <= r && m[r].lastADRP >= 0 :: Reaches(b, n, r, m[r].lastADRP)
  }

  // The guard: handleMiddleInst copies a state that remembers an ADRP to a different register.
  predicate MovesAdrp(i: Instr, m: Infos) {
    TriesMiddle(i) && i.op0 != i.op1 && Moves(m, i.op0, i.op1) && m[i.op0].lastADRP >= 0
  }

  lemma NormalLast(i: Instr, n: nat, m: Infos, r: GPR)
    requires r >= 0
    ensures NormalInst(i, n, m)[r].lastADRP == if r in Redefs(i) then -1 else m[r].lastADRP
  {
    hide Redefs;
    var u := UsesHandledAt(i, n, Clobbered(m, Redefs(i)), |i.uses|, r);
  }

  // What one instruction does to the remembered ADRP of r.
  lemma StepLast(i: Instr, n: nat, m: Infos, r: GPR)
    requires WellFormed(i) && r >= 0
    ensures StepInfos(i, n, m)[r].lastADRP ==
            if i.opcode == ADRP && i.op0 == r then n
            else if TriesMiddle(i) && i.op0 != i.op1 && Moves(m, i.op0, i.op1) && r == i.op1 then m[i.op0].lastADRP
            else if r in Redefs(i) then -1
            else m[r].lastADRP
  {
    hide NormalInst;
    NormalLast(i, n, m, r);
    if TriesMiddle(i) {
      MiddleShape(i);
      NormalLast(i, n, MiddleInst(i, n, m).1, r);
    }
  }

  // One instruction keeps the documented meaning exactly when the guard does not fire.
  lemma StepKeepsLast(b: Block, n: nat, m: Infos)
    requires n < |b| && WellFormed(b[n]) && LastOK(b, n + 1, m)
    ensures LastOK(b, n, StepInfos(b[n], n, m)) <==> !MovesAdrp(b[n], m)
  {
    hide StepInfos, Redefs, Moves;
    var i, m' := b[n], StepInfos(b[n], n, m);
    if MovesAdrp(i, m) {
      ShapeOfDef(i);
      StepLast(i, n, m, i.op1);
      assert Reaches(b, n + 1, i.op0, m[i.op0].lastADRP);
      assert !Reaches(b, n, i.op1, m'[i.op1].lastADRP);
    } else {
      forall r: GPR | 0 <= r && m'[r].lastADRP >= 0 ensures Reaches(b, n, r, m'[r].lastADRP) {
        StepLast(i, n, m, r);
        if m'[r].lastADRP != n { assert Reaches(b, n + 1, r, m[r].lastADRP); }
      }
    }
  }

  lemma ShapeOfDef(i: Instr)
    requires WellFormed(i) && TriesMiddle(i)
    ensures i.opcode != ADRP
  {
  }

  // Between n and the ADRP j some middle step moved the record of j to another register.
  ghost predicate WasMoved(b: Block, out: set<GPR>, n: nat, j: int) {
    exists k: nat | n <= k < j && k < |b| :: MovesRecord(b, out, k, j)
  }

  ghost predicate MovesRecord(b: Block, out: set<GPR>, k: nat, j: int)
    requires k < |b|
  {
    var m := InfosAt(b, out, k + 1);
    MovesAdrp(b[k], m) && m[b[k].op0].lastADRP == j
  }

  // Between n and the ADRP j the register of j is redefined.
  ghost predicate Redefined(b: Block, n: nat, j: int) {
    0 <= j < |b| && exists k | n <= k < j :: b[j].op0 in Redefs(b[k])
  }

  // What is remembered for r is right, or its record was moved.
  ghost predicate RecordOK(b: Block, out: set<GPR>, n: nat, r: GPR, j: int) {
    && n <= j < |b| && b[j].opcode == ADRP
    && if WasMoved(b, out, n, j) then Redefined(b, n, j) else Reaches(b, n, r, j)
  }

  ghost predicate RecordsOK(b: Block, out: set<GPR>, n: nat, m: Infos) {
    && (forall r: GPR | 0 <= r && m[r].lastADRP >= 0 :: RecordOK(b, out, n, r, m[r].lastADRP))
    && (forall r: GPR, q: GPR | 0 <= r && 0 <= q && r != q && m[r].lastADRP >= 0 :: m[r].lastADRP != m[q].lastADRP)
  }

  lemma RecordNew(b: Block, out: set<GPR>, n: nat)
    requires n < |b| && b[n].opcode == ADRP
    ensures RecordOK(b, out, n, b[n].op0, n)
  {
    hide MovesRecord;
  }

  lemma RecordMoved(b: Block, out: set<GPR>, n: nat, r: GPR)
    requires n < |b| && WellFormed(b[n])
    requires var m := InfosAt(b, out, n + 1); MovesAdrp(b[n], m) && RecordOK(b, out, n + 1, b[n].op0, m[b[n].op0].lastADRP)
    ensures RecordOK(b, out, n, r, InfosAt(b, out, n + 1)[b[n].op0].lastADRP)
  {
    hide InfosAt, Moves, TriesMiddle, Redefs;
    MovesTries(b[n], InfosAt(b, out, n + 1));
    var j := InfosAt(b, out, n + 1)[b[n].op0].lastADRP;
    assert MovesRecord(b, out, n, j);
    if WasMoved(b, out, n + 1, j) {
      var k :| n + 1 <= k < j && b[j].op0 in Redefs(b[k]);
    } else {
      assert b[j].op0 in Redefs(b[n]);
    }
  }

  lemma MovesTries(i: Instr, m: Infos)
    requires WellFormed(i) && MovesAdrp(i, m)
    ensures i.op0 >= 0 && i.op0 in Redefs(i)
  {
    MiddleShape(i);
  }

  lemma RecordStays(b: Block, out: set<GPR>, n: nat, r: GPR, j: int)
    requires n < |b| && RecordOK(b, out, n + 1, r, j) && r !in Redefs(b[n]) && !MovesRecord(b, out, n, j)
    ensures RecordOK(b, out, n, r, j)
  {
    hide MovesRecord, Redefs;
    if WasMoved(b, out, n + 1, j) {
      var k :| n + 1 <= k < j && b[j].op0 in Redefs(b[k]);
      var l: nat :| n + 1 <= l < j && l < |b| && MovesRecord(b, out, l, j);
    }
  }

  // No record is held twice, so a move concerns one register only.
  lemma NotElsewhere(b: Block, out: set<GPR>, n: nat, r: GPR)
    requires n < |b| && r >= 0 && r != b[n].op0 && RecordsOK(b, out, n + 1, InfosAt(b, out, n + 1))
    requires InfosAt(b, out, n + 1)[r].lastADRP >= 0
    ensures !MovesRecord(b, out, n, InfosAt(b, out, n + 1)[r].lastADRP)
  {
    hide InfosAt, RecordOK, Moves;
  }

  lemma StepRecord(b: Block, out: set<GPR>, n: nat, r: GPR)
    requires n < |b| && WellFormed(b[n]) && r >= 0 && RecordsOK(b, out, n + 1, InfosAt(b, out, n + 1))
    requires InfosAt(b, out, n)[r].lastADRP >= 0
    ensures RecordOK(b, out, n, r, InfosAt(b, out, n)[r].lastADRP)
  {
    hide RecordOK, Moves, MovesRecord, StepInfos, Redefs, CanBeMiddle;
    var i, m := b[n], InfosAt(b, out, n + 1);
    StepLast(i, n, m, r);
    if i.opcode == ADRP && i.op0 == r {
      RecordNew(b, out, n);
    } else if TriesMiddle(i) && i.op0 != i.op1 && Moves(m, i.op0, i.op1) && r == i.op1 {
      TriesHasRegs(i);
      RecordMoved(b, out, n, r);
    } else if r !in Redefs(i) {
      if r == i.op0 { StillThere(b, out, n, m[r].lastADRP); } else { NotElsewhere(b, out, n, r); }
      RecordStays(b, out, n, r, m[r].lastADRP);
    }
  }

  lemma TriesHasRegs(i: Instr)
    requires TriesMiddle(i)
    ensures i.op0 >= 0 && i.op1 >= 0
  {
  }

  lemma StillThere(b: Block, out: set<GPR>, n: nat, j: int)
    requires n < |b| && WellFormed(b[n]) && b[n].op0 >= 0 && b[n].op0 !in Redefs(b[n])
    ensures !MovesRecord(b, out, n, j)
  {
    hide InfosAt, Redefs, Moves;
    if TriesMiddle(b[n]) { MiddleShape(b[n]); }
  }

  lemma StepDistinct(b: Block, out: set<GPR>, n: nat, r: GPR, q: GPR)
    requires n < |b| && WellFormed(b[n]) && r >= 0 && q >= 0 && r != q && RecordsOK(b, out, n + 1, InfosAt(b, out, n + 1))
    requires InfosAt(b, out, n)[r].lastADRP >= 0
    ensures InfosAt(b, out, n)[r].lastADRP != InfosAt(b, out, n)[q].lastADRP
  {
    hide Moves, StepInfos, WasMoved, Reaches, Redefined;
    var i, m := b[n], InfosAt(b, out, n + 1);
    StepLast(i, n, m, r);
    StepLast(i, n, m, q);
    if TriesMiddle(i) { MiddleShape(i); }
    assert forall s: GPR | 0 <= s && m[s].lastADRP >= 0 :: RecordOK(b, out, n + 1, s, m[s].lastADRP) && m[s].lastADRP > n;
  }

  lemma {:induction false} RecordsKept(b: Block, out: set<GPR>, n: nat)
    requires WellFormedBlock(b) && n <= |b|
    ensures RecordsOK(b, out, n, InfosAt(b, out, n))
    decreases |b| - n
  {
    hide StepInfos, RecordOK;
    if n < |b| {
      RecordsKept(b, out, n + 1);
      var m := InfosAt(b, out, n);
      forall r: GPR | 0 <= r && m[r].lastADRP >= 0 ensures RecordOK(b, out, n, r, m[r].lastADRP) { StepRecord(b, out, n, r); }
      forall r: GPR, q: GPR | 0 <= r && 0 <= q && r != q && m[r].lastADRP >= 0 ensures m[r].lastADRP != m[q].lastADRP {
        StepDistinct(b, out, n, r, q);
      }
    }
  }

  // An AdrpAdrp hint names two ADRPs, and is what the documentation says exactly when no middle step between
  // them moved the record of the later one.
  lemma {:induction false} AdrpAdrpExact(b: Block, out: set<GPR>, outside: Info, n: nat, h: Hint)
    requires WellFormedBlock(b) && n <= |b|
    requires h in HintsAt(b, out, outside, n) && h.kind == AdrpAdrp
    ensures |h.args| == 2 && h.args[0] < h.args[1] < |b| && b[h.args[0]].opcode == ADRP && b[h.args[1]].opcode == ADRP
    ensures Reaches(b, h.args[0] + 1, b[h.args[0]].op0, h.args[1]) <==> !WasMoved(b, out, h.args[0] + 1, h.args[1])
    decreases |b| - n
  {
    hide Reaches, WasMoved, StepInfos, RecordOK, RecordsOK, CandidateHint, WellFormed;
    if h in HintsAt(b, out, outside, n + 1) {
      AdrpAdrpExact(b, out, outside, n + 1, h);
    } else {
      var m := InfosAt(b, out, n + 1);
      RecordsKept(b, out, n + 1);
      CandidateIsNot(b, n, m, outside);
      RecordHere(b, out, n + 1, m, b[n].op0);
      RecordFacts(b, out, n + 1, b[n].op0, m[b[n].op0].lastADRP);
    }
  }

  lemma RecordHere(b: Block, out: set<GPR>, n: nat, m: Infos, r: GPR)
    requires RecordsOK(b, out, n, m) && r >= 0 && m[r].lastADRP >= 0
    ensures RecordOK(b, out, n, r, m[r].lastADRP)
  {
    hide RecordOK;
  }

  lemma RecordFacts(b: Block, out: set<GPR>, n: nat, r: GPR, j: int)
    requires RecordOK(b, out, n, r, j)
    ensures n <= j < |b| && b[j].opcode == ADRP
    ensures Reaches(b, n, r, j) <==> !WasMoved(b, out, n, j)
  {
    hide WasMoved, Redefs;
  }

  lemma CandidateIsNot(b: Block, n: nat, m: Infos, outside: Info)
    requires n < |b| && b[n].op0 >= 0
    ensures forall h | h in CandidateHint(b, n, m, outside) :: h.kind != AdrpAdrp
  {
  }

  function Ins(opcode: Opcode, op0: GPR, op1: GPR, uses: seq<Use>, address: bool): Instr {
    Instr(opcode, op0, op1, false, address, address, false, [op0], {}, uses)
  }

  // adrp x0; add x1, x0, :lo12:s; ldr x2, [x1]; adrp x1
  function Mixed(): Block {
    [Ins(ADRP, 0, -1, [], true), Ins(ADDXri, 1, 0, [Use(1, 0)], true), Ins(LDRXui, 2, 1, [Use(1, 1)], false), Ins(ADRP, 1, -1, [], true)]
  }

  lemma NormalOne(i: Instr, n: nat, m: Infos, u: Use, r: GPR)
    requires i.uses == [u] && u.reg >= 0 && u.reg !in Redefs(i) && r >= 0 && r !in Redefs(i)
    ensures NormalInst(i, n, m)[r] == if r == u.reg then HandleUse(i, n, u, m[r]) else m[r]
  {
    hide HandleUse;
    var c := Clobbered(m, Redefs(i));
    assert ReadsUpTo(i, 0) == {};
    assert UsesHandled(i, n, c, 1) == UsesHandled(i, n, c, 0)[u.reg := HandleUse(i, n, u, c[u.reg])];
  }

  lemma OperandSets(i: Instr)
    ensures |i.defs| == 1 && i.mask == {} ==> Redefs(i) == {i.defs[0]}
    ensures |i.uses| == 0 ==> Reads(i) == {}
    ensures |i.uses| == 1 ==> Reads(i) == {i.uses[0].reg}
  {
  }

  lemma MixedShape()
    ensures WellFormedBlock(Mixed())
  {
    var b := Mixed();
    forall k | 0 <= k < |b| ensures WellFormed(b[k]) { OperandSets(b[k]); }
  }

  // Before the load: x1 is read by it alone, and the ADRP of x1 below is remembered; x0 is not used yet.
  lemma MixedLater() returns (m: Infos)
    ensures m == InfosAt(Mixed(), {}, 2) && m[1] == Info(AdrpLdr, true, true, false, 2, m[1].mi1, 3) && !m[0].oneUser
  {
    var b := Mixed();
    var m4, m3 := InfosAt(b, {}, 4), InfosAt(b, {}, 3);
    assert m4 == Initial({}) && m3 == m4[1 := HandleClobber(m4[1]).(lastADRP := 3)];
    m := InfosAt(b, {}, 2);
    assert m == NormalInst(b[2], 2, m3);
    OperandSets(b[2]);
    NormalOne(b[2], 2, m3, Use(1, 1), 1);
    NormalOne(b[2], 2, m3, Use(1, 1), 0);
  }

  // The guard does fire on well-formed code, and then the hint names ADRPs of two registers.
  lemma AdrpAdrpMixesRegisters(outside: Info)
    ensures WellFormedBlock(Mixed()) && Hint(AdrpAdrp, [0, 3]) in HintsAt(Mixed(), {}, outside, 0)
    ensures Mixed()[0].op0 != Mixed()[3].op0
  {
    var b := Mixed();
    MixedShape();
    var m2 := MixedLater();
    hide NormalInst, CandidateHint, Initial;
    var m1 := InfosAt(b, {}, 1);
    assert m1 == StepInfos(b[1], 1, m2) && m1[0].lastADRP == 3;
    assert HintsAt(b, {}, outside, 0) == HintsAt(b, {}, outside, 1) + AdrpHints(b, 0, m1, outside);
    assert AdrpHints(b, 0, m1, outside)[0] == Hint(AdrpAdrp, [0, 3]);
  }
}
