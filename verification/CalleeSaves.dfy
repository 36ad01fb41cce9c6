/** The pairing loop of AArch64FrameLowering (computeCalleeSaveRegisterPairs), for 64-bit general and
    floating-point registers outside Windows: how it lays out the lists of a homogeneous prolog, and why
    the names of lists laid out this way are safe. */
module CalleeSaves {
  import opened FrameCode
  import opened FrameHelpers

  // Neighbours of one class share a pair, but LR joins nothing before it when there is a frame record.
  predicate CanPair(r: Reg, next: Reg, frame: bool) {
    IsFloat(r) == IsFloat(next) && !(frame && next == LR)
  }

  function LaidOut(csi: seq<Reg>, frame: bool): seq<Reg> {
    if csi == [] then []
    else if |csi| > 1 && CanPair(csi[0], csi[1], frame) then [csi[0], csi[1]] + LaidOut(csi[2..], frame)
    else [csi[0], NO_REGISTER] + LaidOut(csi[1..], frame)
  }

  method ComputeCalleeSaveRegisterPairs(csi: seq<Reg>, needsFrameRecord: bool) returns (regs: seq<Reg>)
    ensures regs == LaidOut(csi, needsFrameRecord)
  {
    hide LaidOut;
    regs := [];
    var i := 0;
    assert csi[0..] == csi;
    while i < |csi|
      invariant 0 <= i <= |csi| && regs + LaidOut(csi[i..], needsFrameRecord) == LaidOut(csi, needsFrameRecord)
    {
      LaidOutStep(csi, i, needsFrameRecord, regs);
      var reg2 := NO_REGISTER;
      if i + 1 < |csi| && IsFloat(csi[i]) == IsFloat(csi[i + 1]) && !(needsFrameRecord && csi[i + 1] == LR) {
        reg2 := csi[i + 1];
      }
      regs := regs + [csi[i], reg2];
      i := if i + 1 < |csi| && CanPair(csi[i], csi[i + 1], needsFrameRecord) then i + 2 else i + 1;
    }
    NothingLaidOut(csi, i, needsFrameRecord, regs);
  }

  lemma LaidOutStep(csi: seq<Reg>, i: nat, frame: bool, before: seq<Reg>)
    requires i < |csi|
    ensures before + LaidOut(csi[i..], frame) ==
            if i + 1 < |csi| && CanPair(csi[i], csi[i + 1], frame) then before + [csi[i], csi[i + 1]] + LaidOut(csi[i + 2..], frame)
            else before + [csi[i], NO_REGISTER] + LaidOut(csi[i + 1..], frame)
  {
    var rest := csi[i..];
    assert rest[1..] == csi[i + 1..];
    if i + 1 < |csi| { assert rest[2..] == csi[i + 2..]; }
  }

  lemma NothingLaidOut(csi: seq<Reg>, i: nat, frame: bool, before: seq<Reg>)
    requires i == |csi|
    ensures before + LaidOut(csi[i..], frame) == before
  {
  }

  // The name of a list is the registers it was laid out from.
  lemma {:induction false} NameIsRegisters(csi: seq<Reg>, frame: bool)
    requires NO_REGISTER !in csi
    ensures Printed(LaidOut(csi, frame)) == csi
  {
    if csi != [] {
      assert csi[0] != NO_REGISTER;
      var n := if |csi| > 1 && CanPair(csi[0], csi[1], frame) then 2 else 1;
      var here := if n == 2 then [csi[0], csi[1]] else [csi[0], NO_REGISTER];
      NameIsRegisters(csi[n..], frame);
      PrintedJoin(here, LaidOut(csi[n..], frame));
      if n == 2 { PrintedFull(here); } else { PrintedWithout(here, 1); }
      assert Printed(here) == csi[..n] && csi == csi[..n] + csi[n..];
    }
  }

  // No floating-point register is left alone, as the homogeneous pass expects.
  ghost predicate NoLoneFloat(regs: seq<Reg>) {
    forall p | 0 <= p && 2 * p + 1 < |regs| :: IsFloat(regs[2 * p]) ==> regs[2 * p + 1] != NO_REGISTER
  }

  ghost predicate GeneralsFirst(csi: seq<Reg>) {
    forall i, j | 0 <= i < j < |csi| && IsFloat(csi[i]) :: IsFloat(csi[j])
  }

  lemma TailNoLone(a: Reg, b: Reg, rest: seq<Reg>)
    requires NoLoneFloat([a, b] + rest)
    ensures NoLoneFloat(rest) && (IsFloat(a) ==> b != NO_REGISTER)
  {
    var all := [a, b] + rest;
    assert IsFloat(all[2 * 0]) ==> all[2 * 0 + 1] != NO_REGISTER;
    forall p | 0 <= p && 2 * p + 1 < |rest| ensures IsFloat(rest[2 * p]) ==> rest[2 * p + 1] != NO_REGISTER {
      assert all[2 * (p + 1)] == rest[2 * p] && all[2 * (p + 1) + 1] == rest[2 * p + 1];
    }
  }

  lemma {:induction false} FloatsOnly(csi: seq<Reg>, frame: bool)
    requires (forall r | r in csi :: IsFloat(r)) && NoLoneFloat(LaidOut(csi, frame))
    ensures forall r | r in LaidOut(csi, frame) :: IsFloat(r)
  {
    hide NoLoneFloat;
    if csi != [] {
      assert csi[0] in csi;
      if |csi| > 1 && CanPair(csi[0], csi[1], frame) {
        assert csi[1] in csi;
        TailNoLone(csi[0], csi[1], LaidOut(csi[2..], frame));
        FloatsOnly(csi[2..], frame);
      } else {
        TailNoLone(csi[0], NO_REGISTER, LaidOut(csi[1..], frame));
      }
    }
  }

  ghost predicate Saveable(csi: seq<Reg>) {
    && (forall r | r in csi :: r >= 0 && r != SP && r != X16)
    && forall i, j | 0 <= i < j < |csi| :: csi[i] != csi[j]
  }

  // What is laid out is a save list.
  lemma {:induction false} LaidOutSaves(csi: seq<Reg>, frame: bool)
    requires Saveable(csi) && NoLoneFloat(LaidOut(csi, frame))
    ensures var regs := LaidOut(csi, frame);
            && |regs| % 2 == 0 && (csi != [] ==> SaveList(regs))
            && forall r | r in regs && r != NO_REGISTER :: r in csi
  {
    hide SaveList, NoLoneFloat;
    if csi != [] {
      assert csi[0] in csi;
      var n := if |csi| > 1 && CanPair(csi[0], csi[1], frame) then 2 else 1;
      var b := if n == 2 then csi[1] else NO_REGISTER;
      if n == 2 { assert csi[1] in csi; }
      var rest := LaidOut(csi[n..], frame);
      forall r | r in csi[n..] ensures r in csi && r != csi[0] && r != b {
        var j :| n <= j < |csi| && csi[j] == r;
      }
      TailNoLone(csi[0], b, rest);
      LaidOutSaves(csi[n..], frame);
      SaveCons(csi[0], b, rest);
    }
  }

  lemma SaveCons(a: Reg, b: Reg, rest: seq<Reg>)
    requires rest == [] || SaveList(rest)
    requires a >= 0 && a != SP && a != X16 && b >= -1 && b != SP && b != X16 && a != b && a !in rest && (b != NO_REGISTER ==> b !in rest)
    requires if b == NO_REGISTER then !IsFloat(a) else IsFloat(a) == IsFloat(b)
    ensures SaveList([a, b] + rest)
  {
    var all := [a, b] + rest;
    forall p | 0 <= p < |all| ensures PositionOK(all, p) {
      if p >= 2 { assert PositionOK(rest, p - 2); }
    }
    hide PositionOK;
    forall p, q | 0 <= p < q < |all| && all[p] != NO_REGISTER ensures all[p] != all[q] {
      if p >= 2 { assert rest[p - 2] != rest[q - 2]; } else if q >= 2 { assert all[q] == rest[q - 2] && all[q] in rest; }
    }
  }

  // Registers in the usual order leave an empty slot only right before LR or before the floats.
  lemma {:induction false} OrderFixesGaps(csi: seq<Reg>, frame: bool)
    requires NO_REGISTER !in csi && GeneralsFirst(csi) && NoLoneFloat(LaidOut(csi, frame))
    ensures GapsFixed(LaidOut(csi, frame))
  {
    hide NoLoneFloat, OnlyFloats;
    if csi != [] {
      assert csi[0] != NO_REGISTER;
      if |csi| > 1 && CanPair(csi[0], csi[1], frame) {
        TailNoLone(csi[0], csi[1], LaidOut(csi[2..], frame));
        OrderFixesGaps(csi[2..], frame);
        FixedCons(csi[0], csi[1], LaidOut(csi[2..], frame));
      } else {
        TailNoLone(csi[0], NO_REGISTER, LaidOut(csi[1..], frame));
        OrderFixesGaps(csi[1..], frame);
        GapHere(csi, frame);
        FixedCons(csi[0], NO_REGISTER, LaidOut(csi[1..], frame));
      }
    }
  }

  lemma FixedCons(a: Reg, b: Reg, rest: seq<Reg>)
    requires a != NO_REGISTER && GapsFixed(rest)
    requires b == NO_REGISTER ==> (rest != [] && rest[0] == LR) || forall r | r in rest :: IsFloat(r)
    ensures GapsFixed([a, b] + rest)
  {
    var all := [a, b] + rest;
    forall p | 0 <= p < |all| && all[p] == NO_REGISTER
      ensures (p + 1 < |all| && all[p + 1] == LR) || OnlyFloats(all, p)
    {
      if p >= 2 {
        assert rest[p - 2] == NO_REGISTER;
        if OnlyFloats(rest, p - 2) {
          assert forall q | p < q < |all| :: all[q] == rest[q - 2];
        }
      } else {
        assert forall q | 1 < q < |all| :: all[q] == rest[q - 2] && all[q] in rest;
      }
    }
  }

  lemma GapHere(csi: seq<Reg>, frame: bool)
    requires csi != [] && !(|csi| > 1 && CanPair(csi[0], csi[1], frame)) && GeneralsFirst(csi)
    requires NoLoneFloat(LaidOut(csi[1..], frame))
    ensures var rest := LaidOut(csi[1..], frame); (rest != [] && rest[0] == LR) || forall r | r in rest :: IsFloat(r)
  {
    if |csi| > 1 && csi[1] != LR {
      assert IsFloat(csi[0]) != IsFloat(csi[1]) && IsFloat(csi[1]);
      forall r | r in csi[1..] ensures IsFloat(r) {
        var j :| 1 <= j < |csi| && csi[j] == r;
      }
      FloatsOnly(csi[1..], frame);
    }
  }

  // With a frame record LR begins a pair, and FP, which follows it, ends it.
  lemma {:induction false} FrameRecordPaired(csi: seq<Reg>)
    requires LR in csi && forall k | 0 <= k < |csi| && csi[k] == LR :: k + 1 < |csi| && csi[k + 1] == FP
    ensures SavesLR(LaidOut(csi, true))
  {
    hide FindLR;
    if csi[0] == LR {
      LRFirst(LaidOut(csi, true));
    } else {
      var n := if |csi| > 1 && CanPair(csi[0], csi[1], true) then 2 else 1;
      var b := if n == 2 then csi[1] else NO_REGISTER;
      forall k | 0 <= k < |csi[n..]| && csi[n..][k] == LR ensures k + 1 < |csi[n..]| && csi[n..][k + 1] == FP {
        assert csi[k + n] == LR;
      }
      var k :| 0 <= k < |csi| && csi[k] == LR;
      assert csi[n..][k - n] == LR;
      FrameRecordPaired(csi[n..]);
      LRLater(csi[0], b, LaidOut(csi[n..], true));
    }
  }

  lemma LRFirst(regs: seq<Reg>)
    requires |regs| >= 2 && regs[0] == LR && regs[1] == FP
    ensures SavesLR(regs)
  {
  }

  lemma LRLater(a: Reg, b: Reg, rest: seq<Reg>)
    requires a != LR && b != LR && SavesLR(rest)
    ensures SavesLR([a, b] + rest)
  {
    var all := [a, b] + rest;
    assert all[1..] == [b] + rest && all[1..][1..] == rest;
    assert FindLR(all) == FindLR(all[1..]) + 1 && FindLR(all[1..]) == FindLR(rest) + 1;
  }

  ghost predicate LRStartsPair(regs: seq<Reg>) {
    forall p | 0 <= p < |regs| && regs[p] == LR :: p % 2 == 0
  }

  // If LR begins a pair without a frame record, the frame record changes nothing.
  lemma {:induction false} RecordMakesNoDifference(csi: seq<Reg>)
    requires LRStartsPair(LaidOut(csi, false))
    ensures LaidOut(csi, true) == LaidOut(csi, false)
  {
    if csi != [] {
      var all := LaidOut(csi, false);
      var n := if |csi| > 1 && CanPair(csi[0], csi[1], false) then 2 else 1;
      assert n == 2 ==> all[1] == csi[1];
      var rest := LaidOut(csi[n..], false);
      forall p | 0 <= p < |rest| && rest[p] == LR ensures p % 2 == 0 { assert all[p + 2] == LR; }
      RecordMakesNoDifference(csi[n..]);
    }
  }

  ghost predicate FromFrame(regs: seq<Reg>, csi: seq<Reg>, frame: bool) {
    NO_REGISTER !in csi && regs == LaidOut(csi, frame)
  }

  lemma LRPlaced(regs: seq<Reg>)
    requires SaveList(regs) && SavesLR(regs)
    ensures LRStartsPair(regs)
  {
    hide FindLR;
    forall p | 0 <= p < |regs| && regs[p] == LR ensures p % 2 == 0 {
      OnceOnly(regs, p);
      FindIs(regs, p);
    }
  }

  // Names of lists the frame lowering lays out determine them, whatever the order of the registers.
  lemma LaidOutNamesSafe(x: seq<Reg>, c: seq<Reg>, f: bool, y: seq<Reg>, d: seq<Reg>, g: bool)
    requires FromFrame(x, c, f) && SaveList(x) && SavesLR(x)
    requires FromFrame(y, d, g) && SaveList(y) && SavesLR(y)
    requires Printed(x) == Printed(y)
    ensures x == y
  {
    hide SaveList, SavesLR, LRStartsPair, LaidOut, Printed;
    NameIsRegisters(c, f);
    NameIsRegisters(d, g);
    LRPlaced(x);
    LRPlaced(y);
    if !f || !g { RecordMakesNoDifference(c); }
  }

  // So in a module whose helpers were all made for such lists every such list gets the right one.
  lemma LaidOutIsOurs(w: Lowering, kind: Helper, regs: seq<Reg>, csi: seq<Reg>, frame: bool)
    requires w.Valid() && FromFrame(regs, csi, frame) && SaveList(regs) && SavesLR(regs)
    requires forall n | n in w.made :: exists c, f :: FromFrame(w.made[n], c, f)
    ensures w.Ours(kind, regs)
  {
    hide SaveList, SavesLR, Printed, FromFrame, Body;
    var name := Name(kind, Printed(regs));
    if name in w.made {
      assert MadeFor(name, w.made[name], w.helpers[name]);
      var c, f :| FromFrame(w.made[name], c, f);
      LaidOutNamesSafe(w.made[name], c, f, regs, csi, frame);
    }
  }
}
