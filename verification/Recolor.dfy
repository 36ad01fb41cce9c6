/** Why colorChain is right: renaming a chain's values to a register that is free over the chain
    keeps the block's effect, its kill flags, and every other chain. */
module Recolor {
  import opened MachineBlock
  import opened Chains

  // The last instruction of the chain's range: its kill if it has one.
  function EndOf(v: ChainVal): nat
    requires |v.order| > 0
  {
    if v.kill >= 0 then v.kill else Last(v)
  }

  function Start(v: ChainVal): nat
    requires |v.order| > 0
  {
    v.order[0]
  }

  // What scavengeRegister looks for: not live after the chain, not touched within it.
  ghost predicate Free(b: Block, out: set<Reg>, v: ChainVal, reg: Reg)
    requires |v.order| > 0 && EndOf(v) < |b|
  {
    && reg !in Live(b, out, EndOf(v) + 1)
    && forall n | Start(v) <= n <= EndOf(v) :: !Mentions(b[n], reg)
  }

  // A register that is not free holds a value needed later, or an instruction of the range touches it.
  lemma NotFree(b: Block, out: set<Reg>, v: ChainVal, reg: Reg)
    requires |v.order| > 0 && EndOf(v) < |b|
    ensures var end := if v.kill >= 0 then v.kill else v.order[|v.order| - 1];
            !Free(b, out, v, reg) <==> reg in Live(b, out, end + 1) || exists n :: v.order[0] <= n <= end && Mentions(b[n], reg)
  {
    hide Live, Mentions;
  }

  lemma {:induction false} OrderIncreases(b: Block, order: seq<nat>, i: nat, j: nat)
    requires Linked(b, order) && i < j < |order|
    ensures order[i] < order[j]
  {
    assert LinkedAt(b, order[j - 1], order[j]);
    if i < j - 1 { OrderIncreases(b, order, i, j - 1); }
  }

  lemma RangeInBlock(b: Block, v: ChainVal)
    requires ChainOK(b, v)
    ensures |v.order| > 0 && Start(v) <= Last(v) <= EndOf(v) < |b|
    ensures forall j | 0 <= j < |v.order| :: Start(v) <= v.order[j] <= Last(v)
  {
    assert Member(b, Last(v));
    forall j | 0 <= j < |v.order| ensures Start(v) <= v.order[j] <= Last(v) {
      if 0 < j { OrderIncreases(b, v.order, 0, j); }
      if j < |v.order| - 1 { OrderIncreases(b, v.order, j, |v.order| - 1); }
    }
  }

  lemma {:induction false} FreeNotLive(b: Block, out: set<Reg>, v: ChainVal, reg: Reg, n: nat)
    requires |v.order| > 0 && EndOf(v) < |b| && Free(b, out, v, reg) && Start(v) <= n <= EndOf(v) + 1
    ensures reg !in Live(b, out, n)
    decreases |b| - n
  {
    if n <= EndOf(v) { FreeNotLive(b, out, v, reg, n + 1); }
  }

  // ----- The substitution during colorChain -----

  // Before instruction i, with j the last member passed: either nothing is substituted or exactly
  // that member's value is, which for the last member needs a kill that may be changed.
  ghost predicate Pending(b: Block, v: ChainVal, reg: Reg, i: nat, j: int, s: Substs) {
    && -1 <= j < |v.order| && (j >= 0 ==> v.order[j] < i && Member(b, v.order[j]))
    && (j + 1 < |v.order| ==> i <= v.order[j + 1])
    && (s == map[] ||
        (j >= 0 && s == map[Dest(b[v.order[j]]) := reg]
         && (j == |v.order| - 1 ==> v.kill >= 0 && !v.immutable && i <= v.kill)))
  }

  ghost predicate InRange(b: Block, out: set<Reg>, v: ChainVal, reg: Reg, i: nat) {
    ChainOK(b, v) && EndOf(v) < |b| && Free(b, out, v, reg) && Start(v) <= i <= EndOf(v)
  }

  // A pending value is not mentioned by an instruction that is neither a member nor the mutable kill.
  lemma OutsiderIsQuiet(b: Block, v: ChainVal, reg: Reg, i: nat, j: int, s: Substs)
    requires ChainOK(b, v) && i < |b| && Pending(b, v, reg, i, j, s)
    requires i !in v.order && (v.immutable || i != v.kill)
    ensures forall r | r in s :: !Mentions(b[i], r)
  {
    hide Mentions;
    if s != map[] {
      var r := Dest(b[v.order[j]]);
      if j + 1 < |v.order| {
        assert LinkedAt(b, v.order[j], v.order[j + 1]);
      }
    }
  }

  lemma Unchanged(i: Instr, s: Substs, r: Reg, reg: Reg, after: set<Reg>)
    requires s == map[] || (s == map[r := reg] && !Mentions(i, r))
    requires !Mentions(i, reg) && reg !in after
    ensures RenamedBy(i, i, s, s, after)
  {
    forall k | 0 <= k < |i.uses| ensures i.uses[k].reg !in s { assert i.uses[k].reg in UsedRegs(i); }
    forall k | 0 <= k < |i.defs| ensures i.defs[k] !in s { assert i.defs[k] in DefRegs(i); }
  }

  lemma StepOther(b: Block, out: set<Reg>, v: ChainVal, reg: Reg, i: nat, j: int, s: Substs)
    requires InRange(b, out, v, reg, i) && Pending(b, v, reg, i, j, s)
    requires i !in v.order && (v.immutable || i != v.kill)
    ensures RenamedBy(b[i], b[i], s, s, Live(b, out, i + 1))
    ensures Pending(b, v, reg, i + 1, j, s)
  {
    hide RenamedBy, Mentions, Linked;
    RangeInBlock(b, v);
    OutsiderIsQuiet(b, v, reg, i, j, s);
    FreeNotLive(b, out, v, reg, i + 1);
    Unchanged(b[i], s, if j >= 0 then Dest(b[v.order[j]]) else 0, reg, Live(b, out, i + 1));
  }

  // What the operand loop makes of an instruction.
  function RenameUses(uses: seq<Use>, s: Substs): seq<Use> {
    seq(|uses|, k requires 0 <= k < |uses| => uses[k].(reg := Sub(s, uses[k].reg)))
  }

  // The substitutions that the operand loop erases: those killed here, and those the mask clobbers.
  function Erased(i: Instr, s: Substs): set<Reg> {
    set r | r in s && (r in i.mask || KillsUse(i, r))
  }

  // A chain member after recolouring.
  function Recolored(i: Instr, s: Substs, change: bool, reg: Reg): Instr {
    i.(uses := RenameUses(i.uses, s), defs := if change then [reg] else i.defs)
  }

  lemma NextMember(b: Block, v: ChainVal, reg: Reg, i: nat, j: int, s: Substs)
    requires ChainOK(b, v) && Pending(b, v, reg, i, j, s) && i in v.order
    ensures j + 1 < |v.order| && i == v.order[j + 1] && Member(b, i)
    ensures s != map[] ==> j >= 0 && s == map[Dest(b[v.order[j]]) := reg] && Continues(b, i, Dest(b[v.order[j]]))
  {
    hide Member, Continues, NoMention, Killed;
    var k :| 0 <= k < |v.order| && v.order[k] == i;
    if k < j { OrderIncreases(b, v.order, k, j); }
    if j + 1 < k { OrderIncreases(b, v.order, j + 1, k); }
    if j >= 0 { assert LinkedAt(b, v.order[j], v.order[j + 1]); }
  }

  // A killed value is not live afterwards unless it is redefined or clobbered.
  lemma KilledNotLive(i: Instr, after: set<Reg>, r: Reg)
    requires KillsCorrectAt(i, after) && KillsUse(i, r)
    ensures r !in after - DefRegs(i) - i.mask
  {
  }

  lemma MemberRenamed(i: Instr, s: Substs, r: Reg, change: bool, reg: Reg, after: set<Reg>)
    requires |i.defs| == 1 && i.mask == {} && !Mentions(i, reg) && reg !in after
    requires s == map[] || (s == map[r := reg] && r !in after - DefRegs(i))
    ensures var t: Substs := if change then map[Dest(i) := reg] else map[];
            RenamedBy(i, Recolored(i, s, change, reg), s, t, after)
  {
    var t: Substs := if change then map[Dest(i) := reg] else map[];
    var j := Recolored(i, s, change, reg);
    assert DefRegs(i) == {Dest(i)};
    forall k | 0 <= k < |i.defs| ensures j.defs[k] == Sub(t, i.defs[k]) {}
  }

  lemma KillRenamedHere(i: Instr, s: Substs, r: Reg, reg: Reg, after: set<Reg>)
    requires !Mentions(i, reg) && reg !in after
    requires s == map[] || (s == map[r := reg] && r !in after - DefRegs(i) - i.mask)
    ensures RenamedBy(i, i.(uses := RenameUses(i.uses, s)), s, map[], after)
  {
  }

  lemma ErasesAll(i: Instr, s: Substs, r: Reg, reg: Reg)
    requires s == map[] || (s == map[r := reg] && KillsUse(i, r))
    ensures s - Erased(i, s) == map[]
  {
  }

  lemma StepMember(b: Block, out: set<Reg>, v: ChainVal, reg: Reg, i: nat, j: int, s: Substs, change: bool)
    requires InRange(b, out, v, reg, i) && KillsCorrect(b, out) && Pending(b, v, reg, i, j, s)
    requires i in v.order && (change ==> i != Last(v) || !RequiresFixup(v))
    ensures Member(b, i) && j + 1 < |v.order| && i == v.order[j + 1]
    ensures s - Erased(b[i], s) == map[]
    ensures var t: Substs := if change then map[Dest(b[i]) := reg] else map[];
            && RenamedBy(b[i], Recolored(b[i], s, change, reg), s, t, Live(b, out, i + 1))
            && Pending(b, v, reg, i + 1, j + 1, t)
  {
    hide Live, RenamedBy, Recolored, Erased, Mentions;
    RangeInBlock(b, v);
    NextMember(b, v, reg, i, j, s);
    FreeNotLive(b, out, v, reg, i + 1);
    var after := Live(b, out, i + 1);
    assert KillsCorrectAt(b[i], after);
    var r := if j >= 0 then Dest(b[v.order[j]]) else 0;
    if s != map[] {
      assert KillsUse(b[i], r) by { assert b[i].uses[2].kill; }
      KilledNotLive(b[i], after, r);
    }
    ErasesAll(b[i], s, r, reg);
    MemberRenamed(b[i], s, r, change, reg, after);
    NextPending(b, v, reg, i, j, change);
  }

  lemma NextPending(b: Block, v: ChainVal, reg: Reg, i: nat, j: int, change: bool)
    requires ChainOK(b, v) && -1 <= j && j + 1 < |v.order| && i == v.order[j + 1] && Member(b, i)
    requires change ==> i != Last(v) || !RequiresFixup(v)
    ensures Pending(b, v, reg, i + 1, j + 1, if change then map[Dest(b[i]) := reg] else map[])
  {
    if j + 2 < |v.order| { OrderIncreases(b, v.order, j + 1, j + 2); }
  }

  lemma StepKill(b: Block, out: set<Reg>, v: ChainVal, reg: Reg, i: nat, j: int, s: Substs)
    requires InRange(b, out, v, reg, i) && KillsCorrect(b, out) && Pending(b, v, reg, i, j, s)
    requires i == v.kill && !v.immutable
    ensures s - Erased(b[i], s) == map[] && i !in v.order
    ensures RenamedBy(b[i], b[i].(uses := RenameUses(b[i].uses, s)), s, map[], Live(b, out, i + 1))
    ensures Pending(b, v, reg, i + 1, j, map[])
  {
    hide *;
    KillFacts(b, out, v, reg, i, j, s);
    var after := Live(b, out, i + 1);
    var r := Dest(b[Last(v)]);
    KilledNotLive(b[i], after, r);
    ErasesAll(b[i], s, r, reg);
    KillRenamedHere(b[i], s, r, reg, after);
  }

  lemma KillFacts(b: Block, out: set<Reg>, v: ChainVal, reg: Reg, i: nat, j: int, s: Substs)
    requires InRange(b, out, v, reg, i) && KillsCorrect(b, out) && Pending(b, v, reg, i, j, s)
    requires i == v.kill && !v.immutable
    ensures |v.order| > 0 && i < |b| && Last(v) < |b| && Member(b, Last(v)) && |b[Last(v)].defs| == 1
    ensures i !in v.order && !Mentions(b[i], reg) && reg !in Live(b, out, i + 1)
    ensures KillsUse(b[i], Dest(b[Last(v)])) && KillsCorrectAt(b[i], Live(b, out, i + 1))
    ensures s == map[] || s == map[Dest(b[Last(v)]) := reg]
    ensures Pending(b, v, reg, i + 1, j, map[])
  {
    hide *;
    InRangeMeans(b, out, v, reg, i);
    KillMeans(b, v, i);
    AllMembersPassed(b, v, reg, i, j, s);
    PendingAtKill(b, v, reg, i, j, s);
    KillsCorrectHere(b, out, i);
    FreeNotLive(b, out, v, reg, i + 1);
  }

  lemma KillsCorrectHere(b: Block, out: set<Reg>, i: nat)
    requires KillsCorrect(b, out) && i < |b|
    ensures KillsCorrectAt(b[i], Live(b, out, i + 1))
  {
    hide Live, KillsCorrectAt;
  }

  lemma InRangeMeans(b: Block, out: set<Reg>, v: ChainVal, reg: Reg, i: nat)
    requires InRange(b, out, v, reg, i)
    ensures ChainOK(b, v) && |v.order| > 0 && EndOf(v) < |b| && Free(b, out, v, reg) && Start(v) <= i <= EndOf(v)
    ensures !Mentions(b[i], reg)
  {
    RangeInBlock(b, v);
    hide ChainOK, Mentions, Live;
  }

  lemma KillMeans(b: Block, v: ChainVal, i: nat)
    requires ChainOK(b, v) && i == v.kill && !v.immutable
    ensures |v.order| > 0 && Last(v) < i < |b| && Member(b, Last(v)) && |b[Last(v)].defs| == 1
    ensures KillsUse(b[i], Dest(b[Last(v)])) && i !in v.order
  {
    hide GetColor, KillsUse, NoMention;
    RangeInBlock(b, v);
    assert v.kill != -1;
  }

  lemma PendingAtKill(b: Block, v: ChainVal, reg: Reg, i: nat, j: int, s: Substs)
    requires ChainOK(b, v) && Pending(b, v, reg, i, j, s) && i == v.kill && |v.order| > 0 && j == |v.order| - 1
    ensures |b[Last(v)].defs| == 1 && (s == map[] || s == map[Dest(b[Last(v)]) := reg])
    ensures Pending(b, v, reg, i + 1, j, map[])
  {
    hide GetColor, NoMention;
  }

  lemma AllMembersPassed(b: Block, v: ChainVal, reg: Reg, i: nat, j: int, s: Substs)
    requires ChainOK(b, v) && Pending(b, v, reg, i, j, s) && i > Last(v)
    ensures j == |v.order| - 1
  {
    RangeInBlock(b, v);
  }

  // After the range nothing is left substituted.
  lemma NothingPending(b: Block, v: ChainVal, reg: Reg, j: int, s: Substs)
    requires ChainOK(b, v) && Pending(b, v, reg, EndOf(v) + 1, j, s)
    ensures s == map[]
  {
    RangeInBlock(b, v);
    AllMembersPassed(b, v, reg, EndOf(v) + 1, j, s);
  }
}
