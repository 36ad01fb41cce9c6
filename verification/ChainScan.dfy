/** The forward scan of AArch64A57FPLoadBalancing: Chain objects, the map of active chains, and
    scanInstruction / maybeKillChain updating them in place. */
module ChainScan {
  import opened MachineBlock
  import opened Chains
  import opened ChainComplete

  class Chain {
    var startIdx: nat
    var lastIdx: nat
    var killIdx: int              // -1: no KillInst
    var insts: set<nat>
    var killIsImmutable: bool
    var lastColor: Color
    ghost var order: seq<nat>     // insts, in program order

    ghost predicate Valid()
      reads this
    {
      && |order| > 0 && startIdx == order[0] && lastIdx == order[|order| - 1]
      && (forall n :: n in insts <==> n in order)
    }

    ghost function Value(): ChainVal
      reads this
    {
      ChainVal(order, killIdx, killIsImmutable, lastColor)
    }

    constructor (idx: nat, c: Color)
      ensures Valid() && Value() == ChainVal([idx], -1, false, c)
    {
      startIdx, lastIdx := idx, idx;
      killIdx := -1;
      killIsImmutable := false;
      insts := {idx};
      lastColor := c;
      order := [idx];
    }

    // Definitions come before the kill.
    method Add(idx: nat, c: Color)
      requires Valid() && killIdx == -1
      modifies this
      ensures Valid() && Value() == ChainVal(old(order) + [idx], -1, old(killIsImmutable), c)
    {
      lastIdx := idx;
      lastColor := c;
      insts := insts + {idx};
      order := order + [idx];
      forall n ensures n in insts <==> n in order {}
    }

    method SetKill(idx: nat, immutable: bool)
      requires Valid() && lastIdx < idx
      modifies this
      ensures Valid() && Value() == old(Value()).(kill := idx, immutable := immutable)
    {
      killIdx := idx;
      killIsImmutable := immutable;
    }
  }

  class Scanner {
    const block: Block
    var active: map<Reg, nat>     // register to position in allChains
    var allChains: seq<Chain>

    ghost var vals: seq<ChainVal> // the chains' values

    ghost predicate Valid()
      reads this, allChains
    {
      && |vals| == |allChains|
      && (forall k | 0 <= k < |allChains| :: allChains[k].Valid() && allChains[k].Value() == vals[k])
      && (forall k, l | 0 <= k < l < |allChains| :: allChains[k] != allChains[l])
    }

    ghost predicate Scanned(seen: nat, bound: nat)
      reads this, allChains
    {
      Valid() && ScanInv(block, seen, bound, active, vals)
    }

    constructor (b: Block)
      ensures block == b && active == map[] && allChains == [] && Scanned(0, 0)
    {
      block := b;
      active := map[];
      allChains := [];
      vals := [];
    }

    method SetKillAt(k: nat, idx: nat, immutable: bool)
      requires Valid() && k < |allChains| && |vals[k].order| > 0 && Last(vals[k]) < idx
      modifies this`vals, allChains
      ensures Valid() && vals == old(vals)[k := old(vals)[k].(kill := idx, immutable := immutable)]
    {
      allChains[k].SetKill(idx, immutable);
      vals := vals[k := vals[k].(kill := idx, immutable := immutable)];
    }

    method ExtendAt(k: nat, idx: nat, c: Color)
      requires Valid() && k < |allChains| && vals[k].kill == -1
      modifies this`vals, allChains
      ensures Valid() && vals == old(vals)[k := old(vals)[k].(order := old(vals)[k].order + [idx], color := c)]
    {
      allChains[k].Add(idx, c);
      vals := vals[k := vals[k].(order := vals[k].order + [idx], color := c)];
    }

    // maybeKillChain, register operand.
    method MaybeKillUse(u: Use, idx: nat)
      requires Scanned(idx, idx + 1) && idx < |block| && (u.kill ==> u in block[idx].uses)
      requires u.reg in active ==> Mentions(block[idx], u.reg) && (!u.kill ==> !AlwaysKills(block[idx], u.reg))
      modifies this`active, this`vals, allChains
      ensures Scanned(idx, idx + 1) && active == old(active) - {u.reg} && SameOrders(old(vals), vals)
      ensures Handled(block[idx], idx, old(active), old(vals), active, vals)
    {
      hide ScanInv, Handled, AlwaysKills, Mentions;
      KillOperandKeeps(block, idx, active, vals, u);
      KeysOf(block, idx, idx + 1, active, vals);
      HandledUse(block[idx], idx, active, vals, u);
      if u.kill && u.reg in active {
        LastBefore(block, idx, active, vals, u.reg);
        SetKillAt(active[u.reg], idx, u.tied);
      }
      active := active - {u.reg};
    }

    method KillMasked(r: Reg, idx: nat)
      requires Scanned(idx, idx + 1) && idx < |block| && r in active && r in block[idx].mask
      modifies this`active, this`vals, allChains
      ensures Scanned(idx, idx + 1) && active == old(active) - {r} && SameOrders(old(vals), vals)
      ensures Handled(block[idx], idx, old(active), old(vals), active, vals)
    {
      hide ScanInv, Handled, AlwaysKills, Mentions;
      KeysOf(block, idx, idx + 1, active, vals);
      HandledMask(block[idx], idx, active, vals, r);
      LastBefore(block, idx, active, vals, r);
      KillMaskedKeeps(block, idx, active, vals, r);
      SetKillAt(active[r], idx, true);
      active := active - {r};
    }

    // maybeKillChain, register-mask operand: every active chain it clobbers, in any order.
    method MaybeKillMask(mask: set<Reg>, idx: nat)
      requires Scanned(idx, idx + 1) && idx < |block| && mask == block[idx].mask
      modifies this`active, this`vals, allChains
      ensures Scanned(idx, idx + 1) && SameOrders(old(vals), vals)
      ensures active.Keys <= old(active).Keys && forall r | r in active :: r !in mask
      ensures Handled(block[idx], idx, old(active), old(vals), active, vals)
    {
      hide ScanInv, SameOrders, Handled, OneKey;
      SameOrdersRefl(vals);
      KeysOf(block, idx, idx + 1, active, vals);
      HandledRefl(block[idx], idx, active, vals);
      var todo := active.Keys * mask;
      while todo != {}
        invariant Scanned(idx, idx + 1) && SameOrders(old(vals), vals) && allChains == old(allChains)
        invariant active.Keys <= old(active).Keys && todo <= active.Keys
        invariant forall r | r in active && r in mask :: r in todo
        invariant Handled(block[idx], idx, old(active), old(vals), active, vals) && todo <= mask
        decreases |todo|
      {
        var r :| r in todo;
        todo := todo - {r};
        ghost var before, act := vals, active;
        KillMasked(r, idx);
        SameOrdersTrans(old(vals), before, vals);
        HandledTrans(block[idx], idx, old(active), old(vals), act, before, active, vals);
      }
    }

    // The operands of an instruction that ends every chain it touches. Uses come first; the mask
    // operand may stand before or after them.
    method KillTouched(idx: nat)
      requires Scanned(idx, idx + 1) && idx < |block|
      modifies this`active, this`vals, allChains
      ensures Scanned(idx, idx + 1) && SameOrders(old(vals), vals)
      ensures forall r | r in active :: !Mentions(block[idx], r)
      ensures Handled(block[idx], idx, old(active), old(vals), active, vals)
    {
      hide ScanInv, SameOrders, Handled, OneKey, AlwaysKills, Mentions;
      var i := block[idx];
      var maskFirst: bool := *;
      KeysOf(block, idx, idx + 1, active, vals);
      SameOrdersRefl(vals);
      HandledRefl(i, idx, active, vals);
      if maskFirst { MaybeKillMask(i.mask, idx); }
      for k := 0 to |i.uses|
        invariant Scanned(idx, idx + 1) && SameOrders(old(vals), vals) && allChains == old(allChains)
        invariant forall j | 0 <= j < k :: i.uses[j].reg !in active
        invariant maskFirst ==> forall r | r in active :: r !in i.mask
        invariant Handled(i, idx, old(active), old(vals), active, vals)
      {
        ghost var before, act := vals, active;
        UseMentions(i, k);
        MaybeKillUse(i.uses[k], idx);
        SameOrdersTrans(old(vals), before, vals);
        HandledTrans(i, idx, old(active), old(vals), act, before, active, vals);
      }
      if !maskFirst {
        ghost var before, act := vals, active;
        MaybeKillMask(i.mask, idx);
        SameOrdersTrans(old(vals), before, vals);
        HandledTrans(i, idx, old(active), old(vals), act, before, active, vals);
      }
      for k := 0 to |i.defs|
        invariant Scanned(idx, idx + 1) && SameOrders(old(vals), vals) && allChains == old(allChains)
        invariant forall r | r in active :: r !in i.mask
        invariant forall j | 0 <= j < |i.uses| :: i.uses[j].reg !in active
        invariant forall j | 0 <= j < k :: i.defs[j] !in active
        invariant Handled(i, idx, old(active), old(vals), active, vals)
      {
        ghost var before, act := vals, active;
        DefMentions(i, k, active);
        MaybeKillUse(Use(i.defs[k], false, false), idx);
        SameOrdersTrans(old(vals), before, vals);
        HandledTrans(i, idx, old(active), old(vals), act, before, active, vals);
      }
      NoneMentioned(i, active);
    }

    method StartChain(idx: nat)
      requires Scanned(idx, idx + 1) && idx < |block| && Member(block, idx)
      requires forall r | r in active && r != Dest(block[idx]) :: !Mentions(block[idx], r)
      requires forall k | 0 <= k < |vals| :: idx !in vals[k].order
      modifies this
      ensures Scanned(idx + 1, idx + 1)
      ensures var d := Dest(block[idx]);
              active == old(active)[d := |old(vals)|] && vals == old(vals) + [ChainVal([idx], -1, false, GetColor(d))]
      ensures |allChains| == |old(allChains)| + 1 && allChains[..|old(allChains)|] == old(allChains)
      ensures fresh(allChains[|old(allChains)|])
    {
      hide ScanInv;
      var d := Dest(block[idx]);
      NewChain(block, idx, active, vals);
      var g := new Chain(idx, GetColor(d));
      active := active[d := |allChains|];
      allChains := allChains + [g];
      vals := vals + [ChainVal([idx], -1, false, GetColor(d))];
    }

    method ScanInstruction(idx: nat)
      requires Scanned(idx, idx) && idx < |block| && WellFormed(block[idx]) && Complete(block, idx, active, vals)
      modifies this, allChains
      ensures Scanned(idx + 1, idx + 1) && Complete(block, idx + 1, active, vals)
      ensures |allChains| >= |old(allChains)| && allChains[..|old(allChains)|] == old(allChains)
      ensures forall k | |old(allChains)| <= k < |allChains| :: fresh(allChains[k])
    {
      hide ScanInv, Complete, Handled, Mentions, SameOrders, Continues, AlwaysKills, Member;
      RaiseBound(block, idx, active, vals);
      var i := block[idx];
      ghost var act0, vals0 := active, vals;
      if i.kind == Mul {
        MulIsMember(block, idx);
        KillTouched(idx);
        StillNew(vals0, vals, idx);
        StartHandled(idx, act0, vals0);
      } else if i.kind == Mla {
        ScanMla(idx);
      } else {
        KillTouched(idx);
        StepAll(block, idx, act0, vals0, active, vals);
        PassComplete(block, idx, act0, vals0, active, vals);
        Seen(block, idx, active, vals);
      }
    }

    method ContinueChain(idx: nat, accumReg: Reg)
      requires Scanned(idx, idx + 1) && idx < |block| && Member(block, idx) && accumReg in active
      requires Continues(block, idx, accumReg)
      requires forall r | r in active && r != Dest(block[idx]) && r != accumReg :: !Mentions(block[idx], r)
      requires Dest(block[idx]) != accumReg ==> Dest(block[idx]) !in active
      requires forall k | 0 <= k < |vals| :: idx !in vals[k].order
      modifies this`active, this`vals, allChains
      ensures Scanned(idx + 1, idx + 1) && old(active)[accumReg] < |old(vals)|
      ensures var d, k := Dest(block[idx]), old(active)[accumReg];
              && active == (old(active) - {accumReg})[d := k]
              && vals == old(vals)[k := old(vals)[k].(order := old(vals)[k].order + [idx], color := GetColor(d))]
    {
      hide ScanInv, Mentions, Continues;
      var destReg := Dest(block[idx]);
      var k := active[accumReg];
      ExtendChain(block, idx, active, vals, accumReg);
      LastBefore(block, idx, active, vals, accumReg);
      ExtendAt(k, idx, GetColor(destReg));
      active := (active - {accumReg})[destReg := k];
    }

    // Operands 1 and 2, and operand 0 when it is not the accumulator too.
    method KillFactors(idx: nat, destReg: Reg, accumReg: Reg)
      requires Scanned(idx, idx + 1) && idx < |block| && WellFormed(block[idx]) && block[idx].kind == Mla
      requires destReg == Dest(block[idx]) && accumReg == block[idx].uses[2].reg
      requires forall k | 0 <= k < |vals| :: idx !in vals[k].order
      modifies this`active, this`vals, allChains
      ensures Scanned(idx, idx + 1) && forall k | 0 <= k < |vals| :: idx !in vals[k].order
      ensures block[idx].uses[0].reg !in active && block[idx].uses[1].reg !in active
      ensures destReg != accumReg ==> destReg !in active
      ensures active == old(active) - Factors(block[idx])
      ensures Handled(block[idx], idx, old(active), old(vals), active, vals) && SameOrders(old(vals), vals)
    {
      hide ScanInv, SameOrders, Handled, OneKey, AlwaysKills, Mentions;
      var i := block[idx];
      KeysOf(block, idx, idx + 1, active, vals);
      UseMentions(i, 0);
      UseMentions(i, 1);
      MaybeKillUse(i.uses[0], idx);
      ghost var before, act := vals, active;
      MaybeKillUse(i.uses[1], idx);
      SameOrdersTrans(old(vals), before, vals);
      HandledTrans(i, idx, old(active), old(vals), act, before, active, vals);
      if destReg != accumReg {
        before, act := vals, active;
        MlaDest(i, active);
        MaybeKillUse(Use(destReg, false, false), idx);
        SameOrdersTrans(old(vals), before, vals);
        HandledTrans(i, idx, old(active), old(vals), act, before, active, vals);
      }
      StillNew(old(vals), vals, idx);
    }

    method ScanMla(idx: nat)
      requires Scanned(idx, idx + 1) && idx < |block| && WellFormed(block[idx]) && block[idx].kind == Mla
      requires (forall k | 0 <= k < |vals| :: idx !in vals[k].order) && Complete(block, idx, active, vals)
      modifies this, allChains
      ensures Scanned(idx + 1, idx + 1) && Complete(block, idx + 1, active, vals)
      ensures |allChains| >= |old(allChains)| && allChains[..|old(allChains)|] == old(allChains)
      ensures forall k | |old(allChains)| <= k < |allChains| :: fresh(allChains[k])
    {
      hide ScanInv, Mentions, SameOrders, Member, Handled, OneKey, AlwaysKills, Complete, Continues, NotTaken, Continuing;
      SameOrdersRefl(vals);
      MlaIsMember(block, idx);
      KeysOf(block, idx, idx + 1, active, vals);
      ghost var act0, vals0 := active, vals;
      var i := block[idx];
      var destReg, accumReg := Dest(i), i.uses[2].reg;
      MlaMentions(i);
      KillFactors(idx, destReg, accumReg);
      if accumReg in active {
        if i.uses[2].kill {
          FactorsDiffer(block, idx, act0, active);
          LastBefore(block, idx, active, vals, accumReg);
          NotInMeans(idx, vals);
          ContinueComplete(block, idx, act0, vals0, active, vals, accumReg, destReg, active[accumReg]);
          ContinueChain(idx, accumReg);
          return;
        }
        ghost var before, act := vals, active;
        UseMentions(i, 2);
        MaybeKillUse(i.uses[2], idx);
        StillNew(before, vals, idx);
        HandledTrans(i, idx, act0, vals0, act, before, active, vals);
        NotKilledNotTaken(block, idx, act0);
      } else {
        GoneNotTaken(block, idx, act0, active);
      }
      StartHandled(idx, act0, vals0);
    }

    // A new chain once every operand has been handled.
    method StartHandled(idx: nat, ghost act0: map<Reg, nat>, ghost vals0: seq<ChainVal>)
      requires Scanned(idx, idx + 1) && idx < |block| && Member(block, idx) && (block[idx].kind == Mla ==> NotTaken(block, idx, act0))
      requires ScanInv(block, idx, idx + 1, act0, vals0) && Complete(block, idx, act0, vals0)
      requires Handled(block[idx], idx, act0, vals0, active, vals)
      requires forall r | r in active :: !Mentions(block[idx], r)
      requires forall k | 0 <= k < |vals| :: idx !in vals[k].order
      modifies this
      ensures Scanned(idx + 1, idx + 1) && Complete(block, idx + 1, active, vals)
      ensures |allChains| == |old(allChains)| + 1 && allChains[..|old(allChains)|] == old(allChains)
      ensures fresh(allChains[|old(allChains)|])
    {
      hide ScanInv, Complete, Handled, Mentions, AlwaysKills, Member, NotTaken, WholeChain;
      StepAll(block, idx, act0, vals0, active, vals);
      StartComplete(block, idx, act0, vals0, active, vals);
      StartChain(idx);
    }
  }

  // Registers an Mla's factors and its destination take out of the map.
  function Factors(i: Instr): set<Reg>
    requires |i.uses| == 3 && |i.defs| == 1
  {
    {i.uses[0].reg, i.uses[1].reg} + (if Dest(i) != i.uses[2].reg then {Dest(i)} else {})
  }

  lemma KeysOf(b: Block, seen: nat, bound: nat, active: map<Reg, nat>, vals: seq<ChainVal>)
    requires ScanInv(b, seen, bound, active, vals)
    ensures OneKey(active) && forall r | r in active :: active[r] < |vals|
  {
    hide ChainOK, NoMention, Disjoint;
    forall r | r in active ensures active[r] < |vals| { assert ActiveOK(b, seen, r, active[r], vals); }
  }

  lemma UseMentions(i: Instr, k: nat)
    requires k < |i.uses|
    ensures Mentions(i, i.uses[k].reg) && (!i.uses[k].kill ==> !AlwaysKills(i, i.uses[k].reg))
  {
  }

  lemma DefMentions(i: Instr, k: nat, active: map<Reg, nat>)
    requires k < |i.defs| && (forall j | 0 <= j < |i.uses| :: i.uses[j].reg !in active) && forall r | r in active :: r !in i.mask
    ensures Mentions(i, i.defs[k]) && (i.defs[k] in active ==> !AlwaysKills(i, i.defs[k]))
  {
  }

  lemma NoneMentioned(i: Instr, active: map<Reg, nat>)
    requires forall r | r in active :: r !in i.mask
    requires forall j | 0 <= j < |i.uses| :: i.uses[j].reg !in active
    requires forall j | 0 <= j < |i.defs| :: i.defs[j] !in active
    ensures forall r | r in active :: !Mentions(i, r)
  {
  }

  lemma MlaDest(i: Instr, active: map<Reg, nat>)
    requires WellFormed(i) && i.kind == Mla && i.uses[0].reg !in active && i.uses[1].reg !in active && Dest(i) != i.uses[2].reg
    ensures Mentions(i, Dest(i)) && (Dest(i) in active ==> !AlwaysKills(i, Dest(i)))
  {
    assert i.defs[0] in DefRegs(i);
  }

  lemma FactorsDiffer(b: Block, idx: nat, act0: map<Reg, nat>, act1: map<Reg, nat>)
    requires idx < |b| && WellFormed(b[idx]) && b[idx].kind == Mla && act1 == act0 - Factors(b[idx])
    requires b[idx].uses[2].reg in act1 && b[idx].uses[2].kill
    ensures Continues(b, idx, b[idx].uses[2].reg) && Continuing(b, idx, act1, b[idx].uses[2].reg)
  {
    MlaMentions(b[idx]);
  }

  lemma NotKilledNotTaken(b: Block, idx: nat, act0: map<Reg, nat>)
    requires idx < |b| && |b[idx].uses| == 3 && !b[idx].uses[2].kill
    ensures NotTaken(b, idx, act0)
  {
  }

  lemma GoneNotTaken(b: Block, idx: nat, act0: map<Reg, nat>, act1: map<Reg, nat>)
    requires idx < |b| && WellFormed(b[idx]) && b[idx].kind == Mla && act1 == act0 - Factors(b[idx]) && b[idx].uses[2].reg !in act1
    ensures NotTaken(b, idx, act0)
  {
  }

  lemma MulIsMember(b: Block, idx: nat)
    requires idx < |b| && WellFormed(b[idx]) && b[idx].kind == Mul
    ensures Member(b, idx) && NotTaken(b, idx, map[])
  {
  }

  lemma PassComplete(b: Block, idx: nat, act0: map<Reg, nat>, vals0: seq<ChainVal>, act1: map<Reg, nat>, vals1: seq<ChainVal>)
    requires idx < |b| && Complete(b, idx, act0, vals0) && Handled(b[idx], idx, act0, vals0, act1, vals1) && b[idx].kind == Other
    requires |vals1| == |vals0| && forall k | 0 <= k < |vals1| :: WholeChain(b, idx + 1, act1, vals1[k], k)
    ensures Complete(b, idx + 1, act1, vals1)
  {
    hide WholeChain, Handled;
    HandledLength(b[idx], idx, act0, vals0, act1, vals1);
    CoveredKept(b, idx, vals0, vals1);
  }

  lemma CoveredKept(b: Block, n: nat, vals0: seq<ChainVal>, vals1: seq<ChainVal>)
    requires n <= |b| && Covered(b, n, vals0) && |vals0| <= |vals1|
    requires forall k, i | 0 <= k < |vals0| && i in vals0[k].order :: i in vals1[k].order
    ensures Covered(b, n, vals1)
  {
    forall i | 0 <= i < n && b[i].kind != Other ensures exists k :: 0 <= k < |vals1| && i in vals1[k].order {
      var k :| 0 <= k < |vals0| && i in vals0[k].order;
    }
  }

  // A new chain at idx.
  lemma StartComplete(b: Block, idx: nat, act0: map<Reg, nat>, vals0: seq<ChainVal>, act1: map<Reg, nat>, vals1: seq<ChainVal>)
    requires idx < |b| && Complete(b, idx, act0, vals0) && Handled(b[idx], idx, act0, vals0, act1, vals1) && Member(b, idx)
    requires |vals1| == |vals0| && forall k | 0 <= k < |vals1| :: WholeChain(b, idx + 1, act1, vals1[k], k)
    requires ScanInv(b, idx, idx + 1, act1, vals1) && forall k | 0 <= k < |vals1| :: idx !in vals1[k].order
    ensures var d := Dest(b[idx]);
            Complete(b, idx + 1, act1[d := |vals1|], vals1 + [ChainVal([idx], -1, false, GetColor(d))])
  {
    DestMentioned(b, idx);
    hide WholeChain, Handled, ChainOK, NoMention, Disjoint, Mentions, Member, ActiveOK;
    var d := Dest(b[idx]);
    var act2, vals2 := act1[d := |vals1|], vals1 + [ChainVal([idx], -1, false, GetColor(d))];
    HandledLength(b[idx], idx, act0, vals0, act1, vals1);
    CoveredKept(b, idx, vals0, vals2);
    assert idx in vals2[|vals1|].order;
    forall k | 0 <= k < |vals2| ensures WholeChain(b, idx + 1, act2, vals2[k], k) {
      if k < |vals1| {
        LastSeen(b, idx, vals1[k]);
        OtherKey(b, idx, act1, act2, vals1[k], k);
      } else {
        FreshComplete(b, idx, act2, vals2[k], k);
      }
    }
  }

  lemma DestMentioned(b: Block, idx: nat)
    requires idx < |b| && Member(b, idx)
    ensures |b[idx].defs| == 1 && Mentions(b[idx], Dest(b[idx]))
  {
    assert b[idx].defs[0] in DefRegs(b[idx]);
  }

  lemma LastSeen(b: Block, idx: nat, v: ChainVal)
    requires ValOK(b, idx + 1, v) && idx !in v.order
    ensures |v.order| > 0 && Last(v) < idx
  {
  }

  ghost predicate NotIn(idx: nat, vals: seq<ChainVal>) {
    forall k | 0 <= k < |vals| :: idx !in vals[k].order
  }

  lemma NotInMeans(idx: nat, vals: seq<ChainVal>)
    ensures NotIn(idx, vals) <==> forall k | 0 <= k < |vals| :: idx !in vals[k].order
  {
  }

  function Continued(vals: seq<ChainVal>, c: nat, idx: nat, color: Color): seq<ChainVal>
    requires c < |vals|
  {
    vals[c := vals[c].(order := vals[c].order + [idx], color := color)]
  }

  lemma ContinuedIs(vals: seq<ChainVal>, c: nat, idx: nat, color: Color)
    requires c < |vals|
    ensures Continued(vals, c, idx, color) == vals[c := vals[c].(order := vals[c].order + [idx], color := color)]
  {
  }

  // Chain c, active under acc, goes on at idx.
  lemma ContinueComplete(b: Block, idx: nat, act0: map<Reg, nat>, vals0: seq<ChainVal>, act1: map<Reg, nat>, vals1: seq<ChainVal>,
                         acc: Reg, d: Reg, c: nat)
    requires idx < |b| && |b[idx].defs| == 1 && d == Dest(b[idx]) && acc in act1 && c == act1[acc] && c < |vals1|
    requires Continuing(b, idx, act1, acc) && Handled(b[idx], idx, act0, vals0, act1, vals1)
    requires ScanInv(b, idx, idx + 1, act0, vals0) && Complete(b, idx, act0, vals0)
    requires ScanInv(b, idx, idx + 1, act1, vals1) && NotIn(idx, vals1)
    ensures Complete(b, idx + 1, (act1 - {acc})[d := c], Continued(vals1, c, idx, GetColor(d)))
  {
    hide *;
    LastBefore(b, idx, act1, vals1, acc);
    ContinuingMeans(b, idx, act1, acc);
    HandledLength(b[idx], idx, act0, vals0, act1, vals1);
    ValsOK(b, idx, act1, vals1);
    var w := vals1[c].(order := vals1[c].order + [idx], color := GetColor(d));
    var act2, vals2 := (act1 - {acc})[d := c], Continued(vals1, c, idx, GetColor(d));
    ContinuedIs(vals1, c, idx, GetColor(d));
    NotInMeans(idx, vals1);
    forall k | 0 <= k < |vals2| ensures WholeChain(b, idx + 1, act2, vals2[k], k) {
      if k == c {
        LastOf(vals1[c], idx, GetColor(d));
        FreshComplete(b, idx, act2, w, k);
      } else {
        StepOthers(b, idx, act0, vals0, act1, vals1, acc, k);
        LastSeen(b, idx, vals1[k]);
        OtherKey(b, idx, act1, act2, vals1[k], k);
      }
    }
    CoveredAt(b, idx, act0, vals0, vals2, c);
    AllComplete(b, idx + 1, act2, vals2);
  }

  lemma LastOf(v: ChainVal, idx: nat, c: Color)
    ensures Last(v.(order := v.order + [idx], color := c)) == idx
  {
  }

  lemma CoveredAt(b: Block, idx: nat, act0: map<Reg, nat>, vals0: seq<ChainVal>, vals2: seq<ChainVal>, c: nat)
    requires idx < |b| && Complete(b, idx, act0, vals0) && |vals0| <= |vals2| && c < |vals2| && idx in vals2[c].order
    requires forall k, i | 0 <= k < |vals0| && i in vals0[k].order :: i in vals2[k].order
    ensures Covered(b, idx + 1, vals2)
  {
    hide WholeChain;
    CoveredKept(b, idx, vals0, vals2);
  }

  lemma AllComplete(b: Block, n: nat, active: map<Reg, nat>, vals: seq<ChainVal>)
    requires n <= |b| && Covered(b, n, vals) && forall k | 0 <= k < |vals| :: WholeChain(b, n, active, vals[k], k)
    ensures Complete(b, n, active, vals)
  {
    hide Covered, WholeChain;
  }

  lemma ValsOK(b: Block, idx: nat, active: map<Reg, nat>, vals: seq<ChainVal>)
    requires ScanInv(b, idx, idx + 1, active, vals)
    ensures forall k | 0 <= k < |vals| :: ValOK(b, idx + 1, vals[k])
  {
  }

  lemma ContinuingMeans(b: Block, idx: nat, act1: map<Reg, nat>, acc: Reg)
    requires Continuing(b, idx, act1, acc)
    ensures idx < |b| && Member(b, idx) && acc in act1 && |b[idx].defs| == 1
    ensures Mentions(b[idx], acc) && Mentions(b[idx], Dest(b[idx]))
  {
    DestMentioned(b, idx);
    UseMentions(b[idx], 2);
  }

  lemma MlaIsMember(b: Block, idx: nat)
    requires idx < |b| && WellFormed(b[idx]) && b[idx].kind == Mla
    ensures Member(b, idx)
  {
  }

  lemma StillNew(v: seq<ChainVal>, w: seq<ChainVal>, idx: nat)
    requires SameOrders(v, w) && forall k | 0 <= k < |v| :: idx !in v[k].order
    ensures forall k | 0 <= k < |w| :: idx !in w[k].order
  {
  }

  lemma MlaMentions(i: Instr)
    requires WellFormed(i) && i.kind == Mla
    ensures forall r :: Mentions(i, r) <==> r == i.uses[0].reg || r == i.uses[1].reg || r == i.uses[2].reg || r == Dest(i)
  {
    assert forall r :: r in DefRegs(i) <==> r == i.defs[0];
    assert forall r :: r in UsedRegs(i) <==> r == i.uses[0].reg || r == i.uses[1].reg || r == i.uses[2].reg;
  }

  lemma RaiseBound(b: Block, idx: nat, active: map<Reg, nat>, vals: seq<ChainVal>)
    requires ScanInv(b, idx, idx, active, vals) && idx < |b|
    ensures ScanInv(b, idx, idx + 1, active, vals)
    ensures forall k | 0 <= k < |vals| :: idx !in vals[k].order
  {
    hide ChainOK, NoMention, Disjoint;
    forall k | 0 <= k < |vals| ensures ValOK(b, idx + 1, vals[k]) && idx !in vals[k].order { assert ValOK(b, idx, vals[k]); }
  }

  // Kills do not change which instructions a chain holds.
  ghost predicate SameOrders(v: seq<ChainVal>, w: seq<ChainVal>) {
    |v| == |w| && forall k | 0 <= k < |v| :: v[k].order == w[k].order
  }

  lemma SameOrdersRefl(v: seq<ChainVal>)
    ensures SameOrders(v, v)
  {
  }

  lemma SameOrdersTrans(u: seq<ChainVal>, v: seq<ChainVal>, w: seq<ChainVal>)
    requires SameOrders(u, v) && SameOrders(v, w)
    ensures SameOrders(u, w)
  {
  }

  lemma LastBefore(b: Block, idx: nat, active: map<Reg, nat>, vals: seq<ChainVal>, r: Reg)
    requires ScanInv(b, idx, idx + 1, active, vals) && r in active
    ensures active[r] < |vals| && |vals[active[r]].order| > 0 && Last(vals[active[r]]) < idx && vals[active[r]].kill == -1
    ensures forall q | q in active :: active[q] < |vals|
  {
    assert ActiveOK(b, idx, r, active[r], vals);
    forall q | q in active ensures active[q] < |vals| { assert ActiveOK(b, idx, q, active[q], vals); }
  }

  // The scan of runOnBasicBlock. The chains it returns satisfy ChainOK and share no instruction.
  method ScanBlock(b: Block) returns (s: Scanner)
    requires WellFormedBlock(b)
    ensures fresh(s) && s.block == b && s.Scanned(|b|, |b|)
    ensures forall k | 0 <= k < |s.allChains| :: fresh(s.allChains[k])
    ensures forall k | 0 <= k < |s.vals| :: ChainOK(b, s.vals[k])
    ensures forall k, l | 0 <= k < l < |s.vals| :: Disjoint(s.vals[k], s.vals[l])
    ensures AllChains(b, s.vals)
  {
    hide ScanInv, ChainOK;
    s := new Scanner(b);
    for idx := 0 to |b|
      invariant fresh(s) && s.block == b && s.Scanned(idx, idx) && Complete(b, idx, s.active, s.vals)
      invariant forall k | 0 <= k < |s.allChains| :: fresh(s.allChains[k])
    {
      assert WellFormed(b[idx]);
      ghost var before := s.allChains;
      s.ScanInstruction(idx);
      forall k | 0 <= k < |s.allChains| ensures fresh(s.allChains[k]) {
        if k < |before| { assert s.allChains[k] == s.allChains[..|before|][k]; }
      }
    }
    ChainsFound(b, s.active, s.vals);
    FoundAll(b, s.active, s.vals);
  }

  lemma ChainsFound(b: Block, active: map<Reg, nat>, vals: seq<ChainVal>)
    requires ScanInv(b, |b|, |b|, active, vals)
    ensures forall k | 0 <= k < |vals| :: ChainOK(b, vals[k])
    ensures forall k, l | 0 <= k < l < |vals| :: Disjoint(vals[k], vals[l])
  {
    forall k | 0 <= k < |vals| ensures ChainOK(b, vals[k]) { assert ValOK(b, |b|, vals[k]); }
  }
}
