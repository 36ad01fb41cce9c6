/** scavengeRegister and colorChain of AArch64A57FPLoadBalancing: find a register of the wanted
    color that is free over the chain, and move the chain's values to it in place. */
module Coloring {
  import opened MachineBlock
  import opened Chains
  import opened ChainScan
  import opened Recolor

  // Liveness is simulated backwards to the end of the chain, then every register touched within the
  // chain is added; the first register in allocation order that is left and has the color is taken.
  method ScavengeRegister(b: Block, out: set<Reg>, g: Chain, c: Color, order: seq<Reg>) returns (reg: int)
    requires g.Valid() && ChainOK(b, g.Value())
    ensures EndOf(g.Value()) < |b| && |g.order| > 0
    ensures reg == -1 || (reg >= 0 && reg in order && GetColor(reg) == c && Free(b, out, g.Value(), reg))
    ensures reg == -1 ==> forall q | q in order && GetColor(q) == c :: !Free(b, out, g.Value(), q)
  {
    hide ChainOK;
    ghost var v := g.Value();
    RangeInBlock(b, v);
    var end := if g.killIdx >= 0 then g.killIdx else g.lastIdx;
    var units := out;
    var i := |b|;
    while i != end + 1
      invariant end + 1 <= i <= |b| && units == Live(b, out, i)
      decreases i
    {
      i := i - 1;
      units := LiveBefore(b[i], units);
    }
    while i != g.startIdx
      invariant g.startIdx <= i <= end + 1
      invariant forall r :: r in units <==> r in Live(b, out, end + 1) || exists n | i <= n <= end :: Mentions(b[n], r)
      decreases i
    {
      i := i - 1;
      units := units + UsedRegs(b[i]) + DefRegs(b[i]) + b[i].mask;
    }
    for k := 0 to |order|
      invariant forall j | 0 <= j < k && GetColor(order[j]) == c :: order[j] in units
    {
      if order[k] !in units && c == GetColor(order[k]) {
        return order[k];
      }
    }
    return -1;
  }

  // The operand loop: uses are renamed, and what is killed or clobbered here is collected for erasing.
  method RenameOperands(i: Instr, substs: Substs) returns (uses: seq<Use>, toErase: set<Reg>)
    ensures uses == RenameUses(i.uses, substs) && toErase == Erased(i, substs)
  {
    uses, toErase := [], {};
    for k := 0 to |i.uses|
      invariant uses == RenameUses(i.uses, substs)[..k]
      invariant toErase == set r | r in substs && exists j | 0 <= j < k :: i.uses[j].kill && i.uses[j].reg == r
    {
      var u := i.uses[k];
      if u.reg in substs {
        uses := uses + [u.(reg := substs[u.reg])];
        if u.kill {
          toErase := toErase + {u.reg};
        }
      } else {
        uses := uses + [u];
      }
    }
    assert RenameUses(i.uses, substs)[..|i.uses|] == RenameUses(i.uses, substs);
    toErase := toErase + set r | r in substs && r in i.mask;
  }

  lemma RenameNothing(uses: seq<Use>)
    ensures RenameUses(uses, map[]) == uses
  {
  }

  // What colorChain did: which instructions it changed and how the substitution evolved.
  ghost predicate Trace(b: Block, c: Block, out: set<Reg>, v: ChainVal, reg: Reg, subs: seq<Substs>) {
    && ChainOK(b, v) && |v.order| > 0 && EndOf(v) < |b| && Free(b, out, v, reg)
    && Renames(b, c, subs, out)
    && (forall n | 0 <= n <= |b| :: SubstsAt(b, v, reg, n, subs[n]))
    && (forall n | 0 <= n < |b| && n !in v.order && (v.immutable || n != v.kill) :: c[n] == b[n])
    && (forall n | 0 <= n < |b| && n !in v.order :: c[n].defs == b[n].defs)
  }

  ghost predicate SubstsAt(b: Block, v: ChainVal, reg: Reg, n: nat, s: Substs)
    requires |v.order| > 0
  {
    s == map[] || (Start(v) < n <= EndOf(v) && exists j :: Pending(b, v, reg, n, j, s))
  }

  // State of the renaming after `i` instructions.
  ghost predicate SoFar(b: Block, c: Block, out: set<Reg>, v: ChainVal, reg: Reg, subs: seq<Substs>, i: nat)
    requires |v.order| > 0
  {
    && |c| == |b| && |subs| == i + 1 && i <= |b|
    && (forall n | 0 <= n < i :: RenamedBy(b[n], c[n], subs[n], subs[n + 1], Live(b, out, n + 1)))
    && (forall n | 0 <= n <= i :: SubstsAt(b, v, reg, n, subs[n]))
    && (forall n | 0 <= n < i && n !in v.order && (v.immutable || n != v.kill) :: c[n] == b[n])
    && (forall n | 0 <= n < i && n !in v.order :: c[n].defs == b[n].defs)
    && (forall n | i <= n < |b| :: c[n] == b[n])
    && subs[0] == map[]
  }

  lemma Extend(b: Block, c: Block, c': Block, out: set<Reg>, v: ChainVal, reg: Reg, subs: seq<Substs>, i: nat, t: Substs)
    requires |v.order| > 0 && i < |b| && SoFar(b, c, out, v, reg, subs, i)
    requires |c'| == |c| && c' == c[i := c'[i]]
    requires RenamedBy(b[i], c'[i], subs[i], t, Live(b, out, i + 1)) && SubstsAt(b, v, reg, i + 1, t)
    requires i !in v.order && (v.immutable || i != v.kill) ==> c'[i] == b[i]
    requires i !in v.order ==> c'[i].defs == b[i].defs
    ensures SoFar(b, c', out, v, reg, subs + [t], i + 1)
  {
    hide RenamedBy, SubstsAt;
    var subs' := subs + [t];
    forall n | 0 <= n < i + 1 ensures RenamedBy(b[n], c'[n], subs'[n], subs'[n + 1], Live(b, out, n + 1)) {}
  }

  // Outside the chain's range nothing is substituted and nothing changes.
  lemma Outside(i: Instr, after: set<Reg>)
    ensures RenamedBy(i, i, map[], map[], after)
  {
  }

  lemma {:induction false} Prefix(b: Block, out: set<Reg>, v: ChainVal, reg: Reg, i: nat) returns (subs: seq<Substs>)
    requires |v.order| > 0 && i <= |b|
    ensures SoFar(b, b, out, v, reg, subs, i) && |subs| == i + 1 && subs[i] == map[]
  {
    hide RenamedBy;
    if i == 0 {
      subs := [map[]];
    } else {
      var p := Prefix(b, out, v, reg, i - 1);
      Outside(b[i - 1], Live(b, out, i));
      Extend(b, b, b, out, v, reg, p, i - 1, map[]);
      subs := p + [map[]];
    }
  }

  lemma {:induction false} Suffix(b: Block, c: Block, out: set<Reg>, v: ChainVal, reg: Reg, subs: seq<Substs>, i: nat) returns (all: seq<Substs>)
    requires |v.order| > 0 && i <= |b| && SoFar(b, c, out, v, reg, subs, i) && subs[i] == map[]
    ensures SoFar(b, c, out, v, reg, all, |b|) && all[|b|] == map[]
    decreases |b| - i
  {
    hide RenamedBy, SoFar;
    if i == |b| {
      all := subs;
    } else {
      Outside(b[i], Live(b, out, i + 1));
      SameHere(b, c, out, v, reg, subs, i);
      Extend(b, c, c, out, v, reg, subs, i, map[]);
      all := Suffix(b, c, out, v, reg, subs + [map[]], i + 1);
    }
  }

  lemma SameHere(b: Block, c: Block, out: set<Reg>, v: ChainVal, reg: Reg, subs: seq<Substs>, i: nat)
    requires |v.order| > 0 && i < |b| && SoFar(b, c, out, v, reg, subs, i)
    ensures |c| == |b| && c[i] == b[i] && |subs| == i + 1
  {
  }

  lemma Finished(b: Block, c: Block, out: set<Reg>, v: ChainVal, reg: Reg, subs: seq<Substs>)
    requires ChainOK(b, v) && |v.order| > 0 && EndOf(v) < |b| && Free(b, out, v, reg)
    requires SoFar(b, c, out, v, reg, subs, |b|) && subs[|b|] == map[]
    ensures Trace(b, c, out, v, reg, subs)
  {
    hide RenamedBy, ChainOK, Free, SubstsAt;
  }

  // ----- Which destinations change -----

  // The definition at n gets the new register, unless it has the color already or is a last value that the
  // chain does not own.
  predicate Repainted(b: Block, v: ChainVal, c: Color, all: bool, n: nat) {
    && |v.order| > 0 && n < |b| && |b[n].defs| > 0 && (all || GetColor(b[n].defs[0]) != c)
    && !(RequiresFixup(v) && n == Last(v))
  }

  // Members below i have their final destinations.
  ghost predicate Painted(b: Block, d: Block, v: ChainVal, reg: Reg, c: Color, all: bool, i: nat) {
    |d| == |b| && forall n | n in v.order && n < i && n < |b| ::
      d[n].defs == if Repainted(b, v, c, all, n) then [reg] else b[n].defs
  }

  lemma PaintedStep(b: Block, d: Block, d': Block, v: ChainVal, reg: Reg, c: Color, all: bool, i: nat)
    requires Painted(b, d, v, reg, c, all, i) && i < |b| && |d'| == |d| && d' == d[i := d'[i]]
    requires i in v.order ==> d'[i].defs == if Repainted(b, v, c, all, i) then [reg] else b[i].defs
    ensures Painted(b, d', v, reg, c, all, i + 1)
  {
    hide Repainted;
  }

  lemma ExtendBoth(b: Block, d: Block, d': Block, out: set<Reg>, v: ChainVal, reg: Reg, subs: seq<Substs>, i: nat, t: Substs, c: Color, all: bool)
    requires |v.order| > 0 && i < |b| && SoFar(b, d, out, v, reg, subs, i) && Painted(b, d, v, reg, c, all, i)
    requires |d'| == |d| && d' == d[i := d'[i]]
    requires RenamedBy(b[i], d'[i], subs[i], t, Live(b, out, i + 1)) && SubstsAt(b, v, reg, i + 1, t)
    requires i !in v.order && (v.immutable || i != v.kill) ==> d'[i] == b[i]
    requires i !in v.order ==> d'[i].defs == b[i].defs
    requires i in v.order ==> d'[i].defs == if Repainted(b, v, c, all, i) then [reg] else b[i].defs
    ensures SoFar(b, d', out, v, reg, subs + [t], i + 1) && Painted(b, d', v, reg, c, all, i + 1)
  {
    hide *;
    PaintedStep(b, d, d', v, reg, c, all, i);
    Extend(b, d, d', out, v, reg, subs, i, t);
  }

  lemma PaintedStart(b: Block, v: ChainVal, reg: Reg, c: Color, all: bool)
    requires ChainOK(b, v) && |v.order| > 0
    ensures Painted(b, b, v, reg, c, all, Start(v))
  {
    hide Repainted;
    forall n | n in v.order && n < Start(v) ensures false {
      var k :| 0 <= k < |v.order| && v.order[k] == n;
      if k > 0 { OrderIncreases(b, v.order, 0, k); }
    }
  }

  lemma PaintedEnd(b: Block, d: Block, v: ChainVal, reg: Reg, c: Color, all: bool)
    requires ChainOK(b, v) && |v.order| > 0 && Painted(b, d, v, reg, c, all, EndOf(v) + 1)
    ensures Painted(b, d, v, reg, c, all, |b|)
  {
    hide Repainted;
    RangeInBlock(b, v);
    forall n | n in v.order ensures n <= EndOf(v) {
      var k :| 0 <= k < |v.order| && v.order[k] == n;
      if k < |v.order| - 1 { OrderIncreases(b, v.order, k, |v.order| - 1); }
    }
  }

  // A repainted chain has the color throughout, but for a last value it does not own.
  lemma ChainHasColor(b: Block, d: Block, v: ChainVal, reg: Reg, c: Color, all: bool, n: nat)
    requires ChainOK(b, v) && Painted(b, d, v, reg, c, all, |b|) && GetColor(reg) == c
    requires n in v.order && !((v.kill == -1 || v.immutable) && n == Last(v))
    ensures n < |d| && |d[n].defs| == 1 && (d[n].defs[0] % 2 == 0 <==> c == Even)
  {
    hide Linked;
    ChainMember(b, v, n);
  }

  lemma ChainMember(b: Block, v: ChainVal, n: nat)
    requires ChainOK(b, v) && n in v.order
    ensures |v.order| > 0 && n < |b| && |b[n].defs| == 1
  {
    hide GetColor;
    var k :| 0 <= k < |v.order| && v.order[k] == n;
    assert Member(b, v.order[k]);
  }

  // The loop's body on a member of the chain or its mutable kill: the uses are substituted, and a member's
  // definition repainted.
  method RenameInChain(a: array<Instr>, g: Chain, c: Color, transformAll: bool, i: nat, r: Reg, substs: Substs,
                       ghost b: Block, ghost out: set<Reg>, ghost v: ChainVal, ghost j: int)
    returns (changed: bool, substs': Substs, ghost j': int)
    requires g.Valid() && g.Value() == v && KillsCorrect(b, out) && |b| == a.Length && i < a.Length && a[i] == b[i]
    requires InRange(b, out, v, r, i) && Pending(b, v, r, i, j, substs) && (i in v.order || (i == v.kill && !v.immutable))
    modifies a
    ensures a[..] == old(a[..])[i := a[i]] && ChainOK(b, v)
    ensures Pending(b, v, r, i + 1, j', substs') && RenamedBy(b[i], a[i], substs, substs', Live(b, out, i + 1))
    ensures a[i].defs == if i in v.order && Repainted(b, v, c, transformAll, i) then [r] else b[i].defs
    ensures changed <==> i in v.order && Repainted(b, v, c, transformAll, i)
    ensures !changed && substs == map[] ==> a[..] == old(a[..]) && substs' == map[]
  {
    hide ChainOK, Free, RenamedBy, KillsCorrect, Pending, Live, Repainted, InRange;
    InRangeMeans(b, out, v, r, i);
    var uses, toErase := RenameOperands(a[i], substs);
    RenameNothing(a[i].uses);
    substs' := substs - toErase;
    changed, j' := false, j;
    if i != g.killIdx {
      NextMember(b, v, r, i, j, substs);
      var mo := a[i].defs[0];
      var change := transformAll || GetColor(mo) != c;
      if (g.killIdx < 0 || g.killIsImmutable) && i == g.lastIdx {
        change := false;
      }
      StepMember(b, out, v, r, i, j, substs, change);
      RepaintedIs(b, v, c, transformAll, i);
      if change {
        substs' := substs'[mo := r];
        a[i] := a[i].(uses := uses, defs := [r]);
        changed := true;
      } else {
        a[i] := a[i].(uses := uses);
      }
      j' := j + 1;
    } else {
      KillIsNoMember(b, v);
      StepKill(b, out, v, r, i, j, substs);
      a[i] := a[i].(uses := uses);
    }
  }

  method ColorChain(a: array<Instr>, g: Chain, c: Color, out: set<Reg>, order: seq<Reg>, transformAll: bool)
    returns (changed: bool, ghost reg: int, ghost subs: seq<Substs>)
    requires g.Valid() && ChainOK(a[..], g.Value()) && KillsCorrect(a[..], out)
    modifies a
    ensures g.Value() == old(g.Value()) && -1 <= reg
    ensures reg == -1 ==> !changed
    ensures !changed ==> a[..] == old(a[..])
    ensures |g.order| > 0 && EndOf(g.Value()) < a.Length
    ensures reg == -1 ==> forall q | q in order && GetColor(q) == c :: !Free(old(a[..]), out, g.Value(), q)
    ensures reg >= 0 ==> reg in order && GetColor(reg) == c && Trace(old(a[..]), a[..], out, g.Value(), reg, subs)
    ensures reg >= 0 ==> Painted(old(a[..]), a[..], g.Value(), reg, c, transformAll, a.Length)
  {
    hide ChainOK, Free, SoFar, RenamedBy, KillsCorrect, Pending, Live, Painted, Repainted, SubstsAt, InRange;
    ghost var b := a[..];
    ghost var v := g.Value();
    changed := false;
    var r := ScavengeRegister(a[..], out, g, c, order);
    reg, subs := r, [];
    if r == -1 {
      return;
    }
    RangeInBlock(b, v);
    subs := Prefix(b, out, v, r, g.startIdx);
    PaintedStart(b, v, r, c, transformAll);
    var substs: Substs := map[];
    var end := if g.killIdx >= 0 then g.killIdx else g.lastIdx;
    ghost var j := -1;
    assert Pending(b, v, r, g.startIdx, -1, map[]) by { FirstPending(b, v, r); }
    for i := g.startIdx to end + 1
      invariant a.Length == |b| && g.Value() == v && g.Valid()
      invariant SoFar(b, a[..], out, v, r, subs, i) && |subs| == i + 1 && subs[i] == substs
      invariant Pending(b, v, r, i, j, substs)
      invariant Painted(b, a[..], v, r, c, transformAll, i)
      invariant !changed ==> a[..] == b && substs == map[]
    {
      assert a[i] == b[i] by { SameHere(b, a[..], out, v, r, subs, i); }
      InRangeHere(b, out, v, r, i);
      if i !in g.insts && (i != g.killIdx || g.killIsImmutable) {
        StepOther(b, out, v, r, i, j, substs);
        PendingIsAt(b, v, r, i + 1, j, substs);
        ExtendBoth(b, a[..], a[..], out, v, r, subs, i, substs, c, transformAll);
        subs := subs + [substs];
        continue;
      }
      ghost var before := a[..];
      var repainted;
      repainted, substs, j := RenameInChain(a, g, c, transformAll, i, r, substs, b, out, v, j);
      PendingIsAt(b, v, r, i + 1, j, substs);
      changed := changed || repainted;
      ExtendBoth(b, before, a[..], out, v, r, subs, i, substs, c, transformAll);
      subs := subs + [substs];
    }
    NothingPending(b, v, r, j, substs);   // "No substitutions should be left active!"
    assert substs == map[];
    subs := Suffix(b, a[..], out, v, r, subs, end + 1);
    Finished(b, a[..], out, v, r, subs);
    PaintedEnd(b, a[..], v, r, c, transformAll);
  }

  lemma RepaintedIs(b: Block, v: ChainVal, c: Color, all: bool, n: nat)
    requires ChainOK(b, v) && |v.order| > 0 && n < |b| && |b[n].defs| > 0
    ensures Repainted(b, v, c, all, n) <==>
      (all || GetColor(b[n].defs[0]) != c) && !((v.kill < 0 || v.immutable) && n == v.order[|v.order| - 1])
  {
  }

  // The kill comes after every member.
  lemma KillIsNoMember(b: Block, v: ChainVal)
    requires ChainOK(b, v) && v.kill >= 0
    ensures v.kill !in v.order
  {
    RangeInBlock(b, v);
  }

  lemma FirstPending(b: Block, v: ChainVal, reg: Reg)
    requires ChainOK(b, v)
    ensures |v.order| > 0 && Pending(b, v, reg, Start(v), -1, map[])
  {
  }

  lemma InRangeHere(b: Block, out: set<Reg>, v: ChainVal, reg: Reg, i: nat)
    requires ChainOK(b, v) && |v.order| > 0 && EndOf(v) < |b| && Free(b, out, v, reg) && Start(v) <= i <= EndOf(v)
    ensures InRange(b, out, v, reg, i)
  {
  }

  lemma PendingIsAt(b: Block, v: ChainVal, reg: Reg, n: nat, j: int, s: Substs)
    requires ChainOK(b, v) && |v.order| > 0 && Pending(b, v, reg, n, j, s)
    ensures SubstsAt(b, v, reg, n, s)
  {
    RangeInBlock(b, v);
  }
}
