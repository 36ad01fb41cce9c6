/** Chains of FP multiplies and multiply-accumulates in one basic block, and the forward scan
    that collects them (AArch64A57FPLoadBalancing.cpp). Instructions are named by their index. */
module Chains {
  import opened MachineBlock

  datatype Color = Even | Odd

  // getColor: the parity of the register's encoding.
  function GetColor(r: Reg): Color {
    if r % 2 == 0 then Even else Odd
  }

  // What a chain says: its members in order, the instruction that kills its last value, -1 if none, and the
  // color of that value.
  datatype ChainVal = ChainVal(order: seq<nat>, kill: int, immutable: bool, color: Color)

  // Operand shapes of the two kinds: a destination, two factors, and the accumulator as operand 3.
  predicate WellFormed(i: Instr) {
    && (i.kind != Other ==> |i.defs| == 1 && i.mask == {})
    && (i.kind == Mla ==> |i.uses| == 3)
  }

  ghost predicate WellFormedBlock(b: Block) {
    forall n | 0 <= n < |b| :: WellFormed(b[n])
  }

  function Dest(i: Instr): Reg
    requires |i.defs| == 1
  {
    i.defs[0]
  }

  ghost predicate NoMention(b: Block, lo: int, hi: int, r: Reg) {
    forall n | lo <= n < hi && 0 <= n < |b| :: !Mentions(b[n], r)
  }

  predicate Member(b: Block, n: nat) {
    n < |b| && b[n].kind != Other && |b[n].defs| == 1 && b[n].mask == {}
  }

  // Instruction n continues a chain whose value is in r: it reads r once, as its killed accumulator.
  predicate Continues(b: Block, n: nat, r: Reg) {
    && n < |b| && b[n].kind == Mla && |b[n].uses| == 3
    && b[n].uses[2].kill && b[n].uses[2].reg == r && b[n].uses[0].reg != r && b[n].uses[1].reg != r
  }

  ghost predicate Linked(b: Block, order: seq<nat>) {
    && |order| > 0
    && (forall j | 0 <= j < |order| :: Member(b, order[j]))
    && (forall j | 0 <= j < |order| - 1 :: LinkedAt(b, order[j], order[j + 1]))
  }

  // Consecutive members: nothing in between mentions the value passed from one to the next.
  ghost predicate LinkedAt(b: Block, m: nat, n: nat) {
    m < n && Member(b, m) && Continues(b, n, Dest(b[m])) && NoMention(b, m + 1, n, Dest(b[m]))
  }

  // The use that a mutable kill stands for.
  predicate KillsUse(i: Instr, r: Reg) {
    exists k | 0 <= k < |i.uses| :: i.uses[k].kill && i.uses[k].reg == r
  }

  ghost predicate Killed(b: Block, last: nat, kill: int, immutable: bool) {
    && last < kill < |b| && Member(b, last)
    && (!immutable ==> KillsUse(b[kill], Dest(b[last])) && NoMention(b, last + 1, kill, Dest(b[last])))
  }

  ghost predicate ChainOK(b: Block, v: ChainVal) {
    && Linked(b, v.order)
    && (v.kill == -1 || Killed(b, v.order[|v.order| - 1], v.kill, v.immutable))
    && v.color == GetColor(Dest(b[v.order[|v.order| - 1]]))
  }

  function Last(v: ChainVal): nat
    requires |v.order| > 0
  {
    v.order[|v.order| - 1]
  }

  // requiresFixup
  predicate RequiresFixup(v: ChainVal) {
    v.kill == -1 || v.immutable
  }

  ghost predicate Disjoint(v: ChainVal, w: ChainVal) {
    forall n | n in v.order :: n !in w.order
  }

  // ----- The scan's invariant -----

  // Chains found so far lie below `bound`; an active chain is keyed by the register of its last value, which
  // nothing has mentioned since, up to `seen`.
  ghost predicate ScanInv(b: Block, seen: nat, bound: nat, active: map<Reg, nat>, vals: seq<ChainVal>) {
    && seen <= bound <= |b|
    && (forall k | 0 <= k < |vals| :: ValOK(b, bound, vals[k]))
    && (forall k, l | 0 <= k < l < |vals| :: Disjoint(vals[k], vals[l]))
    && (forall r | r in active :: ActiveOK(b, seen, r, active[r], vals))
    && (forall r, q | r in active && q in active && active[r] == active[q] :: r == q)
  }

  ghost predicate ValOK(b: Block, bound: nat, v: ChainVal) {
    && ChainOK(b, v) && Last(v) < bound && v.kill < bound && (forall n | n in v.order :: n < bound)
  }

  ghost predicate ActiveOK(b: Block, seen: nat, r: Reg, k: nat, vals: seq<ChainVal>) {
    && k < |vals| && |vals[k].order| > 0 && vals[k].kill == -1 && Last(vals[k]) < seen
    && Member(b, Last(vals[k])) && r == Dest(b[Last(vals[k])])
    && NoMention(b, Last(vals[k]) + 1, seen, r)
  }

  // maybeKillChain on a register operand.
  function KillOperand(idx: nat, active: map<Reg, nat>, vals: seq<ChainVal>, u: Use): seq<ChainVal>
    requires forall r | r in active :: active[r] < |vals|
  {
    if u.kill && u.reg in active then vals[active[u.reg] := vals[active[u.reg]].(kill := idx, immutable := u.tied)]
    else vals
  }

  lemma KillOperandKeeps(b: Block, idx: nat, active: map<Reg, nat>, vals: seq<ChainVal>, u: Use)
    requires idx < |b| && ScanInv(b, idx, idx + 1, active, vals)
    requires u.kill ==> u in b[idx].uses
    ensures forall r | r in active :: active[r] < |vals|
    ensures ScanInv(b, idx, idx + 1, active - {u.reg}, KillOperand(idx, active, vals, u))
  {
    hide Linked, NoMention, Disjoint, ChainOK, Member;
    forall r | r in active ensures active[r] < |vals| { assert ActiveOK(b, idx, r, active[r], vals); }
    var ws := KillOperand(idx, active, vals, u);
    if u.kill && u.reg in active {
      var k := active[u.reg];
      assert ActiveOK(b, idx, u.reg, k, vals);
      assert KillsUse(b[idx], u.reg);
      KilledValOK(b, idx, vals, u.reg, k, u.tied);
    }
    forall k, l | 0 <= k < l < |ws| ensures Disjoint(ws[k], ws[l]) { SameOrder(vals, ws, k, l); }
    forall r | r in active - {u.reg} ensures ActiveOK(b, idx, r, active[r], ws) {
      assert ActiveOK(b, idx, r, active[r], vals);
    }
  }

  // A chain whose last value instruction idx kills.
  lemma KilledValOK(b: Block, idx: nat, vals: seq<ChainVal>, r: Reg, k: nat, immutable: bool)
    requires idx < |b| && ActiveOK(b, idx, r, k, vals) && ValOK(b, idx + 1, vals[k])
    requires immutable || KillsUse(b[idx], r)
    ensures ValOK(b, idx + 1, vals[k].(kill := idx, immutable := immutable))
  {
    hide Linked, NoMention, KillsUse, GetColor;
  }

  lemma SameOrder(vals: seq<ChainVal>, ws: seq<ChainVal>, k: nat, l: nat)
    requires |vals| == |ws| && k < |ws| && l < |ws| && Disjoint(vals[k], vals[l])
    requires vals[k].order == ws[k].order && vals[l].order == ws[l].order
    ensures Disjoint(ws[k], ws[l])
  {
  }

  // maybeKillChain on a register mask, for one clobbered register.
  lemma KillMaskedKeeps(b: Block, idx: nat, active: map<Reg, nat>, vals: seq<ChainVal>, r: Reg)
    requires idx < |b| && ScanInv(b, idx, idx + 1, active, vals) && r in active
    ensures active[r] < |vals|
    ensures ScanInv(b, idx, idx + 1, active - {r}, vals[active[r] := vals[active[r]].(kill := idx, immutable := true)])
  {
    hide Linked, NoMention, Disjoint, ChainOK, Member;
    var k := active[r];
    assert ActiveOK(b, idx, r, k, vals);
    var ws := vals[k := vals[k].(kill := idx, immutable := true)];
    KilledValOK(b, idx, vals, r, k, true);
    forall i, j | 0 <= i < j < |ws| ensures Disjoint(ws[i], ws[j]) { SameOrder(vals, ws, i, j); }
    forall q | q in active - {r} ensures ActiveOK(b, idx, q, active[q], ws) {
      assert ActiveOK(b, idx, q, active[q], vals);
    }
  }

  // Once no active register is mentioned by instruction idx, the scan has seen it.
  lemma Seen(b: Block, idx: nat, active: map<Reg, nat>, vals: seq<ChainVal>)
    requires idx < |b| && ScanInv(b, idx, idx + 1, active, vals)
    requires forall r | r in active :: !Mentions(b[idx], r)
    ensures ScanInv(b, idx + 1, idx + 1, active, vals)
  {
    hide Linked, Disjoint, Mentions;
    forall r | r in active ensures ActiveOK(b, idx + 1, r, active[r], vals) {
      assert ActiveOK(b, idx, r, active[r], vals);
    }
  }

  lemma NewChain(b: Block, idx: nat, active: map<Reg, nat>, vals: seq<ChainVal>)
    requires idx < |b| && ScanInv(b, idx, idx + 1, active, vals) && Member(b, idx)
    requires forall r | r in active && r != Dest(b[idx]) :: !Mentions(b[idx], r)
    requires forall k | 0 <= k < |vals| :: idx !in vals[k].order
    ensures var d := Dest(b[idx]);
            ScanInv(b, idx + 1, idx + 1, active[d := |vals|], vals + [ChainVal([idx], -1, false, GetColor(d))])
  {
    hide Mentions;
    var d := Dest(b[idx]);
    var v := ChainVal([idx], -1, false, GetColor(d));
    var ws := vals + [v];
    Seen(b, idx, active - {d}, vals);
    assert ValOK(b, idx + 1, v);
    forall k, l | 0 <= k < l < |ws| ensures Disjoint(ws[k], ws[l]) {
      if l < |vals| { assert Disjoint(vals[k], vals[l]); } else { assert idx !in vals[k].order; }
    }
    var act := active[d := |vals|];
    forall r | r in act ensures ActiveOK(b, idx + 1, r, act[r], ws) {
      if r != d { assert ActiveOK(b, idx + 1, r, (active - {d})[r], vals); }
    }
  }

  // Chain continues at idx: its key moves from the accumulator to the destination.
  lemma ExtendChain(b: Block, idx: nat, active: map<Reg, nat>, vals: seq<ChainVal>, acc: Reg)
    requires idx < |b| && ScanInv(b, idx, idx + 1, active, vals) && Member(b, idx) && acc in active
    requires Continues(b, idx, acc)
    requires forall r | r in active && r != Dest(b[idx]) && r != acc :: !Mentions(b[idx], r)
    requires Dest(b[idx]) != acc ==> Dest(b[idx]) !in active
    requires forall k | 0 <= k < |vals| :: idx !in vals[k].order
    ensures active[acc] < |vals|
    ensures var d, k := Dest(b[idx]), active[acc];
            ScanInv(b, idx + 1, idx + 1, (active - {acc})[d := k], vals[k := vals[k].(order := vals[k].order + [idx], color := GetColor(d))])
  {
    var d, k := Dest(b[idx]), active[acc];
    assert ActiveOK(b, idx, acc, k, vals);
    assert ValOK(b, idx + 1, vals[k]);
    hide Mentions, NoMention, ChainOK, Member, Continues, Disjoint;
    var rest := active - {d} - {acc};
    Seen(b, idx, rest, vals);
    ExtendVal(b, idx, vals[k], acc);
    ExtendDisjoint(vals, k, idx, d);
    NothingSince(b, idx, d);
    MoveKey(b, idx, rest, vals, k, d);
    assert (active - {acc})[d := k] == rest[d := k];
  }

  // The other chains stay as they are; chain k is now keyed by d.
  lemma MoveKey(b: Block, idx: nat, rest: map<Reg, nat>, vals: seq<ChainVal>, k: nat, d: Reg)
    requires idx < |b| && ScanInv(b, idx + 1, idx + 1, rest, vals) && k < |vals|
    requires d !in rest && forall r | r in rest :: rest[r] != k
    requires var v := vals[k].(order := vals[k].order + [idx], color := GetColor(d)); var ws := vals[k := v];
             && ValOK(b, idx + 1, v) && v.kill == -1 && Member(b, idx) && d == Dest(b[idx])
             && NoMention(b, idx + 1, idx + 1, d)
             && forall i, j | 0 <= i < j < |ws| :: Disjoint(ws[i], ws[j])
    ensures ScanInv(b, idx + 1, idx + 1, rest[d := k], vals[k := vals[k].(order := vals[k].order + [idx], color := GetColor(d))])
  {
    hide Mentions, NoMention, ChainOK, Member, Disjoint;
    var ws := vals[k := vals[k].(order := vals[k].order + [idx], color := GetColor(d))];
    forall r | r in rest ensures ActiveOK(b, idx + 1, r, rest[r], ws) {
      assert ActiveOK(b, idx + 1, r, rest[r], vals);
    }
  }

  lemma ExtendDisjoint(vals: seq<ChainVal>, k: nat, idx: nat, d: Reg)
    requires k < |vals| && (forall i, j | 0 <= i < j < |vals| :: Disjoint(vals[i], vals[j]))
    requires forall i | 0 <= i < |vals| :: idx !in vals[i].order
    ensures var ws := vals[k := vals[k].(order := vals[k].order + [idx], color := GetColor(d))];
            forall i, j | 0 <= i < j < |ws| :: Disjoint(ws[i], ws[j])
  {
    var ws := vals[k := vals[k].(order := vals[k].order + [idx], color := GetColor(d))];
    forall i, j | 0 <= i < j < |ws| ensures Disjoint(ws[i], ws[j]) {
      assert Disjoint(vals[i], vals[j]);
    }
  }

  lemma NothingSince(b: Block, idx: nat, r: Reg)
    ensures NoMention(b, idx + 1, idx + 1, r)
  {
  }

  lemma ExtendVal(b: Block, idx: nat, v: ChainVal, acc: Reg)
    requires idx < |b| && ValOK(b, idx + 1, v) && v.kill == -1 && Last(v) < idx
    requires Member(b, idx) && Member(b, Last(v)) && acc == Dest(b[Last(v)]) && Continues(b, idx, acc)
    requires NoMention(b, Last(v) + 1, idx, acc)
    ensures ValOK(b, idx + 1, v.(order := v.order + [idx], color := GetColor(Dest(b[idx]))))
  {
    hide NoMention, Member, Continues;
    ExtendLinked(b, v.order, idx);
  }

  lemma ExtendLinked(b: Block, order: seq<nat>, idx: nat)
    requires Linked(b, order) && Member(b, idx) && LinkedAt(b, order[|order| - 1], idx)
    ensures Linked(b, order + [idx])
  {
    hide Member, LinkedAt;
    var o := order + [idx];
    forall j | 0 <= j < |o| - 1 ensures LinkedAt(b, o[j], o[j + 1]) {
      if j < |order| - 1 { assert LinkedAt(b, order[j], order[j + 1]); }
    }
  }
}
