/** AArch64ConditionOptimizer on blocks: which compares it rewrites, within one block and across two, and
    exactly when every reader of the flags still sees the same outcome. */
module ConditionOptimizer {
  import opened AdjustCompare
  import opened Flags
  import opened Options

  // Csinc, Bcc and Reads test the flags under a condition; ReadsWrites also sets them.
  datatype Ins = CmpIns(cmp: Cmp) | Csinc(cc: CondCode) | Bcc(cc: CondCode) | Reads(cc: CondCode) | ReadsWrites(cc: CondCode) | Writes | Other

  type Block = seq<Ins>

  predicate ReadsFlags(i: Ins) { i.Csinc? || i.Bcc? || i.Reads? || i.ReadsWrites? }

  predicate ModifiesFlags(i: Ins) { i.CmpIns? || i.Writes? || i.ReadsWrites? }

  // ----- Meaning -----

  // Flags after an instruction. `env` gives register values; `other` what other instructions set.
  function After(i: Ins, n: nat, env: nat -> int, other: (nat, NZCV) -> NZCV, f: NZCV): NZCV {
    match i
    case CmpIns(c) =>
      if c.imm.Some? then ModulusPositive(c.opc); FlagsOf(c, env(c.reg) % Modulus(c.opc)) else other(n, NZCV(false, false, false, false))
    case Writes => other(n, NZCV(false, false, false, false))
    case ReadsWrites(_) => other(n, f)
    case _ => f
  }

  lemma ModulusPositive(o: Opcode)
    ensures Modulus(o) > 0
  {
  }

  function FlagsBefore(b: Block, n: nat, env: nat -> int, other: (nat, NZCV) -> NZCV, f0: NZCV): NZCV
    requires n <= |b|
  {
    if n == 0 then f0 else After(b[n - 1], n - 1, env, other, FlagsBefore(b, n - 1, env, other, f0))
  }

  // The outcome seen by a reader.
  predicate Outcome(b: Block, n: nat, env: nat -> int, other: (nat, NZCV) -> NZCV, f0: NZCV)
    requires n < |b| && ReadsFlags(b[n])
  {
    Holds(b[n].cc, FlagsBefore(b, n, env, other, f0))
  }

  // Every reader sees the same outcome in both blocks, whatever the registers hold.
  ghost predicate SameOutcomes(b: Block, c: Block) {
    && |b| == |c| && (forall n | 0 <= n < |b| :: ReadsFlags(b[n]) == ReadsFlags(c[n]))
    && forall n: nat, env, other, f0 | n < |b| && ReadsFlags(b[n]) :: Outcome(b, n, env, other, f0) == Outcome(c, n, env, other, f0)
  }

  // What the pass does to a block: the compare at adj is adjusted together with the condition at sel. Up
  // to `end`, which is the next instruction to set the flags or the end of the block, nothing else sets flags.
  ghost predicate Rewritten(b: Block, c: Block, adj: nat, sel: nat, end: nat) {
    && adj < sel < end <= |b| && b[adj].CmpIns? && WellFormed(b[adj].cmp) && CanAdjustCmp(b[adj].cmp)
    && (b[sel].Csinc? || b[sel].Bcc?) && (b[sel].cc == GT || b[sel].cc == LT)
    && (forall n | adj < n < end :: !ModifiesFlags(b[n])) && (end < |b| ==> b[end].CmpIns? || b[end].Writes?)
    && var info := AdjustCmp(b[adj].cmp, b[sel].cc);
       c == b[adj := CmpIns(Apply(b[adj].cmp, info))][sel := b[sel].(cc := info.cc)]
  }

  lemma {:induction false} FlagsInWindow(b: Block, c: Block, adj: nat, sel: nat, end: nat, n: nat,
                                         env: nat -> int, other: (nat, NZCV) -> NZCV, f0: NZCV)
    requires Rewritten(b, c, adj, sel, end) && n <= |b|
    ensures |c| == |b| && Modulus(b[adj].cmp.opc) > 0
    ensures n <= adj || n > end ==> FlagsBefore(b, n, env, other, f0) == FlagsBefore(c, n, env, other, f0)
    ensures adj < n <= end ==> var d := Apply(b[adj].cmp, AdjustCmp(b[adj].cmp, b[sel].cc));
                               var x := env(b[adj].cmp.reg) % Modulus(b[adj].cmp.opc);
                               FlagsBefore(b, n, env, other, f0) == FlagsOf(b[adj].cmp, x) &&
                               FlagsBefore(c, n, env, other, f0) == FlagsOf(d, x)
  {
    ModulusPositive(b[adj].cmp.opc);
    AdjustedShape(b[adj].cmp, b[sel].cc);
    hide AdjustCmp, FlagsOf, Modulus, WellFormed;
    if n > 0 {
      FlagsInWindow(b, c, adj, sel, end, n - 1, env, other, f0);
    }
  }

  ghost predicate OthersUnaffected(b: Block, adj: nat, sel: nat, end: nat)
    requires adj < sel < end <= |b| && b[adj].CmpIns? && b[adj].cmp.imm.Some? && (b[sel].Csinc? || b[sel].Bcc?)
  {
    forall n | adj < n < end && n != sel && ReadsFlags(b[n]) :: CannotTell(b[adj].cmp, b[sel].cc, b[n].cc)
  }

  // The rewrite is right exactly when the compare is one adjustCmp handles and no other reader in the
  // window tests a condition that the new flags change.
  lemma RewriteExact(b: Block, c: Block, adj: nat, sel: nat, end: nat)
    requires Rewritten(b, c, adj, sel, end)
    ensures SameOutcomes(b, c) <==> Adjustable(b[adj].cmp) && OthersUnaffected(b, adj, sel, end)
  {
    var cmp, cc := b[adj].cmp, b[sel].cc;
    AdjustExact(cmp, cc);
    if Adjustable(cmp) && OthersUnaffected(b, adj, sel, end) { RewriteSound(b, c, adj, sel, end); }
    if !Adjustable(cmp) {
      var x :| 0 <= x < Modulus(cmp.opc) &&
        !(Holds(cc, FlagsOf(cmp, x)) <==> Holds(AdjustCmp(cmp, cc).cc, FlagsOf(Apply(cmp, AdjustCmp(cmp, cc)), x)));
      Differs(b, c, adj, sel, end, sel, x);
    } else if !OthersUnaffected(b, adj, sel, end) {
      var n :| adj < n < end && n != sel && ReadsFlags(b[n]) && !CannotTell(cmp, cc, b[n].cc);
      OthersCanTell(cmp, cc, b[n].cc);
      var x :| 0 <= x < Modulus(cmp.opc) &&
        !(Holds(b[n].cc, FlagsOf(cmp, x)) <==> Holds(b[n].cc, FlagsOf(Apply(cmp, AdjustCmp(cmp, cc)), x)));
      Differs(b, c, adj, sel, end, n, x);
    }
  }

  // A register value under which reader n of the window sees the difference.
  lemma Differs(b: Block, c: Block, adj: nat, sel: nat, end: nat, n: nat, x: int)
    requires Rewritten(b, c, adj, sel, end) && adj < n < end && ReadsFlags(b[n]) && 0 <= x < Modulus(b[adj].cmp.opc)
    requires |c| == |b| && ReadsFlags(c[n])
    requires Holds(b[n].cc, FlagsOf(b[adj].cmp, x)) != Holds(c[n].cc, FlagsOf(Apply(b[adj].cmp, AdjustCmp(b[adj].cmp, b[sel].cc)), x))
    ensures !SameOutcomes(b, c)
  {
    var env: nat -> int := (_: nat) => x;
    var f := NZCV(false, false, false, false);
    var other: (nat, NZCV) -> NZCV := (_: nat, _: NZCV) => f;
    hide Rewritten, FlagsBefore, AdjustCmp, FlagsOf, Holds, Modulus;
    RewrittenShape(b, c, adj, sel, end);
    FlagsInWindow(b, c, adj, sel, end, n, env, other, f);
    InRangeMod(x, Modulus(b[adj].cmp.opc));
    OutcomesDiffer(b, c, n, env, other, f);
  }

  lemma InRangeMod(x: int, m: int)
    requires 0 <= x < m
    ensures x % m == x
  {
  }

  lemma OutcomesDiffer(b: Block, c: Block, n: nat, env: nat -> int, other: (nat, NZCV) -> NZCV, f0: NZCV)
    requires |b| == |c| && n < |b| && ReadsFlags(b[n]) && ReadsFlags(c[n])
    requires Holds(b[n].cc, FlagsBefore(b, n, env, other, f0)) != Holds(c[n].cc, FlagsBefore(c, n, env, other, f0))
    ensures !SameOutcomes(b, c)
  {
    hide Holds, FlagsBefore;
    assert Outcome(b, n, env, other, f0) != Outcome(c, n, env, other, f0);
  }

  lemma RewrittenShape(b: Block, c: Block, adj: nat, sel: nat, end: nat)
    requires Rewritten(b, c, adj, sel, end)
    ensures |c| == |b| && (forall n | 0 <= n < |b| && n != adj && n != sel :: c[n] == b[n])
    ensures !ReadsFlags(b[adj]) && !ReadsFlags(c[adj]) && ReadsFlags(b[sel]) && ReadsFlags(c[sel])
    ensures c[sel].cc == AdjustCmp(b[adj].cmp, b[sel].cc).cc
    ensures adj < sel < end <= |b| && b[adj].CmpIns? && WellFormed(b[adj].cmp) && CanAdjustCmp(b[adj].cmp)
    ensures (b[sel].cc == GT || b[sel].cc == LT) && (end < |b| ==> b[end].CmpIns? || b[end].Writes?)
  {
    hide AdjustCmp;
  }

  lemma OutcomeKept(b: Block, c: Block, adj: nat, sel: nat, end: nat, n: nat, env: nat -> int, other: (nat, NZCV) -> NZCV, f0: NZCV)
    requires Rewritten(b, c, adj, sel, end) && Adjustable(b[adj].cmp) && OthersUnaffected(b, adj, sel, end)
    requires n < |b| && ReadsFlags(b[n])
    ensures |c| == |b| && ReadsFlags(c[n]) && Outcome(b, n, env, other, f0) == Outcome(c, n, env, other, f0)
  {
    hide Rewritten, FlagsBefore, AdjustCmp, FlagsOf, Holds, Modulus, Apply, CannotTell;
    RewrittenShape(b, c, adj, sel, end);
    FlagsInWindow(b, c, adj, sel, end, n, env, other, f0);
    var cmp, cc := b[adj].cmp, b[sel].cc;
    AdjustExact(cmp, cc);
    ModulusPositive(cmp.opc);
    assert n != adj && n != sel ==> c[n] == b[n];
    if adj < n < end && n != sel {
      OthersCanTell(cmp, cc, b[n].cc);
    }
  }

  lemma RewriteSound(b: Block, c: Block, adj: nat, sel: nat, end: nat)
    requires Rewritten(b, c, adj, sel, end) && Adjustable(b[adj].cmp) && OthersUnaffected(b, adj, sel, end)
    ensures SameOutcomes(b, c)
  {
    RewrittenShape(b, c, adj, sel, end);
    hide Rewritten, Outcome;
    forall n | 0 <= n < |b| ensures ReadsFlags(b[n]) == ReadsFlags(c[n]) {
      assert n != adj && n != sel ==> c[n] == b[n];
    }
    forall n: nat, env, other, f0 | n < |b| && ReadsFlags(b[n])
      ensures Outcome(b, n, env, other, f0) == Outcome(c, n, env, other, f0)
    {
      OutcomeKept(b, c, adj, sel, end, n, env, other, f0);
    }
  }

  // ----- The pass -----

  // The compare at r decides the final branch: nothing in between reads or sets the flags.
  ghost predicate Controls(b: Block, r: int) {
    && 0 <= r < |b| - 1 && b[|b| - 1].Bcc? && b[r].CmpIns?
    && forall n | r < n < |b| - 1 :: !ReadsFlags(b[n]) && !ModifiesFlags(b[n])
  }

  ghost predicate Suitable(b: Block, nzcvLivesOut: bool, r: int) {
    !nzcvLivesOut && Controls(b, r) && CanAdjustCmp(b[r].cmp)
  }

  lemma OneControls(b: Block, r: int, q: int)
    requires Controls(b, r) && Controls(b, q)
    ensures r == q
  {
    assert ModifiesFlags(b[r]) && ModifiesFlags(b[q]);
  }

  // findSuitableCompare on a block up to its first terminator; -1 if there is none.
  method FindSuitableCompare(b: Block, nzcvLivesOut: bool) returns (r: int)
    ensures -1 <= r < |b|
    ensures r >= 0 ==> Suitable(b, nzcvLivesOut, r)
    ensures r < 0 ==> forall q :: !Suitable(b, nzcvLivesOut, q)
  {
    if |b| == 0 || !b[|b| - 1].Bcc? || nzcvLivesOut {
      return -1;
    }
    r := |b| - 1;
    while r > 0
      invariant 0 <= r <= |b| - 1
      invariant forall n | r <= n < |b| - 1 :: !ReadsFlags(b[n]) && !ModifiesFlags(b[n])
    {
      r := r - 1;
      if ReadsFlags(b[r]) { return -1; }
      if b[r].CmpIns? {
        assert Controls(b, r);
        forall q | Controls(b, q) ensures q == r { OneControls(b, r, q); }
        return if CanAdjustCmp(b[r].cmp) then r else -1;
      }
      if ModifiesFlags(b[r]) { return -1; }
    }
    return -1;
  }

  // modifyCmp: the compare and the branch it controls.
  method ModifyCmp(a: array<Ins>, cmp: nat, info: CmpInfo)
    requires cmp < a.Length - 1 && a[cmp].CmpIns? && a[a.Length - 1].Bcc?
    modifies a
    ensures a[..] == old(a[..])[cmp := CmpIns(Apply(old(a[cmp].cmp), info))][a.Length - 1 := Bcc(info.cc)]
  {
    a[cmp] := CmpIns(Apply(a[cmp].cmp, info));
    a[a.Length - 1] := Bcc(info.cc);
  }

  ghost predicate WellFormedBlock(b: Block) {
    forall n | 0 <= n < |b| && b[n].CmpIns? :: WellFormed(b[n].cmp)
  }

  ghost predicate Adjusted(b: Block, c: Block, adj: int) {
    if adj < 0 then c == b else |b| > 0 && Rewritten(b, c, adj, |b| - 1, |b|) && forall n | adj < n < |b| - 1 :: !ReadsFlags(b[n])
  }

  // ----- When the pass fires -----

  // Adjusting c for cc gives the opcode and immediate of the other compare.
  predicate BecomesLike(c: Cmp, cc: CondCode, to: Cmp)
    requires c.imm.Some? && to.imm.Some? && (cc == GT || cc == LT)
  {
    var info := AdjustCmp(c, cc);
    info.imm == to.imm.value && info.opc == to.opc
  }

  function Distance(c: Cmp, d: Cmp): int
    requires c.imm.Some? && d.imm.Some?
  {
    if d.imm.value >= c.imm.value then d.imm.value - c.imm.value else c.imm.value - d.imm.value
  }

  // For GT the compare with the smaller immediate is adjusted, for LT the other one.
  predicate AdjustsFirst(c: Cmp, d: Cmp, cc: CondCode)
    requires c.imm.Some? && d.imm.Some?
  {
    if cc == LT then !(c.imm.value < d.imm.value) else c.imm.value < d.imm.value
  }

  // Equal conditions, immediates one apart, and the chosen compare becomes like the other.
  predicate OneApart(c: Cmp, d: Cmp, cc: CondCode, dd: CondCode) {
    && c.imm.Some? && d.imm.Some? && c.reg == d.reg && (cc == GT || cc == LT) && dd == cc && Distance(c, d) == 1
    && if AdjustsFirst(c, d, cc) then BecomesLike(c, cc, d) else BecomesLike(d, dd, c)
  }

  // Opposite conditions, immediates two apart, and the adjusted compares meet in the middle.
  predicate TwoApart(c: Cmp, d: Cmp, cc: CondCode, dd: CondCode) {
    && c.imm.Some? && d.imm.Some? && c.reg == d.reg && ((cc == GT && dd == LT) || (cc == LT && dd == GT)) && Distance(c, d) == 2
    && AdjustCmp(c, cc).imm == AdjustCmp(d, dd).imm && AdjustCmp(c, cc).opc == AdjustCmp(d, dd).opc
  }

  // The compares of one register that are one apart: immediates k and k + 1 under one opcode, a CMP for either
  // condition, a CMN only for GT and k = 0.
  lemma OneApartMeans(c: Cmp, d: Cmp, cc: CondCode, dd: CondCode)
    requires WellFormed(c) && WellFormed(d) && c.imm.Some? && d.imm.Some?
    ensures var k, l := c.imm.value, d.imm.value;
            OneApart(c, d, cc, dd) <==>
              && c.reg == d.reg && (cc == GT || cc == LT) && dd == cc && (k == l + 1 || l == k + 1)
              && c.opc == d.opc && (c.opc == SUBSWri || c.opc == SUBSXri || (cc == GT && (k == 0 || l == 0)))
  {
  }

  // Those two apart, the first under GT and the second under LT: x > k and x < k + 2 for a CMP or, negated, a CMN,
  // and x > -2 with x < 0.
  lemma TwoApartMeans(c: Cmp, d: Cmp)
    requires WellFormed(c) && WellFormed(d) && c.imm.Some? && d.imm.Some?
    ensures var k, l := c.imm.value, d.imm.value;
            TwoApart(c, d, GT, LT) <==>
              && c.reg == d.reg
              && (|| (c.opc == d.opc && !IsAdds(c.opc) && l == k + 2)
                  || (c.opc == d.opc && IsAdds(c.opc) && k == l + 2 && l > 0)
                  || (c.opc == GetComplementOpc(d.opc) && IsAdds(c.opc) && k == 2 && l == 0))
    ensures TwoApart(d, c, LT, GT) <==> TwoApart(c, d, GT, LT)
    ensures forall cc, dd | TwoApart(c, d, cc, dd) :: (cc == GT && dd == LT) || (cc == LT && dd == GT)
  {
  }

  // With equal conditions a CMN is rewritten only when its immediate is zero: the one case that is wrong
  // (CmnZeroRewritten shows such a block).
  lemma CmnOnlyWhenWrong(c: Cmp, d: Cmp, cc: CondCode)
    requires WellFormed(c) && WellFormed(d) && OneApart(c, d, cc, cc)
    ensures var e := if AdjustsFirst(c, d, cc) then c else d;
            IsAdds(e.opc) ==> e.imm == Some(0) && !Adjustable(e)
  {
  }

  ghost predicate CrossFires(h: Block, t: Block, headLivesOut: bool, trueLivesOut: bool) {
    exists i, j :: Suitable(h, headLivesOut, i) && Suitable(t, trueLivesOut, j) && CrossGuard(h, t, i, j)
  }

  ghost predicate CrossGuard(h: Block, t: Block, i: int, j: int)
    requires Controls(h, i) && Controls(t, j)
  {
    var hc, tc := h[|h| - 1].cc, t[|t| - 1].cc;
    TwoApart(h[i].cmp, t[j].cmp, hc, tc) || OneApart(h[i].cmp, t[j].cmp, hc, tc)
  }

  lemma CrossFiresAt(h: Block, t: Block, headLivesOut: bool, trueLivesOut: bool, i: int, j: int)
    requires Suitable(h, headLivesOut, i) && Suitable(t, trueLivesOut, j)
    ensures CrossFires(h, t, headLivesOut, trueLivesOut) <==> CrossGuard(h, t, i, j)
  {
    hide CrossGuard;
    forall k, l | Suitable(h, headLivesOut, k) && Suitable(t, trueLivesOut, l) ensures k == i && l == j {
      OneControls(h, i, k);
      OneControls(t, j, l);
    }
  }

  // optimizeCrossBlock on a head and the block its branch goes to. i and j are the compares found.
  method OptimizeCrossBlock(h: array<Ins>, t: array<Ins>, headLivesOut: bool, trueLivesOut: bool) returns (changed: bool, ghost i: int, ghost j: int)
    requires h != t && WellFormedBlock(h[..]) && WellFormedBlock(t[..])
    modifies h, t
    ensures -1 <= i < h.Length && -1 <= j < t.Length
    ensures changed <==> CrossFires(old(h[..]), old(t[..]), headLivesOut, trueLivesOut)
    ensures !changed ==> h[..] == old(h[..]) && t[..] == old(t[..])
    ensures changed ==> i >= 0 && j >= 0 && h[i].CmpIns? && t[j].CmpIns?
    ensures changed ==> h[i].cmp.opc == t[j].cmp.opc && h[i].cmp.imm == t[j].cmp.imm && h[i].cmp.reg == t[j].cmp.reg
    ensures changed ==> (h[..] != old(h[..]) || t[..] != old(t[..]))
    ensures changed ==> Adjusted(old(h[..]), h[..], i) || h[..] == old(h[..])
    ensures changed ==> Adjusted(old(t[..]), t[..], j) || t[..] == old(t[..])
  {
    changed, i, j := false, -1, -1;
    var hi := FindSuitableCompare(h[..], headLivesOut);
    if hi < 0 { return; }
    var ti := FindSuitableCompare(t[..], trueLivesOut);
    if ti < 0 { return; }
    CrossFiresAt(h[..], t[..], headLivesOut, trueLivesOut, hi, ti);
    if h[hi].cmp.reg != t[ti].cmp.reg { return; }
    i, j := hi, ti;
    assert WellFormed(h[hi].cmp) && WellFormed(t[ti].cmp);
    var hc, tc := h[h.Length - 1].cc, t[t.Length - 1].cc;
    var headImm, trueImm := h[hi].cmp.imm.value, t[ti].cmp.imm.value;
    var diff := if trueImm >= headImm then trueImm - headImm else headImm - trueImm;
    if ((hc == GT && tc == LT) || (hc == LT && tc == GT)) && diff == 2 {
      var hInfo, tInfo := AdjustCmp(h[hi].cmp, hc), AdjustCmp(t[ti].cmp, tc);
      if hInfo.imm == tInfo.imm && hInfo.opc == tInfo.opc {
        ModifyCmp(h, hi, hInfo);
        ModifyCmp(t, ti, tInfo);
        changed := true;
      }
    } else if ((hc == GT && tc == GT) || (hc == LT && tc == LT)) && diff == 1 {
      var adjustHead := if hc == LT then !(headImm < trueImm) else headImm < trueImm;
      if adjustHead {
        changed := AdjustTo(h, hi, hc, t[ti].cmp);
      } else {
        changed := AdjustTo(t, ti, tc, h[hi].cmp);
      }
    }
  }

  method AdjustTo(a: array<Ins>, cmp: nat, cc: CondCode, to: Cmp) returns (changed: bool)
    requires cmp < a.Length - 1 && a[cmp].CmpIns? && a[cmp].cmp.imm.Some? && a[a.Length - 1] == Bcc(cc) && (cc == GT || cc == LT)
    requires to.imm.Some?
    modifies a
    ensures !changed ==> a[..] == old(a[..])
    ensures changed <==> BecomesLike(old(a[cmp].cmp), cc, to)
    ensures changed ==> var info := AdjustCmp(old(a[cmp].cmp), cc);
              && info.imm == to.imm.value && info.opc == to.opc
              && a[..] == old(a[..])[cmp := CmpIns(Apply(old(a[cmp].cmp), info))][a.Length - 1 := Bcc(info.cc)]
  {
    var info := AdjustCmp(a[cmp].cmp, cc);
    if info.imm == to.imm.value && info.opc == to.opc {
      ModifyCmp(a, cmp, info);
      return true;
    }
    return false;
  }

  // Across blocks nothing between the compare and the branch reads the flags, so only the compare matters.
  lemma CrossExact(b: Block, c: Block, adj: nat)
    requires adj < |b| && Adjusted(b, c, adj)
    ensures SameOutcomes(b, c) <==> Adjustable(b[adj].cmp)
  {
    RewriteExact(b, c, adj, |b| - 1, |b|);
  }

  // Where the flags set before `from` stop mattering.
  lemma {:induction false} NextSetter(b: Block, from: nat) returns (end: nat)
    requires from <= |b| && forall n | from <= n < |b| :: !ReadsFlags(b[n])
    ensures from <= end <= |b| && (forall n | from <= n < end :: !ModifiesFlags(b[n])) && (end < |b| ==> b[end].CmpIns? || b[end].Writes?)
    decreases |b| - from
  {
    if from == |b| || ModifiesFlags(b[from]) { end := from; } else { end := NextSetter(b, from + 1); }
  }

  // The first compare, or the first CSINC, at or after n; -1 if there is none.
  function NextCmp(b: Block, n: nat): (r: int)
    ensures -1 <= r < |b| && (r >= 0 ==> n <= r && b[r].CmpIns?)
    decreases |b| - n
  {
    if n >= |b| then -1 else if b[n].CmpIns? then n else NextCmp(b, n + 1)
  }

  function NextCsinc(b: Block, n: nat): (r: int)
    ensures -1 <= r < |b| && (r >= 0 ==> n <= r && b[r].Csinc?)
    decreases |b| - n
  {
    if n >= |b| then -1 else if b[n].Csinc? then n else NextCsinc(b, n + 1)
  }

  // A compare, a CSINC, a compare and a CSINC, each the next one after the one before.
  function Pairs(b: Block): (int, int, int, int) {
    var c1 := NextCmp(b, 0);
    var s1 := if c1 < 0 then -1 else NextCsinc(b, c1 + 1);
    var c2 := if s1 < 0 then -1 else NextCmp(b, s1 + 1);
    var s2 := if c2 < 0 then -1 else NextCsinc(b, c2 + 1);
    (c1, s1, c2, s2)
  }

  lemma {:induction false} NextIsFirst(b: Block, n: nat)
    ensures forall k | n <= k < |b| && (NextCmp(b, n) < 0 || k < NextCmp(b, n)) :: !b[k].CmpIns?
    ensures forall k | n <= k < |b| && (NextCsinc(b, n) < 0 || k < NextCsinc(b, n)) :: !b[k].Csinc?
    decreases |b| - n
  {
    if n < |b| { NextIsFirst(b, n + 1); }
  }

  lemma NextSteps(b: Block, n: nat)
    requires n < |b|
    ensures NextCmp(b, n) == if b[n].CmpIns? then n else NextCmp(b, n + 1)
    ensures NextCsinc(b, n) == if b[n].Csinc? then n else NextCsinc(b, n + 1)
  {
  }

  lemma PairsInOrder(b: Block)
    ensures var (c1, s1, c2, s2) := Pairs(b);
            s2 >= 0 ==> 0 <= c1 < s1 < c2 < s2 < |b| && b[c1].CmpIns? && b[s1].Csinc? && b[c2].CmpIns? && b[s2].Csinc?
    ensures Pairs(b).2 < 0 ==> Pairs(b).3 < 0
  {
    hide NextCmp, NextCsinc;
  }

  // What the scan has found among the first n instructions.
  predicate Scanned(b: Block, n: nat, p: (int, int, int, int)) {
    && (p.0 < 0 ==> NextCmp(b, 0) == NextCmp(b, n)) && (p.0 >= 0 ==> p.0 == NextCmp(b, 0) && p.0 < n)
    && (p.1 >= 0 ==> p.0 >= 0 && p.1 == NextCsinc(b, p.0 + 1) && p.1 < n)
    && (p.0 >= 0 && p.1 < 0 ==> NextCsinc(b, p.0 + 1) == NextCsinc(b, n))
    && (p.2 >= 0 ==> p.1 >= 0 && p.2 == NextCmp(b, p.1 + 1) && p.2 < n)
    && (p.1 >= 0 && p.2 < 0 ==> NextCmp(b, p.1 + 1) == NextCmp(b, n))
    && (p.3 >= 0 ==> p.2 >= 0 && p.3 == NextCsinc(b, p.2 + 1))
    && (p.2 >= 0 && p.3 < 0 ==> NextCsinc(b, p.2 + 1) == NextCsinc(b, n))
  }

  // The scan for two compare and CSINC pairs.
  method FindPairs(b: Block) returns (first: int, firstSel: int, second: int, secondSel: int)
    ensures (first, firstSel, second, secondSel) == Pairs(b)
  {
    hide NextCmp, NextCsinc;
    first, firstSel, second, secondSel := -1, -1, -1, -1;
    for n := 0 to |b|
      invariant -1 <= first && -1 <= firstSel && -1 <= second && secondSel == -1
      invariant Scanned(b, n, (first, firstSel, second, secondSel))
    {
      NextSteps(b, n);
      if b[n].CmpIns? {
        if first < 0 { first := n; } else if firstSel >= 0 && second < 0 { second := n; }
      } else if b[n].Csinc? {
        if first >= 0 && firstSel < 0 { firstSel := n; } else if second >= 0 && secondSel < 0 { secondSel := n; }
      }
      if secondSel >= 0 { return; }
    }
  }

  ghost predicate Clean(b: Block, first: nat, second: nat, secondSel: nat) {
    && (forall n | first < n <= secondSel && n < |b| && n != second :: !ModifiesFlags(b[n]))
    && forall n | secondSel < n < |b| :: !ReadsFlags(b[n])
  }

  ghost predicate IntraFires(b: Block, nzcvLivesOut: bool) {
    var (c1, s1, c2, s2) := Pairs(b);
    && s2 >= 0 && !nzcvLivesOut && CanAdjustCmp(b[c1].cmp) && CanAdjustCmp(b[c2].cmp) && Clean(b, c1, c2, s2)
    && OneApart(b[c1].cmp, b[c2].cmp, b[s1].cc, b[s2].cc)
  }

  // The flags are set only by the two compares up to the second CSINC, and not read after it.
  method WindowIsClean(b: Block, first: nat, second: nat, secondSel: nat) returns (clean: bool)
    requires first < second < secondSel < |b|
    ensures clean <==> Clean(b, first, second, secondSel)
  {
    for n := first + 1 to secondSel + 1
      invariant forall k | first < k < n && k != second :: !ModifiesFlags(b[k])
    {
      if n != second && ModifiesFlags(b[n]) { return false; }
    }
    for n := secondSel + 1 to |b|
      invariant forall k | secondSel < k < n :: !ReadsFlags(b[k])
    {
      if ReadsFlags(b[n]) { return false; }
    }
    return true;
  }

  // A compare to adjust with its CSINC, the next setter of flags, and the compare to become like.
  ghost predicate PairWindow(b: Block, adj: nat, sel: nat, end: nat, kept: nat) {
    && adj < sel < end <= |b| && b[adj].CmpIns? && WellFormed(b[adj].cmp) && CanAdjustCmp(b[adj].cmp)
    && b[sel].Csinc? && (b[sel].cc == GT || b[sel].cc == LT)
    && (forall n | adj < n < end :: !ModifiesFlags(b[n])) && (end < |b| ==> b[end].CmpIns? || b[end].Writes?)
    && kept < |b| && kept != adj && kept != sel && b[kept].CmpIns? && b[kept].cmp.imm.Some? && b[kept].cmp.reg == b[adj].cmp.reg
  }

  ghost predicate Alike(c: Block, i: nat, k: nat) {
    && i < |c| && k < |c| && i != k && c[i].CmpIns? && c[k].CmpIns?
    && c[i].cmp.opc == c[k].cmp.opc && c[i].cmp.imm == c[k].cmp.imm && c[i].cmp.reg == c[k].cmp.reg
  }

  lemma PairRewritten(b: Block, c: Block, adj: nat, sel: nat, end: nat, kept: nat)
    requires PairWindow(b, adj, sel, end, kept) && BecomesLike(b[adj].cmp, b[sel].cc, b[kept].cmp)
    requires var info := AdjustCmp(b[adj].cmp, b[sel].cc); c == b[adj := CmpIns(Apply(b[adj].cmp, info))][sel := Csinc(info.cc)]
    ensures Rewritten(b, c, adj, sel, end) && Alike(c, adj, kept)
  {
    hide AdjustCmp, CanAdjustCmp, WellFormed;
  }

  // Both pairs of a clean window can be adjusted.
  lemma CleanWindows(b: Block, c1: nat, s1: nat, c2: nat, s2: nat) returns (end: nat)
    requires c1 < s1 < c2 < s2 < |b| && b[c1].CmpIns? && b[s1].Csinc? && b[c2].CmpIns? && b[s2].Csinc?
    requires WellFormedBlock(b) && CanAdjustCmp(b[c1].cmp) && CanAdjustCmp(b[c2].cmp) && b[c1].cmp.reg == b[c2].cmp.reg
    requires Clean(b, c1, c2, s2) && b[s1].cc == b[s2].cc && (b[s1].cc == GT || b[s1].cc == LT)
    ensures PairWindow(b, c1, s1, c2, c2) && PairWindow(b, c2, s2, end, c1)
  {
    end := NextSetter(b, s2 + 1);
  }

  lemma IntraAt(b: Block, nzcvLivesOut: bool, c1: int, s1: int, c2: int, s2: int)
    requires (c1, s1, c2, s2) == Pairs(b)
    ensures IntraFires(b, nzcvLivesOut) ==> s2 >= 0 && !nzcvLivesOut
    ensures s2 >= 0 ==> 0 <= c1 < s1 < c2 < s2 < |b| && b[c1].CmpIns? && b[s1].Csinc? && b[c2].CmpIns? && b[s2].Csinc? && (
      IntraFires(b, nzcvLivesOut) <==>
        && !nzcvLivesOut && CanAdjustCmp(b[c1].cmp) && CanAdjustCmp(b[c2].cmp) && Clean(b, c1, c2, s2)
        && OneApart(b[c1].cmp, b[c2].cmp, b[s1].cc, b[s2].cc))
  {
    PairsInOrder(b);
    hide Pairs, CanAdjustCmp, Clean, OneApart;
  }

  // optimizeIntraBlock. When it changes the block it has adjusted one compare, and the two are now alike.
  method OptimizeIntraBlock(a: array<Ins>, nzcvLivesOut: bool) returns (changed: bool, ghost adj: nat, ghost sel: nat, ghost end: nat, ghost kept: nat)
    requires WellFormedBlock(a[..])
    modifies a
    ensures changed <==> IntraFires(old(a[..]), nzcvLivesOut)
    ensures !changed ==> a[..] == old(a[..])
    ensures changed ==> !nzcvLivesOut && Rewritten(old(a[..]), a[..], adj, sel, end) && Alike(a[..], adj, kept)
  {
    changed, adj, sel, end, kept := false, 0, 0, 0, 0;
    hide Pairs, IntraFires, Rewritten, AdjustCmp, Apply, Clean, WellFormedBlock, BecomesLike, PairWindow, Alike;
    var c1, s1, c2, s2 := FindPairs(a[..]);
    IntraAt(a[..], nzcvLivesOut, c1, s1, c2, s2);
    if c2 < 0 || s2 < 0 || nzcvLivesOut { return; }
    if a[c1].cmp.reg != a[c2].cmp.reg || !CanAdjustCmp(a[c1].cmp) || !CanAdjustCmp(a[c2].cmp) { return; }
    var clean := WindowIsClean(a[..], c1, c2, s2);
    if !clean { return; }
    var cc := a[s1].cc;
    var firstImm, secondImm := a[c1].cmp.imm.value, a[c2].cmp.imm.value;
    var diff := if secondImm >= firstImm then secondImm - firstImm else firstImm - secondImm;
    if (cc == GT || cc == LT) && a[s2].cc == cc && diff == 1 {
      var adjustFirst := if cc == LT then !(firstImm < secondImm) else firstImm < secondImm;
      ghost var last := CleanWindows(a[..], c1, s1, c2, s2);
      if adjustFirst {
        adj, sel, end, kept := c1, s1, c2, c2;
        changed := AdjustPair(a, c1, s1, c2, c2);
      } else {
        adj, sel, end, kept := c2, s2, last, c1;
        changed := AdjustPair(a, c2, s2, last, c1);
      }
    }
  }

  // Adjusts the compare at c and the CSINC at s when that makes it like the compare at k.
  method AdjustPair(a: array<Ins>, c: nat, s: nat, ghost end: nat, k: nat) returns (changed: bool)
    requires PairWindow(a[..], c, s, end, k)
    modifies a
    ensures !changed ==> a[..] == old(a[..])
    ensures changed <==> BecomesLike(old(a[c].cmp), old(a[s].cc), old(a[k].cmp))
    ensures changed ==> Rewritten(old(a[..]), a[..], c, s, end) && Alike(a[..], c, k)
  {
    hide Rewritten, AdjustCmp, Apply, Alike;
    var info := AdjustCmp(a[c].cmp, a[s].cc);
    if info.imm == a[k].cmp.imm.value && info.opc == a[k].cmp.opc {
      a[c] := CmpIns(Apply(a[c].cmp, info));
      a[s] := Csinc(info.cc);
      PairRewritten(old(a[..]), a[..], c, s, end, k);
      return true;
    }
    return false;
  }

  // Four or five instructions with the pairs at 0, 1 and second, second + 1, and nothing after them.
  lemma PairsAt(b: Block, second: nat)
    requires |b| == second + 2 && 2 <= second <= 3
    requires b[0].CmpIns? && b[1].Csinc? && b[second].CmpIns? && b[second + 1].Csinc?
    requires second == 3 ==> !b[2].CmpIns?
    ensures Pairs(b) == (0, 1, second, second + 1)
  {
    hide NextCmp, NextCsinc;
    NextSteps(b, 0);
    NextSteps(b, 1);
    NextSteps(b, 2);
    NextSteps(b, 3);
    NextSteps(b, second + 1);
  }

  // cmp w0, #1; csinc gt; csel eq; cmp w0, #2; csinc gt: the pass fires, and the select in between sees other flags.
  lemma OverlookedReader()
    ensures var cmp := Cmp(SUBSWri, 0, Some(1), 0, true);
            var d := Cmp(SUBSWri, 0, Some(2), 0, true);
            var b := [CmpIns(cmp), Csinc(GT), Reads(EQ), CmpIns(d), Csinc(GT)];
            var c := [CmpIns(d), Csinc(GE), Reads(EQ), CmpIns(d), Csinc(GT)];
            && WellFormedBlock(b) && IntraFires(b, false)
            && Rewritten(b, c, 0, 1, 3) && Adjustable(cmp) && !SameOutcomes(b, c)
  {
    var cmp := Cmp(SUBSWri, 0, Some(1), 0, true);
    var d := Cmp(SUBSWri, 0, Some(2), 0, true);
    var b := [CmpIns(cmp), Csinc(GT), Reads(EQ), CmpIns(d), Csinc(GT)];
    var c := [CmpIns(d), Csinc(GE), Reads(EQ), CmpIns(d), Csinc(GT)];
    assert AdjustCmp(cmp, GT) == CmpInfo(2, SUBSWri, GE);
    assert c == b[0 := CmpIns(d)][1 := Csinc(GE)];
    hide Pairs, SameOutcomes, FlagsBefore;
    PairsAt(b, 3);
    assert Clean(b, 0, 3, 4);
    RewriteExact(b, c, 0, 1, 3);
    assert !OthersUnaffected(b, 0, 1, 3) by { assert ReadsFlags(b[2]) && !CannotTell(cmp, GT, EQ); }
  }

  // cmn w0, #0; csinc gt; cmn w0, #1; csinc gt: the pass fires, and turns "above 0" into "at least -1".
  lemma CmnZeroRewritten()
    ensures var cmp := Cmp(ADDSWri, 0, Some(0), 0, true);
            var d := Cmp(ADDSWri, 0, Some(1), 0, true);
            var b := [CmpIns(cmp), Csinc(GT), CmpIns(d), Csinc(GT)];
            var c := [CmpIns(d), Csinc(GE), CmpIns(d), Csinc(GT)];
            && OneApart(cmp, d, GT, GT) && AdjustsFirst(cmp, d, GT)
            && WellFormedBlock(b) && IntraFires(b, false) && Rewritten(b, c, 0, 1, 2) && !SameOutcomes(b, c)
  {
    var cmp := Cmp(ADDSWri, 0, Some(0), 0, true);
    var d := Cmp(ADDSWri, 0, Some(1), 0, true);
    var b := [CmpIns(cmp), Csinc(GT), CmpIns(d), Csinc(GT)];
    var c := [CmpIns(d), Csinc(GE), CmpIns(d), Csinc(GT)];
    assert AdjustCmp(cmp, GT) == CmpInfo(1, ADDSWri, GE);
    assert c == b[0 := CmpIns(d)][1 := Csinc(GE)];
    hide Pairs, SameOutcomes, FlagsBefore;
    PairsAt(b, 2);
    assert Clean(b, 0, 2, 3);
    RewriteExact(b, c, 0, 1, 2);
  }
}
