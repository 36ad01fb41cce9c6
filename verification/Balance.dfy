/** The greedy balance of AArch64A57FPLoadBalancing on values: which color each chain is planned to
    get, and how far the parity can drift from zero. */
module Balance {
  import opened Chains
  import opened MachineBlock

  function Size(v: ChainVal): nat {
    |v.order|
  }

  // One iteration of colorChainSet: the chain taken, the color planned for it, the parity afterwards, and
  // the block before and after it. Positive parity is even-heavy.
  datatype Choice = Choice(chain: ChainVal, color: Color, parity: int, before: Block, after: Block)

  function PlannedColor(p: int, fixup: bool, last: Color): Color {
    if p == 0 || fixup then last else if p < 0 then Even else Odd
  }

  function ParityBefore(p0: int, plan: seq<Choice>, k: nat): int
    requires k <= |plan|
  {
    if k == 0 then p0 else plan[k - 1].parity
  }

  ghost predicate PlannedAt(p: int, x: Choice) {
    && x.color == PlannedColor(p, RequiresFixup(x.chain), x.chain.color)
    && x.parity == (if x.color == Even then p + Size(x.chain) else p - Size(x.chain))
  }

  ghost predicate Planned(p0: int, plan: seq<Choice>) {
    forall k | 0 <= k < |plan| :: PlannedAt(ParityBefore(p0, plan, k), plan[k])
  }

  // A balanced block leaves a chain as it is, and a chain that cannot be moved keeps its color; every other chain
  // goes to the side with less.
  lemma ColorRule(p0: int, plan: seq<Choice>, k: nat)
    requires Planned(p0, plan) && k < |plan|
    ensures var p, x := ParityBefore(p0, plan, k), plan[k];
            && (p == 0 || x.chain.kill == -1 || x.chain.immutable ==> x.color == x.chain.color)
            && (p < 0 && x.chain.kill != -1 && !x.chain.immutable ==> x.color == Even)
            && (p > 0 && x.chain.kill != -1 && !x.chain.immutable ==> x.color == Odd)
            && ParityBefore(p0, plan, k + 1) == (if x.color == Even then p + |x.chain.order| else p - |x.chain.order|)
  {
    assert PlannedAt(ParityBefore(p0, plan, k), plan[k]);
  }

  lemma PlannedJoin(p0: int, x: seq<Choice>, y: seq<Choice>)
    requires Planned(p0, x) && Planned(ParityBefore(p0, x, |x|), y)
    ensures Planned(p0, x + y) && ParityBefore(p0, x + y, |x + y|) == ParityBefore(ParityBefore(p0, x, |x|), y, |y|)
  {
    hide PlannedAt;
    forall k | 0 <= k < |x + y| ensures PlannedAt(ParityBefore(p0, x + y, k), (x + y)[k]) {
      if k >= |x| {
        assert ParityBefore(p0, x + y, k) == ParityBefore(ParityBefore(p0, x, |x|), y, k - |x|);
      }
    }
  }

  function Abs(x: int): nat {
    if x < 0 then -x else x
  }

  // Total size of the chains that keep their color whatever the parity is.
  function FixupTotal(plan: seq<Choice>, k: nat): nat
    requires k <= |plan|
  {
    if k == 0 then 0 else FixupTotal(plan, k - 1) + (if RequiresFixup(plan[k - 1].chain) then Size(plan[k - 1].chain) else 0)
  }

  // The parity stays within m, as long as m bounds its start and every movable chain handled so far,
  // plus the chains that could not be moved. Without those it never exceeds the largest chain.
  lemma {:induction false} ParityBounded(p0: int, plan: seq<Choice>, k: nat, m: nat)
    requires Planned(p0, plan) && k <= |plan| && Abs(p0) <= m
    requires forall j | 0 <= j < k && !RequiresFixup(plan[j].chain) :: Size(plan[j].chain) <= m
    ensures Abs(ParityBefore(p0, plan, k)) <= m + FixupTotal(plan, k)
  {
    if k > 0 {
      ParityBounded(p0, plan, k - 1, m);
      assert PlannedAt(ParityBefore(p0, plan, k - 1), plan[k - 1]);
    }
  }

  lemma {:induction false} NoFixups(plan: seq<Choice>, k: nat)
    requires k <= |plan| && forall j | 0 <= j < k :: !RequiresFixup(plan[j].chain)
    ensures FixupTotal(plan, k) == 0
  {
    if k > 0 { NoFixups(plan, k - 1); }
  }

  // Over a whole block of movable chains: at every point some chain already handled is as large as the imbalance.
  lemma BalancedWithinLargest(plan: seq<Choice>, k: nat)
    requires Planned(0, plan) && k <= |plan|
    requires forall j | 0 <= j < k :: !RequiresFixup(plan[j].chain)
    ensures ParityBefore(0, plan, k) == 0 || exists j :: 0 <= j < k && Abs(ParityBefore(0, plan, k)) <= Size(plan[j].chain)
  {
    NoFixups(plan, k);
    var p := Abs(ParityBefore(0, plan, k));
    if p > 0 && forall j | 0 <= j < k :: Size(plan[j].chain) < p {
      ParityBounded(0, plan, k, p - 1);
    }
  }

  // ----- Order of allocation -----

  // The comparator of colorChainSet: larger first, then chains that need a fixup, then program order.
  predicate Before(v: ChainVal, w: ChainVal)
    requires |v.order| > 0 && |w.order| > 0
  {
    if Size(v) != Size(w) then Size(v) > Size(w)
    else if RequiresFixup(v) != RequiresFixup(w) then RequiresFixup(v)
    else v.order[0] < w.order[0]
  }

  ghost predicate NonEmpty(vals: seq<ChainVal>) {
    forall k | 0 <= k < |vals| :: |vals[k].order| > 0
  }

  ghost predicate Ordered(vals: seq<ChainVal>) {
    NonEmpty(vals) && forall i, j | 0 <= i < j < |vals| :: !Before(vals[j], vals[i])
  }

  lemma BeforeMeans(v: ChainVal, w: ChainVal)
    requires |v.order| > 0 && |w.order| > 0
    ensures var fv, fw := v.kill == -1 || v.immutable, w.kill == -1 || w.immutable;
            Before(v, w) <==> |v.order| > |w.order| || (|v.order| == |w.order| && ((fv && !fw) || (fv == fw && v.order[0] < w.order[0])))
  {
  }

  lemma LargestFirst(vals: seq<ChainVal>)
    requires Ordered(vals)
    ensures forall i, j | 0 <= i <= j < |vals| :: Size(vals[i]) >= Size(vals[j])
  {
    forall i, j | 0 <= i <= j < |vals| ensures Size(vals[i]) >= Size(vals[j]) {
      if i < j { assert !Before(vals[j], vals[i]); }
    }
  }

  lemma InsertOrdered(vals: seq<ChainVal>, v: ChainVal, k: nat)
    requires Ordered(vals) && |v.order| > 0 && k <= |vals|
    requires forall j | 0 <= j < k :: !Before(v, vals[j])
    requires k < |vals| ==> Before(v, vals[k])
    ensures Ordered(vals[..k] + [v] + vals[k..])
  {
    var ws := vals[..k] + [v] + vals[k..];
    forall j | k <= j < |vals| ensures !Before(vals[j], v) {
      if k < j { assert !Before(vals[j], vals[k]); }
    }
  }

  lemma RemoveOrdered(vals: seq<ChainVal>, k: nat)
    requires Ordered(vals) && k < |vals|
    ensures Ordered(vals[..k] + vals[k + 1..])
    ensures multiset(vals[..k] + vals[k + 1..]) == multiset(vals) - multiset{vals[k]}
  {
    hide Before;
    assert vals == vals[..k] + [vals[k]] + vals[k + 1..];
    var ws := vals[..k] + vals[k + 1..];
    forall i, j | 0 <= i < j < |ws| ensures !Before(ws[j], ws[i]) {
      var i', j' := if i < k then i else i + 1, if j < k then j else j + 1;
      assert !Before(vals[j'], vals[i']);
    }
  }

  // Inserting at k adds one element.
  lemma InsertMultiset<T>(s: seq<T>, x: T, k: nat)
    requires k <= |s|
    ensures multiset(s[..k] + [x] + s[k..]) == multiset(s) + multiset{x}
  {
    assert s == s[..k] + s[k..];
  }

  // ----- Which chain is next -----

  function Preferred(p: int): Color {
    if p < 0 then Even else Odd
  }

  // Of the largest chains left: the first of the preferred color; without one, the last of them, or the first when
  // nothing smaller is left.
  ghost predicate TakenFrom(c: Color, v: ChainVal, left: multiset<ChainVal>) {
    && (forall w | w in left :: Size(w) <= Size(v))
    && ((exists w :: w in left && Size(w) == Size(v) && w.color == c) ==> v.color == c)
    && forall w | w in left && Size(w) == Size(v) && |w.order| > 0 && |v.order| > 0 ::
      if v.color == c then w.color == c ==> !Before(w, v)
      else if exists u :: u in left && Size(u) < Size(v) then !Before(v, w)
      else !Before(w, v)
  }

  ghost function ChainsOf(plan: seq<Choice>): seq<ChainVal> {
    seq(|plan|, k requires 0 <= k < |plan| => plan[k].chain)
  }

  // Every choice was the one to make among the chains still left, those after it in the plan and `more`.
  ghost predicate ArrangedBefore(p0: int, plan: seq<Choice>, more: multiset<ChainVal>) {
    forall k | 0 <= k < |plan| :: TakenFrom(Preferred(ParityBefore(p0, plan, k)), plan[k].chain, multiset(ChainsOf(plan[k + 1..])) + more)
  }

  ghost predicate Arranged(p0: int, plan: seq<Choice>) {
    ArrangedBefore(p0, plan, multiset{})
  }

  lemma ArrangedMore(p0: int, plan: seq<Choice>, x: Choice, more: multiset<ChainVal>)
    requires ArrangedBefore(p0, plan, multiset{x.chain} + more)
    requires TakenFrom(Preferred(ParityBefore(p0, plan, |plan|)), x.chain, more)
    ensures ArrangedBefore(p0, plan + [x], more)
  {
    hide TakenFrom, ParityBefore, ChainsOf, Preferred;
    var q := plan + [x];
    forall k | 0 <= k < |q| ensures TakenFrom(Preferred(ParityBefore(p0, q, k)), q[k].chain, multiset(ChainsOf(q[k + 1..])) + more) {
      LeftAfter(p0, plan, x, more, k);
    }
  }

  lemma LeftAfter(p0: int, plan: seq<Choice>, x: Choice, more: multiset<ChainVal>, k: nat)
    requires k <= |plan|
    ensures var q := plan + [x];
            ParityBefore(p0, q, k) == ParityBefore(p0, plan, k) && multiset(ChainsOf(q[k + 1..])) + more ==
            if k < |plan| then multiset(ChainsOf(plan[k + 1..])) + (multiset{x.chain} + more) else more
  {
    var q := plan + [x];
    if k < |plan| {
      assert q[k + 1..] == plan[k + 1..] + [x];
      assert ChainsOf(q[k + 1..]) == ChainsOf(plan[k + 1..]) + [x.chain];
    } else {
      assert ChainsOf(q[k + 1..]) == [];
    }
  }
}
