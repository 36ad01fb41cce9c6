/** Sorting, choosing and colouring the chains of a block: colorChainSet, getAndEraseNext and
    runOnBasicBlock of AArch64A57FPLoadBalancing. */
module ChainSets {
  import opened MachineBlock
  import opened Chains
  import opened ChainScan
  import opened Recolor
  import opened Coloring
  import opened RecolorOthers
  import opened Balance

  // The values of a list of chain objects.
  ghost predicate Described(l: seq<Chain>, vals: seq<ChainVal>)
    reads l
  {
    |vals| == |l| && forall k | 0 <= k < |l| :: l[k].Valid() && l[k].Value() == vals[k] && NoRepeats(vals[k].order)
  }

  ghost predicate NoRepeats(order: seq<nat>) {
    forall i, j | 0 <= i < j < |order| :: order[i] != order[j]
  }

  lemma {:induction false} SizeOfInsts(insts: set<nat>, order: seq<nat>)
    requires NoRepeats(order) && forall n :: n in insts <==> n in order
    ensures |insts| == |order|
  {
    if |order| == 0 {
      assert insts == {};
    } else {
      var n := |order| - 1;
      var rest := insts - {order[n]};
      forall x ensures x in rest <==> x in order[..n] {
        if x in order && x != order[n] { var k :| 0 <= k < |order| && order[k] == x; assert order[..n][k] == x; }
      }
      SizeOfInsts(rest, order[..n]);
    }
  }

  method SizeOf(g: Chain, ghost v: ChainVal) returns (n: nat)
    requires g.Valid() && g.Value() == v && NoRepeats(v.order)
    ensures n == Size(v) && n > 0
  {
    SizeOfInsts(g.insts, g.order);
    n := |g.insts|;
  }

  method IsBefore(g: Chain, h: Chain, ghost v: ChainVal, ghost w: ChainVal) returns (before: bool)
    requires g.Valid() && g.Value() == v && NoRepeats(v.order)
    requires h.Valid() && h.Value() == w && NoRepeats(w.order)
    ensures |v.order| > 0 && |w.order| > 0 && before == Before(v, w)
  {
    var m := SizeOf(g, v);
    var n := SizeOf(h, w);
    var fg, fh := g.killIdx == -1 || g.killIsImmutable, h.killIdx == -1 || h.killIsImmutable;
    if m != n { return m > n; }
    if fg != fh { return fg; }
    return g.startIdx < h.startIdx;
  }

  lemma InsertDescribed(l: seq<Chain>, vals: seq<ChainVal>, g: Chain, v: ChainVal, k: nat)
    requires Described(l, vals) && Described([g], [v]) && k <= |l|
    ensures |l| == |vals| && Described(l[..k] + [g] + l[k..], vals[..k] + [v] + vals[k..])
  {
    hide NoRepeats;
    var m, ws := l[..k] + [g] + l[k..], vals[..k] + [v] + vals[k..];
    assert [g][0] == g && [v][0] == v;
    forall j | 0 <= j < |m| ensures m[j].Valid() && m[j].Value() == ws[j] && NoRepeats(ws[j].order) {
      if j < k { assert m[j] == l[j]; } else if j > k { assert m[j] == l[j - 1]; }
    }
  }

  lemma RemoveDescribed(l: seq<Chain>, vals: seq<ChainVal>, k: nat)
    requires Described(l, vals) && k < |l|
    ensures |l| == |vals| && Described(l[..k] + l[k + 1..], vals[..k] + vals[k + 1..])
    ensures l[k].Valid() && l[k].Value() == vals[k] && NoRepeats(vals[k].order)
  {
    hide NoRepeats;
    var m, ws := l[..k] + l[k + 1..], vals[..k] + vals[k + 1..];
    forall j | 0 <= j < |m| ensures m[j].Valid() && m[j].Value() == ws[j] && NoRepeats(ws[j].order) {
      if j < k { assert m[j] == l[j]; } else { assert m[j] == l[j + 1]; }
    }
  }

  lemma PartDescribed(l: seq<Chain>, vals: seq<ChainVal>, k: nat)
    requires Described(l, vals) && k < |l|
    ensures |l| == |vals| && Described([l[k]], [vals[k]])
    ensures l[k].Valid() && l[k].Value() == vals[k] && NoRepeats(vals[k].order)
  {
  }

  // llvm::sort with the comparator of colorChainSet.
  method SortChains(gv: seq<Chain>, ghost vals: seq<ChainVal>) returns (s: seq<Chain>, ghost svals: seq<ChainVal>)
    requires Described(gv, vals)
    ensures Described(s, svals) && Ordered(svals) && multiset(svals) == multiset(vals)
  {
    hide Before, Described, NoRepeats, Ordered, Size;
    s, svals := [], [];
    NoneDescribed();
    DescribedLength(gv, vals);
    for n := 0 to |gv|
      invariant Described(s, svals) && Ordered(svals) && multiset(svals) == multiset(vals[..n])
    {
      PartDescribed(gv, vals, n);
      DescribedLength(s, svals);
      var k := FindPlace(gv[n], s, vals[n], svals);
      InsertOrdered(svals, vals[n], k);
      InsertMultiset(svals, vals[n], k);
      InsertDescribed(s, svals, gv[n], vals[n], k);
      assert vals[..n + 1] == vals[..n] + [vals[n]];
      s := s[..k] + [gv[n]] + s[k..];
      svals := svals[..k] + [vals[n]] + svals[k..];
    }
    assert vals[..|gv|] == vals;
  }

  lemma NoneDescribed()
    ensures Described([], []) && Ordered([])
  {
  }

  lemma DescribedLength(l: seq<Chain>, vals: seq<ChainVal>)
    requires Described(l, vals)
    ensures |l| == |vals|
  {
  }

  // The first position whose chain comes after g.
  method FindPlace(g: Chain, s: seq<Chain>, ghost v: ChainVal, ghost svals: seq<ChainVal>) returns (k: nat)
    requires Described([g], [v]) && Described(s, svals) && Ordered(svals)
    ensures k <= |svals| && |v.order| > 0 && NonEmpty(svals)
    ensures forall j | 0 <= j < k :: !Before(v, svals[j])
    ensures k < |svals| ==> Before(v, svals[k])
  {
    hide Before, NoRepeats;
    PartDescribed([g], [v], 0);
    k := 0;
    while k < |s|
      invariant k <= |s| && forall j | 0 <= j < k :: !Before(v, svals[j])
    {
      var stop := IsBefore(g, s[k], v, svals[k]);
      if stop { return; }
      k := k + 1;
    }
  }

  // Takes out a chain of the largest remaining size, of the preferred color if there is one.
  method GetAndEraseNext(preferred: Color, l: seq<Chain>, ghost vals: seq<ChainVal>)
    returns (g: Chain, rest: seq<Chain>, ghost i: nat)
    requires |l| > 0 && Described(l, vals) && Ordered(vals)
    ensures i < |l| && g == l[i] && rest == l[..i] + l[i + 1..]
    ensures TakenFrom(preferred, vals[i], multiset(vals[..i] + vals[i + 1..]))
  {
    hide NoRepeats, Before, TakenFrom, Size, Ordered, Described;
    LargestFirst(vals);
    DescribedLength(l, vals);
    PartDescribed(l, vals, 0);
    var front := SizeOf(l[0], vals[0]);
    for k := 0 to |l|
      invariant forall j | 0 <= j < k :: Size(vals[j]) == front && vals[j].color != preferred
    {
      PartDescribed(l, vals, k);
      var n := SizeOf(l[k], vals[k]);
      if n <= front - 1 {
        TakeLast(preferred, vals, k - 1);
        return l[k - 1], l[..k - 1] + l[k..], k - 1;
      }
      if l[k].lastColor == preferred {
        TakePreferred(preferred, vals, k);
        return l[k], l[..k] + l[k + 1..], k;
      }
    }
    TakeFirst(preferred, vals);
    return l[0], l[1..], 0;
  }

  // At a position other than i.
  ghost predicate Elsewhere(vals: seq<ChainVal>, i: nat, w: ChainVal) {
    exists k :: 0 <= k < |vals| && k != i && vals[k] == w
  }

  lemma AllElsewhere(vals: seq<ChainVal>, i: nat)
    requires i < |vals|
    ensures forall w | w in multiset(vals[..i] + vals[i + 1..]) :: Elsewhere(vals, i, w)
  {
    var rest := vals[..i] + vals[i + 1..];
    forall w | w in multiset(rest) ensures Elsewhere(vals, i, w) {
      var j :| 0 <= j < |rest| && rest[j] == w;
      assert vals[if j < i then j else j + 1] == w;
    }
  }

  lemma TakePreferred(c: Color, vals: seq<ChainVal>, i: nat)
    requires Ordered(vals) && i < |vals| && vals[i].color == c && (forall k | 0 <= k < |vals| :: Size(vals[k]) <= Size(vals[i]))
    requires forall j | 0 <= j < i :: vals[j].color != c
    ensures TakenFrom(c, vals[i], multiset(vals[..i] + vals[i + 1..]))
  {
    hide Before, Size, Elsewhere;
    AllElsewhere(vals, i);
    forall w | w in multiset(vals[..i] + vals[i + 1..])
      ensures Size(w) <= Size(vals[i]) && (|w.order| > 0 && |vals[i].order| > 0 && w.color == c ==> !Before(w, vals[i]))
    {
      var k := PlaceOf(vals, i, w);
    }
  }

  lemma TakeLast(c: Color, vals: seq<ChainVal>, i: nat)
    requires Ordered(vals) && i + 1 < |vals| && Size(vals[i + 1]) < Size(vals[i])
    requires forall k | 0 <= k < |vals| :: Size(vals[k]) <= Size(vals[i]) && (i < k ==> Size(vals[k]) < Size(vals[i]))
    requires forall j | 0 <= j <= i :: vals[j].color != c
    ensures TakenFrom(c, vals[i], multiset(vals[..i] + vals[i + 1..]))
  {
    hide Before, Size, Elsewhere;
    AllElsewhere(vals, i);
    forall w | w in multiset(vals[..i] + vals[i + 1..])
      ensures Size(w) <= Size(vals[i]) && (Size(w) == Size(vals[i]) && |w.order| > 0 && |vals[i].order| > 0 ==> w.color != c && !Before(vals[i], w))
    {
      var k := PlaceOf(vals, i, w);
    }
    assert (vals[..i] + vals[i + 1..])[i] == vals[i + 1];
  }

  lemma TakeFirst(c: Color, vals: seq<ChainVal>)
    requires Ordered(vals) && |vals| > 0 && forall j | 0 <= j < |vals| :: vals[j].color != c && Size(vals[j]) == Size(vals[0])
    ensures TakenFrom(c, vals[0], multiset(vals[..0] + vals[1..]))
  {
    hide Before, Size, Elsewhere;
    AllElsewhere(vals, 0);
    forall w | w in multiset(vals[..0] + vals[1..])
      ensures Size(w) == Size(vals[0]) && w.color != c && (|w.order| > 0 && |vals[0].order| > 0 ==> !Before(w, vals[0]))
    {
      var k := PlaceOf(vals, 0, w);
    }
  }

  lemma PlaceOf(vals: seq<ChainVal>, i: nat, w: ChainVal) returns (k: nat)
    requires Elsewhere(vals, i, w)
    ensures k < |vals| && k != i && vals[k] == w
  {
    k :| 0 <= k < |vals| && k != i && vals[k] == w;
  }

  // Chains that may still be recoloured: each is right about the block, no two share an instruction.
  ghost predicate Good(b: Block, m: multiset<ChainVal>) {
    (forall v | v in m :: ChainOK(b, v)) && forall v, w | v in m && w in m - multiset{v} :: Disjoint(w, v)
  }

  lemma GoodWithout(b: Block, m: multiset<ChainVal>, v: ChainVal)
    requires Good(b, m) && v in m
    ensures ChainOK(b, v) && Good(b, m - multiset{v})
    ensures forall w | w in m - multiset{v} :: ChainOK(b, w) && Disjoint(w, v)
  {
    hide ChainOK, Disjoint;
  }

  // What coloring v as c does: every definition it should repaint gets one free register of that color, or
  // no such register is free and nothing happens.
  ghost predicate Outcome(b: Block, d: Block, out: set<Reg>, order: seq<Reg>, all: bool, v: ChainVal, c: Color) {
    || (d == b && |v.order| > 0 && EndOf(v) < |b| && forall q | q in order && GetColor(q) == c :: !Free(b, out, v, q))
    || exists reg: Reg, subs :: Trace(b, d, out, v, reg, subs) && reg in order && GetColor(reg) == c && Painted(b, d, v, reg, c, all, |b|)
  }

  lemma NoRegister(b: Block, out: set<Reg>, order: seq<Reg>, all: bool, v: ChainVal, c: Color)
    requires |v.order| > 0 && EndOf(v) < |b| && forall q | q in order && GetColor(q) == c :: !Free(b, out, v, q)
    ensures Outcome(b, b, out, order, all, v, c)
  {
  }

  lemma WasColored(b: Block, d: Block, out: set<Reg>, order: seq<Reg>, all: bool, v: ChainVal, c: Color, reg: Reg, subs: seq<Substs>)
    requires Trace(b, d, out, v, reg, subs) && reg in order && GetColor(reg) == c && Painted(b, d, v, reg, c, all, |b|)
    ensures Outcome(b, d, out, order, all, v, c)
  {
    hide Trace, Painted;
  }

  ghost predicate DoneAt(b: Block, out: set<Reg>, order: seq<Reg>, all: bool, x: Choice) {
    x.before == b && Outcome(b, x.after, out, order, all, x.chain, x.color)
  }

  // The plan was carried out, one chain after the other.
  ghost predicate CarriedOut(b0: Block, plan: seq<Choice>, b1: Block, out: set<Reg>, order: seq<Reg>, all: bool)
    decreases |plan|
  {
    if plan == [] then b1 == b0
    else DoneAt(b0, out, order, all, plan[0]) && CarriedOut(plan[0].after, plan[1..], b1, out, order, all)
  }

  lemma {:induction false} CarriedJoin(b0: Block, x: seq<Choice>, b1: Block, y: seq<Choice>, b2: Block, out: set<Reg>, order: seq<Reg>, all: bool)
    requires CarriedOut(b0, x, b1, out, order, all) && CarriedOut(b1, y, b2, out, order, all)
    ensures CarriedOut(b0, x + y, b2, out, order, all)
    decreases |x|
  {
    hide DoneAt;
    if x == [] {
      assert x + y == y;
    } else {
      assert (x + y)[1..] == x[1..] + y;
      CarriedJoin(x[0].after, x[1..], b1, y, b2, out, order, all);
    }
  }

  lemma CarriedStep(b0: Block, plan: seq<Choice>, b1: Block, out: set<Reg>, order: seq<Reg>, all: bool, x: Choice)
    requires CarriedOut(b0, plan, b1, out, order, all) && DoneAt(b1, out, order, all, x)
    ensures CarriedOut(b0, plan + [x], x.after, out, order, all)
  {
    hide DoneAt;
    assert [x][1..] == [];
    CarriedJoin(b0, plan, b1, [x], x.after, out, order, all);
  }

  lemma CarriedStart(b: Block, out: set<Reg>, order: seq<Reg>, all: bool)
    ensures CarriedOut(b, [], b, out, order, all)
  {
  }

  // One call of colorChain, seen from the rest of the block.
  method ColorOne(a: array<Instr>, g: Chain, c: Color, out: set<Reg>, order: seq<Reg>, transformAll: bool,
                  ghost m: multiset<ChainVal>, ghost v: ChainVal)
    returns (changed: bool)
    requires g.Valid() && g.Value() == v && v in m && Good(a[..], m) && KillsCorrect(a[..], out)
    modifies a
    ensures SameEffect(old(a[..]), a[..], out) && KillsCorrect(a[..], out) && Good(a[..], m - multiset{v})
    ensures Outcome(old(a[..]), a[..], out, order, transformAll, v, c)
    ensures !changed ==> a[..] == old(a[..])
  {
    hide ChainOK, Trace, Disjoint, Good, SameEffect, KillsCorrect, Painted, Free, Outcome;
    ghost var b := a[..];
    GoodWithout(b, m, v);
    ghost var reg, subs;
    changed, reg, subs := ColorChain(a, g, c, out, order, transformAll);
    if reg == -1 {
      SameEffectRefl(b, out);
      NoRegister(b, out, order, transformAll, v, c);
    } else {
      WasColored(b, a[..], out, order, transformAll, v, c, reg, subs);
      RecoloringIsSound(b, a[..], out, v, reg, subs);
      OthersGood(b, a[..], out, v, reg, subs, m - multiset{v});
    }
  }

  lemma SameEffectRefl(b: Block, out: set<Reg>)
    ensures SameEffect(b, b, out)
  {
  }

  lemma OthersGood(b: Block, c: Block, out: set<Reg>, v: ChainVal, reg: Reg, subs: seq<Substs>, m: multiset<ChainVal>)
    requires Trace(b, c, out, v, reg, subs) && Good(b, m) && forall w | w in m :: ChainOK(b, w) && Disjoint(w, v)
    ensures Good(c, m)
  {
    hide Trace, ChainOK, Disjoint;
    forall w | w in m ensures ChainOK(c, w) { ChainKept(b, c, out, v, reg, subs, w); }
  }

  lemma PlanStep(p0: int, plan: seq<Choice>, x: Choice, more: multiset<ChainVal>)
    requires Planned(p0, plan) && PlannedAt(ParityBefore(p0, plan, |plan|), x)
    requires ArrangedBefore(p0, plan, multiset{x.chain} + more)
    requires TakenFrom(Preferred(ParityBefore(p0, plan, |plan|)), x.chain, more)
    ensures Planned(p0, plan + [x]) && ParityBefore(p0, plan + [x], |plan| + 1) == x.parity
    ensures ArrangedBefore(p0, plan + [x], more)
    ensures ChainsOf(plan + [x]) == ChainsOf(plan) + [x.chain]
  {
    hide *;
    PlannedMore(p0, plan, x);
    ArrangedMore(p0, plan, x, more);
    ChainsMore(plan, x);
  }

  lemma PlannedMore(p0: int, plan: seq<Choice>, x: Choice)
    requires Planned(p0, plan) && PlannedAt(ParityBefore(p0, plan, |plan|), x)
    ensures Planned(p0, plan + [x]) && ParityBefore(p0, plan + [x], |plan| + 1) == x.parity
  {
    hide PlannedAt;
    var q := plan + [x];
    forall k | 0 <= k < |q| ensures PlannedAt(ParityBefore(p0, q, k), q[k]) {
      assert ParityBefore(p0, q, k) == ParityBefore(p0, plan, k);
    }
  }

  lemma ChainsMore(plan: seq<Choice>, x: Choice)
    ensures ChainsOf(plan + [x]) == ChainsOf(plan) + [x.chain]
  {
  }

  // One iteration of colorChainSet after a chain has been taken.
  method ColorNext(a: array<Instr>, g: Chain, preferred: Color, parity: int, out: set<Reg>, order: seq<Reg>,
                   transformAll: bool, ghost m: multiset<ChainVal>, ghost v: ChainVal)
    returns (changed: bool, parity': int, ghost x: Choice)
    requires g.Valid() && g.Value() == v && NoRepeats(v.order) && v in m
    requires Good(a[..], m) && KillsCorrect(a[..], out) && preferred == Preferred(parity)
    modifies a
    ensures SameEffect(old(a[..]), a[..], out) && KillsCorrect(a[..], out) && Good(a[..], m - multiset{v})
    ensures PlannedAt(parity, x) && x.chain == v && x.parity == parity'
    ensures DoneAt(old(a[..]), out, order, transformAll, x) && x.after == a[..]
    ensures !changed ==> a[..] == old(a[..])
  {
    hide Good, SameEffect, KillsCorrect, NoRepeats, Size, Outcome;
    ghost var b := a[..];
    var c := preferred;
    if parity == 0 {
      c := g.lastColor;
    }
    if (g.killIdx == -1 || g.killIsImmutable) && c != g.lastColor {
      c := g.lastColor;
    }
    changed := ColorOne(a, g, c, out, order, transformAll, m, v);
    var n := SizeOf(g, v);
    parity' := if c == Even then parity + n else parity - n;
    x := Choice(v, c, parity', b, a[..]);
  }

  method ColorChainSet(a: array<Instr>, gv: seq<Chain>, ghost gvals: seq<ChainVal>, parity0: int, out: set<Reg>,
                       order: seq<Reg>, transformAll: bool, ghost others: multiset<ChainVal>)
    returns (changed: bool, parity: int, ghost plan: seq<Choice>)
    requires Described(gv, gvals) && Good(a[..], multiset(gvals) + others) && KillsCorrect(a[..], out)
    modifies a
    ensures SameEffect(old(a[..]), a[..], out) && KillsCorrect(a[..], out) && Good(a[..], others)
    ensures Planned(parity0, plan) && parity == ParityBefore(parity0, plan, |plan|)
    ensures multiset(ChainsOf(plan)) == multiset(gvals) && Arranged(parity0, plan)
    ensures CarriedOut(old(a[..]), plan, a[..], out, order, transformAll)
    ensures !changed ==> a[..] == old(a[..])
  {
    hide *;
    ghost var b := a[..];
    changed, parity, plan := false, parity0, [];
    var l, vals := SortChains(gv, gvals);
    SameEffectRefl(b, out);
    Start0(parity0, vals);
    CarriedStart(b, out, order, transformAll);
    var preferred := if parity < 0 then Even else Odd;
    PreferredIs(parity);
    while |l| > 0
      invariant Described(l, vals) && Ordered(vals)
      invariant SameEffect(b, a[..], out) && KillsCorrect(a[..], out) && Good(a[..], multiset(vals) + others)
      invariant Planned(parity0, plan) && parity == ParityBefore(parity0, plan, |plan|)
      invariant multiset(ChainsOf(plan)) + multiset(vals) == multiset(gvals)
      invariant ArrangedBefore(parity0, plan, multiset(vals)) && preferred == Preferred(parity)
      invariant CarriedOut(b, plan, a[..], out, order, transformAll)
      invariant !changed ==> a[..] == b
      decreases |l|
    {
      DescribedLength(l, vals);
      ghost var was, i := l, 0;
      var g;
      g, l, i := GetAndEraseNext(preferred, l, vals);
      RemoveDescribed(was, vals, i);
      Removed(vals, i, others, multiset(gvals), ChainsOf(plan));
      ghost var before := a[..];
      var ch;
      ghost var x;
      ch, parity, x := ColorNext(a, g, preferred, parity, out, order, transformAll, multiset(vals) + others, vals[i]);
      SameEffectTrans(b, before, a[..], out);
      changed := changed || ch;
      preferred := if parity < 0 then Even else Odd;
      PreferredIs(parity);
      PlanStep(parity0, plan, x, multiset(vals[..i] + vals[i + 1..]));
      CarriedStep(b, plan, before, out, order, transformAll, x);
      plan := plan + [x];
      vals := vals[..i] + vals[i + 1..];
    }
    DescribedLength(l, vals);
    Ended(parity0, plan, vals, others);
  }

  // Moving one chain from those to come to those planned.
  lemma Removed(vals: seq<ChainVal>, i: nat, others: multiset<ChainVal>, all: multiset<ChainVal>, done: seq<ChainVal>)
    requires Ordered(vals) && i < |vals| && multiset(done) + multiset(vals) == all
    ensures var rest := vals[..i] + vals[i + 1..];
            && Ordered(rest) && vals[i] in multiset(vals) + others
            && multiset(rest) + others == multiset(vals) + others - multiset{vals[i]}
            && multiset(done + [vals[i]]) + multiset(rest) == all && multiset(vals) == multiset{vals[i]} + multiset(rest)
  {
    hide *;
    RemoveOrdered(vals, i);
    assert vals[i] in multiset(vals);
  }

  lemma Start0(p0: int, vals: seq<ChainVal>)
    ensures Planned(p0, []) && ArrangedBefore(p0, [], multiset(vals)) && ChainsOf([]) == [] && ParityBefore(p0, [], 0) == p0
  {
  }

  lemma PreferredIs(p: int)
    ensures Preferred(p) == if p < 0 then Even else Odd
  {
  }

  lemma Ended(p0: int, plan: seq<Choice>, vals: seq<ChainVal>, others: multiset<ChainVal>)
    requires |vals| == 0 && ArrangedBefore(p0, plan, multiset(vals))
    ensures multiset(vals) + others == others && multiset(ChainsOf(plan)) + multiset(vals) == multiset(ChainsOf(plan)) && Arranged(p0, plan)
  {
  }
}
