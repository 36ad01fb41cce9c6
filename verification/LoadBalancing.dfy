/** runOnBasicBlock of AArch64A57FPLoadBalancing: scan, group by overlap, colour each group. */
module LoadBalancing {
  import opened MachineBlock
  import opened Chains
  import opened ChainScan
  import opened ChainComplete
  import opened Recolor
  import opened Balance
  import opened ChainSets

  // rangeOverlapsWith
  predicate RangeOverlaps(v: ChainVal, w: ChainVal)
    requires |v.order| > 0 && |w.order| > 0
  {
    Start(v) <= EndOf(w) && Start(w) <= EndOf(v)
  }

  // Two ranges overlap exactly when they share an instruction, kills included.
  lemma OverlapMeans(v: ChainVal, w: ChainVal)
    requires |v.order| > 0 && |w.order| > 0 && Start(v) <= EndOf(v) && Start(w) <= EndOf(w)
    ensures RangeOverlaps(v, w) <==> exists n: int :: Covers(v, n) && Covers(w, n)
  {
    if RangeOverlaps(v, w) {
      var n := if v.order[0] < w.order[0] then w.order[0] else v.order[0];
      assert Covers(v, n) && Covers(w, n);
    }
  }

  predicate Covers(v: ChainVal, n: int) {
    |v.order| > 0 && v.order[0] <= n <= if v.kill >= 0 then v.kill else v.order[|v.order| - 1]
  }

  ghost predicate Apart(x: seq<ChainVal>, y: seq<ChainVal>) {
    forall v, w | v in x && w in y && |v.order| > 0 && |w.order| > 0 :: !RangeOverlaps(v, w)
  }

  ghost predicate AllApart(groups: seq<seq<ChainVal>>) {
    forall i, j | 0 <= i < j < |groups| :: Apart(groups[i], groups[j])
  }

  ghost function Total(groups: seq<seq<ChainVal>>): multiset<ChainVal> {
    if groups == [] then multiset{} else multiset(groups[0]) + Total(groups[1..])
  }

  lemma {:induction false} TotalSnoc(groups: seq<seq<ChainVal>>, x: seq<ChainVal>)
    ensures Total(groups + [x]) == Total(groups) + multiset(x)
  {
    if groups == [] {
      assert Total([x]) == multiset(x) + Total([]);
    } else {
      TotalSnoc(groups[1..], x);
      assert (groups + [x])[1..] == groups[1..] + [x];
    }
  }

  // A group holds positions in the list of all chains.
  ghost predicate Within(group: seq<nat>, n: nat) {
    forall j | 0 <= j < |group| :: group[j] < n
  }

  ghost function Pick(vals: seq<ChainVal>, group: seq<nat>): (r: seq<ChainVal>)
    requires Within(group, |vals|)
    ensures |r| == |group|
  {
    seq(|group|, j requires 0 <= j < |group| => vals[group[j]])
  }

  ghost predicate AllWithin(groups: seq<seq<nat>>, n: nat) {
    forall k | 0 <= k < |groups| :: Within(groups[k], n)
  }

  ghost function PickAll(vals: seq<ChainVal>, groups: seq<seq<nat>>): (r: seq<seq<ChainVal>>)
    requires AllWithin(groups, |vals|)
    ensures |r| == |groups| && forall k | 0 <= k < |groups| :: r[k] == Pick(vals, groups[k])
  {
    seq(|groups|, k requires 0 <= k < |groups| => Pick(vals, groups[k]))
  }

  ghost predicate Picked(vals: seq<ChainVal>, groups: seq<seq<nat>>, gvals: seq<seq<ChainVal>>) {
    |gvals| == |groups| && forall k | 0 <= k < |groups| :: Within(groups[k], |vals|) && gvals[k] == Pick(vals, groups[k])
  }

  method OverlapsAny(chains: seq<Chain>, n: nat, group: seq<nat>, ghost vals: seq<ChainVal>) returns (any: bool)
    requires Described(chains, vals) && n < |vals| && Within(group, |vals|)
    ensures any <==> !Apart(Pick(vals, group), [vals[n]])
  {
    hide NoRepeats, Described, RangeOverlaps;
    DescribedLength(chains, vals);
    for k := 0 to |group|
      invariant Apart(Pick(vals, group)[..k], [vals[n]])
    {
      var i := group[k];
      PartDescribed(chains, vals, n);
      PartDescribed(chains, vals, i);
      any := Overlap(chains[n], chains[i]);
      if any {
        Overlapping(Pick(vals, group), k, vals[n]);
        return;
      }
      ApartSnoc(Pick(vals, group), k, vals[n]);
    }
    assert Pick(vals, group)[..|group|] == Pick(vals, group);
    any := false;
  }

  method Overlap(g: Chain, other: Chain) returns (yes: bool)
    requires g.Valid() && other.Valid()
    ensures |g.order| > 0 && |other.order| > 0 && yes == RangeOverlaps(other.Value(), g.Value())
  {
    var end := if g.killIdx >= 0 then g.killIdx else g.lastIdx;
    var otherEnd := if other.killIdx >= 0 then other.killIdx else other.lastIdx;
    yes := g.startIdx <= otherEnd && other.startIdx <= end;
  }

  lemma Overlapping(x: seq<ChainVal>, k: nat, v: ChainVal)
    requires k < |x| && |x[k].order| > 0 && |v.order| > 0 && RangeOverlaps(x[k], v)
    ensures !Apart(x, [v])
  {
    hide RangeOverlaps;
    assert x[k] in x && v in [v];
  }

  // ----- Groups hang together -----

  // The ranges of the chains cover lo to hi without a gap, so any two are linked by overlaps.
  ghost predicate Spans(x: seq<ChainVal>, lo: nat, hi: nat) {
    && lo <= hi && (forall v | v in x :: |v.order| > 0 && lo <= Start(v) && EndOf(v) <= hi)
    && (forall t: nat | lo <= t < hi :: Crossed(x, t))
  }

  // Some chain goes on from t to t + 1.
  ghost predicate Crossed(x: seq<ChainVal>, t: nat) {
    exists v :: v in x && |v.order| > 0 && Start(v) <= t < EndOf(v)
  }

  ghost predicate Linked(x: seq<ChainVal>) {
    |x| > 0 && exists lo, hi :: Spans(x, lo, hi)
  }

  ghost predicate AllLinked(groups: seq<seq<ChainVal>>) {
    forall k | 0 <= k < |groups| :: Linked(groups[k])
  }

  // No part of a linked group keeps apart from the rest.
  lemma NoSplit(x: seq<ChainVal>, y: seq<ChainVal>, z: seq<ChainVal>)
    requires Linked(x) && (forall v :: v in x <==> v in y || v in z) && Apart(y, z)
    requires forall v | v in x :: |v.order| > 0 && Start(v) <= EndOf(v)
    ensures y == [] || z == []
  {
    var lo, hi :| Spans(x, lo, hi);
    if y != [] && z != [] {
      if Start(y[0]) <= Start(z[0]) { Sweep(x, y, z, lo, hi, Start(z[0]), y[0], z[0]); } else { ApartSym(y, z); Sweep(x, z, y, lo, hi, Start(y[0]), z[0], y[0]); }
    }
  }

  // Going right from a chain of y one never meets a chain of z.
  lemma {:induction false} Sweep(x: seq<ChainVal>, y: seq<ChainVal>, z: seq<ChainVal>, lo: nat, hi: nat, t: nat, v: ChainVal, w: ChainVal)
    requires Spans(x, lo, hi) && (forall u :: u in x <==> u in y || u in z) && Apart(y, z)
    requires forall u | u in x :: |u.order| > 0 && Start(u) <= EndOf(u)
    requires v in y && w in z && Start(v) <= Start(w) == t
    ensures false
    decreases if EndOf(v) >= t then 0 else t - EndOf(v)
  {
    hide Start, EndOf, Apart;
    NoOverlap(y, z, v, w);
    var e := EndOf(v);
    assert v in x && w in x && lo <= e < t <= hi;
    assert Crossed(x, e);
    var u :| u in x && |u.order| > 0 && Start(u) <= e < EndOf(u);
    if u in z { NoOverlap(y, z, v, u); }
    assert u in y;
    Sweep(x, y, z, lo, hi, t, u, w);
  }

  lemma NoOverlap(y: seq<ChainVal>, z: seq<ChainVal>, v: ChainVal, w: ChainVal)
    requires Apart(y, z) && v in y && w in z && |v.order| > 0 && |w.order| > 0
    ensures !(Start(v) <= EndOf(w) && Start(w) <= EndOf(v))
  {
  }

  lemma ApartSnoc(x: seq<ChainVal>, k: nat, v: ChainVal)
    requires k < |x| && Apart(x[..k], [v]) && |x[k].order| > 0 && |v.order| > 0 && !RangeOverlaps(x[k], v)
    ensures Apart(x[..k + 1], [v])
  {
    assert x[..k + 1] == x[..k] + [x[k]];
  }

  lemma ApartJoin(x: seq<ChainVal>, y: seq<ChainVal>, z: seq<ChainVal>)
    requires Apart(x, y) && Apart(x, z)
    ensures Apart(x, y + z)
  {
    hide RangeOverlaps;
  }

  lemma JoinApart(x: seq<ChainVal>, y: seq<ChainVal>, z: seq<ChainVal>)
    requires Apart(x, z) && Apart(y, z)
    ensures Apart(x + y, z)
  {
    hide RangeOverlaps;
  }

  lemma ApartSym(x: seq<ChainVal>, y: seq<ChainVal>)
    requires Apart(x, y)
    ensures Apart(y, x)
  {
  }

  // After k groups: `nvals` are those kept, `mvals` the union of those that v overlaps.
  ghost predicate Merging(gvals: seq<seq<ChainVal>>, v: ChainVal, k: nat, nvals: seq<seq<ChainVal>>, mvals: seq<ChainVal>)
    requires k <= |gvals|
  {
    && AllApart(nvals) && (forall i | 0 <= i < |nvals| :: Apart(nvals[i], mvals) && Apart(nvals[i], [v]))
    && (forall j | k <= j < |gvals| :: Apart(mvals, gvals[j]))
    && (forall i, j | 0 <= i < |nvals| && k <= j < |gvals| :: Apart(nvals[i], gvals[j]))
    && Total(nvals) + multiset(mvals) == Total(gvals[..k])
    && AllLinked(nvals) && Linked(mvals + [v])
  }

  lemma MergeStart(gvals: seq<seq<ChainVal>>, v: ChainVal)
    requires |v.order| > 0 && Start(v) <= EndOf(v)
    ensures Merging(gvals, v, 0, [], [])
  {
    LinkedOne(v);
    NothingApart(gvals);
    hide Linked, Apart;
  }

  lemma MergeIn(gvals: seq<seq<ChainVal>>, v: ChainVal, k: nat, nvals: seq<seq<ChainVal>>, mvals: seq<ChainVal>)
    requires k < |gvals| && AllApart(gvals) && AllLinked(gvals) && Merging(gvals, v, k, nvals, mvals) && !Apart(gvals[k], [v])
    ensures Merging(gvals, v, k + 1, nvals, mvals + gvals[k])
  {
    hide Apart, Linked, Total;
    assert gvals[..k + 1] == gvals[..k] + [gvals[k]];
    TotalSnoc(gvals[..k], gvals[k]);
    forall i | 0 <= i < |nvals| ensures Apart(nvals[i], mvals + gvals[k]) { ApartJoin(nvals[i], mvals, gvals[k]); }
    forall j | k < j < |gvals| ensures Apart(mvals + gvals[k], gvals[j]) { JoinApart(mvals, gvals[k], gvals[j]); }
    LinkedMore(mvals, gvals[k], v);
  }

  lemma KeepOut(gvals: seq<seq<ChainVal>>, v: ChainVal, k: nat, nvals: seq<seq<ChainVal>>, mvals: seq<ChainVal>)
    requires k < |gvals| && AllApart(gvals) && AllLinked(gvals) && Merging(gvals, v, k, nvals, mvals) && Apart(gvals[k], [v])
    ensures Merging(gvals, v, k + 1, nvals + [gvals[k]], mvals)
  {
    hide Apart, Linked, Total;
    assert gvals[..k + 1] == gvals[..k] + [gvals[k]];
    TotalSnoc(gvals[..k], gvals[k]);
    TotalSnoc(nvals, gvals[k]);
    ApartSym(mvals, gvals[k]);
  }

  lemma MergeEnd(gvals: seq<seq<ChainVal>>, v: ChainVal, nvals: seq<seq<ChainVal>>, mvals: seq<ChainVal>)
    requires Merging(gvals, v, |gvals|, nvals, mvals)
    ensures AllApart(nvals + [mvals + [v]]) && AllLinked(nvals + [mvals + [v]])
    ensures Total(nvals + [mvals + [v]]) == Total(gvals) + multiset{v}
  {
    hide Apart, Linked, Total;
    assert gvals[..|gvals|] == gvals;
    TotalSnoc(nvals, mvals + [v]);
    forall i | 0 <= i < |nvals| ensures Apart(nvals[i], mvals + [v]) { ApartJoin(nvals[i], mvals, [v]); }
  }

  // The union of chain n with every group it overlaps; the other groups are kept.
  method MergeChain(chains: seq<Chain>, n: nat, groups: seq<seq<nat>>, ghost vals: seq<ChainVal>, ghost gvals: seq<seq<ChainVal>>)
    returns (next: seq<seq<nat>>, ghost nvals: seq<seq<ChainVal>>)
    requires Described(chains, vals) && n < |vals| && |vals[n].order| > 0 && Start(vals[n]) <= EndOf(vals[n])
    requires Picked(vals, groups, gvals) && AllApart(gvals) && AllLinked(gvals)
    ensures Picked(vals, next, nvals) && AllApart(nvals) && AllLinked(nvals)
    ensures Total(nvals) == Total(gvals) + multiset{vals[n]}
  {
    hide Described, Apart, Total, AllLinked, AllApart, Start, EndOf, Merging;
    DescribedLength(chains, vals);
    var merged: seq<nat> := [];
    ghost var mvals := Pick(vals, merged);
    next, nvals := [], [];
    MergeStart(gvals, vals[n]);
    for k := 0 to |groups|
      invariant Picked(vals, next, nvals)
      invariant Within(merged, |vals|) && mvals == Pick(vals, merged)
      invariant Merging(gvals, vals[n], k, nvals, mvals)
    {
      assert Within(groups[k], |vals|) && gvals[k] == Pick(vals, groups[k]);
      var any := OverlapsAny(chains, n, groups[k], vals);
      if any {
        MergeIn(gvals, vals[n], k, nvals, mvals);
        merged, mvals := merged + groups[k], mvals + gvals[k];
      } else {
        KeepOut(gvals, vals[n], k, nvals, mvals);
        next, nvals := next + [groups[k]], nvals + [gvals[k]];
      }
    }
    MergeEnd(gvals, vals[n], nvals, mvals);
    merged, mvals := merged + [n], mvals + [vals[n]];
    next, nvals := next + [merged], nvals + [mvals];
  }

  lemma NothingApart(gvals: seq<seq<ChainVal>>)
    ensures forall j | 0 <= j < |gvals| :: Apart([], gvals[j])
    ensures Total([]) == multiset{}
  {
  }

  lemma LinkedOne(v: ChainVal)
    requires |v.order| > 0 && Start(v) <= EndOf(v)
    ensures Linked([] + [v])
  {
    assert [] + [v] == [v];
    forall t: nat | Start(v) <= t < EndOf(v) ensures Crossed([v], t) { assert v in [v]; }
    assert Spans([v], Start(v), EndOf(v));
  }

  // A linked group that v overlaps joins the linked group v belongs to.
  lemma LinkedMore(x: seq<ChainVal>, y: seq<ChainVal>, v: ChainVal)
    requires Linked(x + [v]) && Linked(y) && !Apart(y, [v])
    ensures Linked((x + y) + [v])
  {
    var lo, hi :| Spans(x + [v], lo, hi);
    var lo', hi' :| Spans(y, lo', hi');
    var w, u :| w in y && u in [v] && |w.order| > 0 && |u.order| > 0 && RangeOverlaps(w, u);
    assert u == v && v in x + [v];
    SpansJoin(x + [v], lo, hi, y, lo', hi', (x + y) + [v]);
  }

  lemma SpansJoin(x: seq<ChainVal>, lo: nat, hi: nat, y: seq<ChainVal>, lo': nat, hi': nat, z: seq<ChainVal>)
    requires Spans(x, lo, hi) && Spans(y, lo', hi') && lo <= hi' && lo' <= hi && |z| > 0
    requires forall v :: v in z <==> v in x || v in y
    ensures Linked(z)
  {
    hide Start, EndOf;
    var a, c := if lo <= lo' then lo else lo', if hi <= hi' then hi' else hi;
    forall t: nat | a <= t < c ensures Crossed(z, t) {
      if lo <= t < hi { CrossedIn(x, z, t); } else { CrossedIn(y, z, t); }
    }
    assert Spans(z, a, c);
  }

  lemma CrossedIn(x: seq<ChainVal>, z: seq<ChainVal>, t: nat)
    requires Crossed(x, t) && forall v | v in x :: v in z
    ensures Crossed(z, t)
  {
    hide Start, EndOf;
  }

  // EquivalenceClasses: chains of different groups do not overlap, and each group is linked.
  method GroupByOverlap(chains: seq<Chain>, ghost vals: seq<ChainVal>) returns (groups: seq<seq<nat>>)
    requires Described(chains, vals) && forall k | 0 <= k < |vals| :: |vals[k].order| > 0 && Start(vals[k]) <= EndOf(vals[k])
    ensures AllWithin(groups, |vals|)
    ensures var gvals := PickAll(vals, groups); AllApart(gvals) && Total(gvals) == multiset(vals) && AllLinked(gvals)
  {
    hide Described, Apart, Total, Linked;
    DescribedLength(chains, vals);
    groups := [];
    ghost var gvals := [];
    NothingApart([]);
    for n := 0 to |chains|
      invariant Picked(vals, groups, gvals) && AllApart(gvals) && Total(gvals) == multiset(vals[..n])
      invariant AllLinked(gvals)
    {
      assert vals[..n + 1] == vals[..n] + [vals[n]];
      groups, gvals := MergeChain(chains, n, groups, vals, gvals);
    }
    assert vals[..|chains|] == vals;
    PickedIsAll(vals, groups, gvals);
  }

  lemma PickedIsAll(vals: seq<ChainVal>, groups: seq<seq<nat>>, gvals: seq<seq<ChainVal>>)
    ensures Picked(vals, groups, gvals) <==> AllWithin(groups, |vals|) && gvals == PickAll(vals, groups)
  {
    hide Within;
  }

  // ----- Groups in program order -----

  // Every chain of x ends before any of y starts.
  ghost predicate Precedes(x: seq<ChainVal>, y: seq<ChainVal>) {
    forall v, w | v in x && w in y && |v.order| > 0 && |w.order| > 0 :: EndOf(v) < Start(w)
  }

  ghost predicate Proper(x: seq<ChainVal>) {
    forall v | v in x :: |v.order| > 0 && Start(v) <= EndOf(v)
  }

  // Groups that keep apart lie one after the other: which comes first can be told from any two of their chains.
  lemma ApartPrecedes(x: seq<ChainVal>, y: seq<ChainVal>)
    requires |x| > 0 && |y| > 0 && Linked(x) && Linked(y) && Apart(x, y) && Proper(x) && Proper(y) && Start(x[0]) <= Start(y[0])
    ensures Precedes(x, y)
  {
    hide Linked, Start, EndOf;
    var a, c := x[0], y[0];
    assert !RangeOverlaps(a, c);
    forall v, w | v in x && w in y ensures EndOf(v) < Start(w) {
      assert !RangeOverlaps(v, w) && !RangeOverlaps(a, w);
      if EndOf(v) >= Start(w) {
        if EndOf(a) < Start(w) { GapOverlaps(x, a, v, w); } else { GapOverlapsLater(y, w, c, a); }
      }
    }
  }

  // A linked group that starts before w and goes on after it overlaps it.
  lemma GapOverlaps(x: seq<ChainVal>, a: ChainVal, v: ChainVal, w: ChainVal)
    requires Linked(x) && Proper(x) && a in x && v in x && |w.order| > 0 && Start(w) <= EndOf(w)
    requires EndOf(a) < Start(w) && EndOf(w) < Start(v)
    ensures exists u :: u in x && |u.order| > 0 && RangeOverlaps(u, w)
  {
    hide Start, EndOf;
    var lo: nat, hi: nat :| Spans(x, lo, hi);
    assert Crossed(x, EndOf(w));
    var u :| u in x && |u.order| > 0 && Start(u) <= EndOf(w) < EndOf(u);
    assert RangeOverlaps(u, w);
  }

  lemma GapOverlapsLater(y: seq<ChainVal>, w: ChainVal, c: ChainVal, a: ChainVal)
    requires Linked(y) && Proper(y) && w in y && c in y && |a.order| > 0 && Start(a) <= EndOf(a)
    requires EndOf(w) < Start(a) && EndOf(a) < Start(c)
    ensures exists u :: u in y && |u.order| > 0 && RangeOverlaps(a, u)
  {
    hide Start, EndOf;
    GapOverlaps(y, w, c, a);
    var u :| u in y && |u.order| > 0 && RangeOverlaps(u, a);
    assert RangeOverlaps(a, u);
  }

  ghost predicate SortedFronts(groups: seq<seq<ChainVal>>) {
    && (forall k | 0 <= k < |groups| :: HasFront(groups[k]))
    && forall j, k | 0 <= j < k < |groups| :: Start(groups[j][0]) <= Start(groups[k][0])
  }

  ghost predicate HasFront(x: seq<ChainVal>) {
    |x| > 0 && |x[0].order| > 0
  }

  lemma LinkedFront(x: seq<ChainVal>)
    requires Linked(x)
    ensures HasFront(x)
  {
    var lo: nat, hi: nat :| Spans(x, lo, hi);
    assert x[0] in x;
  }

  lemma TotalFirst(groups: seq<seq<ChainVal>>)
    requires groups != []
    ensures Total(groups) == multiset(groups[0]) + Total(groups[1..])
  {
  }

  lemma {:induction false} TotalInsert(groups: seq<seq<ChainVal>>, x: seq<ChainVal>, k: nat)
    requires k <= |groups|
    ensures Total(groups[..k] + [x] + groups[k..]) == Total(groups) + multiset(x)
  {
    hide Total;
    var all := groups[..k] + [x] + groups[k..];
    TotalFirst(all);
    if k == 0 {
      assert all[1..] == groups;
    } else {
      TotalInsert(groups[1..], x, k - 1);
      TotalFirst(groups);
      assert all[1..] == groups[1..][..k - 1] + [x] + groups[1..][k - 1..];
    }
  }

  // x has its place at k.
  ghost predicate PlaceIs(gs: seq<seq<ChainVal>>, x: seq<ChainVal>, k: nat) {
    && k <= |gs| && HasFront(x)
    && (forall i | 0 <= i < k :: StartsFirst(gs[i], x)) && forall i | k <= i < |gs| :: StartsFirst(x, gs[i])
  }

  ghost predicate StartsFirst(x: seq<ChainVal>, y: seq<ChainVal>) {
    HasFront(x) && HasFront(y) && Start(x[0]) <= Start(y[0])
  }

  // A group comes into the sorted ones at its place.
  lemma GroupInserted(gs: seq<seq<ChainVal>>, x: seq<ChainVal>, k: nat)
    requires AllApart(gs) && AllLinked(gs) && SortedFronts(gs) && Linked(x) && PlaceIs(gs, x, k)
    requires forall i | 0 <= i < |gs| :: Apart(gs[i], x)
    ensures var hs := gs[..k] + [x] + gs[k..]; AllApart(hs) && AllLinked(hs) && SortedFronts(hs) && Total(hs) == Total(gs) + multiset(x)
  {
    hide Apart, Linked, Total, HasFront, Start;
    TotalInsert(gs, x, k);
    var hs := gs[..k] + [x] + gs[k..];
    forall i, j | 0 <= i < j < |hs| ensures Apart(hs[i], hs[j]) && StartsFirst(hs[i], hs[j]) { PairInserted(gs, x, k, i, j); }
    forall i | 0 <= i < |hs| ensures Linked(hs[i]) && HasFront(hs[i]) { LinkedFront(hs[i]); }
  }

  lemma PairInserted(gs: seq<seq<ChainVal>>, x: seq<ChainVal>, k: nat, i: nat, j: nat)
    requires AllApart(gs) && SortedFronts(gs) && PlaceIs(gs, x, k) && i < j <= |gs|
    requires forall i | 0 <= i < |gs| :: Apart(gs[i], x)
    ensures var hs := gs[..k] + [x] + gs[k..]; Apart(hs[i], hs[j]) && StartsFirst(hs[i], hs[j])
  {
    hide Apart, Start;
    if i == k { ApartSym(gs[j - 1], x); }
  }

  // The groups ordered by the start of their first chains.
  method SortGroups(chains: seq<Chain>, groups: seq<seq<nat>>, ghost vals: seq<ChainVal>) returns (s: seq<seq<nat>>)
    requires Described(chains, vals) && AllWithin(groups, |vals|)
    requires var gvals := PickAll(vals, groups); AllApart(gvals) && AllLinked(gvals)
    ensures AllWithin(s, |vals|)
    ensures var svals := PickAll(vals, s); AllApart(svals) && AllLinked(svals) && SortedFronts(svals) && Total(svals) == Total(PickAll(vals, groups))
  {
    hide Described, Apart, Linked, Total, SortedFronts;
    ghost var gvals := PickAll(vals, groups);
    s := [];
    ghost var gs: seq<seq<ChainVal>> := [];
    NoFronts();
    for n := 0 to |groups|
      invariant Picked(vals, s, gs) && AllApart(gs) && AllLinked(gs) && SortedFronts(gs)
      invariant Total(gs) == Total(gvals[..n])
      invariant forall i, j | 0 <= i < |gs| && n <= j < |gvals| :: Apart(gs[i], gvals[j])
    {
      var k := PlaceOfGroup(chains, groups[n], s, vals, gs);
      GroupInserted(gs, gvals[n], k);
      assert gvals[..n + 1] == gvals[..n] + [gvals[n]];
      TotalSnoc(gvals[..n], gvals[n]);
      s, gs := s[..k] + [groups[n]] + s[k..], gs[..k] + [gvals[n]] + gs[k..];
    }
    assert gvals[..|groups|] == gvals;
    PickedIsAll(vals, s, gs);
  }

  lemma NoFronts()
    ensures SortedFronts([]) && Total([]) == multiset{}
  {
  }

  method PlaceOfGroup(chains: seq<Chain>, g: seq<nat>, s: seq<seq<nat>>, ghost vals: seq<ChainVal>, ghost gs: seq<seq<ChainVal>>) returns (k: nat)
    requires Described(chains, vals) && Within(g, |vals|) && Linked(Pick(vals, g)) && Picked(vals, s, gs) && SortedFronts(gs)
    ensures PlaceIs(gs, Pick(vals, g), k)
  {
    hide Linked, NoRepeats, Described;
    LinkedFront(Pick(vals, g));
    DescribedLength(chains, vals);
    PartDescribed(chains, vals, g[0]);
    k := 0;
    while k < |s|
      invariant k <= |s| && forall i | 0 <= i < k :: StartsFirst(gs[i], Pick(vals, g))
    {
      assert HasFront(gs[k]) && gs[k] == Pick(vals, s[k]);
      PartDescribed(chains, vals, s[k][0]);
      if chains[g[0]].startIdx < chains[s[k][0]].startIdx { return; }
      k := k + 1;
    }
  }

  method Select(chains: seq<Chain>, group: seq<nat>, ghost vals: seq<ChainVal>) returns (gv: seq<Chain>)
    requires Described(chains, vals) && Within(group, |vals|)
    ensures Described(gv, Pick(vals, group))
  {
    hide NoRepeats;
    gv := [];
    for k := 0 to |group|
      invariant |gv| == k && forall j | 0 <= j < k :: gv[j] == chains[group[j]]
    {
      gv := gv + [chains[group[k]]];
    }
  }

  lemma GoodAtFirst(b: Block, vals: seq<ChainVal>)
    requires forall k | 0 <= k < |vals| :: ChainOK(b, vals[k])
    requires forall k, l | 0 <= k < l < |vals| :: Disjoint(vals[k], vals[l])
    ensures Good(b, multiset(vals)) && forall k | 0 <= k < |vals| :: NoRepeats(vals[k].order)
    ensures forall k | 0 <= k < |vals| :: |vals[k].order| > 0 && Start(vals[k]) <= EndOf(vals[k])
  {
    hide Disjoint, ChainOK, NoRepeats, Start, EndOf;
    forall k | 0 <= k < |vals| ensures |vals[k].order| > 0 && Start(vals[k]) <= EndOf(vals[k]) { RangeInBlock(b, vals[k]); }
    var m := multiset(vals);
    forall v, w | v in m && w in m - multiset{v} ensures Disjoint(w, v) {
      var k, l := TwoPlaces(vals, v, w);
      DisjointSym(vals[if k < l then k else l], vals[if k < l then l else k]);
    }
    forall k | 0 <= k < |vals| ensures NoRepeats(vals[k].order) { ChainNoRepeats(b, vals[k]); }
  }

  lemma DisjointSym(v: ChainVal, w: ChainVal)
    requires Disjoint(v, w)
    ensures Disjoint(w, v)
  {
  }

  lemma ChainNoRepeats(b: Block, v: ChainVal)
    requires ChainOK(b, v)
    ensures NoRepeats(v.order)
  {
    forall i, j | 0 <= i < j < |v.order| ensures v.order[i] != v.order[j] { OrderIncreases(b, v.order, i, j); }
  }

  lemma TwoPlaces<T>(s: seq<T>, v: T, w: T) returns (k: nat, l: nat)
    requires v in multiset(s) && w in multiset(s) - multiset{v}
    ensures k < |s| && l < |s| && k != l && s[k] == v && s[l] == w
  {
    k :| 0 <= k < |s| && s[k] == v;
    var rest := s[..k] + s[k + 1..];
    assert s == s[..k] + [v] + s[k + 1..];
    assert multiset(rest) == multiset(s) - multiset{v};
    var j :| 0 <= j < |rest| && rest[j] == w;
    l := if j < k then j else j + 1;
  }

  // The pass on one block: the result has the same effect, its kill flags are right, and the planned
  // balance covers every chain found.
  method RunOnBasicBlock(a: array<Instr>, out: set<Reg>, order: seq<Reg>, transformAll: bool)
    returns (changed: bool, ghost plan: seq<Choice>, ghost found: seq<ChainVal>, ghost parts: seq<seq<Choice>>)
    requires WellFormedBlock(a[..]) && KillsCorrect(a[..], out)
    modifies a
    ensures SameEffect(old(a[..]), a[..], out) && KillsCorrect(a[..], out)
    ensures Good(old(a[..]), multiset(found)) && multiset(ChainsOf(plan)) == multiset(found)
    ensures Planned(0, plan) && AllChains(old(a[..]), found)
    ensures plan == Flat(parts) && ByGroup(parts)
    ensures CarriedOut(old(a[..]), plan, a[..], out, order, transformAll)
    ensures !changed ==> a[..] == old(a[..])
  {
    hide *;
    ghost var b := a[..];
    changed, plan, parts := false, [], [];
    var s := ScanBlock(a[..]);
    var chains := s.allChains;
    found := s.vals;
    GoodAtFirst(b, found);
    ScannerDescribed(s, |b|);
    var groups := GroupByOverlap(chains, found);
    groups := SortGroups(chains, groups, found);
    ghost var gvals := PickAll(found, groups);
    GroupsInOrder(found, groups, gvals);
    PickedIsAll(found, groups, gvals);
    var parity := 0;
    SameEffectRefl(b, out);
    Start0(0, []);
    CarriedStart(b, out, order, transformAll);
    AllDone(found, groups, gvals);
    NoParts(gvals);
    for k := 0 to |groups|
      invariant Described(chains, found) && |gvals| == |groups|
      invariant SameEffect(b, a[..], out) && KillsCorrect(a[..], out) && Good(a[..], Total(gvals[k..]))
      invariant Planned(0, plan) && parity == ParityBefore(0, plan, |plan|)
      invariant multiset(ChainsOf(plan)) + Total(gvals[k..]) == multiset(found)
      invariant CarriedOut(b, plan, a[..], out, order, transformAll)
      invariant plan == Flat(parts) && |parts| == k && PartsFor(parts, gvals)
      invariant !changed ==> a[..] == b
    {
      PickedAt(found, groups, gvals, k);
      var gv := Select(chains, groups[k], found);
      ghost var before, p0 := a[..], parity;
      ghost var more;
      var ch;
      ch, parity, more := ColorChainSet(a, gv, gvals[k], parity, out, order, transformAll, Total(gvals[k + 1..]));
      SameEffectTrans(b, before, a[..], out);
      PlannedJoin(0, plan, more);
      CarriedJoin(b, plan, before, more, a[..], out, order, transformAll);
      ChainsOfJoin(plan, more);
      NextPart(parts, gvals, more);
      plan, parts := plan + more, parts + [more];
      changed := changed || ch;
    }
    AllDone(found, groups, gvals);
    PartsByGroup(parts, gvals);
  }

  // ----- The plan, group by group -----

  ghost function Flat(parts: seq<seq<Choice>>): seq<Choice> {
    if parts == [] then [] else Flat(parts[..|parts| - 1]) + parts[|parts| - 1]
  }

  // The parity a part of the plan starts with.
  ghost function StartsAt(parts: seq<seq<Choice>>, k: nat): int
    requires k <= |parts|
  {
    ParityBefore(0, Flat(parts[..k]), |Flat(parts[..k])|)
  }

  // Each part handles one group, in the order the code chooses: its chains hang together by overlaps, and all end
  // before any chain of a later part starts.
  ghost predicate ByGroup(parts: seq<seq<Choice>>) {
    && (forall k | 0 <= k < |parts| :: Linked(ChainsOf(parts[k])) && Arranged(StartsAt(parts, k), parts[k]))
    && forall j, k | 0 <= j < k < |parts| :: Precedes(ChainsOf(parts[j]), ChainsOf(parts[k]))
  }

  // The first groups are planned.
  ghost predicate PartsFor(parts: seq<seq<Choice>>, gvals: seq<seq<ChainVal>>) {
    && |parts| <= |gvals|
    && forall k | 0 <= k < |parts| :: multiset(ChainsOf(parts[k])) == multiset(gvals[k]) && Arranged(StartsAt(parts, k), parts[k])
  }

  lemma NoParts(gvals: seq<seq<ChainVal>>)
    ensures Flat([]) == [] && PartsFor([], gvals)
  {
  }

  lemma NextPart(parts: seq<seq<Choice>>, gvals: seq<seq<ChainVal>>, more: seq<Choice>)
    requires PartsFor(parts, gvals) && |parts| < |gvals| && multiset(ChainsOf(more)) == multiset(gvals[|parts|])
    requires Arranged(ParityBefore(0, Flat(parts), |Flat(parts)|), more)
    ensures PartsFor(parts + [more], gvals) && Flat(parts + [more]) == Flat(parts) + more
  {
    hide Arranged, ParityBefore, ChainsOf;
    var q := parts + [more];
    assert q[..|parts|] == parts;
    forall k | 0 <= k < |q| ensures multiset(ChainsOf(q[k])) == multiset(gvals[k]) && Arranged(StartsAt(q, k), q[k]) {
      if k < |parts| { assert q[..k] == parts[..k]; }
    }
  }

  lemma PartsByGroup(parts: seq<seq<Choice>>, gvals: seq<seq<ChainVal>>)
    requires PartsFor(parts, gvals) && |parts| == |gvals| && AllLinked(gvals) && InOrder(gvals)
    ensures ByGroup(parts)
  {
    hide Arranged, StartsAt, ChainsOf, Linked, Precedes;
    forall k | 0 <= k < |parts| ensures Linked(ChainsOf(parts[k])) { SameLinked(ChainsOf(parts[k]), gvals[k]); }
    forall j, k | 0 <= j < k < |parts| ensures Precedes(ChainsOf(parts[j]), ChainsOf(parts[k])) {
      SameMembers(ChainsOf(parts[j]), gvals[j]);
      SameMembers(ChainsOf(parts[k]), gvals[k]);
      SamePrecedes(gvals[j], gvals[k], ChainsOf(parts[j]), ChainsOf(parts[k]));
    }
  }

  lemma SameMembers(x: seq<ChainVal>, y: seq<ChainVal>)
    requires multiset(x) == multiset(y)
    ensures |x| == |y| && forall v :: v in x <==> v in y
  {
    assert |multiset(x)| == |multiset(y)|;
    forall v ensures v in x <==> v in y { assert v in x <==> v in multiset(x); assert v in y <==> v in multiset(y); }
  }

  lemma SameLinked(x: seq<ChainVal>, y: seq<ChainVal>)
    requires multiset(x) == multiset(y) && Linked(y)
    ensures Linked(x)
  {
    hide Start, EndOf, Crossed;
    SameMembers(x, y);
    var lo: nat, hi: nat :| Spans(y, lo, hi);
    forall t: nat | lo <= t < hi ensures Crossed(x, t) { CrossedIn(y, x, t); }
    assert Spans(x, lo, hi);
  }

  lemma SamePrecedes(x: seq<ChainVal>, y: seq<ChainVal>, z: seq<ChainVal>, w: seq<ChainVal>)
    requires Precedes(x, y) && (forall v | v in z :: v in x) && forall v | v in w :: v in y
    ensures Precedes(z, w)
  {
    hide Start, EndOf;
  }

  ghost predicate InOrder(gvals: seq<seq<ChainVal>>) {
    forall j, k | 0 <= j < k < |gvals| :: Precedes(gvals[j], gvals[k])
  }

  lemma GroupsInOrder(vals: seq<ChainVal>, groups: seq<seq<nat>>, gvals: seq<seq<ChainVal>>)
    requires (forall k | 0 <= k < |vals| :: |vals[k].order| > 0 && Start(vals[k]) <= EndOf(vals[k]))
    requires AllWithin(groups, |vals|) && gvals == PickAll(vals, groups) && AllApart(gvals) && AllLinked(gvals) && SortedFronts(gvals)
    ensures InOrder(gvals)
  {
    hide Apart, Linked, Precedes, Start, EndOf;
    forall k | 0 <= k < |gvals| ensures Proper(gvals[k]) {
      forall v | v in gvals[k] ensures |v.order| > 0 && Start(v) <= EndOf(v) {
        assert gvals[k] == Pick(vals, groups[k]);
        var i :| 0 <= i < |gvals[k]| && gvals[k][i] == v;
        assert v == vals[groups[k][i]];
      }
    }
    forall j, k | 0 <= j < k < |gvals| ensures Precedes(gvals[j], gvals[k]) { ApartPrecedes(gvals[j], gvals[k]); }
  }

  lemma ChainsOfJoin(x: seq<Choice>, y: seq<Choice>)
    ensures multiset(ChainsOf(x + y)) == multiset(ChainsOf(x)) + multiset(ChainsOf(y))
  {
    assert ChainsOf(x + y) == ChainsOf(x) + ChainsOf(y);
  }

  lemma PickedAt(vals: seq<ChainVal>, groups: seq<seq<nat>>, gvals: seq<seq<ChainVal>>, k: nat)
    requires Picked(vals, groups, gvals) && k < |groups|
    ensures |gvals| == |groups| && Within(groups[k], |vals|) && gvals[k] == Pick(vals, groups[k])
    ensures Total(gvals[k..]) == multiset(gvals[k]) + Total(gvals[k + 1..])
  {
    assert gvals[k..][1..] == gvals[k + 1..];
  }

  lemma AllDone(vals: seq<ChainVal>, groups: seq<seq<nat>>, gvals: seq<seq<ChainVal>>)
    requires Picked(vals, groups, gvals)
    ensures |gvals| == |groups| && Total(gvals[|groups|..]) == multiset{}
  {
  }

  lemma ScannerDescribed(s: Scanner, n: nat)
    requires s.Scanned(n, n) && forall k | 0 <= k < |s.vals| :: NoRepeats(s.vals[k].order)
    ensures Described(s.allChains, s.vals)
  {
    hide NoRepeats;
  }
}
