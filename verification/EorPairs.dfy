/** Why three attempts find the two bitmask immediates whose exclusive-or a value is, whenever there are any.
    The longer pattern has two ends in each of its periods, and each can spoil at most one run of the
    shorter pattern; so of three runs in a row at least one is whole. */
module EorPairs {
  import opened Words
  import opened LogicalImm
  import opened OrrPairs
  import opened CircularRuns

  // x is a, one run in every p bits, exclusive-or b, one run in every q.
  ghost predicate XorOf(x: Word, p: nat, a: Word, r: int, m: nat, q: nat, b: Word, s: int, n: nat) {
    x == Xor(a, b) && Single(a, p, r, m) && Single(b, q, s, n) && q <= p
  }

  lemma XorFacts(x: Word, p: nat, a: Word, r: int, m: nat, q: nat, b: Word, s: int, n: nat)
    requires XorOf(x, p, a, r, m, q, b, s, n)
    ensures x == Xor(a, b) && Size(p) && Size(q) && q <= p && Single(a, p, r, m) && Single(b, q, s, n)
    ensures Periodic(a, p, 64) && Periodic(b, p, 64) && Periodic(b, q, 64) && Periodic(x, p, 64)
    ensures 2 <= p <= 64 && 0 < m < p && 0 < n < q
  {
    SinglePeriodic(a, p, r, m);
    SinglePeriodic(b, q, s, n);
    PeriodicUp(b, 64, q, p);
    XorPeriodic(a, b, p);
  }

  lemma XorPeriodic(a: Word, b: Word, p: nat)
    requires Periodic(a, p, 64) && Periodic(b, p, 64)
    ensures Periodic(Xor(a, b), p, 64)
  {
    forall i: nat | p <= i < 64 ensures Back(Xor(a, b), i, p) { assert Back(a, i, p) && Back(b, i, p); }
  }

  lemma XorBack(imm: Word, small: Word)
    ensures Xor(small, Xor(imm, small)) == imm && Xor(Xor(imm, small), small) == imm
  {
  }

  // ----- How many runs -----

  lemma {:induction false} PopcountSub(a: seq<bool>, b: seq<bool>)
    requires |a| == |b| && forall i | 0 <= i < |a| :: b[i] ==> a[i]
    ensures Popcount(b) <= Popcount(a)
    ensures Popcount(b) == Popcount(a) ==> forall i | 0 <= i < |a| :: a[i] ==> b[i]
  {
    if a != [] {
      assert b[0] ==> a[0];
      forall i | 0 <= i < |a| - 1 ensures b[1..][i] ==> a[1..][i] { assert b[i + 1] ==> a[i + 1]; }
      PopcountSub(a[1..], b[1..]);
      if Popcount(b) == Popcount(a) {
        forall i | 0 <= i < |a| ensures a[i] ==> b[i] { if i > 0 { assert a[1..][i - 1] ==> b[1..][i - 1]; } }
      }
    }
  }

  lemma XorEdgeCount(a: Word, b: Word, p: nat) returns (both: seq<bool>)
    requires p <= 64
    ensures |both| == p && forall i: nat | i < p :: both[i] == (Edges(a)[i] && Edges(b)[i])
    ensures EdgeCount(Xor(a, b), p) + 2 * Popcount(both) == EdgeCount(a, p) + EdgeCount(b, p)
    ensures Popcount(both) <= EdgeCount(a, p) && Popcount(both) <= EdgeCount(b, p)
    ensures Popcount(both) == EdgeCount(a, p) ==> forall i: nat | i < p :: Edges(a)[i] ==> Edges(b)[i]
    ensures (forall i: nat | i < p :: Edges(b)[i] ==> Edges(a)[i]) ==> Popcount(both) == EdgeCount(b, p)
  {
    hide Popcount, EdgeCount;
    var ea, eb, ex := Edges(a)[..p], Edges(b)[..p], Edges(Xor(a, b))[..p];
    EdgeCountIs(a, p);
    EdgeCountIs(b, p);
    EdgeCountIs(Xor(a, b), p);
    both := seq(p, i requires 0 <= i < p => ea[i] && eb[i]);
    PopcountXor(ea, eb, ex, both);
    PopcountSub(ea, both);
    PopcountSub(eb, both);
    if Popcount(both) == Popcount(ea) {
      forall i: nat | i < p ensures Edges(a)[i] ==> Edges(b)[i] { assert ea[i] ==> both[i]; }
    }
    if forall i: nat | i < p :: Edges(b)[i] ==> Edges(a)[i] { assert both == eb; }
  }

  // As many as b has in one period of a, or one more, or one less; one less only if a ends where b does.
  lemma RunsNearRatio(x: Word, p: nat, a: Word, r: int, m: nat, q: nat, b: Word, s: int, n: nat)
    requires XorOf(x, p, a, r, m, q, b, s, n)
    ensures p <= 64 && Ratio(p, q) - 1 <= RunCount(x, p) <= Ratio(p, q) + 1
    ensures RunCount(x, p) == Ratio(p, q) - 1 ==> forall i: nat | i < p :: Edges(a)[i] ==> Edges(b)[i]
  {
    hide *;
    XorFacts(x, p, a, r, m, q, b, s, n);
    EdgesTwice(x, p);
    SingleEdgeCount(a, p, r, m, p);
    SingleEdgeCount(b, q, s, n, p);
    RatioSelf(p);
    var both := XorEdgeCount(a, b, p);
  }

  lemma RatioSelf(p: nat)
    ensures Ratio(p, p) == 1
  {
  }

  lemma Half(p: nat)
    requires Size(p) && p > 2
    ensures Size(p / 2) && p == 2 * (p / 2) && p / 2 < p <= 64
  {
  }

  lemma OneIn(a: seq<bool>, i: nat)
    requires i < |a| && a[i]
    ensures Popcount(a) >= 1
  {
    PopcountUpdate(a, i, false);
  }

  lemma StartIn(x: Word, p: nat, i: int)
    requires Size(p) && Periodic(x, p, 64) && Start(x, i)
    ensures 0 <= i % p < p <= 64 && RunStarts(x)[..p][i % p]
  {
    hide Start, RunStarts;
    StartBit(x, i % p);
    ModOfMod(i, p, p);
    EdgeSame(x, p, i, i % p);
  }

  lemma StartOf(x: Word, p: nat, i: nat)
    requires Size(p) && i < p && RunStarts(x)[..p][i]
    ensures p <= 64 && Start(x, i)
  {
    hide Start, RunStarts;
    StartBit(x, i);
  }

  // A word with one run in each period.
  lemma OneCount(x: Word, p: nat) returns (lo: int, n: nat)
    requires Size(p) && Periodic(x, p, 64) && p <= 64 && RunCount(x, p) == 1
    ensures Single(x, p, lo, n)
  {
    hide Periodic, At, RunStarts, Start, Popcount, RunAt, Single;
    lo := SomeOne(RunStarts(x)[..p]);
    StartOf(x, p, lo);
    n := RunHere(x, lo);
    forall i | lo < i < lo + p ensures !Start(x, i) {
      if Start(x, i) {
        StartIn(x, p, i);
        StartIn(x, p, lo);
        if lo % p == i % p { Close(lo, i, p); }
        ThreeOnes(RunStarts(x)[..p], lo % p, i % p, i % p);
      }
    }
    OneRun(x, p, lo, n);
  }

  lemma NonConstant(x: Word, p: nat)
    requires Size(p) && Periodic(x, p, 64) && x != ZERO && x != Not(ZERO)
    ensures p <= 64 && RunCount(x, p) >= 1
  {
    var i := Difference(x, ZERO);
    var j := Difference(x, Not(ZERO));
    hide Periodic, RunStarts, Start, Popcount;
    assert At(x, i + 64) && !At(x, j);
    if NoStart(x, j, i + 65) {
      ZeroStays(x, j, i + 65);
    } else {
      var w :| j < w < i + 65 && Start(x, w);
      StartIn(x, p, w);
      OneIn(RunStarts(x)[..p], w % p);
    }
  }

  // ----- The longer period is the period of the value -----

  lemma WidenPeriod(x: Word, h: nat)
    requires Size(h) && Size(2 * h) && Periodic(x, h, 2 * h) && Periodic(x, 2 * h, 64)
    ensures Periodic(x, h, 64)
  {
    forall i: nat | h <= i < 64 ensures Back(x, i, h) {
      var m := i % (2 * h);
      ModBit(x, 2 * h, i);
      if m >= h {
        ModPlus(i, 2 * h, 0 - h);
        ModBit(x, 2 * h, i - h);
        assert Back(x, m, h);
      } else {
        ModPlus(i, 2 * h, h);
        ModPeriods(i - h, 2 * h, 1);
        ModBit(x, 2 * h, i - h);
        assert Back(x, m + h, h);
      }
    }
  }

  lemma NotHalf(a: Word, p: nat, r: int, m: nat)
    requires Single(a, p, r, m) && p > 2
    ensures !Periodic(a, p / 2, 64)
  {
    Half(p);
    var h := p / 2;
    if Periodic(a, h, 64) {
      ModPeriods(r, h, 1);
      EdgeSame(a, h, r, r + h);
      Quotient(h, p, 0, h);
      Quotient(0, p, 0, 0);
      SingleEdges(a, p, r, m, r);
      SingleEdges(a, p, r, m, r + h);
    }
  }

  ghost predicate Smallest(x: Word, p: nat) {
    Size(p) && Periodic(x, p, 64) && (p == 2 || !Periodic(x, p / 2, p))
  }

  lemma PeriodIsSmallest(x: Word, p: nat, a: Word, r: int, m: nat, q: nat, b: Word, s: int, n: nat)
    requires XorOf(x, p, a, r, m, q, b, s, n) && !Logical(x, 64) && (q == p ==> p <= 64 && RunCount(x, p) == 2)
    ensures Smallest(x, p)
  {
    XorFacts(x, p, a, r, m, q, b, s, n);
    hide Periodic, Logical, RunCount, Single;
    if p > 2 {
      Half(p);
      var h := p / 2;
      if Periodic(x, h, p) {
        WidenPeriod(x, h);
        if q == p {
          CountDoubles(x, h, h);
          var lo, l := OneCount(x, h);
          SingleLogical(x, h, lo, l);
        } else {
          PeriodicUp(b, 64, q, h);
          XorPeriodic(x, b, h);
          XorBack(a, b);
          NotHalf(a, p, r, m);
        }
      }
    }
  }

  // ----- Three runs in a row -----

  lemma NotThree(a: Word, p: nat, r: int, m: nat, x: int, y: int, z: int)
    requires Single(a, p, r, m) && x < y < z < x + p
    ensures !(Edge(a, x) && Edge(a, y) && Edge(a, z))
  {
    hide Edge;
    SingleEdges(a, p, r, m, x);
    SingleEdges(a, p, r, m, y);
    SingleEdges(a, p, r, m, z);
    if (x - r) % p == (y - r) % p { Close(x - r, y - r, p); }
    if (y - r) % p == (z - r) % p { Close(y - r, z - r, p); }
    if (x - r) % p == (z - r) % p { Close(x - r, z - r, p); }
  }

  // Neither end of a touches the run.
  ghost predicate Clean(a: Word, lo: int, n: nat) {
    forall i | lo <= i <= lo + n :: !Edge(a, i)
  }

  lemma {:induction false} ConstantOn(a: Word, lo: int, n: nat, k: nat)
    requires Clean(a, lo, n) && k <= n + 1
    ensures forall i | lo - 1 <= i < lo + k :: At(a, i) == At(a, lo - 1)
    decreases k
  {
    hide At;
    if k > 0 {
      ConstantOn(a, lo, n, k - 1);
      assert !Edge(a, lo + k - 1);
    }
  }

  // Repeated every d bits, this run leaves a bitmask immediate.
  ghost predicate Works(x: Word, d: nat, lo: int, n: nat) {
    0 < n < d && forall c: Word | Single(c, d, lo, n) :: Logical(Xor(x, c), 64)
  }

  // b or its complement has this run.
  lemma RunOf(b: Word, q: nat, s: int, n: nat, lo: int, len: nat)
    requires Single(b, q, s, n) && RunAt(b, lo, len)
    ensures len == n && lo % q == s % q
  {
    hide At;
    SingleEdges(b, q, s, n, lo);
    Quotient(0, q, 0, 0);
    ModShift(lo - s, 0, s, q);
    if len > n {
      RunBit(b, q, s, n, lo, n);
    } else if len < n {
      RunBit(b, q, s, n, lo, len);
    }
  }

  lemma RunBit(b: Word, q: nat, s: int, n: nat, lo: int, j: nat)
    requires Single(b, q, s, n) && (lo - s) % q == 0 && j < q
    ensures At(b, lo + j) <==> j < n
  {
    hide At;
    Quotient(0, q, 0, 0);
    Quotient(j, q, 0, j);
    ModShift(lo - s, 0, j, q);
  }

  lemma CleanWorks(x: Word, p: nat, a: Word, r: int, m: nat, q: nat, b: Word, s: int, n: nat, lo: int, len: nat)
    requires XorOf(x, p, a, r, m, q, b, s, n) && RunAt(x, lo, len) && Clean(a, lo, len)
    ensures Works(x, q, lo, len)
  {
    XorFacts(x, p, a, r, m, q, b, s, n);
    hide Single, Logical, Periodic;
    ConstantOn(a, lo, len, len + 1);
    SingleLogical(a, p, r, m);
    SingleNot(b, q, s, n);
    var flip := At(a, lo - 1);
    var b' := if flip then Not(b) else b;
    assert RunAt(b', lo, len) by { RunThrough(a, b, lo, len, flip); }
    var s', n' := if flip then s + n else s, if flip then q - n else n;
    RunOf(b', q, s', n', lo, len);
    forall c: Word | Single(c, q, lo, len) ensures Logical(Xor(x, c), 64) {
      SingleUnique(c, b', q, lo, s', len);
      SingleNot(a, p, r, m);
      SingleLogical(Not(a), p, r + m, p - m);
      assert Xor(x, c) == if flip then Not(a) else a;
    }
  }

  lemma RunThrough(a: Word, b: Word, lo: int, len: nat, flip: bool)
    requires RunAt(Xor(a, b), lo, len) && forall i | lo - 1 <= i < lo + len + 1 :: At(a, i) == flip
    ensures RunAt(if flip then Not(b) else b, lo, len)
  {
    assert forall i: int :: At(Xor(a, b), i) == (At(a, i) != At(b, i)) && At(Not(b), i) == !At(b, i);
    hide At;
  }

  lemma OneOfThree(x: Word, p: nat, a: Word, r: int, m: nat, q: nat, b: Word, s: int, n: nat,
                   lo0: int, n0: nat, lo1: int, n1: nat, lo2: int, n2: nat)
    requires XorOf(x, p, a, r, m, q, b, s, n) && RunAt(x, lo0, n0) && RunAt(x, lo1, n1) && RunAt(x, lo2, n2)
    requires lo0 + n0 < lo1 && lo1 + n1 < lo2 && lo2 + n2 < lo0 + p
    ensures Works(x, q, lo0, n0) || Works(x, q, lo1, n1) || Works(x, q, lo2, n2)
  {
    hide Edge, RunAt, Works, Single;
    if Clean(a, lo0, n0) {
      CleanWorks(x, p, a, r, m, q, b, s, n, lo0, n0);
    } else if Clean(a, lo1, n1) {
      CleanWorks(x, p, a, r, m, q, b, s, n, lo1, n1);
    } else if Clean(a, lo2, n2) {
      CleanWorks(x, p, a, r, m, q, b, s, n, lo2, n2);
    } else {
      var e0 :| lo0 <= e0 <= lo0 + n0 && Edge(a, e0);
      var e1 :| lo1 <= e1 <= lo1 + n1 && Edge(a, e1);
      var e2 :| lo2 <= e2 <= lo2 + n2 && Edge(a, e2);
      NotThree(a, p, r, m, e0, e1, e2);
    }
  }

  // ----- Two runs -----

  // Then either is one of the two patterns.
  lemma OneOfTwo(x: Word, p: nat, lo0: int, n0: nat, lo1: int, n1: nat)
    requires Size(p) && Periodic(x, p, 64) && RunAt(x, lo0, n0) && RunAt(x, lo1, n1) && lo0 + n0 < lo1 && lo1 + n1 < lo0 + p
    requires NoStart(x, lo0, lo1) && NoStart(x, lo1, lo0 + p)
    ensures Works(x, p, lo0, n0)
  {
    hide At, Periodic, Logical;
    ZeroStays(x, lo0 + n0, lo1);
    ZeroStays(x, lo1 + n1, lo0 + p);
    forall c: Word | Single(c, p, lo0, n0) ensures Logical(Xor(x, c), 64) {
      assert Single(Xor(x, c), p, lo1, n1) by {
        forall i: int ensures At(Xor(x, c), i) <==> (i - lo1) % p < n1 { SecondRun(x, c, p, lo0, n0, lo1, n1, i); }
      }
      SingleLogical(Xor(x, c), p, lo1, n1);
    }
  }

  lemma SecondRun(x: Word, c: Word, p: nat, lo0: int, n0: nat, lo1: int, n1: nat, i: int)
    requires Size(p) && Periodic(x, p, 64) && Single(c, p, lo0, n0)
    requires lo0 + n0 < lo1 && 0 < n0 && 0 < n1 && lo1 + n1 < lo0 + p
    requires forall j | lo0 <= j < lo0 + p :: At(x, j) <==> j < lo0 + n0 || lo1 <= j < lo1 + n1
    ensures At(Xor(x, c), i) <==> (i - lo1) % p < n1
  {
    hide Periodic;
    var j := Into(lo0, p, i);
    IntoSame(lo0, p, i);
    AtSame(x, p, i, j);
    assert At(Xor(x, c), i) == (At(x, i) != At(c, i));
    hide At;
    assert At(c, i) <==> j < lo0 + n0;
    ModShift(i, j, -lo1, p);
    if j >= lo1 { Quotient(j - lo1, p, 0, j - lo1); } else { Quotient(j - lo1, p, -1, j - lo1 + p); }
  }

  // ----- Starts in one period -----

  ghost predicate NextStart(x: Word, lo: int, hi: int) {
    lo < hi && Start(x, hi) && NoStart(x, lo, hi)
  }

  lemma IntoStart(x: Word, p: nat, lo: int, i: nat)
    requires Size(p) && Periodic(x, p, 64) && i < p <= 64 && RunStarts(x)[..p][i]
    ensures Start(x, Into(lo, p, i)) && Into(lo, p, i) % p == i
  {
    hide Start, RunStarts;
    StartOf(x, p, i);
    IntoSame(lo, p, i);
    Quotient(i, p, 0, i);
    EdgeSame(x, p, i, Into(lo, p, i));
  }

  // With two runs a period there is a next one within the period ...
  lemma SecondStart(x: Word, p: nat, lo: int) returns (w: int)
    requires Size(p) && Periodic(x, p, 64) && p <= 64 && RunCount(x, p) >= 2
    ensures Start(x, w) && lo < w < lo + p
  {
    hide Periodic, Start, RunStarts, Popcount, At;
    var i := AnotherOne(RunStarts(x)[..p], lo % p, lo % p);
    IntoStart(x, p, lo, i);
    w := Into(lo, p, i);
  }

  // ... and with three, two more.
  lemma ThirdStart(x: Word, p: nat, lo0: int, lo1: int, lo2: int)
    requires Size(p) && Periodic(x, p, 64) && p <= 64 && RunCount(x, p) >= 3 && NextStart(x, lo0, lo1) && NextStart(x, lo1, lo2)
    ensures lo2 < lo0 + p
  {
    hide Periodic, Start, RunStarts, Popcount, At;
    var w0 := SecondStart(x, p, lo0);
    if lo0 % p == lo1 % p { Close(lo0, lo1, p); }
    var i := AnotherOne(RunStarts(x)[..p], lo0 % p, lo1 % p);
    IntoStart(x, p, lo0, i);
    var w := Into(lo0, p, i);
    assert w != lo0 && w != lo1;
  }

  lemma NoThirdStart(x: Word, p: nat, lo0: int, lo1: int)
    requires Size(p) && Periodic(x, p, 64) && p <= 64 && RunCount(x, p) == 2 && Start(x, lo0) && NextStart(x, lo0, lo1)
    ensures lo1 < lo0 + p && NoStart(x, lo1, lo0 + p)
  {
    hide Periodic, Start, RunStarts, Popcount, At;
    var w := SecondStart(x, p, lo0);
    StartIn(x, p, lo0);
    StartIn(x, p, lo1);
    if lo0 % p == lo1 % p { Close(lo0, lo1, p); }
    forall i | lo1 < i < lo0 + p ensures !Start(x, i) {
      if Start(x, i) {
        StartIn(x, p, i);
        if lo0 % p == i % p { Close(lo0, i, p); }
        if lo1 % p == i % p { Close(lo1, i, p); }
        ThreeOnes(RunStarts(x)[..p], lo0 % p, lo1 % p, i % p);
      }
    }
  }

  // ----- Three runs left of four -----

  // The word with bits r to r + n - 1 of every p set.
  function RunWord(p: nat, r: int, n: nat): Word
    requires 0 < p
  {
    seq(64, i => (i - r) % p < n)
  }

  lemma RunWordIs(p: nat, r: int, n: nat)
    requires Size(p) && 0 < n < p
    ensures Single(RunWord(p, r, n), p, r, n)
  {
    forall i: int ensures At(RunWord(p, r, n), i) <==> (i - r) % p < n {
      ModOfMod(i, p, 64);
      ModShift(i % 64, i, -r, p);
    }
  }

  // An end of a lies here or half a period on.
  predicate Killed(a: Word, h: nat, c: int) {
    Edge(a, c) || Edge(a, c + h)
  }

  lemma NotThreeKilled(a: Word, h: nat, r: int, m: nat, x: int, y: int, z: int)
    requires Single(a, 2 * h, r, m) && x < y < z < x + h
    ensures !(Killed(a, h, x) && Killed(a, h, y) && Killed(a, h, z))
  {
    hide Edge;
    NotThree(a, 2 * h, r, m, x, y, z);
    NotThree(a, 2 * h, r, m, x, y, z + h);
    NotThree(a, 2 * h, r, m, x, z, y + h);
    NotThree(a, 2 * h, r, m, x, y + h, z + h);
    NotThree(a, 2 * h, r, m, y, z, x + h);
    NotThree(a, 2 * h, r, m, y, x + h, z + h);
    NotThree(a, 2 * h, r, m, z, x + h, y + h);
    NotThree(a, 2 * h, r, m, x + h, y + h, z + h);
  }

  // Of four places in half a period two are untouched.
  lemma TwoLeft(a: Word, h: nat, r: int, m: nat, c0: int, c1: int, c2: int, c3: int) returns (u: int, v: int)
    requires Single(a, 2 * h, r, m) && c0 < c1 < c2 < c3 < c0 + h
    ensures u < v < u + h && u in {c0, c1, c2, c3} && v in {c0, c1, c2, c3} && !Killed(a, h, u) && !Killed(a, h, v)
  {
    hide Killed, Single;
    NotThreeKilled(a, h, r, m, c0, c1, c2);
    NotThreeKilled(a, h, r, m, c0, c1, c3);
    NotThreeKilled(a, h, r, m, c0, c2, c3);
    NotThreeKilled(a, h, r, m, c1, c2, c3);
    u := if !Killed(a, h, c0) then c0 else if !Killed(a, h, c1) then c1 else c2;
    v := if u != c2 && !Killed(a, h, c2) then c2 else if !Killed(a, h, c3) then c3 else c1;
  }

  lemma Untouched(a: Word, h: nat, c: int, i: int)
    requires Size(2 * h) && h > 0 && Periodic(a, 2 * h, 64) && !Killed(a, h, c) && i % h == c % h
    ensures !Edge(a, i)
  {
    hide Edge, Periodic;
    var k := i / h - c / h;
    assert h * k == i - c by { assert h * k == h * (i / h) - h * (c / h); }
    var e := k / 2;
    if k % 2 == 0 {
      assert 2 * h * e == h * k;
      ModPeriods(c, 2 * h, e);
      EdgeSame(a, 2 * h, i, c);
    } else {
      assert 2 * h * e == h * k - h;
      ModPeriods(c + h, 2 * h, e);
      EdgeSame(a, 2 * h, i, c + h);
    }
  }

  // Places where b ends: two runs of b at s and s + q.
  lemma FourEnds(b: Word, q: nat, s: int, n: nat, c: int)
    requires Single(b, q, s, n) && (c == s || c == s + n || c == s + q || c == s + q + n)
    ensures Edge(b, c)
  {
    SingleEdges(b, q, s, n, c);
    Quotient(0, q, 0, 0);
    Quotient(n, q, 0, n);
    ModPeriods(c - s, q, -1);
  }

  // If both ends of a fall on ends of b, the value has runs to spare: another pair of patterns, the
  // shorter one with half as many runs, gives it too.
  lemma Halved(x: Word, p: nat, a: Word, r: int, m: nat, q: nat, b: Word, s: int, n: nat)
    returns (a': Word, r': int, m': nat, b': Word, s': int, n': nat)
    requires XorOf(x, p, a, r, m, q, b, s, n) && p == 4 * q && RunCount(x, p) == 3
    requires forall i: nat | i < p :: Edges(a)[i] ==> Edges(b)[i]
    ensures XorOf(x, p, a', r', m', 2 * q, b', s', n')
  {
    XorFacts(x, p, a, r, m, q, b, s, n);
    var h := 2 * q;
    assert Size(h) && p == 2 * h;
    hide *;
    var u, v := TwoLeft(a, h, r, m, s, s + n, s + q, s + q + n);
    s', n' := u, v - u;
    b' := RunWord(h, u, v - u);
    RunWordIs(h, u, v - u);
    forall i: nat | i < p ensures Edges(b')[i] ==> Edges(x)[i] {
      EdgeBit(b', i);
      EdgeBit(x, i);
      if Edge(b', i) { StaysEdge(x, p, a, r, m, q, b, s, n, b', u, v, i); }
    }
    a' := Xor(x, b');
    LeftOver(x, p, h, b', u, v - u);
    XorBack(x, b');
    r', m' := OneCount(a', p);
    assert XorOf(x, p, a', r', m', h, b', s', n') by { IsXorOf(x, p, a', r', m', h, b', s', n'); }
  }

  lemma IsXorOf(x: Word, p: nat, a: Word, r: int, m: nat, q: nat, b: Word, s: int, n: nat)
    requires x == Xor(a, b) && Single(a, p, r, m) && Single(b, q, s, n) && q <= p
    ensures XorOf(x, p, a, r, m, q, b, s, n)
  {
  }

  lemma StaysEdge(x: Word, p: nat, a: Word, r: int, m: nat, q: nat, b: Word, s: int, n: nat, b': Word, u: int, v: int, i: int)
    requires XorOf(x, p, a, r, m, q, b, s, n) && p == 4 * q && Size(2 * q) && u < v < u + 2 * q && Single(b', 2 * q, u, v - u)
    requires u in {s, s + n, s + q, s + q + n} && v in {s, s + n, s + q, s + q + n}
    requires !Killed(a, 2 * q, u) && !Killed(a, 2 * q, v) && Edge(b', i)
    ensures Edge(x, i)
  {
    hide XorOf, Edge, At, Single, Periodic, Killed;
    XorFacts(x, p, a, r, m, q, b, s, n);
    SingleEdges(b', 2 * q, u, v - u, i);
    var c := if (i - u) % (2 * q) == 0 then u else v;
    Quotient(0, 2 * q, 0, 0);
    Quotient(v - u, 2 * q, 0, v - u);
    ModShift(i - u, c - u, u, 2 * q);
    Untouched(a, 2 * q, c, i);
    FourEnds(b, q, s, n, c);
    PeriodicUp(b, 64, q, 2 * q);
    EdgeSame(b, 2 * q, i, c);
    EdgesOfXor(a, b, i);
  }

  lemma LeftOver(x: Word, p: nat, h: nat, b: Word, u: int, w: nat)
    requires Size(h) && Size(p) && p == 2 * h && Periodic(x, p, 64) && RunCount(x, p) == 3 && Single(b, h, u, w)
    requires forall i: nat | i < p :: Edges(b)[i] ==> Edges(x)[i]
    ensures RunCount(Xor(x, b), p) == 1 && Periodic(Xor(x, b), p, 64)
  {
    hide Popcount, EdgeCount, RunCount, Edges, Periodic, Single, Ratio;
    SinglePeriodic(b, h, u, w);
    PeriodicUp(b, 64, h, p);
    XorPeriodic(x, b, p);
    EdgesTwice(x, p);
    EdgesTwice(Xor(x, b), p);
    SingleEdgeCount(b, h, u, w, p);
    RatioTwo(h);
    var both := XorEdgeCount(x, b, p);
  }

  lemma RatioTwo(h: nat)
    requires h > 0
    ensures Ratio(2 * h, h) == 2
  {
  }
}
