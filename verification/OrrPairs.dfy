/** Why the greedy decomposition finds a pair of bitmask immediates whenever there is one: if
    v == a | b, the first run of v repeated as often as v allows leaves only bits that the next
    run, repeated the same way, covers. Everything happens inside one element of the longer period,
    because bit 0 of v is clear. */
module OrrPairs {
  import opened Words
  import opened LogicalImm

  // ----- Positions modulo an element size -----

  predicate Size(p: nat) {
    ElementSize(p, 64)
  }

  lemma Product(p: nat, e: int)
    requires 0 < p
    ensures e >= 1 ==> p * e >= p
    ensures e <= -1 ==> p * e <= 0 - p
  {
  }

  lemma Quotient(i: int, p: nat, k: int, m: nat)
    requires 0 < p && i == p * k + m && m < p
    ensures i % p == m
  {
    var e := i / p - k;
    assert p * e == m - i % p by { assert i == p * (i / p) + i % p; assert p * (i / p) - p * k == p * e; }
    Product(p, e);
  }

  lemma HalfQuotient(i: nat, h: nat, k: int, m: nat)
    requires h > 0 && i == h * (2 * k) + m && m < 2 * h
    ensures m % h == i % h
  {
    if m < h {
      Quotient(m, h, 0, m);
      Quotient(i, h, 2 * k, m);
    } else {
      assert h * (2 * k + 1) == h * (2 * k) + h;
      Quotient(m, h, 1, m - h);
      Quotient(i, h, 2 * k + 1, m - h);
    }
  }

  lemma Double(h: nat, k: int)
    ensures 2 * h * k == h * (2 * k)
  {
  }

  lemma ModHalf(i: nat, h: nat)
    requires h > 0
    ensures i % (2 * h) % h == i % h
  {
    var p := 2 * h;
    var k, m := i / p, i % p;
    assert i == p * k + m;
    Double(h, k);
    HalfQuotient(i, h, k, m);
  }

  // Moving within one element.
  lemma ShiftMod(i: nat, d: nat, t: int)
    requires d > 0 && 0 <= i % d + t < d
    ensures i + t >= 0 && (i + t) % d == i % d + t
  {
    assert i == d * (i / d) + i % d;
    Product(d, i / d);
    Quotient(i + t, d, i / d, i % d + t);
  }

  lemma ModBelow(i: nat, d: nat)
    requires d > 0
    ensures i % d < d
  {
  }

  lemma ModAtMost(i: nat, p: nat)
    requires p > 0
    ensures i % p <= i
  {
    assert i == p * (i / p) + i % p;
    Product(p, i / p);
  }

  lemma ModDivides(i: nat, q: nat, p: nat)
    requires Size(q) && Size(p) && q <= p
    ensures i % p % q == i % q && i % p <= i
  {
    ModAtMost(i, p);
    if q < p {
      ModHalf(i, p / 2);
      ModDivides(i % p, q, p / 2);
      ModDivides(i, q, p / 2);
    } else {
      Quotient(i % p, p, 0, i % p);
    }
  }

  lemma ModStep(i: nat, p: nat)
    requires 0 < p <= i
    ensures (i - p) % p == i % p
  {
    assert i == p * (i / p) + i % p;
    assert p * (i / p - 1) == p * (i / p) - p;
    Quotient(i - p, p, i / p - 1, i % p);
  }

  lemma {:induction false} ModBit(x: Word, p: nat, i: nat)
    requires Size(p) && Periodic(x, p, 64) && i < 64
    ensures i % p < 64 && x[i] == x[i % p]
  {
    if i >= p {
      assert Back(x, i, p);
      ModBit(x, p, i - p);
      ModStep(i, p);
    }
  }

  lemma SameBit(x: Word, p: nat, i: nat, j: nat)
    requires Size(p) && Periodic(x, p, 64) && i < 64 && j < 64 && i % p == j % p
    ensures x[i] == x[j]
  {
    ModBit(x, p, i);
    ModBit(x, p, j);
  }

  // ----- A span repeated -----

  predicate Same(d: nat, i: nat, j: nat)
    requires d > 0
  {
    i % d == j % d
  }

  // Some position of [lo, hi) is a whole number of periods from i.
  predicate Touches(lo: nat, hi: nat, d: nat, i: nat)
    requires d > 0
  {
    exists j: nat | lo <= j < hi :: Same(d, j, i)
  }

  // Every copy of [lo, hi) at period d stays within v.
  predicate Repeats(v: Word, lo: nat, hi: nat, d: nat)
    requires d > 0
  {
    forall i: nat | i < 64 && Touches(lo, hi, d, i) :: v[i]
  }

  // x is [lo, hi) repeated at the smallest period at which the copies stay within v.
  ghost predicate Replica(x: Word, v: Word, lo: nat, hi: nat, p: nat) {
    && Size(p) && lo < hi <= 64 && Periodic(x, p, 64)
    && (forall i: nat | lo <= i < hi :: x[i])
    && (forall i: nat | i < 64 && x[i] :: v[i] && Touches(lo, hi, p, i))
    && (forall d: nat | Size(d) && Repeats(v, lo, hi, d) :: p <= d)
  }

  // The replica covers whatever is a whole number of admissible periods from the span.
  lemma ReplicaCovers(x: Word, v: Word, lo: nat, hi: nat, p: nat, d: nat, i: nat, j: nat)
    requires Replica(x, v, lo, hi, p) && Size(d) && Repeats(v, lo, hi, d)
    requires lo <= j < hi && i < 64 && i % d == j % d
    ensures x[i]
  {
    ModDivides(i, p, d);
    ModDivides(j, p, d);
    SameBit(x, p, i, j);
  }

  // ----- One run per element -----

  // x repeats [s, s + n) at period d, and bit 0 of every element is clear.
  ghost predicate Runs(x: Word, d: nat, n: nat, s: nat) {
    && Size(d) && 0 < s && 0 < n && s + n <= d && Periodic(x, d, 64)
    && forall i: nat | i < d :: x[i] == (s <= i < s + n)
  }

  lemma PatternRuns(x: Word, d: nat, n: nat, r: nat)
    requires IsPattern(x, 64, d, n, r) && !x[0]
    ensures Runs(x, d, n, r)
  {
  }

  lemma RunsBit(x: Word, d: nat, n: nat, s: nat, i: nat)
    requires Runs(x, d, n, s) && i < 64
    ensures x[i] <==> s <= i % d < s + n
  {
    ModBit(x, d, i);
    assert i % d < d;
  }

  // Positions of one element are counted without wrapping.
  lemma SameElement(d: nat, i: nat, j: nat)
    requires Size(d) && i <= j && forall k: nat | i < k <= j :: k % d != 0
    ensures j % d == i % d + (j - i)
    decreases j - i
  {
    if i < j {
      SameElement(d, i, j - 1);
      NextMod(d, j);
    }
  }

  lemma NextMod(d: nat, j: nat)
    requires 0 < d && 0 < j && j % d != 0
    ensures j % d == (j - 1) % d + 1
  {
    assert j == d * (j / d) + j % d;
    Quotient(j - 1, d, j / d, j % d - 1);
  }

  // A stretch of ones lies in one element ...
  lemma OneElement(v: Word, d: nat, i: nat, j: nat)
    requires Size(d) && Periodic(v, d, 64) && !v[0] && i <= j < 64 && forall k: nat | i <= k <= j :: v[k]
    ensures j % d == i % d + (j - i)
  {
    forall k: nat | i < k <= j ensures k % d != 0 { ModBit(v, d, k); }
    SameElement(d, i, j);
  }

  // ----- The greedy choice -----

  // lo is the lowest bit of w, and [lo, hi) the rest of its run in v.
  ghost predicate Lowest(v: Word, w: Word, lo: nat, hi: nat) {
    && lo < hi <= 64 && w[lo] && (forall i: nat | i < lo :: !w[i])
    && (forall i: nat | lo <= i < hi :: v[i]) && (hi < 64 ==> !v[hi])
  }

  ghost predicate Inside(x: Word, v: Word) {
    forall i: nat | i < 64 && x[i] :: v[i]
  }

  lemma RepeatsIn(v: Word, x: Word, lo: nat, hi: nat, d: nat)
    requires Size(d) && Periodic(x, d, 64) && Inside(x, v) && lo < hi <= 64 && forall i: nat | lo <= i < hi :: x[i]
    ensures Repeats(v, lo, hi, d)
  {
    forall i: nat | i < 64 && Touches(lo, hi, d, i) ensures v[i] {
      var j: nat :| lo <= j < hi && Same(d, j, i);
      SameBit(x, d, i, j);
    }
  }

  // A bit below the lowest one cannot be reached by whole periods.
  lemma LowestSmall(v: Word, w: Word, lo: nat, hi: nat, d: nat)
    requires Lowest(v, w, lo, hi) && Size(d) && Periodic(w, d, 64)
    ensures lo < d
  {
    ModBit(w, d, lo);
    assert lo % d < d;
    ModAtMost(lo, d);
  }

  // If what is left lies in x and repeats with it, the tail of x's first run is enough.
  lemma TailCovers(v: Word, x: Word, d: nat, n: nat, s: nat, rest: Word, lo: nat, hi: nat, y: Word, p: nat)
    requires Runs(x, d, n, s) && Inside(x, v) && Inside(rest, x) && Periodic(rest, d, 64)
    requires Lowest(v, rest, lo, hi) && Replica(y, v, lo, hi, p) && Repeats(v, lo, hi, d)
    ensures Inside(rest, y)
  {
    hide Repeats, Replica, Touches;
    LowestSmall(v, rest, lo, hi, d);
    assert x[lo] && s <= lo < s + n;
    assert hi < 64 ==> !x[hi];
    forall t: nat | t < 64 && rest[t] ensures y[t] {
      var j := t % d;
      ModBit(rest, d, t);
      assert x[j] && lo <= j < s + n;
      ModDivides(t, d, d);
      ReplicaCovers(y, v, lo, hi, p, d, t, j);
    }
  }

  // v is covered by the two patterns; q divides p.
  ghost predicate Pair(v: Word, a: Word, p: nat, m: nat, r: nat, b: Word, q: nat, n: nat, s: nat) {
    && !v[0] && Runs(a, p, m, r) && Runs(b, q, n, s) && q <= p
    && Inside(a, v) && Inside(b, v) && forall i: nat | i < 64 && v[i] :: a[i] || b[i]
  }

  lemma PairPeriodic(v: Word, a: Word, p: nat, m: nat, r: nat, b: Word, q: nat, n: nat, s: nat)
    requires Pair(v, a, p, m, r, b, q, n, s)
    ensures Periodic(v, p, 64)
  {
    PeriodicUp(b, 64, q, p);
    forall i: nat | p <= i < 64 ensures Back(v, i, p) { assert Back(a, i, p) && Back(b, i, p); }
  }

  lemma RestPeriodic(v: Word, x: Word, rest: Word, p: nat, d: nat)
    requires Size(d) && Size(p) && p <= d && Periodic(v, d, 64) && Periodic(x, p, 64)
    requires forall i: nat | i < 64 :: rest[i] == (v[i] && !x[i])
    ensures Periodic(rest, d, 64)
  {
    PeriodicUp(x, 64, p, d);
    forall i: nat | d <= i < 64 ensures Back(rest, i, d) { assert Back(v, i, d) && Back(x, i, d); }
  }

  // The first run is a run of b: its replica is all of b, and the tail of a's run does the rest.
  lemma FirstIsShort(v: Word, a: Word, p: nat, m: nat, r: nat, b: Word, q: nat, n: nat, s: nat,
                     x1: Word, lo1: nat, hi1: nat, p1: nat, rest: Word, x2: Word, lo2: nat, hi2: nat, p2: nat)
    requires Pair(v, a, p, m, r, b, q, n, s)
    requires Lowest(v, v, lo1, hi1) && Replica(x1, v, lo1, hi1, p1)
    requires forall i: nat | i < 64 :: rest[i] == (v[i] && !x1[i])
    requires Lowest(v, rest, lo2, hi2) && Replica(x2, v, lo2, hi2, p2)
    requires forall i: nat | lo1 <= i < hi1 :: b[i]
    ensures Inside(rest, x2)
  {
    hide Repeats, Touches;
    RepeatsIn(v, b, lo1, hi1, q);
    PairPeriodic(v, a, p, m, r, b, q, n, s);
    assert lo1 == s by { assert b[s] && b[lo1]; }
    assert hi1 < 64 ==> !b[hi1];
    assert Inside(rest, a) by {
      forall i: nat | i < 64 && b[i] ensures x1[i] {
        RunsBit(b, q, n, s, i);
        ModDivides(i, q, q);
        ReplicaCovers(x1, v, lo1, hi1, p1, q, i, i % q);
      }
    }
    RestPeriodic(v, x1, rest, p1, p);
    RepeatsIn(v, v, lo2, hi2, p);
    TailCovers(v, a, p, m, r, rest, lo2, hi2, x2, p2);
  }

  // ----- The first run holds a bit of a alone -----

  // Then a's only run within the first element is part of it, so the replica contains a ...
  ghost predicate HoldsA(v: Word, a: Word, p: nat, m: nat, r: nat, lo: nat, hi: nat) {
    Runs(a, p, m, r) && Inside(a, v) && Lowest(v, v, lo, hi) && lo <= r && r + m <= hi
  }

  lemma FirstHoldsA(v: Word, a: Word, p: nat, m: nat, r: nat, b: Word, q: nat, n: nat, s: nat, lo: nat, hi: nat, c: nat)
    requires Pair(v, a, p, m, r, b, q, n, s) && Lowest(v, v, lo, hi) && lo <= c < hi && !b[c]
    ensures HoldsA(v, a, p, m, r, lo, hi)
  {
    PairPeriodic(v, a, p, m, r, b, q, n, s);
    LowestSmall(v, v, lo, hi, p);
    OneElement(v, p, lo, c);
    Small(lo, p);
    assert c % p == c && c < p;
    assert a[c] && a[r];
    assert hi < 64 ==> !a[hi];
  }

  lemma Small(i: nat, p: nat)
    requires i < p
    ensures i % p == i
  {
    Quotient(i, p, 0, i);
  }

  lemma ReplicaHasA(v: Word, a: Word, p: nat, m: nat, r: nat, lo: nat, hi: nat, x: Word, p1: nat)
    requires HoldsA(v, a, p, m, r, lo, hi) && Replica(x, v, lo, hi, p1) && Repeats(v, lo, hi, p)
    ensures Inside(a, x)
  {
    hide Repeats, Replica, Touches;
    forall i: nat | i < 64 && a[i] ensures x[i] {
      RunsBit(a, p, m, r, i);
      ModDivides(i, p, p);
      ReplicaCovers(x, v, lo, hi, p1, p, i, i % p);
    }
  }

  // ... and so is every stretch of ones of v that holds a bit of a.
  lemma StretchInReplica(v: Word, a: Word, p: nat, m: nat, r: nat, lo: nat, hi: nat, x: Word, p1: nat, i: nat, j: nat, c: nat, e: nat)
    requires HoldsA(v, a, p, m, r, lo, hi) && Replica(x, v, lo, hi, p1) && p1 <= p && Periodic(v, p, 64) && !v[0]
    requires i <= c <= j < 64 && a[c] && i <= e <= j && forall k: nat | i <= k <= j :: v[k]
    ensures x[e]
  {
    hide Repeats, Touches;
    OneElement(v, p, i, j);
    OneElement(v, p, i, c);
    OneElement(v, p, i, e);
    RunsBit(a, p, m, r, c);
    var i', c', e' := i % p, c % p, e % p;
    forall k: nat | i' <= k <= i' + (j - i) ensures k < 64 && v[k] {
      OneElement(v, p, i, i + (k - i'));
      ModBit(v, p, i + (k - i'));
    }
    assert lo <= c' < hi;
    assert lo <= e' < hi by { NoGap(v, lo, hi, i', i' + (j - i), c', e'); }
    ModDivides(e, p1, p);
    SameBit(x, p1, e, e');
  }

  // Ones that meet a run of v stay within it.
  lemma NoGap(v: Word, lo: nat, hi: nat, i: nat, j: nat, c: nat, e: nat)
    requires Lowest(v, v, lo, hi) && i <= c <= j && i <= e <= j < 64 && lo <= c < hi
    requires forall k: nat | i <= k <= j :: v[k]
    ensures lo <= e < hi
  {
    assert v[e] && (hi < 64 ==> !v[hi]);
  }

  // The run of what is left holds no bit of a, so it is b's.
  lemma SecondIsB(v: Word, a: Word, p: nat, m: nat, r: nat, b: Word, q: nat, n: nat, s: nat,
                  x1: Word, lo1: nat, hi1: nat, p1: nat, lo2: nat, hi2: nat)
    requires Pair(v, a, p, m, r, b, q, n, s)
    requires HoldsA(v, a, p, m, r, lo1, hi1) && Replica(x1, v, lo1, hi1, p1) && p1 <= p
    requires lo2 < hi2 <= 64 && !x1[lo2] && forall i: nat | lo2 <= i < hi2 :: v[i]
    ensures forall i: nat | lo2 <= i < hi2 :: b[i]
  {
    hide Repeats, Touches, Replica;
    PairPeriodic(v, a, p, m, r, b, q, n, s);
    forall i: nat | lo2 <= i < hi2 ensures b[i] {
      if a[i] { StretchInReplica(v, a, p, m, r, lo1, hi1, x1, p1, lo2, i, i, lo2); }
    }
  }

  lemma BlockEnd(h: nat, d: nat)
    requires Size(d) && h < 64
    ensures h - h % d + d <= 64
  {
    if d == 2 {} else if d == 4 {} else if d == 8 {} else if d == 16 {} else if d == 32 {} else {}
  }

  // The copy of the span through h, position by position.
  lemma CopyThrough(x: Word, v: Word, lo: nat, hi: nat, p: nat, h: nat, j: nat, k: nat)
    requires Replica(x, v, lo, hi, p) && !v[0] && h < 64 && lo <= j < hi && j % p == h % p && lo <= k < hi
    ensures 0 <= h + k - j < 64 && (h + k - j) % p == k % p && x[h + k - j] && v[h + k - j]
  {
    hide Repeats, Touches;
    assert !x[0];
    OneElement(x, p, lo, j);
    OneElement(x, p, lo, k);
    BlockEnd(h, p);
    ModBelow(k, p);
    ShiftMod(h, p, k - j);
    SameBit(x, p, h + k - j, k);
  }

  // A copy at a longer period than b's carries a's bit along, so it stays clear of b's own runs.
  lemma CopyAvoids(v: Word, a: Word, p: nat, m: nat, r: nat, b: Word, q: nat, n: nat, s: nat,
                   x1: Word, lo1: nat, hi1: nat, p1: nat, c: nat, h: nat, l: nat)
    requires Pair(v, a, p, m, r, b, q, n, s)
    requires HoldsA(v, a, p, m, r, lo1, hi1) && Replica(x1, v, lo1, hi1, p1) && q <= p1 <= p
    requires lo1 <= c < hi1 && !b[c]
    requires h <= l < 64 && !x1[l] && forall i: nat | h <= i <= l :: v[i]
    ensures !x1[h]
  {
    if x1[h] {
      assert Touches(lo1, hi1, p1, h);
      var j: nat :| lo1 <= j < hi1 && Same(p1, j, h);
      hide Repeats, Touches, Replica;
      CopyThrough(x1, v, lo1, hi1, p1, h, j, c);
      var e := h + c - j;
      ModDivides(e, q, p1);
      ModDivides(c, q, p1);
      SameBit(b, q, e, c);
      assert a[e];
      var i0, j0 := if e < h then e else h, if e < l then l else e;
      forall k: nat | i0 <= k <= j0 ensures v[k] {
        if !(h <= k <= l) { CopyThrough(x1, v, lo1, hi1, p1, h, j, j + k - h); }
      }
      PairPeriodic(v, a, p, m, r, b, q, n, s);
      StretchInReplica(v, a, p, m, r, lo1, hi1, x1, p1, i0, j0, e, l);
    }
  }

  // ... which makes what is left begin with a whole run of b.
  lemma SecondIsWhole(v: Word, a: Word, p: nat, m: nat, r: nat, b: Word, q: nat, n: nat, s: nat,
                      x1: Word, lo1: nat, hi1: nat, p1: nat, c: nat, rest: Word, lo2: nat, hi2: nat)
    requires Pair(v, a, p, m, r, b, q, n, s)
    requires HoldsA(v, a, p, m, r, lo1, hi1) && Replica(x1, v, lo1, hi1, p1) && q <= p1 <= p
    requires lo1 <= c < hi1 && !b[c]
    requires forall i: nat | i < 64 :: rest[i] == (v[i] && !x1[i])
    requires Lowest(v, rest, lo2, hi2) && b[lo2]
    ensures lo2 % q == s && lo2 + n <= hi2
  {
    hide Replica, Touches, Repeats;
    RunsBit(b, q, n, s, lo2);
    var h := lo2 - (lo2 % q - s);
    BlockEnd(lo2, q);
    forall i: nat | h <= i < h + n ensures i < 64 && i % q == s + (i - h) && b[i] {
      ShiftMod(lo2, q, i - lo2);
      RunsBit(b, q, n, s, i);
    }
    CopyAvoids(v, a, p, m, r, b, q, n, s, x1, lo1, hi1, p1, c, h, lo2);
    assert b[h] && rest[h];
    assert hi2 < 64 ==> !b[hi2];
  }

  lemma FirstHasA(v: Word, a: Word, p: nat, m: nat, r: nat, b: Word, q: nat, n: nat, s: nat,
                  x1: Word, lo1: nat, hi1: nat, p1: nat, c: nat, rest: Word, x2: Word, lo2: nat, hi2: nat, p2: nat)
    requires Pair(v, a, p, m, r, b, q, n, s)
    requires Lowest(v, v, lo1, hi1) && Replica(x1, v, lo1, hi1, p1) && lo1 <= c < hi1 && !b[c]
    requires forall i: nat | i < 64 :: rest[i] == (v[i] && !x1[i])
    requires Lowest(v, rest, lo2, hi2) && Replica(x2, v, lo2, hi2, p2)
    ensures Inside(rest, x2)
  {
    hide Repeats, Touches;
    PairPeriodic(v, a, p, m, r, b, q, n, s);
    RepeatsIn(v, v, lo1, hi1, p);
    FirstHoldsA(v, a, p, m, r, b, q, n, s, lo1, hi1, c);
    ReplicaHasA(v, a, p, m, r, lo1, hi1, x1, p1);
    SecondIsB(v, a, p, m, r, b, q, n, s, x1, lo1, hi1, p1, lo2, hi2);
    RepeatsIn(v, b, lo2, hi2, q);
    assert Inside(rest, b);
    if p1 <= q {
      assert forall i: nat | i < 64 :: rest[i] == (b[i] && !x1[i]);
      RestPeriodic(b, x1, rest, p1, q);
      TailCovers(v, b, q, n, s, rest, lo2, hi2, x2, p2);
    } else {
      SecondIsWhole(v, a, p, m, r, b, q, n, s, x1, lo1, hi1, p1, c, rest, lo2, hi2);
      hide Replica;
      forall t: nat | t < 64 && rest[t] ensures x2[t] {
        RunsBit(b, q, n, s, t);
        var j := lo2 + (t % q - s);
        ShiftMod(lo2, q, j - lo2);
        ReplicaCovers(x2, v, lo2, hi2, p2, q, t, j);
      }
    }
  }

  // The main result: two greedy replicas cover whatever two patterns cover.
  lemma GreedyCovers(v: Word, a: Word, p: nat, m: nat, r: nat, b: Word, q: nat, n: nat, s: nat,
                     x1: Word, lo1: nat, hi1: nat, p1: nat, rest: Word, x2: Word, lo2: nat, hi2: nat, p2: nat)
    requires Pair(v, a, p, m, r, b, q, n, s)
    requires Lowest(v, v, lo1, hi1) && Replica(x1, v, lo1, hi1, p1)
    requires forall i: nat | i < 64 :: rest[i] == (v[i] && !x1[i])
    requires Lowest(v, rest, lo2, hi2) && Replica(x2, v, lo2, hi2, p2)
    ensures Inside(rest, x2)
  {
    hide *;
    if c: nat :| lo1 <= c < hi1 <= 64 && !b[c] {
      FirstHasA(v, a, p, m, r, b, q, n, s, x1, lo1, hi1, p1, c, rest, x2, lo2, hi2, p2);
    } else {
      RunWithin(v, lo1, hi1);
      FirstIsShort(v, a, p, m, r, b, q, n, s, x1, lo1, hi1, p1, rest, x2, lo2, hi2, p2);
    }
  }

  lemma RunWithin(v: Word, lo: nat, hi: nat)
    requires Lowest(v, v, lo, hi)
    ensures hi <= 64
  {
  }
}
