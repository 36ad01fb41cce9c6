/** Runs of ones in a word read round and round: where they start, how many there are, and the words
    that repeat a single run. */
module CircularRuns {
  import opened Words
  import opened LogicalImm
  import opened OrrPairs

  // ----- Residues -----

  lemma ModPlus(i: int, p: nat, t: int)
    requires 0 < p && 0 <= i % p + t < p
    ensures (i + t) % p == i % p + t
  {
    Quotient(i + t, p, i / p, i % p + t);
  }

  lemma ModBack(i: int, p: nat)
    requires 0 < p
    ensures (i - 1) % p == if i % p == 0 then p - 1 else i % p - 1
  {
    if i % p == 0 {
      assert p * (i / p - 1) == p * (i / p) - p;
      Quotient(i - 1, p, i / p - 1, p - 1);
    } else {
      ModPlus(i, p, -1);
    }
  }

  lemma ModPeriods(i: int, p: nat, k: int)
    requires 0 < p
    ensures (i + p * k) % p == i % p
  {
    assert p * (i / p + k) == p * (i / p) + p * k;
    Quotient(i + p * k, p, i / p + k, i % p);
  }

  // Moving two equal residues by the same amount.
  lemma ModShift(i: int, j: int, t: int, p: nat)
    requires 0 < p && i % p == j % p
    ensures (i + t) % p == (j + t) % p
  {
    var k := j / p - i / p;
    assert p * k == j - i by { assert p * k == p * (j / p) - p * (i / p); }
    ModPeriods(i + t, p, k);
  }

  lemma Close(i: int, j: int, p: nat)
    requires 0 < p && i % p == j % p && i <= j < i + p
    ensures i == j
  {
    var k := j / p - i / p;
    assert p * k == j - i by { assert p * k == p * (j / p) - p * (i / p); }
    Product(p, k);
  }

  lemma ModHalves(i: int, h: nat)
    requires h > 0
    ensures i % (2 * h) % h == i % h
  {
    var k, m := i / (2 * h), i % (2 * h);
    assert h * (2 * k) == 2 * h * k;
    ModPeriods(m, h, 2 * k);
  }

  lemma {:induction false} ModOfMod(i: int, q: nat, p: nat)
    requires Size(q) && Size(p) && q <= p
    ensures i % p % q == i % q
    decreases p
  {
    if q == p {
      Quotient(i % p, p, 0, i % p);
    } else {
      ModHalves(i, p / 2);
      ModOfMod(i % p, q, p / 2);
      ModOfMod(i, q, p / 2);
    }
  }

  // The place of i in the window of p that begins at lo.
  function Into(lo: int, p: nat, i: int): (w: int)
    requires 0 < p
    ensures lo <= w < lo + p
  {
    lo + (i - lo) % p
  }

  lemma IntoSame(lo: int, p: nat, i: int)
    requires 0 < p
    ensures Into(lo, p, i) % p == i % p
  {
    var k := (i - lo) / p;
    ModPeriods(Into(lo, p, i), p, k);
  }

  // ----- Bits round and round -----

  function At(x: Word, i: int): bool { x[i % 64] }

  predicate Edge(x: Word, i: int) { At(x, i) != At(x, i - 1) }

  predicate Start(x: Word, i: int) { At(x, i) && !At(x, i - 1) }

  lemma AtSame(x: Word, p: nat, i: int, j: int)
    requires Size(p) && Periodic(x, p, 64) && i % p == j % p
    ensures At(x, i) == At(x, j)
  {
    ModOfMod(i, p, 64);
    ModOfMod(j, p, 64);
    SameBit(x, p, i % 64, j % 64);
  }

  lemma EdgeSame(x: Word, p: nat, i: int, j: int)
    requires Size(p) && Periodic(x, p, 64) && i % p == j % p
    ensures Edge(x, i) == Edge(x, j) && Start(x, i) == Start(x, j)
  {
    hide At;
    AtSame(x, p, i, j);
    ModShift(i, j, -1, p);
    AtSame(x, p, i - 1, j - 1);
  }

  lemma EdgesOfXor(a: Word, b: Word, i: int)
    ensures Edge(Xor(a, b), i) <==> Edge(a, i) != Edge(b, i)
  {
  }

  // ----- One run, repeated -----

  // Bits r to r + n - 1 of every p.
  ghost predicate Single(x: Word, p: nat, r: int, n: nat) {
    Size(p) && 0 < n < p && forall i: int :: At(x, i) <==> (i - r) % p < n
  }

  lemma SinglePeriodic(x: Word, p: nat, r: int, n: nat)
    requires Single(x, p, r, n)
    ensures Periodic(x, p, 64)
  {
    forall i: nat | p <= i < 64 ensures Back(x, i, p) {
      ModPeriods(i - r, p, -1);
      assert At(x, i) == At(x, i - p);
    }
  }

  lemma SingleLogical(x: Word, p: nat, r: int, n: nat)
    requires Single(x, p, r, n)
    ensures Logical(x, 64)
  {
    SinglePeriodic(x, p, r, n);
    var s := r % p;
    forall i | 0 <= i < p ensures x[i] == InRun(p, n, s, i) {
      assert x[i] == At(x, i);
      assert r % p == s % p by { Quotient(s, p, 0, s); }
      ModShift(-r, -s, i, p) by { NegSame(r, s, p); }
      if i >= s { Quotient(i - s, p, 0, i - s); } else { Quotient(i - s, p, -1, i - s + p); }
    }
    assert IsPattern(x, 64, p, n, s);
  }

  lemma NegSame(r: int, s: int, p: nat)
    requires 0 < p && r % p == s % p
    ensures (-r) % p == (-s) % p
  {
    var k := r / p - s / p;
    assert p * k == r - s by { assert p * k == p * (r / p) - p * (s / p); }
    ModPeriods(-r, p, k);
  }

  lemma PatternSingle(x: Word, p: nat, n: nat, r: nat)
    requires IsPattern(x, 64, p, n, r)
    ensures Single(x, p, r, n)
  {
    forall i: int ensures At(x, i) <==> (i - r) % p < n {
      var m := i % p;
      ModOfMod(i, p, 64);
      ModBit(x, p, i % 64);
      Quotient(m, p, 0, m);
      ModShift(i, m, 0 - r, p);
      if m >= r { Quotient(m - r, p, 0, m - r); } else { Quotient(m - r, p, -1, m - r + p); }
    }
  }

  lemma SingleEdges(x: Word, p: nat, r: int, n: nat, i: int)
    requires Single(x, p, r, n)
    ensures Edge(x, i) <==> (i - r) % p == 0 || (i - r) % p == n
    ensures Start(x, i) <==> (i - r) % p == 0
  {
    hide At;
    ModBack(i - r, p);
    assert At(x, i - 1) <==> (i - 1 - r) % p < n;
  }

  lemma SingleNot(x: Word, p: nat, r: int, n: nat)
    requires Single(x, p, r, n)
    ensures Single(Not(x), p, r + n, p - n)
  {
    forall i: int ensures At(Not(x), i) <==> (i - (r + n)) % p < p - n {
      var j := (i - r) % p;
      assert At(x, i) <==> j < n;
      if j >= n {
        ModPlus(i - r, p, 0 - n);
      } else {
        ModPeriods(i - r, p, 1);
        assert i - r - n == p * ((i - r) / p - 1) + (j - n + p) by { assert p * ((i - r) / p - 1) == p * ((i - r) / p) - p; }
        Quotient(i - r - n, p, (i - r) / p - 1, j - n + p);
      }
    }
  }

  // A run may be counted from any of its copies.
  lemma SingleUnique(x: Word, y: Word, p: nat, r: int, s: int, n: nat)
    requires Single(x, p, r, n) && Single(y, p, s, n) && r % p == s % p
    ensures x == y
  {
    NegSame(r, s, p);
    forall i | 0 <= i < 64 ensures x[i] == y[i] {
      ModShift(-r, -s, i, p);
      assert x[i] == At(x, i) && y[i] == At(y, i);
    }
  }

  // ----- Runs of a word -----

  ghost predicate RunAt(x: Word, lo: int, n: nat) {
    0 < n && !At(x, lo - 1) && (forall i | lo <= i < lo + n :: At(x, i)) && !At(x, lo + n)
  }

  ghost predicate NoStart(x: Word, lo: int, hi: int) {
    forall i | lo < i < hi :: !Start(x, i)
  }

  lemma {:induction false} ZeroStays(x: Word, lo: int, hi: int)
    requires lo < hi && !At(x, lo) && NoStart(x, lo, hi)
    ensures forall i | lo <= i < hi :: !At(x, i)
    decreases hi - lo
  {
    hide At;
    if lo + 1 < hi {
      assert !Start(x, lo + 1);
      ZeroStays(x, lo + 1, hi);
    }
  }

  lemma RunEndsBefore(x: Word, lo: int, n: nat, w: int)
    requires RunAt(x, lo, n) && Start(x, w) && w > lo
    ensures w > lo + n
  {
    hide At;
    assert lo <= w - 1 < lo + n ==> At(x, w - 1);
  }

  // With no other start in a period the word repeats that run.
  lemma OneRun(x: Word, p: nat, lo: int, n: nat)
    requires Size(p) && Periodic(x, p, 64) && RunAt(x, lo, n) && NoStart(x, lo, lo + p)
    ensures Single(x, p, lo, n)
  {
    hide At;
    ModPeriods(lo, p, 1);
    EdgeSame(x, p, lo, lo + p);
    RunEndsBefore(x, lo, n, lo + p);
    ZeroStays(x, lo + n, lo + p);
    forall i: int ensures At(x, i) <==> (i - lo) % p < n {
      IntoSame(lo, p, i);
      AtSame(x, p, Into(lo, p, i), i);
    }
  }

  lemma RunHere(x: Word, lo: int) returns (n: nat)
    requires Start(x, lo)
    ensures RunAt(x, lo, n) && n < 64 && n == CountrOne(Rotr(x, lo % 64))
  {
    var y := Rotr(x, lo % 64);
    forall j | 0 <= j < 64 ensures y[j] == At(x, lo + j) { RotrAt(x, lo, j); }
    n := CountrOne(y);
    ModPeriods(lo - 1, 64, 1);
    assert !y[63] && y[0];
    forall i | lo <= i < lo + n ensures At(x, i) { assert y[i - lo]; }
  }

  lemma RotrAt(x: Word, lo: int, j: nat)
    requires j < 64
    ensures Rotr(x, lo % 64)[j] == At(x, lo + j)
  {
  }

  // ----- How many -----

  function Popcount(a: seq<bool>): (n: nat)
    ensures n <= |a|
  {
    if a == [] then 0 else (if a[0] then 1 else 0) + Popcount(a[1..])
  }

  lemma {:induction false} PopcountZeros(a: seq<bool>)
    requires forall i | 0 <= i < |a| :: !a[i]
    ensures Popcount(a) == 0
  {
    if a != [] { PopcountZeros(a[1..]); }
  }

  lemma {:induction false} PopcountConcat(a: seq<bool>, b: seq<bool>)
    ensures Popcount(a + b) == Popcount(a) + Popcount(b)
  {
    if a == [] {
      assert a + b == b;
    } else {
      assert (a + b)[1..] == a[1..] + b;
      PopcountConcat(a[1..], b);
    }
  }

  lemma {:induction false} PopcountUpdate(a: seq<bool>, i: nat, v: bool)
    requires i < |a|
    ensures Popcount(a[i := v]) == Popcount(a) + (if v then 1 else 0) - if a[i] then 1 else 0
  {
    if i == 0 {
      assert a[0 := v][1..] == a[1..];
    } else {
      assert a[i := v][1..] == a[1..][i - 1 := v];
      PopcountUpdate(a[1..], i - 1, v);
    }
  }

  lemma {:induction false} PopcountXor(a: seq<bool>, b: seq<bool>, x: seq<bool>, both: seq<bool>)
    requires |a| == |b| == |x| == |both|
    requires forall i | 0 <= i < |a| :: x[i] == (a[i] != b[i]) && both[i] == (a[i] && b[i])
    ensures Popcount(x) + 2 * Popcount(both) == Popcount(a) + Popcount(b)
  {
    if a != [] {
      assert forall i | 0 <= i < |a| - 1 :: x[1..][i] == (a[1..][i] != b[1..][i]) && both[1..][i] == (a[1..][i] && b[1..][i]);
      PopcountXor(a[1..], b[1..], x[1..], both[1..]);
    }
  }

  // A one outside the two places.
  lemma AnotherOne(a: seq<bool>, u: nat, v: nat) returns (i: nat)
    requires u < |a| && v < |a| && Popcount(a) >= if u == v then 2 else 3
    ensures i < |a| && a[i] && i != u && i != v
  {
    PopcountUpdate(a, u, false);
    PopcountUpdate(a[u := false], v, false);
    var b := a[u := false][v := false];
    if forall j | 0 <= j < |b| :: !b[j] { PopcountZeros(b); }
    i :| 0 <= i < |b| && b[i];
  }

  lemma SomeOne(a: seq<bool>) returns (i: nat)
    requires Popcount(a) >= 1
    ensures i < |a| && a[i]
  {
    if forall j | 0 <= j < |a| :: !a[j] { PopcountZeros(a); }
    i :| 0 <= i < |a| && a[i];
  }

  lemma ThreeOnes(a: seq<bool>, u: nat, v: nat, w: nat)
    requires u < |a| && v < |a| && w < |a| && a[u] && a[v] && u != v && (w != u && w != v ==> a[w])
    ensures Popcount(a) >= if w != u && w != v then 3 else 2
  {
    PopcountUpdate(a, u, false);
    PopcountUpdate(a[u := false], v, false);
    if w != u && w != v { PopcountUpdate(a[u := false][v := false], w, false); }
  }

  lemma ExactlyTwo(a: seq<bool>, u: nat, v: nat)
    requires u < |a| && v < |a| && u != v && forall i | 0 <= i < |a| :: a[i] <==> i == u || i == v
    ensures Popcount(a) == 2
  {
    PopcountUpdate(a, u, false);
    PopcountUpdate(a[u := false], v, false);
    PopcountZeros(a[u := false][v := false]);
  }

  // The ones that have a zero below them, bit 63 being below bit 0.
  function RunStarts(imm: Word): (r: Word)
    ensures forall i {:trigger r[i]} | 0 <= i < 64 :: r[i] == (imm[i] && !imm[if i > 0 then i - 1 else 63])
  {
    And(imm, Not(Rotl(imm, 1)))
  }

  // How many runs begin in one period.
  function RunCount(x: Word, p: nat): nat
    requires p <= 64
  {
    Popcount(RunStarts(x)[..p])
  }

  function Edges(x: Word): (e: Word)
    ensures forall i {:trigger e[i]} | 0 <= i < 64 :: e[i] == (x[i] != x[if i > 0 then i - 1 else 63])
  {
    seq(64, i requires 0 <= i < 64 => x[i] != x[if i > 0 then i - 1 else 63])
  }

  function EdgeCount(x: Word, p: nat): nat
    requires p <= 64
  {
    Popcount(Edges(x)[..p])
  }

  lemma StartBit(x: Word, i: nat)
    requires i < 64
    ensures RunStarts(x)[i] == Start(x, i) && Edges(x)[i] == Edge(x, i)
  {
    assert (i - 1) % 64 == if i > 0 then i - 1 else 63;
  }

  lemma TakeMore(a: seq<bool>, k: nat)
    requires k < |a|
    ensures Popcount(a[..k + 1]) == Popcount(a[..k]) + if a[k] then 1 else 0
  {
    assert a[..k + 1] == a[..k] + [a[k]];
    PopcountConcat(a[..k], [a[k]]);
    assert [a[k]][1..] == [];
  }

  lemma {:induction false} EdgesPrefix(x: Word, k: nat)
    requires k <= 64
    ensures EdgeCount(x, k) == 2 * RunCount(x, k) - if k == 0 then 0 else (if x[k - 1] then 1 else 0) - if x[63] then 1 else 0
  {
    hide Popcount, RunStarts, Edges;
    if k == 0 {
      assert Edges(x)[..0] == [] && RunStarts(x)[..0] == [];
      PopcountZeros([]);
    } else {
      EdgesPrefix(x, k - 1);
      TakeMore(Edges(x), k - 1);
      TakeMore(RunStarts(x), k - 1);
    }
  }

  // Every run has two ends.
  lemma EdgesTwice(x: Word, p: nat)
    requires Size(p) && Periodic(x, p, 64)
    ensures EdgeCount(x, p) == 2 * RunCount(x, p)
  {
    hide EdgeCount, RunCount, Periodic;
    EdgesPrefix(x, p);
    if p == 2 {} else if p == 4 {} else if p == 8 {} else if p == 16 {} else if p == 32 {} else {}
    SameBit(x, p, p - 1, 63);
  }

  function Ratio(p: nat, q: nat): nat {
    if p <= q then 1 else 2 * Ratio(p / 2, q)
  }

  lemma {:induction false} SingleEdgeCount(x: Word, q: nat, r: int, n: nat, p: nat)
    requires Size(q) && Single(x, q, r, n) && Size(p) && q <= p
    ensures EdgeCount(x, p) == 2 * Ratio(p, q)
    decreases p
  {
    hide Popcount, Edges, Single, Edge;
    if p == q {
      TwoEdges(x, q, r, n);
    } else {
      SingleEdgeCount(x, q, r, n, p / 2);
      SinglePeriodic(x, q, r, n);
      CountDoubles(x, q, p / 2);
    }
  }

  lemma TwoEdges(x: Word, p: nat, r: int, n: nat)
    requires Single(x, p, r, n)
    ensures EdgeCount(x, p) == 2
  {
    hide *;
    SingleBounds(x, p, r, n);
    EdgeCountIs(x, p);
    var u, v := r % p, (r + n) % p;
    Apart(r, n, p);
    forall i: nat | i < p ensures Edges(x)[i] <==> i == u || i == v {
      EdgeBit(x, i);
      SingleEdges(x, p, r, n, i);
      Residue(i, r, p, 0);
      Residue(i, r, p, n);
    }
    ExactlyTwo(Edges(x)[..p], u, v);
  }

  lemma SingleBounds(x: Word, p: nat, r: int, n: nat)
    requires Single(x, p, r, n)
    ensures Size(p) && 2 <= p <= 64 && 0 < n < p
  {
  }

  lemma EdgeCountIs(x: Word, p: nat)
    requires p <= 64
    ensures EdgeCount(x, p) == Popcount(Edges(x)[..p])
  {
    hide Popcount, Edges;
  }

  lemma EdgeBit(x: Word, i: nat)
    requires i < 64
    ensures Edges(x)[i] == Edge(x, i)
  {
    hide RunStarts;
    StartBit(x, i);
  }

  // The two ends of a run are different places.
  lemma Apart(r: int, n: nat, p: nat)
    requires 0 < n < p
    ensures r % p != (r + n) % p
  {
    if r % p == (r + n) % p { Close(r, r + n, p); }
  }

  lemma Residue(i: nat, r: int, p: nat, t: nat)
    requires i < p && t < p
    ensures (i - r) % p == t <==> i == (r + t) % p
  {
    Quotient(i, p, 0, i);
    Quotient(t, p, 0, t);
    if (i - r) % p == t { ModShift(i - r, t, r, p); }
    if i == (r + t) % p { ModShift(i, r + t, -r, p); }
  }

  lemma CountDoubles(x: Word, q: nat, h: nat)
    requires Size(q) && Periodic(x, q, 64) && Size(h) && Size(2 * h) && q <= h
    ensures EdgeCount(x, 2 * h) == 2 * EdgeCount(x, h) && RunCount(x, 2 * h) == 2 * RunCount(x, h)
  {
    hide Popcount, Edges, RunStarts;
    var e, s := Edges(x), RunStarts(x);
    forall i: nat | i < h ensures e[h + i] == e[i] && s[h + i] == s[i] {
      StartBit(x, i);
      StartBit(x, h + i);
      ModOfMod(i, q, h);
      ModOfMod(h + i, q, h);
      ModPeriods(i, h, 1);
      EdgeSame(x, q, i, h + i);
    }
    assert e[h..2 * h] == e[..h] && s[h..2 * h] == s[..h];
    assert e[..2 * h] == e[..h] + e[h..2 * h] && s[..2 * h] == s[..h] + s[h..2 * h];
    PopcountConcat(e[..h], e[h..2 * h]);
    PopcountConcat(s[..h], s[h..2 * h]);
  }
}
