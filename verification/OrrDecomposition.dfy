/** decomposeIntoOrrOfLogicalImmediates: cover a 64-bit value by two bitmask immediates,
    each a run of ones replicated as often as the value allows. */
module OrrDecomposition {
  import opened Options
  import opened Words
  import opened LogicalImm
  import opened OrrPairs

  function GetRunOfOnesStartingAt(v: Word, start: nat): Word
    requires start < 64
  {
    var numOnes := CountrOne(Shr(v, start));
    Shl(Ones(numOnes), start)
  }

  lemma RunIsSpan(v: Word, start: nat) returns (end: nat)
    requires start < 64 && v[start]
    ensures start < end <= 64 && GetRunOfOnesStartingAt(v, start) == Span(start, end)
    ensures forall i | start <= i < end :: v[i]
    ensures end < 64 ==> !v[end]
  {
    var s := Shr(v, start);
    var n := CountrOne(s);
    assert s[0];
    assert start > 0 ==> !s[64 - start];
    end := start + n;
    forall i | start <= i < end ensures v[i] { assert s[i - start]; }
    if end < 64 { assert s[n] == v[end]; }
  }

  // Walking whole periods does not change a bit.
  lemma {:induction false} PeriodicJump(x: Word, p: nat, i: nat, k: nat)
    requires 0 < p && Periodic(x, p, 64) && i + k * p < 64
    ensures x[i + k * p] == x[i]
  {
    if k > 0 {
      assert i + (k - 1) * p == i + k * p - p;
      assert k * p >= p;
      assert Back(x, i + k * p, p);
      PeriodicJump(x, p, i, k - 1);
    }
  }

  lemma TopElement(x: Word, p: nat, i: nat)
    requires ElementSize(p, 64) && Periodic(x, p, 64) && i < p
    ensures x[i + (64 - p)] == x[i]
  {
    var k := if p == 2 then 31 else if p == 4 then 15 else if p == 8 then 7 else if p == 16 then 3 else if p == 32 then 1 else 0;
    assert k * p == 64 - p;
    PeriodicJump(x, p, i, k);
  }

  // The bit half a period on, wrapping at the top of the word.
  function HalfOn(x: Word, h: nat, i: nat): bool
    requires i < 64 && 0 < h <= 32
  {
    if i + h < 64 then x[i + h] else x[i - h]
  }

  // The rotation by half the period, seen through the period.
  lemma HalfRotation(x: Word, h: nat, i: nat)
    requires ElementSize(2 * h, 64) && Periodic(x, 2 * h, 64) && i < 64
    ensures Rotl(x, h)[i] == HalfOn(x, h, i)
  {
    hide Rotl;
    if i < h {
      TopElement(x, 2 * h, i + h);
    } else if i + h < 64 {
      assert Back(x, i + h, 2 * h);
    }
  }

  function HalfStart(r: nat, h: nat): nat {
    if r >= h then r - h else r
  }

  // Or-ing in a copy half a period away halves the period, as long as the run is shorter than that.
  lemma ClosurePattern(x: Word, h: nat, n: nat, r: nat)
    requires IsPattern(x, 64, 2 * h, n, r) && n < h
    ensures h > 1 && IsPattern(Or(x, Rotl(x, h)), 64, h, n, HalfStart(r, h))
  {
    hide Or, Rotl, InRun;
    var c := Or(x, Rotl(x, h));
    assert h != 1;
    forall i | 0 <= i < h ensures c[i] == InRun(h, n, HalfStart(r, h), i) {
      ClosureBits(x, h, i);
      assert x[i] == InRun(2 * h, n, r, i) && x[i + h] == InRun(2 * h, n, r, i + h);
      HalvedRun(h, n, r, i);
    }
    ClosurePeriodic(x, h);
  }

  lemma HalvedRun(h: nat, n: nat, r: nat, i: nat)
    requires n < h && r < 2 * h && i < h
    ensures InRun(h, n, HalfStart(r, h), i) <==> InRun(2 * h, n, r, i) || InRun(2 * h, n, r, i + h)
  {
  }

  lemma ClosureBits(x: Word, h: nat, i: nat)
    requires ElementSize(2 * h, 64) && Periodic(x, 2 * h, 64) && i < 64
    ensures Or(x, Rotl(x, h))[i] == (x[i] || HalfOn(x, h, i))
  {
    hide Or, Rotl, Periodic, HalfOn;
    HalfRotation(x, h, i);
  }

  lemma ClosurePeriodic(x: Word, h: nat)
    requires ElementSize(2 * h, 64) && Periodic(x, 2 * h, 64)
    ensures Periodic(Or(x, Rotl(x, h)), h, 64)
  {
    hide Or, Rotl;
    var c := Or(x, Rotl(x, h));
    forall i: nat | h <= i < 64 ensures Back(c, i, h) {
      ClosureBits(x, h, i);
      ClosureBits(x, h, i - h);
      if i + h < 64 { assert Back(x, i + h, 2 * h); }
    }
  }

  // If the copy stays inside v, and v is zero just after the run, the run is shorter than half the period.
  lemma CopyFits(x: Word, v: Word, h: nat, lo: nat, hi: nat)
    requires 0 < h < 64 && lo < hi <= 64
    requires Within(Or(x, Rotl(x, h)), v) && (forall i | lo <= i < hi :: x[i])
    requires !v[if hi < 64 then hi else 0]
    ensures hi - lo < h
  {
    hide Or, And, Rotl;
    var z := if hi < 64 then hi else 0;
    var c := Or(x, Rotl(x, h));
    assert c[z] == And(c, v)[z];
    if hi - lo >= h { CopyReaches(x, h, lo, hi); }
  }

  lemma CopyReaches(x: Word, h: nat, lo: nat, hi: nat)
    requires 0 < h < 64 && lo < hi <= 64 && hi - lo >= h
    requires forall i | lo <= i < hi :: x[i]
    ensures Rotl(x, h)[if hi < 64 then hi else 0]
  {
    assert x[hi - h];
  }

  lemma SpanIsPattern(lo: nat, hi: nat)
    requires 0 < lo < hi <= 64
    ensures IsPattern(Span(lo, hi), 64, 64, hi - lo, lo)
  {
  }

  lemma SpanWithin(v: Word, lo: nat, hi: nat)
    requires lo < hi <= 64 && forall i | lo <= i < hi :: v[i]
    ensures Within(Span(lo, hi), v)
  {
    assert And(Span(lo, hi), v) == Span(lo, hi);
  }

  lemma FullRotation(x: Word)
    ensures Or(x, Rotl(x, 64)) == x
  {
    assert Rotl(x, 64) == x;
  }

  // v is the value to stay within, [lo, hi) one of its maximal runs.
  method MaximallyReplicateSubImmediate(v: Word, subset: Word, ghost lo: nat, ghost hi: nat)
    returns (result: Word, ghost p: nat, ghost r: nat)
    requires 0 < lo < hi <= 64 && subset == Span(lo, hi)
    requires forall i | lo <= i < hi :: v[i]
    requires !v[if hi < 64 then hi else 0]
    ensures IsPattern(result, 64, p, hi - lo, r) && hi - lo < p
    ensures Within(result, v) && forall i | lo <= i < hi :: result[i]
    ensures Replica(result, v, lo, hi, p)
  {
    hide Or, And, Rotl, Span, Within, IsPattern, HalfStart, Repeats, Touches;
    assert IsPattern(subset, 64, 64, hi - lo, lo) by { SpanIsPattern(lo, hi); }
    result := subset;
    p, r := 64, lo;
    SpanWithin(v, lo, hi);
    SpanTouches(lo, hi);
    var i := 0;
    while i < 6
      invariant 0 <= i <= 6
      invariant IsPattern(result, 64, p, hi - lo, r) && hi - lo < p
      invariant p == if i == 0 then 64 else 2 * Rotation(i)
      invariant Within(result, v) && forall i | lo <= i < hi :: result[i]
      invariant forall j: nat | j < 64 && result[j] :: Touches(lo, hi, p, j)
    {
      var rotation := Rotation(i);
      var closure := Or(result, Rotl(result, rotation));
      if i == 0 {
        FullRotation(result);
      } else {
        ClosureTouches(result, rotation, lo, hi, hi - lo, r);
      }
      if !Within(closure, v) {   // Closure != (Closure & V)
        NoSmaller(closure, v, lo, hi, rotation);
        break;
      }
      if i > 0 {
        CopyFits(result, v, rotation, lo, hi);
        ClosurePattern(result, rotation, hi - lo, r);
        p, r := rotation, HalfStart(r, rotation);
      }
      result := closure;
      i := i + 1;
    }
    IsReplica(result, v, lo, hi, p, r);
  }

  lemma TouchesSelf(lo: nat, hi: nat, d: nat, i: nat)
    requires d > 0 && lo <= i < hi
    ensures Touches(lo, hi, d, i)
  {
    assert Same(d, i, i);
  }

  lemma SpanTouches(lo: nat, hi: nat)
    requires lo < hi <= 64
    ensures forall j: nat | j < 64 && Span(lo, hi)[j] :: Touches(lo, hi, 64, j)
  {
    forall j: nat | j < 64 && Span(lo, hi)[j] ensures Touches(lo, hi, 64, j) { TouchesSelf(lo, hi, 64, j); }
  }

  lemma TouchesHalf(lo: nat, hi: nat, h: nat, d: nat, i: nat)
    requires Size(h) && Size(d) && h <= d && Touches(lo, hi, d, i)
    ensures Touches(lo, hi, h, i)
  {
    var j: nat :| lo <= j < hi && Same(d, j, i);
    ModDivides(j, h, d);
    ModDivides(i, h, d);
    assert Same(h, j, i);
  }

  lemma TouchesShifted(lo: nat, hi: nat, h: nat, i: nat, k: nat)
    requires h > 0 && Touches(lo, hi, h, k) && (k == i + h || i == k + h)
    ensures Touches(lo, hi, h, i)
  {
    var j: nat :| lo <= j < hi && Same(h, j, k);
    if k == i + h { ModStep(k, h); } else { ModStep(i, h); }
    assert Same(h, j, i);
  }

  // The closure is made of copies half a period apart.
  lemma ClosureTouches(x: Word, h: nat, lo: nat, hi: nat, n: nat, r: nat)
    requires Size(h) && IsPattern(x, 64, 2 * h, n, r)
    requires forall j: nat | j < 64 && x[j] :: Touches(lo, hi, 2 * h, j)
    ensures forall j: nat | j < 64 && Or(x, Rotl(x, h))[j] :: Touches(lo, hi, h, j)
  {
    hide Or, Rotl, Periodic, Touches, HalfOn;
    forall j: nat | j < 64 && Or(x, Rotl(x, h))[j] ensures Touches(lo, hi, h, j) {
      ClosureBits(x, h, j);
      if x[j] {
        TouchesHalf(lo, hi, h, 2 * h, j);
      } else {
        HalfOnIs(x, h, j);
        var k := if j + h < 64 then j + h else j - h;
        TouchesHalf(lo, hi, h, 2 * h, k);
        TouchesShifted(lo, hi, h, j, k);
      }
    }
  }

  lemma HalfOnIs(x: Word, h: nat, i: nat)
    requires i < 64 && 0 < h <= 32
    ensures HalfOn(x, h, i) == x[if i + h < 64 then i + h else i - h]
  {
  }

  // A closure that leaves v rules out its period and all smaller ones.
  lemma NoSmaller(closure: Word, v: Word, lo: nat, hi: nat, h: nat)
    requires Size(h) && !Within(closure, v)
    requires forall j: nat | j < 64 && closure[j] :: Touches(lo, hi, h, j)
    ensures forall d: nat | Size(d) && Repeats(v, lo, hi, d) :: 2 * h <= d
  {
    hide Touches;
    var both := And(closure, v);
    var j := Difference(closure, both);
    assert closure[j] && !v[j];
    forall d: nat | Size(d) && Repeats(v, lo, hi, d) ensures 2 * h <= d {
      if d <= h { TouchesHalf(lo, hi, d, h, j); }
    }
  }

  lemma WithinBit(x: Word, v: Word)
    requires Within(x, v)
    ensures forall i: nat | i < 64 && x[i] :: v[i]
  {
    forall i: nat | i < 64 && x[i] ensures v[i] { assert And(x, v)[i]; }
  }

  lemma IsReplica(x: Word, v: Word, lo: nat, hi: nat, p: nat, r: nat)
    requires lo < hi <= 64 && IsPattern(x, 64, p, hi - lo, r) && Within(x, v)
    requires forall i | lo <= i < hi :: x[i]
    requires forall j: nat | j < 64 && x[j] :: Touches(lo, hi, p, j)
    requires forall d: nat | Size(d) && Repeats(v, lo, hi, d) :: p <= d
    ensures Replica(x, v, lo, hi, p)
  {
    hide Touches, Repeats, Within, InRun, Periodic;
    WithinBit(x, v);
  }

  // 1 << (6 - i)
  function Rotation(i: nat): nat
    requires i <= 6
  {
    if i == 0 then 64 else if i == 1 then 32 else if i == 2 then 16 else if i == 3 then 8
    else if i == 4 then 4 else if i == 5 then 2 else 1
  }

  method MaximalLogicalImmWithin(remaining: Word, original: Word) returns (imm: Word, ghost lo: nat, ghost hi: nat, ghost p: nat)
    requires remaining != ZERO && Within(remaining, original) && !original[0]
    ensures Logical(imm, 64) && Within(imm, original)
    ensures Lowest(original, remaining, lo, hi) && Replica(imm, original, lo, hi, p)
  {
    hide Span, Shl, Shr, Ones, IsPattern, GetRunOfOnesStartingAt, Replica;
    var position := CountrZero(remaining);
    FirstSetBit(remaining, original);
    ghost var end := RunIsSpan(original, position);
    var firstRun := GetRunOfOnesStartingAt(original, position);
    ghost var r;
    imm, p, r := MaximallyReplicateSubImmediate(original, firstRun, position, end);
    lo, hi := position, end;
  }

  lemma FirstSetBit(a: Word, v: Word)
    requires a != ZERO && Within(a, v)
    ensures CountrZero(a) < 64 && v[CountrZero(a)] && a[CountrZero(a)]
  {
    var i := Difference(a, ZERO);
    var t := CountrZero(a);
    assert a[t] == And(a, v)[t];
  }

  // ----- Bitmask immediates are closed under rotation and complement -----

  lemma RotateOne(x: Word)
    requires Logical(x, 64)
    ensures Logical(Rotl(x, 1), 64)
  {
    var p: nat, n: nat, r: nat :| IsPattern(x, 64, p, n, r);
    var y := Rotl(x, 1);
    var r' := if r + 1 == p then 0 else r + 1;
    assert forall i | 1 <= i < 64 :: y[i] == x[i - 1];
    assert y[0] == x[63];
    TopElement(x, p, p - 1);
    assert y[0] == x[p - 1];
    forall i: nat | p <= i < 64 ensures Back(y, i, p) {
      if i == p { assert x[p - 1] == y[0]; } else { assert Back(x, i - 1, p); }
    }
    assert IsPattern(y, 64, p, n, r');
  }

  lemma {:induction false} RotlLogical(x: Word, k: nat)
    requires Logical(x, 64) && k <= 64
    ensures Logical(Rotl(x, k), 64)
  {
    if k == 0 {
      assert Rotl(x, 0) == x;
    } else {
      RotlLogical(x, k - 1);
      RotateOne(Rotl(x, k - 1));
      RotlStep(x, k - 1);
    }
  }

  lemma NotLogical(x: Word)
    requires Logical(x, 64)
    ensures Logical(Not(x), 64)
  {
    var p: nat, n: nat, r: nat :| IsPattern(x, 64, p, n, r);
    forall i: nat | p <= i < 64 ensures Back(Not(x), i, p) { assert Back(x, i, p); }
    assert IsPattern(Not(x), 64, p, p - n, if r + n >= p then r + n - p else r + n);
  }

  // ----- The decomposition -----

  // imm is the OR of two bitmask immediates.
  ghost predicate OrPair(imm: Word) {
    exists a: Word, b: Word :: Logical(a, 64) && Logical(b, 64) && Or(a, b) == imm
  }

  lemma IsOrPair(imm: Word, a: Word, b: Word)
    requires Logical(a, 64) && Logical(b, 64) && Or(a, b) == imm
    ensures OrPair(imm)
  {
  }

  lemma PairNotZero(imm: Word)
    requires OrPair(imm)
    ensures imm != ZERO
  {
    hide Logical;
    var a: Word, b: Word :| Logical(a, 64) && Logical(b, 64) && Or(a, b) == imm;
    var k := LogicalHasOne(a);
    assert imm[k];
  }

  lemma LogicalHasOne(a: Word) returns (k: nat)
    requires Logical(a, 64)
    ensures k < 64 && a[k]
  {
    var p: nat, n: nat, r: nat :| IsPattern(a, 64, p, n, r);
    k := r;
  }

  lemma RotrIsRotl(x: Word, k: nat)
    requires k <= 64
    ensures Rotr(x, k) == Rotl(x, 64 - k)
  {
    if k == 64 { assert Rotr(x, 64) == x == Rotl(x, 0); }
  }

  lemma OrPairRotated(imm: Word, k: nat) returns (a: Word, b: Word)
    requires OrPair(imm) && k <= 64
    ensures Logical(a, 64) && Logical(b, 64) && Or(a, b) == Rotr(imm, k)
  {
    hide Logical;
    var a0: Word, b0: Word :| Logical(a0, 64) && Logical(b0, 64) && Or(a0, b0) == imm;
    RotrIsRotl(a0, k);
    RotrIsRotl(b0, k);
    RotlLogical(a0, 64 - k);
    RotlLogical(b0, 64 - k);
    a, b := Rotr(a0, k), Rotr(b0, k);
    assert Or(a, b) == Rotr(Or(a0, b0), k);
  }

  lemma LogicalRuns(x: Word) returns (d: nat, n: nat, s: nat)
    requires Logical(x, 64) && !x[0]
    ensures Runs(x, d, n, s)
  {
    hide IsPattern, Runs;
    d, n, s :| IsPattern(x, 64, d, n, s);
    PatternRuns(x, d, n, s);
  }

  lemma IsPair(v: Word, a: Word, p: nat, m: nat, r: nat, b: Word, q: nat, n: nat, s: nat)
    requires !v[0] && (Or(a, b) == v || Or(b, a) == v) && Runs(a, p, m, r) && Runs(b, q, n, s) && q <= p
    ensures Pair(v, a, p, m, r, b, q, n, s)
  {
    hide Or, Runs;
  }

  // What the two replicas leave rules out any pair.
  lemma NoPair(imm: Word, trailing: nat, rotated: Word, m1: Word, lo1: nat, hi1: nat, p1: nat,
               rest: Word, m2: Word, lo2: nat, hi2: nat, p2: nat)
    requires trailing <= 64 && rotated == Rotr(imm, trailing) && !rotated[0]
    requires Lowest(rotated, rotated, lo1, hi1) && Replica(m1, rotated, lo1, hi1, p1)
    requires rest == And(rotated, Not(m1))
    requires Lowest(rotated, rest, lo2, hi2) && Replica(m2, rotated, lo2, hi2, p2)
    requires And(rest, Not(m2)) != ZERO
    ensures !OrPair(imm)
  {
    var left := And(rest, Not(m2));
    var t := Difference(left, ZERO);
    assert left[t] && rest[t] && !m2[t];
    assert forall i: nat | i < 64 :: rest[i] == (rotated[i] && !m1[i]);
    hide And, Or, Not, Rotr, Logical, OrPair, Lowest, Replica, Runs, Pair;
    if OrPair(imm) {
      var a, b := OrPairRotated(imm, trailing);
      assert !a[0] && !b[0] by { assert !Or(a, b)[0]; }
      var p, m, r := LogicalRuns(a);
      var q, n, s := LogicalRuns(b);
      if q <= p {
        IsPair(rotated, a, p, m, r, b, q, n, s);
        GreedyCovers(rotated, a, p, m, r, b, q, n, s, m1, lo1, hi1, p1, rest, m2, lo2, hi2, p2);
      } else {
        IsPair(rotated, b, q, n, s, a, p, m, r);
        GreedyCovers(rotated, b, q, n, s, a, p, m, r, m1, lo1, hi1, p1, rest, m2, lo2, hi2, p2);
      }
    }
  }

  method DecomposeIntoOrrOfLogicalImmediates(imm: Word) returns (d: Option<(Word, Word)>)
    requires !Logical(imm, 64)
    ensures d.Some? ==> Or(d.value.0, d.value.1) == imm && Logical(d.value.0, 64) && Logical(d.value.1, 64)
    ensures d.Some? <==> OrPair(imm) && Not(imm) != ZERO
  {
    hide And, Or, Not, Rotl, Rotr, Logical, Within, OrPair, Lowest, Replica;
    if imm == ZERO || Not(imm) == ZERO {
      if OrPair(imm) { PairNotZero(imm); }
      return None;
    }
    var trailing := CountrOne(imm);
    var rotated := Rotr(imm, trailing);
    RotatedFacts(imm, trailing, rotated);
    var maximal1, lo1, hi1, p1 := MaximalLogicalImmWithin(rotated, rotated);
    var remaining := And(rotated, Not(maximal1));
    RemainderFacts(imm, trailing, rotated, maximal1);
    var maximal2, lo2, hi2, p2 := MaximalLogicalImmWithin(remaining, rotated);
    if And(remaining, Not(maximal2)) != ZERO {
      NoPair(imm, trailing, rotated, maximal1, lo1, hi1, p1, remaining, maximal2, lo2, hi2, p2);
      return None;
    }
    Reassembled(imm, trailing, rotated, maximal1, maximal2);
    assert OrPair(imm) by { IsOrPair(imm, Rotl(maximal1, trailing), Rotl(maximal2, trailing)); }
    return Some((Rotl(maximal1, trailing), Rotl(maximal2, trailing)));
  }

  lemma RotatedFacts(imm: Word, trailing: nat, rotated: Word)
    requires imm != ZERO && Not(imm) != ZERO && trailing == CountrOne(imm) && rotated == Rotr(imm, trailing)
    ensures trailing < 64 && !rotated[0] && rotated != ZERO && Within(rotated, rotated)
    ensures Rotl(rotated, trailing) == imm
  {
    hide Rotl, Rotr, Not, CountLow;
    var z := Difference(Not(imm), ZERO);
    var k := Difference(imm, ZERO);
    RotlRotr(imm, trailing);
    assert trailing <= z && !imm[trailing];
    var j := if k >= trailing then k - trailing else k + 64 - trailing;
    assert rotated[j] == imm[k] && rotated[0] == imm[trailing];
    WithinSelf(rotated);
  }

  lemma WithinSelf(a: Word)
    ensures Within(a, a)
  {
    assert And(a, a) == a;
  }

  // Something is left over, because the value itself is not a bitmask immediate.
  lemma RemainderFacts(imm: Word, trailing: nat, rotated: Word, m1: Word)
    requires !Logical(imm, 64) && trailing <= 64 && Rotl(rotated, trailing) == imm
    requires Logical(m1, 64) && Within(m1, rotated)
    ensures And(rotated, Not(m1)) != ZERO && Within(And(rotated, Not(m1)), rotated)
  {
    hide Logical;
    if m1 == rotated {
      RotlLogical(m1, trailing);
    }
    var rest := And(rotated, Not(m1));
    var i := Difference(m1, rotated);
    assert m1[i] == And(m1, rotated)[i];
    assert rest[i];
    assert And(rest, rotated) == rest;
  }

  lemma Reassembled(imm: Word, trailing: nat, rotated: Word, m1: Word, m2: Word)
    requires trailing <= 64 && Rotl(rotated, trailing) == imm
    requires Logical(m1, 64) && Logical(m2, 64) && Within(m1, rotated) && Within(m2, rotated)
    requires And(And(rotated, Not(m1)), Not(m2)) == ZERO
    ensures Or(Rotl(m1, trailing), Rotl(m2, trailing)) == imm
    ensures Logical(Rotl(m1, trailing), 64) && Logical(Rotl(m2, trailing), 64)
  {
    hide Logical;
    RotlLogical(m1, trailing);
    RotlLogical(m2, trailing);
    var both := Or(m1, m2);
    forall i | 0 <= i < 64 ensures both[i] == rotated[i] {
      assert And(And(rotated, Not(m1)), Not(m2))[i] == ZERO[i];
      assert m1[i] == And(m1, rotated)[i] && m2[i] == And(m2, rotated)[i];
    }
    assert both == rotated;
    assert Rotl(both, trailing) == Or(Rotl(m1, trailing), Rotl(m2, trailing));
  }
}
