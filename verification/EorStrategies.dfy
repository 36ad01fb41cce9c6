/** The strategies that end in an exclusive-or: tryCopyWithNegation (MOVN, MOVK, then EOR/EON of
    the register with its own shifted copy) and tryEorOfLogicalImmediates. */
module EorStrategies {
  import opened Options
  import opened Words
  import opened LogicalImm
  import opened ImmInsns
  import opened ExpandStrategies
  import opened OrrDecomposition
  import opened OrrPairs
  import opened CircularRuns
  import opened EorPairs

  // ----- tryCopyWithNegation -----

  // c combined with its own shifted copy, complemented or not.
  function Copied(c: Word, n: nat, eon: bool): Word
    requires n < 64
  {
    if eon then Xor(c, Not(Shl(c, n))) else Xor(c, Shl(c, n))
  }

  // One MOVN builds c, or a MOVN and a MOVK when that many are allowed.
  predicate Affordable(c: Word, allowThree: bool) {
    allowThree || GetChunk(c, 0) == Ones(16) || GetChunk(c, 1) == Ones(16)
  }

  ghost predicate CopyBuilds(imm: Word, allowThree: bool, n: nat, eon: bool, c: Word) {
    17 <= n < 48 && (forall i | 32 <= i < 64 :: c[i]) && Copied(c, n, eon) == imm && Affordable(c, allowThree)
  }

  // The word to copy, cut from the result: the low n bits show it, and they show the rest.
  function CopySource(imm: Word, n: nat, eon: bool): Word
    requires n < 64
  {
    Or(HighOnes(), Xor(imm, if eon then Not(Shl(Not(imm), n)) else Shl(imm, n)))
  }

  lemma SourceIsCut(c: Word, n: nat, eon: bool)
    requires 17 <= n < 48 && forall i | 32 <= i < 64 :: c[i]
    ensures CopySource(Copied(c, n, eon), n, eon) == c
  {
    hide Or, Xor, Not, Shl, HighOnes;
    var imm := Copied(c, n, eon);
    var s := CopySource(imm, n, eon);
    forall i | 0 <= i < 64 ensures s[i] == c[i] {
      if i < 32 {
        assert !HighOnes()[i];
        if i >= n {
          assert i - n < n;
          assert imm[i - n] == (c[i - n] != eon);
        }
      }
    }
  }

  // The inner lambda: MOVN and MOVK build c, whose upper half is all ones, then opc combines it with its copy.
  method TryExpansion(opc: Opcode, c: Word, n: nat, allowThree: bool, insn: InsnVector, ghost imm: Word) returns (ok: bool)
    requires insn.insns == [] && (opc == EORXrs || opc == EONXrs) && n < 64
    requires forall i | 32 <= i < 64 :: c[i]
    requires imm == Copied(c, n, opc == EONXrs)
    modifies insn
    ensures ok ==> Builds(insn.insns, imm) && 2 <= |insn.insns| <= if allowThree then 3 else 2
    ensures !ok ==> insn.insns == []
    ensures ok <==> Affordable(c, allowThree)
  {
    hide Builds, And, Xor, Not, Shl, Shr, Ones, Insert, Run;
    var imm0, imm16 := GetChunk(c, 0), GetChunk(c, 1);
    var mask := Ones(16);
    if imm0 != mask && imm16 != mask && !allowThree {
      return false;
    }
    if imm0 != mask {
      MovnLow(c);
      BuildsFirst(ImmInsn(MOVNXi, Xor(imm0, mask), 0));
      insn.PushBack(MOVNXi, Xor(imm0, mask), 0);
      assert insn.insns == [ImmInsn(MOVNXi, Xor(imm0, mask), 0)];
      if imm16 != mask {
        MovkBuilds(insn.insns, Not(Shl(Xor(imm0, mask), 0)), imm16, 1);
        insn.PushBack(MOVKXi, imm16, 16);
      }
    } else {
      MovnHigh(c);
      BuildsFirst(ImmInsn(MOVNXi, Xor(imm16, mask), 16));
      insn.PushBack(MOVNXi, Xor(imm16, mask), 16);
      assert insn.insns == [ImmInsn(MOVNXi, Xor(imm16, mask), 16)];
    }
    BuildsNext(insn.insns, c, ImmInsn(opc, ZERO, n));
    insn.PushBack(opc, ZERO, n);
    return true;
  }

  lemma MovnLow(c: Word)
    requires forall i | 32 <= i < 64 :: c[i]
    ensures var m := Xor(GetChunk(c, 0), Ones(16)); var x := Not(Shl(m, 0));
            && Encodable(ImmInsn(MOVNXi, m, 0))
            && (GetChunk(c, 1) == Ones(16) ==> x == c)
            && Insert(x, GetChunk(c, 1), 16) == c
  {
    hide GetChunk, Ones, Span, Xor, Insert, Not, Shl;
    var m := Xor(GetChunk(c, 0), Ones(16));
    var x := Not(Shl(m, 0));
    forall i | 0 <= i < 64 ensures x[i] == (i >= 16 || c[i]) {}
    assert Insert(x, GetChunk(c, 1), 16) == c;
    if GetChunk(c, 1) == Ones(16) {
      forall i | 0 <= i < 64 ensures x[i] == c[i] {
        if 16 <= i < 32 { assert Ones(16)[i - 16] == c[16 * 1 + (i - 16)]; }
      }
    }
  }

  lemma MovnHigh(c: Word)
    requires (forall i | 32 <= i < 64 :: c[i]) && GetChunk(c, 0) == Ones(16)
    ensures var m := Xor(GetChunk(c, 1), Ones(16));
            Encodable(ImmInsn(MOVNXi, m, 16)) && Not(Shl(m, 16)) == c
  {
    hide GetChunk;
    var m := Xor(GetChunk(c, 1), Ones(16));
    var x := Not(Shl(m, 16));
    forall i | 0 <= i < 64 ensures x[i] == c[i] {
      if i < 16 {
        assert Ones(16)[i] == c[16 * 0 + i];
      } else if i < 32 {
        assert m[i - 16] == !c[16 * 1 + (i - 16)];
      }
    }
  }

  // 0xffffffff00000000
  function HighOnes(): (r: Word)
    ensures forall i | 0 <= i < 64 :: r[i] == (32 <= i)
  {
    Span(32, 64)
  }

  lemma SourceHigh(imm: Word, n: nat, eon: bool)
    requires n < 64
    ensures forall i | 32 <= i < 64 :: CopySource(imm, n, eon)[i]
  {
  }

  // One round of the search decides its amount and form.
  lemma RoundDecides(imm: Word, allowThree: bool, n: nat, eon: bool)
    requires 17 <= n < 48
    ensures var c := CopySource(imm, n, eon);
            (exists d :: CopyBuilds(imm, allowThree, n, eon, d)) <==> Copied(c, n, eon) == imm && Affordable(c, allowThree)
  {
    hide CopySource, Copied, Affordable;
    var c := CopySource(imm, n, eon);
    SourceHigh(imm, n, eon);
    if Copied(c, n, eon) == imm && Affordable(c, allowThree) { assert CopyBuilds(imm, allowThree, n, eon, c); }
    forall d | CopyBuilds(imm, allowThree, n, eon, d) ensures d == c { SourceIsCut(d, n, eon); }
  }

  method TryCopyWithNegation(imm: Word, allowThree: bool, insn: InsnVector) returns (ok: bool)
    requires insn.insns == []
    modifies insn
    ensures ok ==> Builds(insn.insns, imm) && 2 <= |insn.insns| <= if allowThree then 3 else 2
    ensures !ok ==> insn.insns == []
    ensures ok <==> imm != ZERO && !IsShiftedMask(imm) && exists n, eon, c :: CopyBuilds(imm, allowThree, n, eon, c)
  {
    hide *;
    if imm == ZERO || IsShiftedMask(imm) {
      return false;
    }
    for n := 17 to 48
      invariant insn.insns == []
      invariant forall m: nat, eon, d | 17 <= m < n :: !CopyBuilds(imm, allowThree, m, eon, d)
    {
      RoundDecides(imm, allowThree, n, false);
      RoundDecides(imm, allowThree, n, true);
      var c := CopySource(imm, n, false);
      SourceHigh(imm, n, false);
      if Copied(c, n, false) == imm {
        ok := TryExpansion(EORXrs, c, n, allowThree, insn, imm);
        if ok { return true; }
      }
      c := CopySource(imm, n, true);
      SourceHigh(imm, n, true);
      if Copied(c, n, true) == imm {
        ok := TryExpansion(EONXrs, c, n, allowThree, insn, imm);
        if ok { return true; }
      }
    }
    forall n: nat, eon, c ensures !CopyBuilds(imm, allowThree, n, eon, c) {
      AmountInRange(imm, allowThree, n, eon, c);
    }
    return false;
  }

  lemma AmountInRange(imm: Word, allowThree: bool, n: nat, eon: bool, c: Word)
    ensures CopyBuilds(imm, allowThree, n, eon, c) ==> 17 <= n < 48
  {
  }

  // ----- tryEorOfLogicalImmediates -----

  // a - b modulo 2^64, bit by bit with a borrow.
  function Borrow(a: Word, b: Word, i: nat): bool
    requires i <= 64
  {
    i > 0 && ((!a[i - 1] && b[i - 1]) || (a[i - 1] == b[i - 1] && Borrow(a, b, i - 1)))
  }

  function Sub(a: Word, b: Word): Word {
    seq(64, i requires 0 <= i < 64 => (a[i] != b[i]) != Borrow(a, b, i))
  }

  // BigToSmallSizeTable
  const BIG_TO_SMALL_SIZE: seq<int> := [
    -1, -1, 0, 1, 2, 2, -1, 3, 3, 3, -1, -1, -1, -1, -1, 4,
    4, 4, -1, -1, -1, -1, -1, -1, -1, -1, -1, -1, -1, -1, -1, 5]

  function BigToSmallSize(runs: nat): (shift: int)
    requires runs < 32
    ensures -1 <= shift <= 5
  {
    BIG_TO_SMALL_SIZE[runs]
  }

  // RepeatedOnesTable: ones one power of two apart.
  function RepeatedOnes(index: nat): Word
    requires index <= 6
  {
    var step := if index == 0 then 1 else if index == 1 then 2 else if index == 2 then 4 else if index == 3 then 8
                else if index == 4 then 16 else if index == 5 then 32 else 64;
    seq(64, i requires 0 <= i < 64 => i % step == 0)
  }

  // countr_zero of a power of two up to 64
  function Log2(n: nat): nat {
    if n < 2 then 0 else 1 + Log2(n / 2)
  }

  // ----- No table access is out of range -----

  // No two run starts are adjacent, so an even number of bits holds at most half as many.
  lemma {:induction false} SparsePopcount(a: seq<bool>)
    requires |a| % 2 == 0 && forall i | 0 < i < |a| :: a[i] ==> !a[i - 1]
    ensures Popcount(a) <= |a| / 2
    ensures Popcount(a) == |a| / 2 ==> forall k | 0 <= k < |a| / 2 :: a[2 * k] != a[2 * k + 1]
  {
    if a != [] {
      var t := a[1..];
      assert t[1..] == a[2..];
      assert a[1] ==> !a[0];
      SparsePopcount(a[2..]);
      if Popcount(a) == |a| / 2 {
        forall k | 0 <= k < |a| / 2 ensures a[2 * k] != a[2 * k + 1] {
          if k > 0 { assert a[2..][2 * (k - 1)] != a[2..][2 * (k - 1) + 1]; }
        }
      }
    }
  }

  // Once a pair of bits has its start at the odd place, so have all later pairs.
  lemma {:induction false} OddStays(s: Word, j: nat, k: nat)
    requires j <= k < 32 && s[2 * j + 1]
    requires forall i | 0 < i < 64 :: s[i] ==> !s[i - 1]
    requires forall m | 0 <= m < 32 :: s[2 * m] != s[2 * m + 1]
    ensures s[2 * k + 1]
  {
    if j < k {
      OddStays(s, j, k - 1);
      assert !s[2 * k];
    }
  }

  lemma StartsAreSparse(imm: Word)
    ensures forall i | 0 < i < 64 :: RunStarts(imm)[i] ==> !RunStarts(imm)[i - 1]
    ensures RunStarts(imm)[0] ==> !RunStarts(imm)[63]
  {
  }

  lemma StartMeans(imm: Word, i: nat)
    requires i < 64
    ensures RunStarts(imm)[i] ==> imm[i] && !imm[if i > 0 then i - 1 else 63]
  {
  }

  // Thirty-two runs in sixty-four bits alternate, so the value repeats at two bits.
  lemma FullStartsAlternate(imm: Word)
    requires forall m | 0 <= m < 32 :: RunStarts(imm)[2 * m] != RunStarts(imm)[2 * m + 1]
    ensures Periodic(imm, 2, 64)
  {
    hide RunStarts;
    var s := RunStarts(imm);
    var odd := s[1];
    StartsAreSparse(imm);
    assert s[2 * 0] != s[2 * 0 + 1];
    forall m: nat | m < 32 ensures s[2 * m + 1] == odd {
      if odd { OddStays(s, 0, m); } else if s[2 * m + 1] { OddStays(s, m, 31); }
    }
    forall m: nat | m < 32 ensures imm[2 * m] != odd && imm[2 * m + 1] == odd {
      assert s[2 * m + 1] == odd && s[2 * m] != s[2 * m + 1];
      StartMeans(imm, 2 * m);
      StartMeans(imm, 2 * m + 1);
      var next := if m < 31 then m + 1 else 0;
      var before := if m < 31 then 2 * next - 1 else 63;
      assert before == 2 * m + 1;
      assert s[2 * next + 1] == odd && s[2 * next] != s[2 * next + 1];
      StartMeans(imm, 2 * next);
    }
    forall i: nat | 2 <= i < 64 ensures Back(imm, i, 2) {
      var m := i / 2;
      assert i == 2 * m || i == 2 * m + 1;
      assert i - 2 == 2 * (m - 1) || i - 2 == 2 * (m - 1) + 1;
    }
  }

  lemma RunsInRange(imm: Word, bigSize: nat)
    requires ElementSize(bigSize, 64) && (bigSize == 2 || !Periodic(imm, bigSize / 2, bigSize))
    ensures var runs := Popcount(And(RunStarts(imm), Ones(bigSize)));
            runs <= bigSize / 2 && runs < 32
  {
    hide And, Ones, RunStarts, Periodic;
    var s := RunStarts(imm);
    var m := And(s, Ones(bigSize));
    assert m == m[..bigSize] + m[bigSize..];
    PopcountConcat(m[..bigSize], m[bigSize..]);
    PopcountZeros(m[bigSize..]);
    StartsAreSparse(imm);
    SparsePopcount(m[..bigSize]);
    if bigSize == 64 && Popcount(m) == 32 {
      assert m[..64] == m;
      forall k: nat | k < 32 ensures s[2 * k] != s[2 * k + 1] { assert m[2 * k] != m[2 * k + 1]; }
      FullStartsAlternate(imm);
      PeriodicUp(imm, 64, 2, 32);
    }
  }

  lemma SmallSizeInRange(bigSize: nat, runs: nat)
    requires ElementSize(bigSize, 64) && runs <= bigSize / 2 && runs < 32
    requires BigToSmallSize(runs) >= 0
    ensures var small := ShiftDown(bigSize, BigToSmallSize(runs));
            small >= 2 && Log2(small) <= 6
  {
    var shift := BigToSmallSize(runs);
    assert shift == (if runs == 2 then 0 else if runs == 3 then 1 else if runs <= 5 then 2 else if runs <= 9 then 3
                     else if runs <= 17 then 4 else 5);
    ShiftDownValues(bigSize);
    LogValues();
  }

  lemma LogValues()
    ensures Log2(2) == 1 && Log2(4) == 2 && Log2(8) == 3 && Log2(16) == 4 && Log2(32) == 5 && Log2(64) == 6
  {
  }

  lemma ShiftDownValues(n: nat)
    requires ElementSize(n, 64)
    ensures ShiftDown(n, 0) == n && ShiftDown(n, 1) == n / 2 && ShiftDown(n, 2) == n / 4
    ensures ShiftDown(n, 3) == n / 8 && ShiftDown(n, 4) == n / 16 && ShiftDown(n, 5) == n / 32
  {
    assert ShiftDown(n / 16, 1) == n / 32 && ShiftDown(n / 8, 2) == n / 32 && ShiftDown(n / 4, 3) == n / 32;
    assert ShiftDown(n / 8, 1) == n / 16 && ShiftDown(n / 4, 2) == n / 16;
    assert ShiftDown(n / 4, 1) == n / 8;
  }

  function ShiftDown(n: nat, shift: int): nat {
    if shift <= 0 then n else ShiftDown(n / 2, shift - 1)
  }

  // ----- The candidates -----

  // The runs start in turn, circularly; attempt k rotates to the k-th of them.
  function Rotations(starts: Word, k: nat): nat {
    if k == 0 then CountrZero(starts)
    else var r := Rotations(starts, k - 1); r + CountrZero(And(Rotr(starts, r), Not(ONE)))
  }

  // (SmallOnes << RunLength) - SmallOnes, put back where the run was found.
  function SmallCandidate(imm: Word, smallOnes: Word, rotation: nat): Word {
    var n := CountrOne(Rotr(imm, rotation));
    if n == 64 then ZERO else Rotl(Sub(Shl(smallOnes, n), smallOnes), rotation)
  }

  // Attempt k finds two bitmasks whose exclusive-or is imm, the smaller repeating at size.
  ghost predicate EorSplits(imm: Word, size: nat, k: nat)
    requires Log2(size) <= 6
  {
    var small := SmallCandidate(imm, RepeatedOnes(Log2(size)), Rotations(RunStarts(imm), k));
    Logical(small, 64) && Logical(Xor(imm, small), 64)
  }

  // The size the smaller bitmask must have, if the number of runs in a big element allows one.
  ghost predicate SmallSize(imm: Word, size: nat) {
    exists big: nat ::
      && ElementSize(big, 64) && Periodic(imm, big, 64) && (big == 2 || !Periodic(imm, big / 2, big))
      && var runs := Popcount(And(RunStarts(imm), Ones(big)));
         runs < 32 && BigToSmallSize(runs) >= 0 && size == ShiftDown(big, BigToSmallSize(runs))
  }

  lemma SmallestPeriod(imm: Word, p: nat, q: nat)
    requires ElementSize(p, 64) && Periodic(imm, p, 64)
    requires ElementSize(q, 64) && Periodic(imm, q, 64) && (q == 2 || !Periodic(imm, q / 2, q))
    ensures q <= p
  {
    if p < q {
      PeriodicUp(imm, 64, p, q / 2);
      PeriodicNarrow(imm, q / 2, q, 64);
    }
  }

  // The low bit of every copy, and the subtraction that turns it into n ones.
  lemma {:induction false} BorrowIs(a: Word, b: Word, d: nat, n: nat, i: nat)
    requires Size(d) && 0 < n < d && i <= 64
    requires forall k: nat | k < 64 :: b[k] == (k % d == 0) && a[k] == (k % d == n)
    ensures Borrow(a, b, i) <==> 1 <= i % d <= n
  {
    if i == 0 {
      Quotient(0, d, 0, 0);
    } else {
      BorrowIs(a, b, d, n, i - 1);
      ModNext(i, d);
    }
  }

  lemma ModNext(i: nat, d: nat)
    requires 0 < d && 0 < i
    ensures i % d == 0 ==> (i - 1) % d == d - 1
    ensures i % d != 0 ==> (i - 1) % d == i % d - 1
  {
    if i % d == 0 {
      assert i == d * (i / d);
      assert d * (i / d - 1) == d * (i / d) - d;
      Quotient(i - 1, d, i / d - 1, d - 1);
    } else {
      ShiftMod(i, d, -1);
    }
  }

  lemma LogSmall(size: nat)
    requires Size(size)
    ensures Log2(size) <= 6
  {
    LogValues();
  }

  // With a run shorter than the size the smaller candidate repeats that run where it was found ...
  lemma CandidateIs(d: nat, n: nat, rotation: nat)
    requires Size(d) && 0 < n < d && n < 64
    ensures var ones := RepeatedOnes(Log2(d)); Single(Rotl(Sub(Shl(ones, n), ones), rotation), d, rotation, n)
  {
    hide Rotl, Borrow, Shl, RepeatedOnes;
    LogValues();
    var ones := RepeatedOnes(Log2(d));
    var up := Shl(ones, n);
    forall k: nat | k < 64 ensures ones[k] == (k % d == 0) && up[k] == (k % d == n) {
      ShiftedOnes(d, n, k);
    }
    var x := Sub(up, ones);
    forall k: nat | k < 64 ensures x[k] == (k % d < n) {
      BorrowIs(up, ones, d, n, k);
    }
    forall i: int ensures At(Rotl(x, rotation), i) <==> (i - rotation) % d < n {
      RotlAt(x, rotation, i);
      ModOfMod(i - rotation, d, 64);
    }
  }

  lemma RotlAt(x: Word, k: nat, i: int)
    ensures At(Rotl(x, k), i) == At(x, i - k)
  {
    var j, t := i % 64, k % 64;
    assert (i - k) % 64 == if t <= j then j - t else j + 64 - t;
  }

  // ... so it is a bitmask, as its construction intends.
  lemma SmallIsLogical(d: nat, n: nat, rotation: nat)
    requires Size(d) && 0 < n < d && n < 64
    ensures var ones := RepeatedOnes(Log2(d)); Logical(Rotl(Sub(Shl(ones, n), ones), rotation), 64)
  {
    hide *;
    LogSmall(d);
    CandidateIs(d, n, rotation);
    var ones := RepeatedOnes(Log2(d));
    SingleLogical(Rotl(Sub(Shl(ones, n), ones), rotation), d, rotation, n);
  }

  lemma ShiftedOnes(d: nat, n: nat, k: nat)
    requires Size(d) && 0 < n < d && k < 64
    ensures RepeatedOnes(Log2(d))[k] == (k % d == 0)
    ensures Shl(RepeatedOnes(Log2(d)), n)[k] == (k % d == n)
  {
    hide Shl;
    LogValues();
    if k >= n {
      if k % d >= n { ShiftMod(k, d, 0 - n); } else { BackMod(k, d, n); }
    } else {
      Quotient(k, d, 0, k);
    }
  }

  lemma BackMod(k: nat, d: nat, n: nat)
    requires 0 < d && k % d < n < d && n <= k
    ensures (k - n) % d == k % d + d - n
  {
    assert k == d * (k / d) + k % d;
    assert d * (k / d - 1) == d * (k / d) - d;
    Quotient(k - n, d, k / d - 1, k % d + d - n);
  }

  // ----- The attempts are enough -----

  // imm is the exclusive-or of two bitmask immediates.
  ghost predicate EorPair(imm: Word) {
    exists a: Word, b: Word :: Logical(a, 64) && Logical(b, 64) && Xor(a, b) == imm
  }

  lemma IsEorPair(imm: Word, a: Word, b: Word)
    requires Logical(a, 64) && Logical(b, 64) && Xor(a, b) == imm
    ensures EorPair(imm)
  {
  }

  lemma PairXorOf(imm: Word) returns (p: nat, a: Word, r: int, m: nat, q: nat, b: Word, s: int, n: nat)
    requires EorPair(imm)
    ensures XorOf(imm, p, a, r, m, q, b, s, n)
  {
    hide Logical, Single;
    var c: Word, d: Word :| Logical(c, 64) && Logical(d, 64) && Xor(c, d) == imm;
    var p1, r1, m1 := LogicalSingle(c);
    var p2, r2, m2 := LogicalSingle(d);
    if p2 <= p1 {
      p, a, r, m, q, b, s, n := p1, c, r1, m1, p2, d, r2, m2;
    } else {
      p, a, r, m, q, b, s, n := p2, d, r2, m2, p1, c, r1, m1;
      assert Xor(c, d) == Xor(d, c);
    }
  }

  lemma LogicalSingle(x: Word) returns (p: nat, r: int, n: nat)
    requires Logical(x, 64)
    ensures Single(x, p, r, n)
  {
    hide IsPattern, Single;
    var p0: nat, n0: nat, r0: nat :| IsPattern(x, 64, p0, n0, r0);
    PatternSingle(x, p0, n0, r0);
    p, r, n := p0, r0, n0;
  }

  lemma {:induction false} RatioCases(p: nat, q: nat)
    requires Size(p) && Size(q) && q <= p
    ensures var k := Ratio(p, q);
            || (k == 1 && p == q) || (k == 2 && p == 2 * q) || (k == 4 && p == 4 * q) || (k == 8 && p == 8 * q)
            || (k == 16 && p == 16 * q) || (k == 32 && p == 32 * q)
    decreases p
  {
    if q < p { RatioCases(p / 2, q); }
  }

  // The table undoes the exclusive-or's change of one in the number of runs.
  lemma TableIs(p: nat, q: nat, runs: nat)
    requires Size(p) && Size(q) && q <= p && 3 <= runs < 32 && Ratio(p, q) - 1 <= runs <= Ratio(p, q) + 1
    requires !(runs == 3 && p == 4 * q)
    ensures BigToSmallSize(runs) >= 0 && ShiftDown(p, BigToSmallSize(runs)) == q
  {
    RatioCases(p, q);
    ShiftDownValues(p);
    hide Ratio, ShiftDown;
  }

  lemma RunsOf(imm: Word, p: nat)
    requires Smallest(imm, p)
    ensures p <= 64 && RunCount(imm, p) == Popcount(And(RunStarts(imm), Ones(p))) < 32
  {
    hide And, Ones, RunStarts, Periodic, Popcount;
    var s := RunStarts(imm);
    var m := And(s, Ones(p));
    assert m[..p] == s[..p] && m == m[..p] + m[p..];
    PopcountConcat(m[..p], m[p..]);
    PopcountZeros(m[p..]);
    RunsInRange(imm, p);
  }

  // Some pair of patterns agrees with the size the table gives; two runs need no second size.
  ghost predicate Splits(imm: Word, p: nat, size: nat) {
    || (p <= 64 && RunCount(imm, p) == 2 && size == p)
    || (p <= 64 && RunCount(imm, p) >= 3
        && exists a: Word, r: int, m: nat, b: Word, s: int, n: nat :: XorOf(imm, p, a, r, m, size, b, s, n))
  }

  lemma TableSplits(imm: Word, p: nat, a: Word, r: int, m: nat, q: nat, b: Word, s: int, n: nat) returns (size: nat)
    requires XorOf(imm, p, a, r, m, q, b, s, n) && !Logical(imm, 64) && imm != ZERO && imm != Not(ZERO)
    ensures Size(p) && Periodic(imm, p, 64) && SmallSize(imm, size) && Splits(imm, p, size)
  {
    hide *;
    XorFacts(imm, p, a, r, m, q, b, s, n);
    RunsNearRatio(imm, p, a, r, m, q, b, s, n);
    AtLeastTwo(imm, p);
    OneRatio(p, q);
    PeriodIsSmallest(imm, p, a, r, m, q, b, s, n);
    RunsOf(imm, p);
    var runs := RunCount(imm, p);
    if runs == 2 {
      size := p;
      TwoShift(p);
      IsSmallSize(imm, p, p);
      TwoSplit(imm, p);
    } else if runs == 3 && p == 4 * q {
      FourRatio(p, q);
      var a', r', m', b', s', n' := Halved(imm, p, a, r, m, q, b, s, n);
      size := 2 * q;
      XorFacts(imm, p, a', r', m', size, b', s', n');
      HalfRatio(p, size);
      TableIs(p, size, 3);
      IsSmallSize(imm, p, size);
      PairSplit(imm, p, a', r', m', size, b', s', n');
    } else {
      size := q;
      TableIs(p, q, runs);
      IsSmallSize(imm, p, size);
      PairSplit(imm, p, a, r, m, q, b, s, n);
    }
  }

  lemma AtLeastTwo(imm: Word, p: nat)
    requires Size(p) && Periodic(imm, p, 64) && !Logical(imm, 64) && imm != ZERO && imm != Not(ZERO)
    ensures p <= 64 && RunCount(imm, p) >= 2
  {
    hide RunCount, Periodic, Logical, Single;
    NonConstant(imm, p);
    if RunCount(imm, p) == 1 {
      var lo, n := OneCount(imm, p);
      SingleLogical(imm, p, lo, n);
    }
  }

  lemma OneRatio(p: nat, q: nat)
    ensures p == q ==> Ratio(p, q) == 1
  {
  }

  lemma FourRatio(p: nat, q: nat)
    requires q > 0
    ensures p == 4 * q ==> Ratio(p, q) == 4
  {
    assert p == 4 * q ==> Ratio(p, q) == 2 * Ratio(p / 2, q) && Ratio(p / 2, q) == 2 * Ratio(p / 4, q);
  }

  lemma HalfRatio(p: nat, q: nat)
    requires q > 0
    ensures p == 2 * q ==> Ratio(p, q) == 2
  {
  }

  lemma TwoShift(p: nat)
    ensures BigToSmallSize(2) == 0 && ShiftDown(p, 0) == p
  {
  }

  lemma IsSmallSize(imm: Word, p: nat, size: nat)
    requires Smallest(imm, p) && p <= 64 && RunCount(imm, p) == Popcount(And(RunStarts(imm), Ones(p))) < 32
    requires BigToSmallSize(RunCount(imm, p)) >= 0 && size == ShiftDown(p, BigToSmallSize(RunCount(imm, p)))
    ensures SmallSize(imm, size)
  {
    hide RunCount, Popcount, RunStarts, And, Ones, BigToSmallSize, ShiftDown, Periodic;
  }

  lemma TwoSplit(imm: Word, p: nat)
    requires p <= 64 && RunCount(imm, p) == 2
    ensures Splits(imm, p, p)
  {
    hide RunCount;
  }

  lemma PairSplit(imm: Word, p: nat, a: Word, r: int, m: nat, q: nat, b: Word, s: int, n: nat)
    requires p <= 64 && RunCount(imm, p) >= 3 && XorOf(imm, p, a, r, m, q, b, s, n)
    ensures Splits(imm, p, q)
  {
    hide RunCount, XorOf;
  }

  // ----- Where the attempts look -----

  lemma FirstStart(imm: Word, w: int)
    requires Start(imm, w)
    ensures Start(imm, Rotations(RunStarts(imm), 0))
  {
    ModPeriods(w, 64, 0);
    assert (w - 1) % 64 == if w % 64 > 0 then w % 64 - 1 else 63;
    assert RunStarts(imm)[w % 64];
    StartBit(imm, CountrZero(RunStarts(imm)));
  }

  lemma StartsAt(imm: Word, lo: nat, j: nat)
    requires j < 64
    ensures Rotr(RunStarts(imm), lo)[j] == Start(imm, lo + j)
  {
    hide RunStarts, Start, Rotr;
    var k := (lo + j) % 64;
    SameRotation(RunStarts(imm), lo);
    RotrAt(RunStarts(imm), lo, j);
    StartBit(imm, k);
    FullPeriod(imm);
    ModOfMod(lo + j, 64, 64);
    EdgeSame(imm, 64, lo + j, k);
  }

  lemma FullPeriod(x: Word)
    ensures Size(64) && Periodic(x, 64, 64)
  {
  }

  lemma SameRotation(x: Word, lo: nat)
    ensures Rotr(x, lo) == Rotr(x, lo % 64)
  {
  }

  lemma NextRotationIs(imm: Word, k: nat, w: int)
    requires var lo := Rotations(RunStarts(imm), k); Start(imm, w) && lo < w < lo + 64
    ensures NextStart(imm, Rotations(RunStarts(imm), k), Rotations(RunStarts(imm), k + 1))
  {
    hide Start, RunStarts, Rotr;
    NextRotation(RunStarts(imm), k);
    var lo := Rotations(RunStarts(imm), k);
    hide Rotations;
    var y := And(Rotr(RunStarts(imm), lo), Not(ONE));
    forall j | 0 <= j < 64 ensures y[j] == (j > 0 && Start(imm, lo + j)) { StartsAt(imm, lo, j); }
    var t := CountrZero(y);
    assert y[w - lo];
    forall i | lo < i < lo + t ensures !Start(imm, i) { assert !y[i - lo]; }
  }

  lemma RunAtRotation(imm: Word, rotation: nat) returns (n: nat)
    requires Start(imm, rotation)
    ensures RunAt(imm, rotation, n) && n == CountrOne(Rotr(imm, rotation)) < 64
  {
    hide At, RunAt, CountLow;
    n := RunHere(imm, rotation);
    assert Rotr(imm, rotation) == Rotr(imm, rotation % 64);
  }

  // A run that works is an attempt that succeeds.
  lemma WorksSplits(imm: Word, size: nat, k: nat, n: nat)
    requires Size(size) && Log2(size) <= 6 && n == CountrOne(Rotr(imm, Rotations(RunStarts(imm), k))) < 64
    requires Works(imm, size, Rotations(RunStarts(imm), k), n)
    ensures EorSplits(imm, size, k)
  {
    var r := Rotations(RunStarts(imm), k);
    hide Rotations, RunStarts, Logical, Single, Rotr, CountLow, CountrOne, Rotl, Sub, Shl, RepeatedOnes;
    CandidateIs(size, n, r);
    SmallIsLogical(size, n, r);
  }

  lemma FirstStarts(imm: Word, p: nat)
    requires Size(p) && Periodic(imm, p, 64) && p <= 64 && RunCount(imm, p) >= 2
    ensures var r0, r1 := Rotations(RunStarts(imm), 0), Rotations(RunStarts(imm), 1); Start(imm, r0) && NextStart(imm, r0, r1)
  {
    hide *;
    SizeBounds(p);
    var w0 := SecondStart(imm, p, 0);
    FirstStart(imm, w0);
    var w1 := SecondStart(imm, p, Rotations(RunStarts(imm), 0));
    NextRotationIs(imm, 0, w1);
  }

  // The first two attempts begin at consecutive runs.
  lemma FirstTwo(imm: Word, p: nat) returns (n0: nat, n1: nat)
    requires Size(p) && Periodic(imm, p, 64) && p <= 64 && RunCount(imm, p) >= 2
    ensures var r0, r1 := Rotations(RunStarts(imm), 0), Rotations(RunStarts(imm), 1);
            && Start(imm, r0) && NextStart(imm, r0, r1) && r0 + n0 < r1
            && RunAt(imm, r0, n0) && n0 == CountrOne(Rotr(imm, r0)) < 64
            && RunAt(imm, r1, n1) && n1 == CountrOne(Rotr(imm, r1)) < 64
  {
    hide *;
    var r0, r1 := Rotations(RunStarts(imm), 0), Rotations(RunStarts(imm), 1);
    FirstStarts(imm, p);
    StartNext(imm, r0, r1);
    n0 := RunAtRotation(imm, r0);
    n1 := RunAtRotation(imm, r1);
    RunEndsBefore(imm, r0, n0, r1);
  }

  lemma SizeBounds(p: nat)
    requires Size(p)
    ensures 2 <= p <= 64
  {
  }

  // With two runs a period the first attempt succeeds ...
  lemma TwoFound(imm: Word, p: nat)
    requires Size(p) && Periodic(imm, p, 64) && p <= 64 && RunCount(imm, p) == 2
    ensures Log2(p) <= 6 && EorSplits(imm, p, 0)
  {
    hide *;
    var r0, r1 := Rotations(RunStarts(imm), 0), Rotations(RunStarts(imm), 1);
    var n0, n1 := FirstTwo(imm, p);
    NoThirdStart(imm, p, r0, r1);
    LogSmall(p);
    StartNext(imm, r0, r1);
    CopyStart(imm, p, r0);
    RunEndsBefore(imm, r1, n1, r0 + p);
    OneOfTwo(imm, p, r0, n0, r1, n1);
    WorksSplits(imm, p, 0, n0);
  }

  // ... and with more, one of the three does.
  lemma ThreeFound(imm: Word, p: nat, a: Word, r: int, m: nat, size: nat, b: Word, s: int, n: nat) returns (k: nat)
    requires XorOf(imm, p, a, r, m, size, b, s, n) && p <= 64 && RunCount(imm, p) >= 3
    ensures k < 3 && Size(size) && Log2(size) <= 6 && EorSplits(imm, size, k)
  {
    hide *;
    XorFacts(imm, p, a, r, m, size, b, s, n);
    LogSmall(size);
    var r0, r1, r2 := Rotations(RunStarts(imm), 0), Rotations(RunStarts(imm), 1), Rotations(RunStarts(imm), 2);
    var n0, n1 := FirstTwo(imm, p);
    var n2 := ThirdRun(imm, p, n1);
    OneOfThree(imm, p, a, r, m, size, b, s, n, r0, n0, r1, n1, r2, n2);
    if Works(imm, size, r0, n0) {
      k := 0;
      WorksSplits(imm, size, 0, n0);
    } else if Works(imm, size, r1, n1) {
      k := 1;
      WorksSplits(imm, size, 1, n1);
    } else {
      k := 2;
      WorksSplits(imm, size, 2, n2);
    }
  }

  lemma ThirdRun(imm: Word, p: nat, n1: nat) returns (n2: nat)
    requires Size(p) && Periodic(imm, p, 64) && p <= 64 && RunCount(imm, p) >= 3
    requires var r0, r1 := Rotations(RunStarts(imm), 0), Rotations(RunStarts(imm), 1);
             Start(imm, r0) && NextStart(imm, r0, r1) && RunAt(imm, r1, n1)
    ensures var r0, r1, r2 := Rotations(RunStarts(imm), 0), Rotations(RunStarts(imm), 1), Rotations(RunStarts(imm), 2);
            r1 + n1 < r2 && r2 + n2 < r0 + p && RunAt(imm, r2, n2) && n2 == CountrOne(Rotr(imm, r2)) < 64
  {
    hide *;
    SizeBounds(p);
    var r0, r1, r2 := Rotations(RunStarts(imm), 0), Rotations(RunStarts(imm), 1), Rotations(RunStarts(imm), 2);
    StartNext(imm, r0, r1);
    var w2 := SecondStart(imm, p, r1);
    NextRotationIs(imm, 1, w2);
    StartNext(imm, r1, r2);
    ThirdStart(imm, p, r0, r1, r2);
    n2 := RunAtRotation(imm, r2);
    RunEndsBefore(imm, r1, n1, r2);
    CopyStart(imm, p, r0);
    RunEndsBefore(imm, r2, n2, r0 + p);
  }

  lemma SplitsFound(imm: Word, p: nat, size: nat) returns (k: nat)
    requires Size(p) && Periodic(imm, p, 64) && Splits(imm, p, size)
    ensures k < 3 && Size(size) && Log2(size) <= 6 && EorSplits(imm, size, k)
  {
    hide *;
    SplitsTwo(imm, p, size);
    if RunCount(imm, p) == 2 {
      k := 0;
      SplitsSize(imm, p, size);
      TwoFound(imm, p);
    } else {
      var a, r, m, b, s, n := SplitsPair(imm, p, size);
      k := ThreeFound(imm, p, a, r, m, size, b, s, n);
    }
  }

  lemma CopyStart(imm: Word, p: nat, lo: int)
    requires Size(p) && Periodic(imm, p, 64) && Start(imm, lo)
    ensures Start(imm, lo + p)
  {
    hide Start, Periodic;
    ModPeriods(lo, p, 1);
    EdgeSame(imm, p, lo, lo + p);
  }

  lemma StartNext(imm: Word, lo: int, hi: int)
    requires NextStart(imm, lo, hi)
    ensures lo < hi && Start(imm, hi) && NoStart(imm, lo, hi)
  {
  }

  lemma SplitsTwo(imm: Word, p: nat, size: nat)
    requires Size(p) && Splits(imm, p, size)
    ensures 2 <= p <= 64 && RunCount(imm, p) >= 2
  {
    hide RunCount;
  }

  lemma SplitsSize(imm: Word, p: nat, size: nat)
    requires Splits(imm, p, size) && p <= 64 && RunCount(imm, p) == 2
    ensures size == p
  {
    hide RunCount;
  }

  lemma SplitsPair(imm: Word, p: nat, size: nat) returns (a: Word, r: int, m: nat, b: Word, s: int, n: nat)
    requires Splits(imm, p, size) && p <= 64 && RunCount(imm, p) != 2
    ensures XorOf(imm, p, a, r, m, size, b, s, n)
  {
    hide RunCount, XorOf;
    a, r, m, b, s, n :| XorOf(imm, p, a, r, m, size, b, s, n);
  }

  // The main result: whatever two bitmask immediates give by exclusive-or, one of the three attempts finds.
  lemma AttemptsComplete(imm: Word)
    requires !Logical(imm, 64) && imm != ZERO && imm != Not(ZERO)
    ensures EorPair(imm) <==>
            exists size: nat, k: nat | k < 3 && Log2(size) <= 6 :: SmallSize(imm, size) && EorSplits(imm, size, k)
  {
    hide *;
    if EorPair(imm) {
      var p, a, r, m, q, b, s, n := PairXorOf(imm);
      var size := TableSplits(imm, p, a, r, m, q, b, s, n);
      var k := SplitsFound(imm, p, size);
    }
    if size: nat, k: nat :| k < 3 && Log2(size) <= 6 && SmallSize(imm, size) && EorSplits(imm, size, k) {
      SplitIsPair(imm, size, k);
    }
  }

  lemma SplitIsPair(imm: Word, size: nat, k: nat)
    requires Log2(size) <= 6 && EorSplits(imm, size, k)
    ensures EorPair(imm)
  {
    hide Logical, SmallCandidate;
    var small := SmallCandidate(imm, RepeatedOnes(Log2(size)), Rotations(RunStarts(imm), k));
    XorBack(imm, small);
    IsEorPair(imm, small, Xor(imm, small));
  }

  method TryEorOfLogicalImmediates(imm: Word, insn: InsnVector) returns (ok: bool)
    requires imm != Not(ZERO) && insn.insns == []
    modifies insn
    ensures ok ==> Builds(insn.insns, imm) && |insn.insns| == 2
    ensures !ok ==> insn.insns == []
    ensures ok <==> exists size: nat, k: nat | k < 3 && Log2(size) <= 6 :: SmallSize(imm, size) && EorSplits(imm, size, k)
    ensures imm != ZERO && !Logical(imm, 64) ==> (ok <==> EorPair(imm))
  {
    hide *;
    if imm != ZERO && !Logical(imm, 64) { AttemptsComplete(imm); }
    var bigSize := FindElementSize(imm, 64);
    var runStarts := RunStarts(imm);
    OneSmallSize(imm, bigSize);
    var runsPerBigChunk := Popcount(And(runStarts, Ones(bigSize)));
    RunsInRange(imm, bigSize);
    var bigToSmallShift := BigToSmallSize(runsPerBigChunk);
    if bigToSmallShift == -1 {
      return false;
    }
    var smallSize := ShiftDown(bigSize, bigToSmallShift);
    SmallSizeInRange(bigSize, runsPerBigChunk);
    var smallOnes := RepeatedOnes(Log2(smallSize));
    var rotation: nat := CountrZero(runStarts);
    FirstRotation(runStarts);
    var rotated := Rotr(imm, rotation);
    var attempt := 0;
    while attempt < 3
      invariant insn.insns == []
      invariant rotated == Rotr(imm, rotation) && rotation == Rotations(runStarts, attempt) && attempt <= 3
      invariant forall k: nat | k < attempt :: !EorSplits(imm, smallSize, k)
    {
      var runLength := CountrOne(rotated);
      RunLengthInRange(imm, rotation);
      var smallImm := Rotl(Sub(Shl(smallOnes, runLength), smallOnes), rotation);
      SplitsIs(imm, smallSize, attempt);
      var bigImm := Xor(imm, smallImm);
      var bigEnc := ProcessLogicalImmediate(bigImm, 64);
      var smallEnc := ProcessLogicalImmediate(smallImm, 64);
      if bigEnc.Some? && smallEnc.Some? {
        OrrBuilds(smallEnc.value, smallImm);
        insn.PushBack(ORRXri, ZERO, smallEnc.value);
        assert insn.insns == [ImmInsn(ORRXri, ZERO, smallEnc.value)];
        SecondLogical(insn.insns, smallImm, EORXri, bigEnc.value, bigImm);
        XorBack(imm, smallImm);
        insn.PushBack(EORXri, ONE, bigEnc.value);
        return true;
      }
      NextRotation(runStarts, attempt);
      rotation := rotation + CountrZero(And(Rotr(runStarts, rotation), Not(ONE)));
      rotated := Rotr(imm, rotation);
      attempt := attempt + 1;
    }
    return false;
  }

  lemma FirstRotation(starts: Word)
    ensures Rotations(starts, 0) == CountrZero(starts)
  {
  }

  lemma NextRotation(starts: Word, k: nat)
    ensures var r := Rotations(starts, k); Rotations(starts, k + 1) == r + CountrZero(And(Rotr(starts, r), Not(ONE)))
  {
  }

  lemma SplitsIs(imm: Word, size: nat, k: nat)
    requires Log2(size) <= 6 && imm != Not(ZERO)
    ensures var r := Rotations(RunStarts(imm), k);
            var n := CountrOne(Rotr(imm, r));
            n < 64 &&
            var small := Rotl(Sub(Shl(RepeatedOnes(Log2(size)), n), RepeatedOnes(Log2(size))), r);
            EorSplits(imm, size, k) <==> Logical(small, 64) && Logical(Xor(imm, small), 64)
  {
    hide Rotations, RepeatedOnes, Sub, Shl, Rotl, Rotr, CountrOne, CountLow, Logical, RunStarts, Xor;
    RunLengthInRange(imm, Rotations(RunStarts(imm), k));
  }

  lemma OneSmallSize(imm: Word, big: nat)
    requires ElementSize(big, 64) && Periodic(imm, big, 64) && (big == 2 || !Periodic(imm, big / 2, big))
    ensures var runs := Popcount(And(RunStarts(imm), Ones(big)));
            runs < 32 && forall size: nat :: SmallSize(imm, size) <==>
              BigToSmallSize(runs) >= 0 && size == ShiftDown(big, BigToSmallSize(runs))
  {
    hide Popcount, RunStarts, Periodic, BigToSmallSize, ShiftDown, And, Ones;
    RunsInRange(imm, big);
    var runs := Popcount(And(RunStarts(imm), Ones(big)));
    forall size: nat ensures SmallSize(imm, size) <==> BigToSmallSize(runs) >= 0 && size == ShiftDown(big, BigToSmallSize(runs)) {
      if SmallSize(imm, size) {
        var b: nat :|
          && ElementSize(b, 64) && Periodic(imm, b, 64) && (b == 2 || !Periodic(imm, b / 2, b))
          && var runs := Popcount(And(RunStarts(imm), Ones(b)));
             runs < 32 && BigToSmallSize(runs) >= 0 && size == ShiftDown(b, BigToSmallSize(runs));
        SmallestPeriod(imm, b, big);
        SmallestPeriod(imm, big, b);
      }
    }
  }

  lemma RunLengthInRange(imm: Word, rotation: nat)
    requires imm != Not(ZERO)
    ensures CountrOne(Rotr(imm, rotation)) < 64
  {
    var i := Difference(imm, Not(ZERO));
    var k := rotation % 64;
    var j := if i >= k then i - k else i + 64 - k;
    assert Rotr(imm, rotation)[j] == imm[i];
  }
}
