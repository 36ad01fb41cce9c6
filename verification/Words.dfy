/** 64-bit machine words as the sequence of their bits, least significant first,
    with the bitwise operations the AArch64 immediate expansion is written in.
    Shift and rotate amounts are plain numbers, as `unsigned` is in the source. */
module Words {

  type Word = w: seq<bool> | |w| == 64 witness seq(64, i => false)

  function And(a: Word, b: Word): (r: Word)
    ensures forall i | 0 <= i < 64 :: r[i] == (a[i] && b[i])
  {
    seq(64, i requires 0 <= i < 64 => a[i] && b[i])
  }

  function Or(a: Word, b: Word): (r: Word)
    ensures forall i | 0 <= i < 64 :: r[i] == (a[i] || b[i])
  {
    seq(64, i requires 0 <= i < 64 => a[i] || b[i])
  }

  function Xor(a: Word, b: Word): (r: Word)
    ensures forall i | 0 <= i < 64 :: r[i] == (a[i] != b[i])
  {
    seq(64, i requires 0 <= i < 64 => a[i] != b[i])
  }

  function Not(a: Word): (r: Word)
    ensures forall i | 0 <= i < 64 :: r[i] == !a[i]
  {
    seq(64, i requires 0 <= i < 64 => !a[i])
  }

  // C leaves a shift by 64 or more undefined, so callers stay below it.
  function Shl(a: Word, k: nat): (r: Word)
    requires k < 64
    ensures forall i | 0 <= i < 64 :: r[i] == (k <= i && a[i - k])
  {
    seq(64, i requires 0 <= i < 64 => k <= i && a[i - k])
  }

  function Shr(a: Word, k: nat): (r: Word)
    requires k < 64
    ensures forall i | 0 <= i < 64 :: r[i] == (i + k < 64 && a[i + k])
  {
    seq(64, i requires 0 <= i < 64 => i + k < 64 && a[i + k])
  }

  // llvm::rotl, defined for every amount.
  function Rotl(a: Word, k: nat): (r: Word)
    ensures forall i | 0 <= i < 64 :: r[i] == if k % 64 <= i then a[i - k % 64] else a[i + 64 - k % 64]
  {
    seq(64, i requires 0 <= i < 64 => if k % 64 <= i then a[i - k % 64] else a[i + 64 - k % 64])
  }

  function Rotr(a: Word, k: nat): (r: Word)
    ensures forall i | 0 <= i < 64 :: r[i] == if i + k % 64 < 64 then a[i + k % 64] else a[i + k % 64 - 64]
  {
    seq(64, i requires 0 <= i < 64 => if i + k % 64 < 64 then a[i + k % 64] else a[i + k % 64 - 64])
  }

  // The word with ones exactly at positions lo <= i < hi.
  function Span(lo: nat, hi: nat): (r: Word)
    ensures forall i | 0 <= i < 64 :: r[i] == (lo <= i < hi)
  {
    seq(64, i => lo <= i < hi)
  }

  const ZERO: Word := Span(0, 0)

  // (1 << n) - 1
  function Ones(n: nat): (r: Word)
    ensures forall i | 0 <= i < 64 :: r[i] == (i < n)
  {
    Span(0, n)
  }

  predicate Within(a: Word, b: Word) {
    And(a, b) == a
  }

  // Number of consecutive bits, from the low end, that equal v.
  function CountLow(a: seq<bool>, v: bool): (r: nat)
    ensures r <= |a|
    ensures forall i | 0 <= i < r :: a[i] == v
    ensures r < |a| ==> a[r] != v
  {
    if a == [] || a[0] != v then 0 else 1 + CountLow(a[1..], v)
  }

  // Number of consecutive bits, from the high end, that equal v.
  function CountHigh(a: seq<bool>, v: bool): (r: nat)
    ensures r <= |a|
    ensures forall i | |a| - r <= i < |a| :: a[i] == v
    ensures r < |a| ==> a[|a| - 1 - r] != v
  {
    if a == [] || a[|a| - 1] != v then 0 else 1 + CountHigh(a[..|a| - 1], v)
  }

  function CountrZero(a: Word): nat { CountLow(a, false) }
  function CountrOne(a: Word): nat { CountLow(a, true) }
  function CountlZero(a: Word): nat { CountHigh(a, false) }
  function CountlOne(a: Word): nat { CountHigh(a, true) }

  // isMask_64: a non-empty run of ones that starts at bit 0.
  predicate IsMask(a: Word) {
    a[0] && a == Ones(CountrOne(a))
  }

  // isShiftedMask_64: one non-empty run of ones, anywhere.
  predicate IsShiftedMask(a: Word) {
    CountrZero(a) < 64 && IsMask(Shr(a, CountrZero(a)))
  }

  lemma CountLowIs(a: seq<bool>, v: bool, r: nat)
    requires r <= |a|
    requires forall i | 0 <= i < r :: a[i] == v
    requires r < |a| ==> a[r] != v
    ensures CountLow(a, v) == r
  {
    var c := CountLow(a, v);
  }

  lemma CountHighIs(a: seq<bool>, v: bool, r: nat)
    requires r <= |a|
    requires forall i | |a| - r <= i < |a| :: a[i] == v
    requires r < |a| ==> a[|a| - 1 - r] != v
    ensures CountHigh(a, v) == r
  {
    var c := CountHigh(a, v);
  }

  lemma ShiftedMaskIsSpan(a: Word)
    requires IsShiftedMask(a)
    ensures var lo, n := CountrZero(a), CountrOne(Shr(a, CountrZero(a)));
            0 < n && lo + n <= 64 && a == Span(lo, lo + n)
  {
    var lo, n := CountrZero(a), CountrOne(Shr(a, CountrZero(a)));
    var s := Shr(a, lo);
    assert s[0] && s == Ones(n);
    assert lo > 0 ==> !s[64 - lo];
    forall i | 0 <= i < 64 ensures a[i] == (lo <= i < lo + n) {
      if lo <= i { assert s[i - lo] == a[i]; }
    }
  }

  lemma SpanIsShiftedMask(lo: nat, hi: nat)
    requires lo < hi <= 64
    ensures IsShiftedMask(Span(lo, hi))
    ensures CountrZero(Span(lo, hi)) == lo && CountrOne(Shr(Span(lo, hi), lo)) == hi - lo
  {
    var s := Shr(Span(lo, hi), lo);
    CountLowIs(Span(lo, hi), false, lo);
    CountLowIs(s, true, hi - lo);
    assert s == Ones(hi - lo);
  }

  lemma RotlRotr(a: Word, k: nat)
    ensures Rotl(Rotr(a, k), k) == a
  {
  }

  lemma RotlStep(a: Word, k: nat)
    requires k < 64
    ensures Rotl(a, k + 1) == Rotl(Rotl(a, k), 1)
  {
    if k + 1 == 64 { assert (k + 1) % 64 == 0; }
  }
}
