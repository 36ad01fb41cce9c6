/** Bitmask immediates of the AArch64 logical instructions: the encoder and decoder of
    MCTargetDesc/AArch64AddressingModes.h, and the set of values they denote. */
module LogicalImm {
  import opened Options
  import opened Words

  // ----- What a bitmask immediate is (DecodeBitMasks, Arm ARM chapter J1) -----

  // Bit i of a p-bit element holding n ones that start at bit r and wrap around.
  predicate InRun(p: nat, n: nat, r: nat, i: int) {
    r <= i < r + n || i < r + n - p
  }

  // Bit i of that element repeated for ever.
  predicate RepBit(p: nat, n: nat, r: nat, i: nat)
    requires 0 < p
  {
    if i < p then InRun(p, n, r, i) else RepBit(p, n, r, i - p)
  }

  predicate ElementSize(p: nat, width: nat) {
    p <= width && (p == 2 || p == 4 || p == 8 || p == 16 || p == 32 || p == 64)
  }

  // Named so that a proof says which bit it steps back from.
  predicate Back(x: Word, i: nat, p: nat) {
    p <= i < 64 ==> x[i] == x[i - p]
  }

  ghost predicate Periodic(x: Word, p: nat, width: nat) {
    forall i: nat {:trigger Back(x, i, p)} | p <= i < width && i < 64 :: Back(x, i, p)
  }

  // x repeats, over its low `width` bits, one p-bit element with a rotated run of n ones.
  ghost predicate IsPattern(x: Word, width: nat, p: nat, n: nat, r: nat) {
    && ElementSize(p, width) && 1 <= n < p && r < p
    && (forall i | 0 <= i < p && i < 64 :: x[i] == InRun(p, n, r, i))
    && Periodic(x, p, width)
    && (forall i | width <= i < 64 :: !x[i])
  }

  ghost predicate Logical(x: Word, width: nat) {
    exists p: nat, n: nat, r: nat :: IsPattern(x, width, p, n, r)
  }

  // ----- Encodings N:immr:imms -----

  // 1 << (31 - countl_zero(v))
  function TopBit(v: nat): nat
    requires v > 0
  {
    if v < 2 then 1 else 2 * TopBit(v / 2)
  }

  function FieldN(enc: nat): nat { enc / 4096 % 2 }
  function FieldR(enc: nat): nat { enc / 64 % 64 }
  function FieldS(enc: nat): nat { enc % 64 }

  // (N << 6) | (~imms & 0x3f)
  function SizeField(enc: nat): nat { 64 * FieldN(enc) + 63 - FieldS(enc) }

  predicate ValidEncoding(enc: nat, width: nat) {
    && (width == 64 || FieldN(enc) == 0)
    && SizeField(enc) > 0
    && var size := TopBit(SizeField(enc));
       0 < size && FieldS(enc) % size != size - 1
  }

  lemma TopBitIs(v: nat, s: nat)
    requires s == 1 || s == 2 || s == 4 || s == 8 || s == 16 || s == 32 || s == 64
    requires s <= v < 2 * s
    ensures TopBit(v) == s
  {
    if s > 1 { TopBitIs(v / 2, s / 2); }
  }

  lemma TopBitRange(v: nat) returns (s: nat)
    requires 0 < v < 128
    ensures s == 1 || s == 2 || s == 4 || s == 8 || s == 16 || s == 32 || s == 64
    ensures s <= v < 2 * s && TopBit(v) == s
  {
    s := if v < 2 then 1 else if v < 4 then 2 else if v < 8 then 4 else if v < 16 then 8
         else if v < 32 then 16 else if v < 64 then 32 else 64;
    TopBitIs(v, s);
  }

  // The value an encoding denotes: the element ROR(Ones(S + 1), R), replicated.
  function DecodeBitMasks(enc: nat, width: nat): (x: Word)
    requires ValidEncoding(enc, width)
  {
    var size := TopBit(SizeField(enc));
    var R := FieldR(enc) % size;
    var S := FieldS(enc) % size;
    seq(64, i requires 0 <= i => i < width && RepBit(size, S + 1, if R == 0 then 0 else size - R, i))
  }

  // One right rotation inside a size-bit element (the header's `ror`).
  function Ror(elt: Word, size: nat): Word
    requires 1 <= size <= 64
  {
    Or(Shl(And(elt, Ones(1)), size - 1), Shr(elt, 1))
  }

  // A pattern is determined by its element.
  lemma {:induction false} PatternBit(x: Word, width: nat, p: nat, n: nat, r: nat, i: nat)
    requires IsPattern(x, width, p, n, r) && i < width && i < 64
    ensures x[i] == RepBit(p, n, r, i)
  {
    if i >= p {
      assert Back(x, i, p);
      PatternBit(x, width, p, n, r, i - p);
    }
  }

  lemma PatternUnique(x: Word, y: Word, width: nat, p: nat, n: nat, r: nat)
    requires IsPattern(x, width, p, n, r) && IsPattern(y, width, p, n, r)
    ensures x == y
  {
    forall i | 0 <= i < 64 ensures x[i] == y[i] {
      if i < width {
        PatternBit(x, width, p, n, r, i);
        PatternBit(y, width, p, n, r, i);
      }
    }
  }

  // Every valid encoding denotes a bitmask immediate, with the element its fields name.
  lemma DecodedIsPattern(enc: nat, width: nat) returns (size: nat)
    requires (width == 32 || width == 64) && ValidEncoding(enc, width)
    ensures size == TopBit(SizeField(enc)) && size > 0
    ensures var R := FieldR(enc) % size;
            IsPattern(DecodeBitMasks(enc, width), width, size, FieldS(enc) % size + 1, if R == 0 then 0 else size - R)
  {
    size := TopBitRange(SizeField(enc));
    assert size != 1 by { assert FieldS(enc) % 1 == 0; }
    assert FieldN(enc) == 0 ==> size <= 32;
    assert FieldN(enc) == 1 ==> size == 64;
    var R := FieldR(enc) % size;
    var x, n, r := DecodeBitMasks(enc, width), FieldS(enc) % size + 1, if R == 0 then 0 else size - R;
    assert ElementSize(size, width);
    assert 1 <= n < size && r < size;
    forall i | 0 <= i < size ensures x[i] == InRun(size, n, r, i) {
      assert x[i] == RepBit(size, n, r, i);
    }
    forall i: nat | size <= i < width ensures Back(x, i, size) {
      assert x[i] == RepBit(size, n, r, i);
    }
  }

  method RotateElement(elt: Word, size: nat, n: nat, R: nat) returns (pattern: Word)
    requires 2 <= size <= 64 && 1 <= n < size && R < size
    requires elt == Ones(n)
    ensures forall i | 0 <= i < 64 :: pattern[i] == (i < size && InRun(size, n, if R == 0 then 0 else size - R, i))
  {
    pattern := elt;
    for k := 0 to R
      invariant forall i | 0 <= i < 64 ::
        pattern[i] == (i < size && InRun(size, n, if k == 0 then 0 else size - k, i))
    {
      pattern := Ror(pattern, size);
    }
  }

  method ReplicateElement(elt: Word, elem: nat, regSize: nat, ghost n: nat, ghost r: nat) returns (pattern: Word)
    requires (regSize == 32 || regSize == 64) && ElementSize(elem, regSize) && 1 <= n < elem && r < elem
    requires forall i | 0 <= i < 64 :: elt[i] == (i < elem && InRun(elem, n, r, i))
    ensures IsPattern(pattern, regSize, elem, n, r)
  {
    var size := elem;
    pattern := elt;
    while size != regSize
      invariant elem <= size && ElementSize(size, regSize)
      invariant forall i | 0 <= i < elem :: pattern[i] == InRun(elem, n, r, i)
      invariant Periodic(pattern, elem, size)
      invariant forall j | 0 <= j < elem :: pattern[j + (size - elem)] == pattern[j]
      invariant forall i | size <= i < 64 :: !pattern[i]
      decreases regSize - size
    {
      pattern := DoublePattern(pattern, elem, size);
      size := 2 * size;
    }
  }

  // pattern |= pattern << size keeps the period and ends in a copy of the element.
  function DoublePattern(pattern: Word, elem: nat, size: nat): (q: Word)
    requires 0 < elem <= size <= 32
    requires Periodic(pattern, elem, size)
    requires forall j | 0 <= j < elem :: pattern[j + (size - elem)] == pattern[j]
    requires forall i | size <= i < 64 :: !pattern[i]
    ensures Periodic(q, elem, 2 * size)
    ensures forall i | 0 <= i < size :: q[i] == pattern[i]
    ensures forall j | 0 <= j < elem :: q[j + (2 * size - elem)] == q[j]
    ensures forall i | 2 * size <= i < 64 :: !q[i]
  {
    var q := Or(pattern, Shl(pattern, size));
    assert forall i | size <= i < 2 * size :: q[i] == pattern[i - size];
    assert Periodic(q, elem, 2 * size) by {
      forall i: nat | elem <= i < 2 * size ensures Back(q, i, elem) {
        if i < size { assert Back(pattern, i, elem); }
        if size + elem <= i { assert Back(pattern, i - size, elem); }
        if size <= i < size + elem {
          var j := i - size;
          assert pattern[j + (size - elem)] == pattern[j];
        }
      }
    }
    q
  }

  // decodeLogicalImmediate: R single rotations, then doubling up to the register size.
  method DecodeLogicalImmediate(enc: nat, regSize: nat) returns (pattern: Word)
    requires regSize == 32 || regSize == 64
    requires ValidEncoding(enc, regSize)
    ensures pattern == DecodeBitMasks(enc, regSize)
  {
    ghost var elem := DecodedIsPattern(enc, regSize);
    var size := TopBit(SizeField(enc));
    var R := FieldR(enc) % size;
    var S := FieldS(enc) % size;
    ghost var r := if R == 0 then 0 else size - R;
    pattern := RotateElement(Ones(S + 1), size, S + 1, R);
    pattern := ReplicateElement(pattern, size, regSize, S + 1, r);
    PatternUnique(pattern, DecodeBitMasks(enc, regSize), regSize, size, S + 1, r);
  }

  // ----- The encoder -----

  // The N:immr:imms word for an element of `size` bits. NImms is kept to its low seven bits, all that is
  // used: ~(Size - 1) << 1 is 128 - 2 * Size there, and CTO - 1 < Size shares no bit with it.
  function EncodeFields(size: nat, I: nat, CTO: nat): nat
    requires 0 < size <= 64 && I <= size && 1 <= CTO
  {
    var immr := (size - I) % size;
    var nimms := 128 - 2 * size + (CTO - 1);
    var N := 1 - nimms / 64 % 2;
    N * 4096 + immr * 64 + nimms % 64
  }

  lemma EncodeFieldsDecodes(width: nat, size: nat, I: nat, CTO: nat)
    requires (width == 32 || width == 64) && ElementSize(size, width) && I < size && 1 <= CTO < size
    ensures var enc := EncodeFields(size, I, CTO);
            && ValidEncoding(enc, width) && TopBit(SizeField(enc)) == size
            && FieldS(enc) % size + 1 == CTO
            && FieldR(enc) % size == if I == 0 then 0 else size - I
  {
    var enc := EncodeFields(size, I, CTO);
    EncodedFields(size, I, CTO);
    TopBitIs(SizeField(enc), size);
    SmallRemainders(size, I, CTO);
  }

  lemma EncodedFields(size: nat, I: nat, CTO: nat)
    requires ElementSize(size, 64) && I < size && 1 <= CTO < size
    ensures var enc := EncodeFields(size, I, CTO);
            && FieldN(enc) == (if size == 64 then 1 else 0)
            && FieldS(enc) == (if size == 64 then CTO - 1 else 64 - 2 * size + CTO - 1)
            && FieldR(enc) == (if I == 0 then 0 else size - I)
            && size <= SizeField(enc) < 2 * size
  {
    hide FieldN, FieldR, FieldS, ElementSize;
    EncodedIs(size, I, CTO);
    PackFields(if size == 64 then 1 else 0, if I == 0 then 0 else size - I, if size == 64 then CTO - 1 else 64 - 2 * size + CTO - 1);
  }

  lemma EncodedIs(size: nat, I: nat, CTO: nat)
    requires ElementSize(size, 64) && I < size && 1 <= CTO < size
    ensures size <= 64 && (size < 64 ==> size <= 32)
    ensures EncodeFields(size, I, CTO) == (if size == 64 then 1 else 0) * 4096 + (if I == 0 then 0 else size - I) * 64
                                          + if size == 64 then CTO - 1 else 64 - 2 * size + CTO - 1
  {
    SmallRemainders(size, I, CTO);
    SplitNImms(size, CTO);
  }

  lemma SplitNImms(size: nat, CTO: nat)
    requires ElementSize(size, 64) && 1 <= CTO < size
    ensures var nimms := 128 - 2 * size + (CTO - 1);
            if size == 64 then nimms / 64 == 0 && nimms % 64 == CTO - 1
            else nimms / 64 == 1 && nimms % 64 == 64 - 2 * size + CTO - 1
  {
  }

  lemma PackFields(N: nat, immr: nat, imms: nat)
    requires N < 2 && immr < 64 && imms < 64
    ensures var enc := N * 4096 + immr * 64 + imms;
            FieldN(enc) == N && FieldR(enc) == immr && FieldS(enc) == imms
  {
  }

  lemma SmallRemainders(size: nat, I: nat, CTO: nat)
    requires ElementSize(size, 64) && I < size && 1 <= CTO < size
    ensures (size - I) % size == if I == 0 then 0 else size - I
    ensures (if I == 0 then 0 else size - I) % size == if I == 0 then 0 else size - I
    ensures (CTO - 1) % size == CTO - 1
    ensures size < 64 ==> (64 - 2 * size + CTO - 1) % size == CTO - 1
  {
    if size == 2 {} else if size == 4 {} else if size == 8 {} else if size == 16 {} else if size == 32 {} else {}
  }

  predicate HalvesEqual(imm: Word, size: nat)
    requires size <= 32
  {
    And(imm, Ones(size)) == And(Shr(imm, size), Ones(size))
  }

  lemma HalvesEqualBits(imm: Word, size: nat)
    requires size <= 32
    ensures HalvesEqual(imm, size) <==> Periodic(imm, size, 2 * size)
  {
    var a, b := And(imm, Ones(size)), And(Shr(imm, size), Ones(size));
    assert forall i | 0 <= i < size :: a[i] == imm[i] && b[i] == imm[i + size];
    if a == b {
      forall i: nat | size <= i < 2 * size ensures Back(imm, i, size) { assert a[i - size] == b[i - size]; }
    }
    if Periodic(imm, size, 2 * size) {
      forall i | 0 <= i < 64 ensures a[i] == b[i] { if i < size { assert Back(imm, i + size, size); } }
    }
  }

  // Halving a period that has equal halves.
  lemma {:induction false} HalvePeriod(x: Word, s: nat, width: nat, i: nat)
    requires 0 < s && Periodic(x, 2 * s, width) && s <= i < width <= 64
    requires Periodic(x, s, 2 * s)
    ensures x[i] == x[i - s]
  {
    if i >= 2 * s { assert Back(x, i, 2 * s); }
    if i >= 3 * s {
      assert Back(x, i - s, 2 * s);
      HalvePeriod(x, s, width, i - 2 * s);
    } else if i < 2 * s {
      assert Back(x, i, s);
    } else {
      assert Back(x, i - s, s);
    }
  }

  lemma DoublePeriod(x: Word, s: nat, width: nat)
    requires 0 < s && Periodic(x, s, width) && width <= 64
    ensures Periodic(x, 2 * s, width)
  {
    forall i: nat | 2 * s <= i < width ensures Back(x, i, 2 * s) {
      assert Back(x, i, s) && Back(x, i - s, s);
    }
  }

  // A single rotated run is not periodic at half its element, so the smallest period is the element.
  lemma RunHalvesDiffer(x: Word, width: nat, p: nat, n: nat, r: nat)
    requires IsPattern(x, width, p, n, r) && width <= 64
    ensures !Periodic(x, p / 2, p) && !Periodic(x, p / 2, width)
  {
    var h := p / 2;
    assert p == 2 * h;
    var one := if n <= h then r else if r > 0 then r - 1 else p - 1;   // one end of the run
    var j := if one < h then one else one - h;
    assert InRun(p, n, r, j) != InRun(p, n, r, j + h);
    assert x[j] != x[j + h];
    assert !Back(x, j + h, h);
  }

  lemma PeriodTooSmall(x: Word, width: nat, p: nat, n: nat, r: nat, s: nat)
    requires IsPattern(x, width, p, n, r) && (width == 32 || width == 64) && ElementSize(s, width) && s < p
    ensures !Periodic(x, s, width)
    decreases p - s
  {
    if 2 * s == p {
      RunHalvesDiffer(x, width, p, n, r);
    } else if Periodic(x, s, width) {
      DoublePeriod(x, s, width);
      PeriodTooSmall(x, width, p, n, r, 2 * s);
    }
  }

  lemma PeriodicUp(x: Word, width: nat, p: nat, s: nat)
    requires (width == 32 || width == 64) && ElementSize(p, width) && ElementSize(s, width) && p <= s
    requires Periodic(x, p, width)
    ensures Periodic(x, s, width)
    decreases s - p
  {
    if p < s {
      DoublePeriod(x, p, width);
      PeriodicUp(x, width, 2 * p, s);
    }
  }

  lemma PeriodicNarrow(x: Word, p: nat, small: nat, width: nat)
    requires Periodic(x, p, width) && small <= width
    ensures Periodic(x, p, small)
  {
    forall i: nat | p <= i < small && i < 64 ensures Back(x, i, p) {}
  }

  // The do-while search for the element size: the smallest power of two the value repeats at.
  method FindElementSize(imm: Word, regSize: nat) returns (size: nat)
    requires regSize == 32 || regSize == 64
    ensures ElementSize(size, regSize) && Periodic(imm, size, regSize)
    ensures forall p: nat, n: nat, r: nat :: IsPattern(imm, regSize, p, n, r) ==> p == size
    ensures size == 2 || !Periodic(imm, size / 2, size)
  {
    size := regSize;
    while true
      invariant ElementSize(size, regSize) && 2 < size
      invariant Periodic(imm, size, regSize)
      decreases size
    {
      size := size / 2;
      HalvesEqualBits(imm, size);
      if !HalvesEqual(imm, size) {
        size := size * 2;
        forall p: nat, n: nat, r: nat | IsPattern(imm, regSize, p, n, r) ensures p == size {
          if p > size {
            PeriodTooSmall(imm, regSize, p, n, r, size);
          } else if p < size {
            PeriodicUp(imm, regSize, p, size / 2);
            PeriodicNarrow(imm, size / 2, size, regSize);
          }
        }
        break;
      }
      forall i: nat | size <= i < regSize ensures Back(imm, i, size) {
        HalvePeriod(imm, size, regSize, i);
      }
      if size <= 2 {
        forall p: nat, n: nat, r: nat | IsPattern(imm, regSize, p, n, r) ensures p == size {
          if p > size { PeriodTooSmall(imm, regSize, p, n, r, size); }
        }
        break;
      }
    }
  }

  // The values the encoder rejects before looking for an element.
  predicate Degenerate(imm: Word, regSize: nat)
    requires regSize == 32 || regSize == 64
  {
    imm == ZERO || imm == Not(ZERO)
    || (regSize != 64 && (Shr(imm, regSize) != ZERO || imm == Shr(Not(ZERO), 64 - regSize)))
  }

  lemma DegenerateBits(imm: Word, regSize: nat)
    requires regSize == 32 || regSize == 64
    ensures !Degenerate(imm, regSize) ==>
      (exists i | 0 <= i < regSize :: imm[i]) && (exists i | 0 <= i < regSize :: !imm[i]) && forall i | regSize <= i < 64 :: !imm[i]
  {
    if !Degenerate(imm, regSize) {
      forall i | regSize <= i < 64 ensures !imm[i] {
        assert imm[i] == Shr(imm, 32)[i - 32] == ZERO[i - 32];
      }
      var full := Ones(regSize);
      assert full == if regSize == 64 then Not(ZERO) else Shr(Not(ZERO), 32);
      var i := Difference(imm, ZERO);
      var j := Difference(imm, full);
    }
  }

  lemma Difference(a: Word, b: Word) returns (i: nat)
    requires a != b
    ensures i < 64 && a[i] != b[i]
  {
    i :| 0 <= i < 64 && a[i] != b[i];
  }

  lemma DegenerateNotLogical(imm: Word, regSize: nat)
    requires (regSize == 32 || regSize == 64) && Degenerate(imm, regSize)
    ensures !Logical(imm, regSize)
  {
    if p: nat, n: nat, r: nat :| IsPattern(imm, regSize, p, n, r) {
      assert imm[r] by { assert InRun(p, n, r, r); }
      var z := if r > 0 then r - 1 else p - 1;
      assert !imm[z] by { assert !InRun(p, n, r, z); }
      if regSize == 32 {
        assert Shr(imm, 32) == ZERO;
        assert !Shr(Not(ZERO), 32)[z] || !imm[z];
      }
    }
  }

  // A value that is constant over its element is constant over the register.
  lemma {:induction false} ConstantElement(imm: Word, regSize: nat, size: nat, v: bool, i: nat)
    requires regSize <= 64 && 0 < size && Periodic(imm, size, regSize)
    requires forall j | 0 <= j < size && j < 64 :: imm[j] == v
    requires i < regSize
    ensures imm[i] == v
  {
    if i >= size { assert Back(imm, i, size); ConstantElement(imm, regSize, size, v, i - size); }
  }

  lemma ElementNotConstant(imm: Word, regSize: nat, size: nat)
    requires (regSize == 32 || regSize == 64) && ElementSize(size, regSize) && Periodic(imm, size, regSize)
    requires !Degenerate(imm, regSize)
    ensures (exists j | 0 <= j < size :: imm[j]) && (exists j | 0 <= j < size :: !imm[j])
  {
    DegenerateBits(imm, regSize);
    var i :| 0 <= i < regSize && !imm[i];
    var k :| 0 <= k < regSize && imm[k];
    if forall j | 0 <= j < size :: imm[j] { ConstantElement(imm, regSize, size, true, i); }
    if forall j | 0 <= j < size :: !imm[j] { ConstantElement(imm, regSize, size, false, k); }
  }

  lemma ShiftedElement(imm: Word, regSize: nat, size: nat)
    requires (regSize == 32 || regSize == 64) && ElementSize(size, regSize) && Periodic(imm, size, regSize)
    requires !Degenerate(imm, regSize) && IsShiftedMask(And(imm, Ones(size)))
    ensures var elt := And(imm, Ones(size)); var I := CountrZero(elt); var CTO := CountrOne(Shr(elt, I));
            I < size && 1 <= CTO < size && IsPattern(imm, regSize, size, CTO, I)
  {
    var elt := And(imm, Ones(size));
    ShiftedMaskIsSpan(elt);
    var I := CountrZero(elt);
    var CTO := CountrOne(Shr(elt, I));
    assert elt[I] && elt[I + CTO - 1];
    ElementNotConstant(imm, regSize, size);
    var j :| 0 <= j < size && !imm[j];
    assert !elt[j];
    DegenerateBits(imm, regSize);
    forall i | 0 <= i < size ensures imm[i] == InRun(size, CTO, I, i) { assert elt[i] == imm[i]; }
  }

  lemma WrappedElement(imm: Word, regSize: nat, size: nat)
    requires (regSize == 32 || regSize == 64) && ElementSize(size, regSize) && Periodic(imm, size, regSize)
    requires !Degenerate(imm, regSize) && !IsShiftedMask(And(imm, Ones(size)))
    requires IsShiftedMask(Not(Or(And(imm, Ones(size)), Not(Ones(size)))))
    ensures var filled := Or(And(imm, Ones(size)), Not(Ones(size)));
            var I := 64 - CountlOne(filled); var CTO := CountlOne(filled) + CountrOne(filled) - (64 - size);
            I < size && 1 <= CTO < size && IsPattern(imm, regSize, size, CTO, I)
  {
    hide And, Or, Not, Ones, Span;
    var filled := Or(And(imm, Ones(size)), Not(Ones(size)));
    var lo, hi := ZerosSpan(imm, size);
    ZerosInside(imm, regSize, size, lo, hi);
    CountLowIs(filled, true, lo);
    CountHighIs(filled, true, 64 - hi);
    ComplementPattern(imm, regSize, size, lo, hi);
  }

  lemma ComplementPattern(imm: Word, regSize: nat, size: nat, lo: nat, hi: nat)
    requires (regSize == 32 || regSize == 64) && ElementSize(size, regSize) && Periodic(imm, size, regSize)
    requires !Degenerate(imm, regSize) && 0 < lo < hi < size
    requires forall i | 0 <= i < size :: imm[i] == !(lo <= i < hi)
    ensures IsPattern(imm, regSize, size, size - hi + lo, hi)
  {
    DegenerateBits(imm, regSize);
  }

  lemma ZerosSpan(imm: Word, size: nat) returns (lo: nat, hi: nat)
    requires size <= 64 && IsShiftedMask(Not(Or(And(imm, Ones(size)), Not(Ones(size)))))
    ensures lo < hi <= size
    ensures forall i | 0 <= i < size :: imm[i] == !(lo <= i < hi)
    ensures forall i | 0 <= i < 64 :: Or(And(imm, Ones(size)), Not(Ones(size)))[i] == !(lo <= i < hi)
  {
    var filled := Or(And(imm, Ones(size)), Not(Ones(size)));
    var zeros := Not(filled);
    ShiftedMaskIsSpan(zeros);
    lo := CountrZero(zeros);
    hi := lo + CountrOne(Shr(zeros, lo));
    assert zeros == Span(lo, hi);
    forall i | 0 <= i < 64 ensures filled[i] == !(lo <= i < hi) { assert filled[i] == !zeros[i]; }
    assert !filled[hi - 1];
  }

  lemma ZerosInside(imm: Word, regSize: nat, size: nat, lo: nat, hi: nat)
    requires (regSize == 32 || regSize == 64) && ElementSize(size, regSize) && Periodic(imm, size, regSize)
    requires !Degenerate(imm, regSize) && !IsShiftedMask(And(imm, Ones(size))) && lo < hi <= size
    requires forall i | 0 <= i < size :: imm[i] == !(lo <= i < hi)
    ensures 0 < lo && hi < size
  {
    var elt := And(imm, Ones(size));
    ElementNotConstant(imm, regSize, size);
    var j :| 0 <= j < size && imm[j];
    if hi == size {
      assert elt == Span(0, lo);
      SpanIsShiftedMask(0, lo);
    } else if lo == 0 {
      assert elt == Span(hi, size);
      SpanIsShiftedMask(hi, size);
    }
  }

  lemma RunIsShiftedMask(imm: Word, regSize: nat, size: nat, n: nat, r: nat)
    requires (regSize == 32 || regSize == 64) && IsPattern(imm, regSize, size, n, r)
    ensures IsShiftedMask(And(imm, Ones(size))) || IsShiftedMask(Not(Or(And(imm, Ones(size)), Not(Ones(size)))))
  {
    hide And, Or, Not, Ones, Span, IsShiftedMask;
    if r + n <= size {
      assert And(imm, Ones(size)) == Span(r, r + n);
      SpanIsShiftedMask(r, r + n);
    } else {
      assert Not(Or(And(imm, Ones(size)), Not(Ones(size)))) == Span(r + n - size, r);
      SpanIsShiftedMask(r + n - size, r);
    }
  }

  lemma EncodesPattern(imm: Word, regSize: nat, size: nat, n: nat, r: nat)
    requires (regSize == 32 || regSize == 64) && IsPattern(imm, regSize, size, n, r)
    ensures var enc := EncodeFields(size, r, n);
            ValidEncoding(enc, regSize) && DecodeBitMasks(enc, regSize) == imm
  {
    var enc := EncodeFields(size, r, n);
    EncodeFieldsDecodes(regSize, size, r, n);
    var sz := DecodedIsPattern(enc, regSize);
    PatternUnique(imm, DecodeBitMasks(enc, regSize), regSize, size, n, r);
  }

  // "Second, determine the rotation": start and length of the run of ones in one element.
  method LocateRun(imm: Word, size: nat, ghost regSize: nat) returns (run: Option<(nat, nat)>)
    requires (regSize == 32 || regSize == 64) && ElementSize(size, regSize) && Periodic(imm, size, regSize)
    requires !Degenerate(imm, regSize)
    requires forall p: nat, n: nat, r: nat :: IsPattern(imm, regSize, p, n, r) ==> p == size
    ensures run.None? ==> !Logical(imm, regSize)
    ensures run.Some? ==> IsPattern(imm, regSize, size, run.value.1, run.value.0)
  {
    hide And, Or, Not, Ones, IsShiftedMask;
    var mask := Ones(size);   // -1 >> (64 - Size)
    var elt := And(imm, mask);
    if IsShiftedMask(elt) {
      var I := CountrZero(elt);
      ShiftedElement(imm, regSize, size);
      return Some((I, CountrOne(Shr(elt, I))));
    }
    var filled := Or(elt, Not(mask));
    if !IsShiftedMask(Not(filled)) {
      forall p: nat, n: nat, r: nat | IsPattern(imm, regSize, p, n, r) ensures false {
        RunIsShiftedMask(imm, regSize, p, n, r);
      }
      return None;
    }
    var CLO := CountlOne(filled);
    WrappedElement(imm, regSize, size);
    return Some((64 - CLO, CLO + CountrOne(filled) - (64 - size)));
  }

  method ProcessLogicalImmediate(imm: Word, regSize: nat) returns (r: Option<nat>)
    requires regSize == 32 || regSize == 64
    ensures r.Some? <==> Logical(imm, regSize)
    ensures r.Some? ==> ValidEncoding(r.value, regSize) && DecodeBitMasks(r.value, regSize) == imm
  {
    if Degenerate(imm, regSize) {
      DegenerateNotLogical(imm, regSize);
      return None;
    }
    var size := FindElementSize(imm, regSize);
    var run := LocateRun(imm, size, regSize);
    if run.None? { return None; }
    var (I, CTO) := run.value;
    EncodesPattern(imm, regSize, size, CTO, I);
    return Some(EncodeFields(size, I, CTO));
  }
}
