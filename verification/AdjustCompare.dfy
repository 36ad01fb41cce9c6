/** adjustCmp of AArch64ConditionOptimizer: turning an exclusive compare into an inclusive one with a
    neighbouring immediate, and exactly when the branch still goes the same way. */
module AdjustCompare {
  import opened Flags
  import opened Options

  datatype Opcode = ADDSWri | ADDSXri | SUBSWri | SUBSXri

  // A compare: register, immediate (None when symbolic), shift of the immediate, destination unused.
  datatype Cmp = Cmp(opc: Opcode, reg: nat, imm: Option<int>, shift: int, dead: bool)

  datatype CmpInfo = CmpInfo(imm: int, opc: Opcode, cc: CondCode)

  predicate IsAdds(o: Opcode) { o == ADDSWri || o == ADDSXri }

  function Modulus(o: Opcode): int {
    if o == ADDSWri || o == SUBSWri then TWO32 else TWO64
  }

  predicate WellFormed(c: Cmp) {
    (c.shift == 0 || c.shift == 12) && (c.imm.Some? ==> 0 <= c.imm.value <= 0xfff)
  }

  function Shifted(imm: int, shift: int): int {
    if shift == 12 then imm * 4096 else imm
  }

  // canAdjustCmp and isPureCmp
  predicate CanAdjustCmp(c: Cmp) {
    c.imm.Some? && Shifted(c.imm.value, c.shift) < 0xfff && c.dead
  }

  // Every unused compare with an immediate can be adjusted, unless the larger neighbour needs more than 12 bits.
  lemma CanAdjustMeans(c: Cmp)
    requires WellFormed(c)
    ensures CanAdjustCmp(c) <==> c.imm.Some? && c.dead && (c.imm.value == 0 || (c.shift == 0 && c.imm.value + 1 <= 0xfff))
  {
  }

  function GetComplementOpc(o: Opcode): Opcode {
    match o
    case ADDSWri => SUBSWri
    case ADDSXri => SUBSXri
    case SUBSWri => ADDSWri
    case SUBSXri => ADDSXri
  }

  function GetAdjustedCmp(cc: CondCode): CondCode
    requires cc in {GT, GE, LT, LE}
  {
    match cc case GT => GE case GE => GT case LT => LE case LE => LT
  }

  function AdjustCmp(c: Cmp, cc: CondCode): CmpInfo
    requires c.imm.Some? && cc in {GT, GE, LT, LE}
  {
    var negative := IsAdds(c.opc);
    var correction := if cc == GT then 1 else -1;
    var correction' := if negative then -correction else correction;
    var oldImm := c.imm.value;
    var newImm := if oldImm + correction' < 0 then -(oldImm + correction') else oldImm + correction';
    var opc := if oldImm == 0 && ((negative && correction' == 1) || (!negative && correction' == -1)) then GetComplementOpc(c.opc) else c.opc;
    CmpInfo(newImm, opc, GetAdjustedCmp(cc))
  }

  function Apply(c: Cmp, info: CmpInfo): Cmp {
    c.(imm := Some(info.imm), opc := info.opc)
  }

  // The flags a compare sets when its register holds x.
  function FlagsOf(c: Cmp, x: int): NZCV
    requires c.imm.Some?
  {
    var m, k := Modulus(c.opc), Shifted(c.imm.value, c.shift);
    if IsAdds(c.opc) then Adds(m, x, k) else Subs(m, x, k)
  }

  // The signed value the compare tests against.
  function Threshold(c: Cmp): int
    requires c.imm.Some?
  {
    if IsAdds(c.opc) then -Shifted(c.imm.value, c.shift) else Shifted(c.imm.value, c.shift)
  }

  lemma CompareMeaning(c: Cmp, x: int)
    requires WellFormed(c) && c.imm.Some? && 0 <= x < Modulus(c.opc)
    ensures var f, s := FlagsOf(c, x), Signed(Modulus(c.opc), x);
            && (Holds(GT, f) <==> s > Threshold(c)) && (Holds(LT, f) <==> s < Threshold(c))
            && (Holds(GE, f) <==> s >= Threshold(c)) && (Holds(LE, f) <==> s <= Threshold(c))
            && (Holds(EQ, f) <==> s == Threshold(c))
  {
    var m, k := Modulus(c.opc), Shifted(c.imm.value, c.shift);
    if IsAdds(c.opc) { AddsMeaning(m, x, k); } else { SubsMeaning(m, x, k); }
  }

  // What the code gets right: no shift, and not a compare with minus zero.
  predicate Adjustable(c: Cmp)
    requires c.imm.Some?
  {
    c.shift == 0 && !(IsAdds(c.opc) && c.imm.value == 0)
  }

  lemma AdjustedShape(c: Cmp, cc: CondCode)
    requires WellFormed(c) && CanAdjustCmp(c) && (cc == GT || cc == LT)
    ensures var d := Apply(c, AdjustCmp(c, cc));
            && WellFormed(d) && Modulus(d.opc) == Modulus(c.opc) && d.reg == c.reg && d.shift == c.shift
            && (Adjustable(c) ==> Threshold(d) == if cc == GT then Threshold(c) + 1 else Threshold(c) - 1)
            && (!Adjustable(c) ==> c.imm.value == 0 && Threshold(c) == 0)
            && (!Adjustable(c) ==> if cc == GT then Threshold(d) > 1 || Threshold(d) < 0 else Threshold(d) > 0 || Threshold(d) < -1)
  {
  }

  ghost predicate KeepsDirection(c: Cmp, cc: CondCode)
    requires c.imm.Some? && cc in {GT, GE, LT, LE}
  {
    var info := AdjustCmp(c, cc);
    forall x | 0 <= x < Modulus(c.opc) :: Holds(cc, FlagsOf(c, x)) <==> Holds(info.cc, FlagsOf(Apply(c, info), x))
  }

  // A register value with a given signed value.
  function Unsigned(m: int, s: int): int {
    if s < 0 then s + m else s
  }

  // Over all register values of both widths: the direction survives exactly for adjustable compares, and
  // the immediate always stays in 12 bits.
  lemma AdjustExact(c: Cmp, cc: CondCode)
    requires WellFormed(c) && CanAdjustCmp(c) && (cc == GT || cc == LT)
    ensures KeepsDirection(c, cc) <==> Adjustable(c)
    ensures 0 <= AdjustCmp(c, cc).imm <= 0xfff
  {
    AdjustedShape(c, cc);
    var m := Modulus(c.opc);
    var info := AdjustCmp(c, cc);
    var d := Apply(c, info);
    hide FlagsOf, WellFormed, Threshold, AdjustCmp, Apply, Modulus;
    assert IsModulus(m) by { ModulusOf(c.opc); }
    if Adjustable(c) {
      forall x | 0 <= x < m ensures Holds(cc, FlagsOf(c, x)) <==> Holds(info.cc, FlagsOf(d, x)) {
        CompareMeaning(c, x);
        CompareMeaning(d, x);
      }
    } else {
      var x := Unsigned(m, if cc == GT then if Threshold(d) < 0 then 0 else 1 else if Threshold(d) > 0 then 0 else -1);
      CompareMeaning(c, x);
      CompareMeaning(d, x);
    }
  }

  lemma ModulusOf(o: Opcode)
    ensures IsModulus(Modulus(o))
  {
  }

  // ----- Other readers of the same flags -----

  // The only conditions no register value tells apart: the unconditional ones, and HI or LS after
  // `cmn x, #1` becomes `cmn x, #0`, where the carry and zero flags cancel.
  predicate CannotTell(c: Cmp, cc: CondCode, q: CondCode)
    requires c.imm.Some?
  {
    !IsReal(q) || (IsAdds(c.opc) && c.imm.value == 1 && cc == GT && (q == HI || q == LS))
  }

  ghost predicate SameFor(c: Cmp, d: Cmp, q: CondCode)
    requires c.imm.Some? && d.imm.Some?
  {
    forall x | 0 <= x < Modulus(c.opc) :: Holds(q, FlagsOf(c, x)) <==> Holds(q, FlagsOf(d, x))
  }

  // A register value at which condition q differs between thresholds t and t + 1.
  function Witness(m: int, t: int, q: CondCode): int
    requires IsReal(q)
  {
    match q
    case EQ => Unsigned(m, t)
    case NE => Unsigned(m, t)
    case GE => Unsigned(m, t)
    case LT => Unsigned(m, t)
    case GT => Unsigned(m, t + 1)
    case LE => Unsigned(m, t + 1)
    case HS => Unsigned(m, t)
    case LO => Unsigned(m, t)
    case HI => Unsigned(m, t + 1)
    case LS => Unsigned(m, t + 1)
    case MI => Unsigned(m, if t < 0 then t + m / 2 else t - m / 2)
    case PL => Unsigned(m, if t < 0 then t + m / 2 else t - m / 2)
    case VS => Unsigned(m, if t < 0 then t + m / 2 else t - m / 2)
    case VC => Unsigned(m, if t < 0 then t + m / 2 else t - m / 2)
  }

  lemma FlagsMeaning(c: Cmp, x: int)
    requires WellFormed(c) && c.imm.Some? && c.shift == 0 && 0 <= x < Modulus(c.opc)
    ensures var f, m, k := FlagsOf(c, x), Modulus(c.opc), c.imm.value; var s := Signed(m, x);
            if IsAdds(c.opc) then
              (f.z <==> s == -k) && (f.n == f.v <==> s >= -k) && (f.c <==> x + k >= m) && (f.v <==> s + k >= m / 2)
            else
              (f.z <==> s == k) && (f.n == f.v <==> s >= k) && (f.c <==> x >= k) && (f.v <==> s - k < -m / 2)
  {
    if IsAdds(c.opc) { AddsMeaning(Modulus(c.opc), x, c.imm.value); } else { SubsMeaning(Modulus(c.opc), x, c.imm.value); }
  }

  // Two compares of one width whose thresholds are t and t + 1, in either order.
  predicate Neighbours(c: Cmp, d: Cmp, t: int) {
    && WellFormed(c) && WellFormed(d) && c.imm.Some? && d.imm.Some? && c.shift == 0 && d.shift == 0
    && Modulus(c.opc) == Modulus(d.opc)
    && ((Threshold(c) == t && Threshold(d) == t + 1) || (Threshold(d) == t && Threshold(c) == t + 1))
  }

  predicate Tells(c: Cmp, d: Cmp, q: CondCode, x: int)
    requires c.imm.Some? && d.imm.Some?
  {
    Holds(q, FlagsOf(c, x)) != Holds(q, FlagsOf(d, x))
  }

  lemma SignedTell(c: Cmp, d: Cmp, t: int, q: CondCode)
    requires Neighbours(c, d, t) && q in {EQ, NE, GE, LT, GT, LE}
    ensures Tells(c, d, q, Witness(Modulus(c.opc), t, q))
  {
    var x := Witness(Modulus(c.opc), t, q);
    ModulusOf(c.opc);
    CompareMeaning(c, x);
    CompareMeaning(d, x);
    hide FlagsOf;
  }

  lemma CarryTell(c: Cmp, d: Cmp, t: int, q: CondCode)
    requires Neighbours(c, d, t) && q in {HS, LO, HI, LS} && IsAdds(c.opc) == IsAdds(d.opc)
    requires t == -1 ==> q in {HS, LO}
    ensures Tells(c, d, q, Witness(Modulus(c.opc), t, q))
  {
    var x := Witness(Modulus(c.opc), t, q);
    ModulusOf(c.opc);
    FlagsMeaning(c, x);
    FlagsMeaning(d, x);
    hide FlagsOf;
  }

  // Where `cmp x, #0` meets `cmn x, #1` the carry is always set on one side.
  lemma MixedCarryTell(c: Cmp, d: Cmp, q: CondCode)
    requires Neighbours(c, d, -1) && q in {HS, LO, HI, LS} && IsAdds(c.opc) != IsAdds(d.opc)
    ensures Tells(c, d, q, if q in {HS, LO} then 0 else 1)
  {
    var x := if q in {HS, LO} then 0 else 1;
    ModulusOf(c.opc);
    FlagsMeaning(c, x);
    FlagsMeaning(d, x);
    hide FlagsOf;
  }

  // In terms of the signed value, compares of both kinds look alike.
  lemma SignedFlags(c: Cmp, s: int)
    requires WellFormed(c) && c.imm.Some? && c.shift == 0 && -Modulus(c.opc) / 2 <= s < Modulus(c.opc) / 2
    ensures var f, m, t := FlagsOf(c, Unsigned(Modulus(c.opc), s)), Modulus(c.opc), Threshold(c);
            (f.n == f.v <==> s >= t) && (f.v <==> !(-m / 2 <= s - t < m / 2))
  {
    ModulusOf(c.opc);
    FlagsMeaning(c, Unsigned(Modulus(c.opc), s));
  }

  lemma ResultTell(c: Cmp, d: Cmp, t: int, q: CondCode)
    requires Neighbours(c, d, t) && q in {MI, PL, VS, VC}
    ensures Tells(c, d, q, Witness(Modulus(c.opc), t, q))
  {
    hide FlagsOf;
    var m := Modulus(c.opc);
    ModulusOf(c.opc);
    var s := if t < 0 then t + m / 2 else t - m / 2;
    SignedFlags(c, s);
    SignedFlags(d, s);
    hide Threshold, Unsigned;
  }

  lemma RealTells(c: Cmp, d: Cmp, t: int, q: CondCode) returns (x: int)
    requires Neighbours(c, d, t) && IsReal(q) && (IsAdds(c.opc) != IsAdds(d.opc) ==> t == -1)
    requires !(t == -1 && IsAdds(c.opc) == IsAdds(d.opc) && q in {HI, LS})
    ensures 0 <= x < Modulus(c.opc) && Tells(c, d, q, x)
  {
    hide Tells, FlagsOf, Neighbours;
    WitnessInRange(c, d, t, q);
    x := Witness(Modulus(c.opc), t, q);
    if q in {EQ, NE, GE, LT, GT, LE} { SignedTell(c, d, t, q); }
    else if q in {MI, PL, VS, VC} { ResultTell(c, d, t, q); }
    else if IsAdds(c.opc) == IsAdds(d.opc) { CarryTell(c, d, t, q); }
    else { MixedCarryTell(c, d, q); x := if q in {HS, LO} then 0 else 1; }
  }

  lemma WitnessInRange(c: Cmp, d: Cmp, t: int, q: CondCode)
    requires Neighbours(c, d, t) && IsReal(q)
    ensures 0 <= Witness(Modulus(c.opc), t, q) < Modulus(c.opc) && Modulus(c.opc) > 1
  {
    ModulusOf(c.opc);
  }

  lemma AdjustedNeighbours(c: Cmp, cc: CondCode) returns (t: int)
    requires WellFormed(c) && CanAdjustCmp(c) && (cc == GT || cc == LT) && Adjustable(c)
    ensures var d := Apply(c, AdjustCmp(c, cc));
            && Neighbours(c, d, t) && (IsAdds(c.opc) != IsAdds(d.opc) ==> t == -1 && cc == LT)
            && (t == -1 && IsAdds(c.opc) == IsAdds(d.opc) ==> IsAdds(c.opc) && c.imm.value <= 1)
            && (t == -1 && IsAdds(c.opc) && IsAdds(d.opc) ==> c.imm.value == 1 && cc == GT)
            && (IsAdds(c.opc) && c.imm.value == 1 && cc == GT ==> IsAdds(d.opc) && t == -1 && d.imm.value == 0)
  {
    AdjustedShape(c, cc);
    t := if cc == GT then Threshold(c) else Threshold(c) - 1;
  }

  lemma CancelledCarry(c: Cmp, d: Cmp, q: CondCode)
    requires WellFormed(c) && WellFormed(d) && c.imm == Some(1) && d.imm == Some(0) && c.shift == 0 && d.shift == 0
    requires IsAdds(c.opc) && IsAdds(d.opc) && Modulus(c.opc) == Modulus(d.opc) && (q == HI || q == LS)
    ensures SameFor(c, d, q)
  {
    forall x | 0 <= x < Modulus(c.opc) ensures Holds(q, FlagsOf(c, x)) <==> Holds(q, FlagsOf(d, x)) {
      FlagsMeaning(c, x);
      FlagsMeaning(d, x);
    }
  }

  lemma TellsThem(c: Cmp, d: Cmp, q: CondCode, x: int)
    requires c.imm.Some? && d.imm.Some? && Tells(c, d, q, x) && 0 <= x < Modulus(c.opc)
    ensures !SameFor(c, d, q)
  {
  }

  // Some register value tells the adjusted compare from the original under any other condition.
  lemma OthersCanTell(c: Cmp, cc: CondCode, q: CondCode)
    requires WellFormed(c) && CanAdjustCmp(c) && (cc == GT || cc == LT) && Adjustable(c)
    ensures SameFor(c, Apply(c, AdjustCmp(c, cc)), q) <==> CannotTell(c, cc, q)
  {
    hide FlagsOf, AdjustCmp, Tells, Neighbours, Adjustable, Holds, SameFor, Modulus, WellFormed;
    var d := Apply(c, AdjustCmp(c, cc));
    var t := AdjustedNeighbours(c, cc);
    if CannotTell(c, cc, q) {
      if IsReal(q) { NeighbourFacts(c, d, t); CancelledCarry(c, d, q); } else { AlwaysSame(c, d, q); }
    } else {
      var x := RealTells(c, d, t, q);
      TellsThem(c, d, q, x);
    }
  }

  lemma AlwaysSame(c: Cmp, d: Cmp, q: CondCode)
    requires c.imm.Some? && d.imm.Some? && !IsReal(q)
    ensures SameFor(c, d, q)
  {
  }

  lemma NeighbourFacts(c: Cmp, d: Cmp, t: int)
    requires Neighbours(c, d, t)
    ensures WellFormed(c) && WellFormed(d) && c.imm.Some? && d.imm.Some? && c.shift == 0 && d.shift == 0 && Modulus(c.opc) == Modulus(d.opc)
  {
  }
}
