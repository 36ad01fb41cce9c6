/** Condition flags of the A64 add and subtract instructions, and the condition codes that test them
    (Utils/AArch64BaseInfo.h; section C1.2.4 of the Arm Architecture Reference Manual). */
module Flags {

  datatype NZCV = NZCV(n: bool, z: bool, c: bool, v: bool)

  datatype CondCode = EQ | NE | HS | LO | MI | PL | VS | VC | HI | LS | GE | LT | GT | LE | AL | NV

  predicate Holds(cc: CondCode, f: NZCV) {
    match cc
    case EQ => f.z
    case NE => !f.z
    case HS => f.c
    case LO => !f.c
    case MI => f.n
    case PL => !f.n
    case VS => f.v
    case VC => !f.v
    case HI => f.c && !f.z
    case LS => !f.c || f.z
    case GE => f.n == f.v
    case LT => f.n != f.v
    case GT => !f.z && f.n == f.v
    case LE => f.z || f.n != f.v
    case AL => true
    case NV => true
  }

  predicate IsReal(cc: CondCode) { cc != AL && cc != NV }

  // getInvertedCondCode: the low bit of the encoding is flipped.
  function Invert(cc: CondCode): CondCode {
    match cc
    case EQ => NE
    case NE => EQ
    case HS => LO
    case LO => HS
    case MI => PL
    case PL => MI
    case VS => VC
    case VC => VS
    case HI => LS
    case LS => HI
    case GE => LT
    case LT => GE
    case GT => LE
    case LE => GT
    case AL => NV
    case NV => AL
  }

  // getNZCVToSatisfyCondCode
  function NZCVToSatisfy(cc: CondCode): NZCV
    requires IsReal(cc)
  {
    match cc
    case EQ => NZCV(false, true, false, false)
    case NE => NZCV(false, false, false, false)
    case HS => NZCV(false, false, true, false)
    case LO => NZCV(false, false, false, false)
    case MI => NZCV(true, false, false, false)
    case PL => NZCV(false, false, false, false)
    case VS => NZCV(false, false, false, true)
    case VC => NZCV(false, false, false, false)
    case HI => NZCV(false, false, true, false)
    case LS => NZCV(false, false, false, false)
    case GE => NZCV(false, false, false, false)
    case LT => NZCV(true, false, false, false)
    case GT => NZCV(false, false, false, false)
    case LE => NZCV(false, true, false, false)
  }

  lemma InvertFlips(cc: CondCode, f: NZCV)
    requires IsReal(cc)
    ensures Holds(Invert(cc), f) <==> !Holds(cc, f)
    ensures IsReal(Invert(cc)) && Invert(Invert(cc)) == cc
  {
  }

  lemma ChosenFlagsSatisfy(cc: CondCode)
    requires IsReal(cc)
    ensures Holds(cc, NZCVToSatisfy(cc)) && !Holds(cc, NZCVToSatisfy(Invert(cc)))
  {
  }

  // ----- Arithmetic: register values are 0 <= x < m, m being 2^32 or 2^64 -----

  const TWO32: int := 0x1_0000_0000
  const TWO64: int := 0x1_0000_0000_0000_0000

  predicate IsModulus(m: int) { m == TWO32 || m == TWO64 }

  function Signed(m: int, x: int): int {
    if x >= m / 2 then x - m else x
  }

  // AddWithCarry of the architecture.
  function AddFlags(m: int, x: int, y: int, carry: int): NZCV
    requires m > 0
  {
    var sum := x + y + carry;
    var signed := Signed(m, x) + Signed(m, y) + carry;
    var result := sum % m;
    NZCV(result >= m / 2, result == 0, sum >= m, !(-m / 2 <= signed < m / 2))
  }

  function Adds(m: int, x: int, k: int): NZCV
    requires m > 0
  {
    AddFlags(m, x, k, 0)
  }

  function Subs(m: int, x: int, k: int): NZCV
    requires m > 0
  {
    AddFlags(m, x, m - 1 - k, 1)
  }

  lemma ModOnce(m: int, s: int)
    requires m > 0 && 0 <= s < 2 * m
    ensures s % m == if s >= m then s - m else s
  {
    if s >= m { assert s == m + (s - m); }
  }

  // The signed conditions after a compare are comparisons of the signed value, whatever overflowed.
  lemma SubsMeaning(m: int, x: int, k: int)
    requires IsModulus(m) && 0 <= x < m && 0 <= k < 0x100_0000
    ensures var f, s := Subs(m, x, k), Signed(m, x);
            && (f.z <==> s == k) && (f.n == f.v <==> s >= k) && (f.c <==> x >= k) && (f.v <==> s - k < -m / 2)
  {
    ModOnce(m, x + (m - 1 - k) + 1);
  }

  lemma AddsMeaning(m: int, x: int, k: int)
    requires IsModulus(m) && 0 <= x < m && 0 <= k < 0x100_0000
    ensures var f, s := Adds(m, x, k), Signed(m, x);
            && (f.z <==> s == -k) && (f.n == f.v <==> s >= -k) && (f.c <==> x + k >= m) && (f.v <==> s + k >= m / 2)
  {
    ModOnce(m, x + k);
  }
}
