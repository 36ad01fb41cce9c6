/** Adding a 64-bit constant to a register: emitAddImm of AArch64AsmPrinter.cpp, and the separate
    expansion that emitPtrauthAuthResign uses before its load. */
module AddImmediate {
  import opened Flags

  const B16: int := 0x1_0000

  // add or sub with a 12-bit immediate; the moves write the scratch register; AddReg adds it.
  datatype Ins =
    | AddImm(negate: bool, imm: int, shift: int)
    | Movz(imm: int)
    | Movn(imm: int)
    | Movk(imm: int, shift: int)
    | AddReg

  // Operand ranges of the encodings.
  predicate Encodable(i: Ins) {
    match i
    case AddImm(_, imm, shift) => 0 <= imm <= 0xfff && (shift == 0 || shift == 12)
    case Movz(imm) => 0 <= imm <= 0xffff
    case Movn(imm) => 0 <= imm <= 0xffff
    case Movk(imm, shift) => 0 <= imm <= 0xffff && (shift == 16 || shift == 32 || shift == 48)
    case AddReg => true
  }

  datatype Regs = Regs(reg: int, tmp: int)

  // ----- 16-bit pieces -----

  function Join(a: int, b: int, c: int, d: int): int {
    a + b * 0x1_0000 + c * 0x1_0000_0000 + d * 0x1_0000_0000_0000
  }

  predicate Piece(x: int) { 0 <= x <= 0xffff }

  // Bits from `shift` up; the shifts are those of the code's loops.
  function ShiftRight(v: int, shift: int): int
    requires shift in {0, 12, 16, 32, 48}
  {
    match shift
    case 0 => v
    case 12 => v / 0x1000
    case 16 => v / 0x1_0000
    case 32 => v / 0x1_0000_0000
    case _ => v / 0x1_0000_0000_0000
  }

  function PieceAt(v: int, shift: int): (p: int)
    requires shift in {0, 16, 32, 48}
    ensures Piece(p)
  {
    ShiftRight(v, shift) % B16
  }

  lemma Pieces(v: int)
    requires 0 <= v < TWO64
    ensures v == Join(PieceAt(v, 0), PieceAt(v, 16), PieceAt(v, 32), PieceAt(v, 48))
    ensures ShiftRight(v, 48) == PieceAt(v, 48)
    ensures ShiftRight(v, 32) == PieceAt(v, 32) + PieceAt(v, 48) * 0x1_0000
    ensures ShiftRight(v, 16) == PieceAt(v, 16) + PieceAt(v, 32) * 0x1_0000 + PieceAt(v, 48) * 0x1_0000_0000
  {
    var v1, v2, v3 := v / 0x1_0000, v / 0x1_0000_0000, v / 0x1_0000_0000_0000;
    assert v2 == v1 / 0x1_0000 && v3 == v2 / 0x1_0000;
    assert v == (v % B16) + v1 * 0x1_0000 && v1 == v1 % B16 + v2 * 0x1_0000 && v2 == v2 % B16 + v3 * 0x1_0000;
  }

  lemma JoinPieces(a: int, b: int, c: int, d: int)
    requires Piece(a) && Piece(b) && Piece(c) && Piece(d)
    ensures 0 <= Join(a, b, c, d) < TWO64
    ensures PieceAt(Join(a, b, c, d), 0) == a && PieceAt(Join(a, b, c, d), 16) == b
    ensures PieceAt(Join(a, b, c, d), 32) == c && PieceAt(Join(a, b, c, d), 48) == d
  {
    var v := Join(a, b, c, d);
    assert v == a + 0x1_0000 * (b + c * 0x1_0000 + d * 0x1_0000_0000);
    assert v / 0x1_0000 == b + 0x1_0000 * (c + d * 0x1_0000);
    assert v / 0x1_0000_0000 == c + 0x1_0000 * d;
  }

  // ----- Meaning -----

  function Power(shift: int): int
    requires shift in {0, 12, 16, 32, 48}
  {
    match shift
    case 0 => 1
    case 12 => 0x1000
    case 16 => 0x1_0000
    case 32 => 0x1_0000_0000
    case _ => 0x1_0000_0000_0000
  }

  function Exec(i: Ins, s: Regs): Regs
    requires Encodable(i)
  {
    match i
    case AddImm(negate, imm, shift) =>
      s.(reg := (if negate then s.reg - imm * Power(shift) else s.reg + imm * Power(shift)) % TWO64)
    case Movz(imm) => s.(tmp := imm)
    case Movn(imm) => s.(tmp := TWO64 - 1 - imm)
    case Movk(imm, shift) => s.(tmp := s.tmp + (imm - PieceAt(s.tmp, shift)) * Power(shift))
    case AddReg => s.(reg := (s.reg + s.tmp) % TWO64)
  }

  predicate AllEncodable(code: seq<Ins>) {
    forall k | 0 <= k < |code| :: Encodable(code[k])
  }

  function Run(code: seq<Ins>, s: Regs): Regs
    requires AllEncodable(code)
  {
    if code == [] then s else Exec(code[|code| - 1], Run(code[..|code| - 1], s))
  }

  lemma RunMore(code: seq<Ins>, i: Ins, s: Regs)
    requires AllEncodable(code) && Encodable(i)
    ensures AllEncodable(code + [i]) && Run(code + [i], s) == Exec(i, Run(code, s))
  {
    hide Exec, Encodable;
    assert (code + [i])[..|code|] == code;
  }

  // The code adds k and may use the scratch register.
  ghost predicate Adds64(code: seq<Ins>, k: int) {
    AllEncodable(code) && forall s: Regs | 0 <= s.reg < TWO64 :: Run(code, s).reg == (s.reg + k) % TWO64
  }

  // The code leaves v in the scratch register and the other register alone.
  ghost predicate Loads(code: seq<Ins>, v: int) {
    AllEncodable(code) && forall s: Regs :: Run(code, s) == s.(tmp := v)
  }

  lemma ModAdd(x: int, y: int)
    ensures (x % TWO64 + y) % TWO64 == (x + y) % TWO64
  {
    var q := x / TWO64;
    assert x == q * TWO64 + x % TWO64;
    ModShift(x % TWO64 + y, q);
  }

  lemma ModShift(x: int, q: int)
    ensures (x + q * TWO64) % TWO64 == x % TWO64
  {
    var k := x / TWO64;
    assert x + q * TWO64 == (k + q) * TWO64 + x % TWO64;
    Unique((k + q), x % TWO64, x + q * TWO64);
  }

  lemma Unique(q: int, r: int, v: int)
    requires v == q * TWO64 + r && 0 <= r < TWO64
    ensures v % TWO64 == r
  {
  }

  lemma AddsMore(code: seq<Ins>, k: int, negate: bool, imm: int, shift: int)
    requires Adds64(code, k) && Encodable(AddImm(negate, imm, shift))
    ensures Adds64(code + [AddImm(negate, imm, shift)], if negate then k - imm * Power(shift) else k + imm * Power(shift))
  {
    var i := AddImm(negate, imm, shift);
    var d := if negate then -(imm * Power(shift)) else imm * Power(shift);
    forall s: Regs | 0 <= s.reg < TWO64 ensures AllEncodable(code + [i]) && Run(code + [i], s).reg == (s.reg + (k + d)) % TWO64 {
      RunMore(code, i, s);
      ModAdd(s.reg + k, d);
    }
    RunMore(code, i, Regs(0, 0));
  }

  lemma AddsNothing()
    ensures Adds64([], 0)
  {
  }

  lemma ModCong(a: int, v: int, k: int)
    requires v % TWO64 == k % TWO64
    ensures (a + v) % TWO64 == (a + k) % TWO64
  {
    ModAdd(v, a);
    ModAdd(k, a);
  }

  lemma AddsLoaded(code: seq<Ins>, v: int, k: int)
    requires Loads(code, v) && v % TWO64 == k % TWO64
    ensures Adds64(code + [AddReg], k)
  {
    RunMore(code, AddReg, Regs(0, 0));
    forall s: Regs | 0 <= s.reg < TWO64 ensures Run(code + [AddReg], s).reg == (s.reg + k) % TWO64 {
      LoadedThenAdded(code, v, k, s);
    }
  }

  lemma LoadedThenAdded(code: seq<Ins>, v: int, k: int, s: Regs)
    requires Loads(code, v) && v % TWO64 == k % TWO64
    ensures AllEncodable(code + [AddReg]) && Run(code + [AddReg], s).reg == (s.reg + k) % TWO64
  {
    hide Run;
    RunMore(code, AddReg, s);
    assert Run(code, s) == s.(tmp := v);
    ModCong(s.reg, v, k);
  }

  // Overwriting one 16-bit piece.
  function WithPiece(v: int, shift: int, imm: int): int
    requires shift in {16, 32, 48}
  {
    v + (imm - PieceAt(v, shift)) * Power(shift)
  }

  lemma LoadsMore(code: seq<Ins>, v: int, imm: int, shift: int)
    requires Loads(code, v) && Encodable(Movk(imm, shift))
    ensures Loads(code + [Movk(imm, shift)], WithPiece(v, shift, imm))
  {
    MovkShift(imm, shift);
    RunMore(code, Movk(imm, shift), Regs(0, 0));
    forall s: Regs ensures Run(code + [Movk(imm, shift)], s) == s.(tmp := WithPiece(v, shift, imm)) {
      PieceThenMore(code, v, imm, shift, s);
    }
  }

  lemma PieceThenMore(code: seq<Ins>, v: int, imm: int, shift: int, s: Regs)
    requires Loads(code, v) && Encodable(Movk(imm, shift)) && shift in {16, 32, 48}
    ensures AllEncodable(code + [Movk(imm, shift)]) && Run(code + [Movk(imm, shift)], s) == s.(tmp := WithPiece(v, shift, imm))
  {
    hide Run, PieceAt, Power, Encodable, AllEncodable;
    LoadsEncodable(code, v);
    RunMore(code, Movk(imm, shift), s);
    assert Run(code, s) == s.(tmp := v);
  }

  lemma LoadsEncodable(code: seq<Ins>, v: int)
    requires Loads(code, v)
    ensures AllEncodable(code)
  {
  }

  lemma MovkShift(imm: int, shift: int)
    requires Encodable(Movk(imm, shift))
    ensures shift in {16, 32, 48}
  {
  }

  lemma LoadsFirst(negate: bool, imm: int)
    requires Piece(imm)
    ensures Loads([if negate then Movn(imm) else Movz(imm)], if negate then TWO64 - 1 - imm else imm)
  {
    var i := if negate then Movn(imm) else Movz(imm);
    forall s: Regs ensures AllEncodable([i]) && Run([i], s) == s.(tmp := if negate then TWO64 - 1 - imm else imm) {
      assert [] + [i] == [i];
      RunMore([], i, s);
    }
  }

  // The scratch register when the pieces below bitPos are those of u and the others are `fill`.
  function Partial(u: int, fill: int, bitPos: int): int {
    Join(PieceAt(u, 0), if bitPos > 16 then PieceAt(u, 16) else fill, if bitPos > 32 then PieceAt(u, 32) else fill,
         if bitPos > 48 then PieceAt(u, 48) else fill)
  }

  lemma PartialMore(u: int, fill: int, bitPos: int)
    requires bitPos in {16, 32, 48} && Piece(fill)
    ensures WithPiece(Partial(u, fill, bitPos), bitPos, PieceAt(u, bitPos)) == Partial(u, fill, bitPos + 16)
  {
    JoinPieces(PieceAt(u, 0), if bitPos > 16 then PieceAt(u, 16) else fill, if bitPos > 32 then PieceAt(u, 32) else fill, fill);
    hide PieceAt;
  }

  // Nothing but `fill` is left from bitPos up.
  predicate RestIs(u: int, fill: int, bitPos: int) {
    && (bitPos <= 16 ==> PieceAt(u, 16) == fill) && (bitPos <= 32 ==> PieceAt(u, 32) == fill)
    && (bitPos <= 48 ==> PieceAt(u, 48) == fill)
  }

  lemma PartialIsAll(u: int, fill: int, bitPos: int)
    requires 0 <= u < TWO64 && bitPos in {16, 32, 48, 64} && RestIs(u, fill, bitPos)
    ensures Partial(u, fill, bitPos) == u
  {
    Pieces(u);
    hide PieceAt;
  }

  // NeedMovk: is anything but the fill left? The negative case looks at one piece at a time.
  method NeedMovk(u: int, isNeg: bool, bitPos: int) returns (need: bool)
    requires 0 <= u < TWO64 && bitPos in {16, 32, 48}
    ensures need <==> !RestIs(u, if isNeg then 0xffff else 0, bitPos)
  {
    Pieces(u);
    hide PieceAt, Join;
    if !isNeg {
      return ShiftRight(u, bitPos) != 0;
    }
    var i := 0;
    while i != 64 - bitPos
      invariant 0 <= i <= 64 - bitPos && i % 16 == 0
      invariant forall at | at in {16, 32, 48} && bitPos <= at < bitPos + i :: PieceAt(u, at) == 0xffff
      decreases 64 - bitPos - i
    {
      if PieceAt(u, bitPos + i) != 0xffff { return true; }
      i := i + 16;
    }
    return false;
  }

  function Lowest(abs: int, bitPos: int): int {
    if bitPos == 0 then 0 else if bitPos == 12 then abs % 0x1000 else abs % 0x100_0000
  }

  // One or two immediates, stopping when nothing is left.
  method EmitSmall(isNeg: bool, abs: int) returns (code: seq<Ins>)
    requires 0 <= abs < 0x100_0000
    ensures Adds64(code, if isNeg then -abs else abs) && |code| == if abs == 0 then 0 else if abs < 0x1000 then 1 else 2
  {
    hide Adds64;
    code := [];
    AddsNothing();
    var bitPos := 0;
    while bitPos != 24 && (if bitPos == 0 then abs else ShiftRight(abs, 12)) != 0
      invariant bitPos in {0, 12, 24} && |code| == bitPos / 12
      invariant (bitPos == 12 ==> abs > 0) && (bitPos == 24 ==> abs >= 0x1000)
      invariant Adds64(code, if isNeg then -Lowest(abs, bitPos) else Lowest(abs, bitPos))
      decreases 24 - bitPos
    {
      var imm := (if bitPos == 0 then abs else ShiftRight(abs, 12)) % 0x1000;
      AddsMore(code, if isNeg then -Lowest(abs, bitPos) else Lowest(abs, bitPos), isNeg, imm, bitPos);
      code := code + [AddImm(isNeg, imm, bitPos)];
      bitPos := bitPos + 12;
    }
  }

  // Nothing for zero, one or two immediates below 2^24, else a move, a MOVK for every 16 bits more that the addend
  // needs as a signed number, and an add.
  function AddLength(addend: int): nat {
    if addend == 0 then 0
    else if -0x1000 < addend < 0x1000 then 1
    else if -0x100_0000 < addend < 0x100_0000 then 2
    else if -0x1_0000_0000 <= addend < 0x1_0000_0000 then 3
    else if -0x1_0000_0000_0000 <= addend < 0x1_0000_0000_0000 then 4
    else 5
  }

  lemma RestMeans(addend: int, bitPos: int)
    requires -TWO64 / 2 <= addend < TWO64 / 2 && bitPos in {16, 32, 48}
    ensures var u, fill := addend % TWO64, if addend < 0 then 0xffff else 0;
            RestIs(u, fill, bitPos) <==> -Power(bitPos) <= addend < Power(bitPos)
  {
    AbsIs(addend);
    Pieces(addend % TWO64);
    hide PieceAt;
  }

  // emitAddImm
  method EmitAddImm(addend: int) returns (code: seq<Ins>)
    requires -TWO64 / 2 <= addend < TWO64 / 2
    ensures Adds64(code, addend)
    ensures |code| == AddLength(addend) <= 5
  {
    hide Adds64, Loads, PieceAt, Partial, RestIs, Encodable;
    code := [];
    if addend == 0 {
      AddsNothing();
      return;
    }
    var isNeg := addend < 0;
    var u := addend % TWO64;
    var abs := if addend > 0 then addend else (0 - u) % TWO64;
    AbsIs(addend);
    if abs < 0x100_0000 {
      code := EmitSmall(isNeg, abs);
      return;
    }
    var fill := if isNeg then 0xffff else 0;
    var low := PieceAt(if isNeg then TWO64 - 1 - u else u, 0);
    code := [if isNeg then Movn(low) else Movz(low)];
    FirstPiece(u, isNeg);
    var bitPos := 16;
    while bitPos != 64
      invariant bitPos in {16, 32, 48, 64} && |code| == bitPos / 16 && (bitPos > 16 ==> !RestIs(u, fill, bitPos - 16))
      invariant Loads(code, Partial(u, fill, bitPos))
      decreases 64 - bitPos
    {
      var need := NeedMovk(u, isNeg, bitPos);
      if !need { break; }
      var imm := PieceAt(u, bitPos);
      MovkEncodable(imm, bitPos);
      LoadsMore(code, Partial(u, fill, bitPos), imm, bitPos);
      PartialMore(u, fill, bitPos);
      code := code + [Movk(imm, bitPos)];
      bitPos := bitPos + 16;
    }
    assert RestIs(u, fill, bitPos) by { NothingLeft(u, fill, bitPos); }
    if bitPos < 64 { RestMeans(addend, bitPos); }
    if bitPos > 16 { RestMeans(addend, bitPos - 16); }
    PartialIsAll(u, fill, bitPos);
    ModTwice(addend);
    AddsLoaded(code, u, addend);
    code := code + [AddReg];
  }

  lemma MovkEncodable(imm: int, shift: int)
    requires Piece(imm) && shift in {16, 32, 48}
    ensures Encodable(Movk(imm, shift))
  {
  }

  lemma NothingLeft(u: int, fill: int, bitPos: int)
    requires bitPos == 64 || RestIs(u, fill, bitPos)
    ensures RestIs(u, fill, bitPos)
  {
  }

  lemma AbsIs(addend: int)
    requires -TWO64 / 2 <= addend < TWO64 / 2
    ensures 0 <= addend % TWO64 < TWO64 && addend % TWO64 == if addend < 0 then addend + TWO64 else addend
    ensures addend <= 0 ==> (0 - addend % TWO64) % TWO64 == -addend
  {
    if addend < 0 {
      Unique(-1, addend + TWO64, addend);
      Unique(-1, -addend, 0 - addend % TWO64);
    }
  }

  lemma ModTwice(x: int)
    ensures x % TWO64 % TWO64 == x % TWO64
  {
  }

  lemma FirstPiece(u: int, isNeg: bool)
    requires 0 <= u < TWO64
    ensures var low := PieceAt(if isNeg then TWO64 - 1 - u else u, 0);
            Loads([if isNeg then Movn(low) else Movz(low)], Partial(u, if isNeg then 0xffff else 0, 16))
  {
    LoadsFirst(isNeg, PieceAt(if isNeg then TWO64 - 1 - u else u, 0));
    if isNeg { LowOfComplement(u); }
    hide PieceAt;
  }

  lemma LowOfComplement(u: int)
    requires 0 <= u < TWO64
    ensures PieceAt(TWO64 - 1 - u, 0) == 0xffff - PieceAt(u, 0)
  {
    assert u == B16 * (u / B16) + u % B16;
    assert TWO64 - 1 - u == B16 * (TWO64 / B16 - 1 - u / B16) + (B16 - 1 - u % B16);
  }

  // How many of the 16-bit pieces above the lowest, up to bitPos, are not zero.
  function NonZero(u: int, bitPos: int): nat
    requires bitPos in {16, 32, 48, 64}
  {
    (if bitPos > 16 && PieceAt(u, 16) != 0 then 1 else 0) + (if bitPos > 32 && PieceAt(u, 32) != 0 then 1 else 0)
    + (if bitPos > 48 && PieceAt(u, 48) != 0 then 1 else 0)
  }

  lemma NonZeroNone(u: int)
    ensures NonZero(u, 16) == 0
  {
  }

  lemma NonZeroMore(u: int, bitPos: int)
    requires bitPos in {16, 32, 48}
    ensures NonZero(u, bitPos + 16) == NonZero(u, bitPos) + if PieceAt(u, bitPos) != 0 then 1 else 0
  {
  }

  // The expansion in emitPtrauthAuthResign when the addend does not fit its load's 9-bit offset: the same
  // sum, by different code. `code` ends before the load.
  method EmitResignAddend(addend: int) returns (code: seq<Ins>)
    requires -TWO64 / 2 <= addend < TWO64 / 2 && !(-256 <= addend <= 255)
    ensures Adds64(code, addend)
    ensures |code| == (if 0 <= addend < 0x1000 then 1 else if 0 <= addend < 0x100_0000 then 2 else 2 + NonZero(addend % TWO64, 64)) <= 5
  {
    hide Adds64, Loads, PieceAt, Partial, Encodable, NonZero;
    if 0 <= addend < 0x100_0000 {
      code := EmitSmall(false, addend);
      return;
    }
    var u := addend % TWO64;
    AbsIs(addend);
    code := [Movz(PieceAt(u, 0))];
    FirstPiece(u, false);
    NonZeroNone(u);
    var offset := 16;
    while offset < 64
      invariant offset in {16, 32, 48, 64} && |code| == 1 + NonZero(u, offset) <= offset / 16
      invariant Loads(code, Partial(u, 0, offset))
    {
      var fragment := PieceAt(u, offset);
      NonZeroMore(u, offset);
      PartialMore(u, 0, offset);
      if fragment != 0 {
        MovkEncodable(fragment, offset);
        LoadsMore(code, Partial(u, 0, offset), fragment, offset);
        code := code + [Movk(fragment, offset)];
      } else {
        SkippedPiece(u, offset);
      }
      offset := offset + 16;
    }
    PartialIsAll(u, 0, 64) by { NothingLeft(u, 0, 64); }
    ModTwice(addend);
    AddsLoaded(code, u, addend);
    code := code + [AddReg];
  }

  lemma SkippedPiece(u: int, offset: int)
    requires offset in {16, 32, 48} && PieceAt(u, offset) == 0
    ensures Partial(u, 0, offset + 16) == Partial(u, 0, offset)
  {
    hide PieceAt;
  }
}
