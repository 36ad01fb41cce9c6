/** AArch64CollectLOH: the backward per-register state machine that collects linker optimization hints. */
module LinkerHints {

  // A register operand as mapRegToGPRIndex sees it: 0 to 30, or -1 when it is not tracked.
  type GPR = r: int | -1 <= r < 31

  datatype Opcode = ADRP | ADDXri | LDRXui | LDRWui | LiteralLoad | OtherLoad | StoreUi | Other

  // `no` is the operand number.
  datatype Use = Use(no: nat, reg: GPR)

  // op0 and op1 are operands 0 and 1. `address` and `got`: operand 2 is a symbol or other address; it carries
  // the GOT flag. `global`: it is a global symbol. `sameOps`: operands 0 and 1 are the very same register.
  datatype Instr = Instr(opcode: Opcode, op0: GPR, op1: GPR, sameOps: bool, address: bool, global: bool, got: bool,
                         defs: seq<GPR>, mask: set<GPR>, uses: seq<Use>)

  // A basic block without its debug instructions.
  type Block = seq<Instr>

  datatype Kind = AdrpAdrp | AdrpLdr | AdrpAddLdr | AdrpLdrGotLdr | AdrpAddStr | AdrpLdrGotStr | AdrpAdd | AdrpLdrGot

  datatype Hint = Hint(kind: Kind, args: seq<nat>)

  // LOHInfo; instructions are positions, -1 for null.
  datatype Info = Info(kind: Kind, candidate: bool, oneUser: bool, multiUsers: bool, mi0: int, mi1: int, lastADRP: int)

  type Infos = m: seq<Info> | |m| == 31 witness seq(31, _ => Info(AdrpAdrp, false, false, false, -1, -1, -1))

  // ----- Classifiers -----

  predicate IsLdrui(i: Instr) { i.opcode == LDRXui || i.opcode == LDRWui }

  predicate IsGotLoad(i: Instr) { IsLdrui(i) && i.got }

  // canDefBePartOfLOH, for the opcodes the walk asks about.
  predicate CanBeMiddle(i: Instr) {
    (i.opcode == ADDXri && i.address) || (IsLdrui(i) && i.global && i.got)
  }

  predicate IsCandidateStore(i: Instr, u: Use) {
    i.opcode == StoreUi && u.no == 1 && !i.sameOps
  }

  predicate IsCandidateLoad(i: Instr) {
    (IsLdrui(i) || i.opcode == LiteralLoad || i.opcode == OtherLoad) && !i.got
  }

  predicate SupportLoadFromLiteral(i: Instr) {
    IsLdrui(i) || i.opcode == LiteralLoad
  }

  // ----- The handlers on one register's state -----

  function HandleUse(i: Instr, n: nat, u: Use, x: Info): Info {
    if x.multiUsers || x.oneUser then x.(candidate := false, multiUsers := true)
    else
      var y := x.(oneUser := true);
      if IsCandidateLoad(i) then y.(kind := AdrpLdr, candidate := true, mi0 := n)
      else if IsCandidateStore(i, u) then y.(kind := AdrpAddStr, candidate := true, mi0 := n, mi1 := -1)
      else if i.opcode == ADDXri then y.(kind := AdrpAdd, candidate := true, mi0 := n)
      else if IsGotLoad(i) then y.(kind := AdrpLdrGot, candidate := true, mi0 := n)
      else y
  }

  function HandleClobber(x: Info): Info {
    x.(candidate := false, oneUser := false, multiUsers := false, lastADRP := -1)
  }

  // The state machine's step on an instruction that may stand in the middle of a hint.
  function Advance(i: Instr, n: nat, x: Info): (r: (bool, Info)) {
    if i.opcode == ADDXri && i.address then
      if x.kind == AdrpLdr then (true, x.(kind := AdrpAddLdr, mi1 := n))
      else if x.kind == AdrpAddStr && x.mi1 == -1 then (true, x.(mi1 := n))
      else (false, x)
    else if x.kind == AdrpAddStr && x.mi1 == -1 then (true, x.(kind := AdrpLdrGotStr, mi1 := n))
    else if x.kind == AdrpLdr then (true, x.(kind := AdrpLdrGotLdr, mi1 := n))
    else (false, x)
  }

  // ----- The handlers on all registers -----

  // The destination's state moves to the source before the step, even when the step then fails.
  predicate Moves(m: Infos, d: nat, o: nat)
    requires d < 31 && o < 31
  {
    m[d].candidate && (d == o || !m[o].oneUser)
  }

  function Moved(m: Infos, d: nat, o: nat): Infos
    requires d < 31 && o < 31
  {
    if d != o then m[o := m[d]][d := HandleClobber(m[d])] else m[d := m[d].(lastADRP := -1)]
  }

  function MiddleInst(i: Instr, n: nat, m: Infos): (r: (bool, Infos))
    requires i.op0 >= 0 && i.op1 >= 0
  {
    var d, o := i.op0, i.op1;
    if !Moves(m, d, o) then (false, m)
    else
      var s := Advance(i, n, Moved(m, d, o)[o]);
      (s.0, Moved(m, d, o)[o := s.1])
  }

  function Redefs(i: Instr): set<GPR> {
    (set k | 0 <= k < |i.defs| :: i.defs[k]) + i.mask
  }

  function ReadsUpTo(i: Instr, k: nat): set<GPR>
    requires k <= |i.uses|
  {
    set j | 0 <= j < k :: i.uses[j].reg
  }

  function Reads(i: Instr): set<GPR> {
    ReadsUpTo(i, |i.uses|)
  }

  function Clobbered(m: Infos, regs: set<GPR>): Infos {
    seq(31, r requires 0 <= r < 31 => if r in regs then HandleClobber(m[r]) else m[r])
  }

  // The first k uses handled; a register counts once per instruction.
  function UsesHandled(i: Instr, n: nat, m: Infos, k: nat): Infos
    requires k <= |i.uses|
  {
    if k == 0 then m
    else
      var p, u := UsesHandled(i, n, m, k - 1), i.uses[k - 1];
      if u.reg < 0 || u.reg in ReadsUpTo(i, k - 1) then p else p[u.reg := HandleUse(i, n, u, p[u.reg])]
  }

  function NormalInst(i: Instr, n: nat, m: Infos): Infos {
    UsesHandled(i, n, Clobbered(m, Redefs(i)), |i.uses|)
  }

  // What an ADRP at n reports. `outside` is what the code reads when the ADD writes an untracked
  // register and it indexes the state at -1.
  function AdrpHints(b: Block, n: nat, m: Infos, outside: Info): seq<Hint>
    requires n < |b| && b[n].op0 >= 0
  {
    var x := m[b[n].op0];
    (if x.lastADRP >= 0 then [Hint(AdrpAdrp, [n, x.lastADRP])] else []) +
    (if x.candidate then CandidateHint(b, n, m, outside) else [])
  }

  // areInstructionsConsecutive
  predicate Consecutive(x: Info) { x.mi0 == x.mi1 + 1 }

  function CandidateHint(b: Block, n: nat, m: Infos, outside: Info): seq<Hint>
    requires n < |b| && b[n].op0 >= 0
  {
    var x := m[b[n].op0];
    if !(0 <= x.mi0 < |b|) then [] else
    match x.kind
    case AdrpAdd =>
      var opIdx := b[x.mi0].op0;
      var def := if opIdx < 0 then outside else m[opIdx];
      if b[n].op0 != opIdx && (def.oneUser || def.multiUsers) then [] else [Hint(AdrpAdd, [n, x.mi0])]
    case AdrpLdr => if SupportLoadFromLiteral(b[x.mi0]) then [Hint(AdrpLdr, [n, x.mi0])] else []
    case AdrpAddLdr => if x.mi1 >= 0 && Consecutive(x) then [Hint(AdrpAddLdr, [n, x.mi1, x.mi0])] else []
    case AdrpAddStr => if x.mi1 >= 0 && Consecutive(x) then [Hint(AdrpAddStr, [n, x.mi1, x.mi0])] else []
    case AdrpLdrGotLdr => if x.mi1 >= 0 then [Hint(AdrpLdrGotLdr, [n, x.mi1, x.mi0])] else []
    case AdrpLdrGotStr => if x.mi1 >= 0 then [Hint(AdrpLdrGotStr, [n, x.mi1, x.mi0])] else []
    case AdrpLdrGot => [Hint(AdrpLdrGot, [n, x.mi0])]
    case AdrpAdrp => []
  }

  predicate TriesMiddle(i: Instr) { CanBeMiddle(i) && i.op0 >= 0 && i.op1 >= 0 }

  function StepInfos(i: Instr, n: nat, m: Infos): Infos {
    if TriesMiddle(i) then
      var r := MiddleInst(i, n, m);
      if r.0 then r.1 else NormalInst(i, n, r.1)
    else if i.opcode == ADRP && i.op0 >= 0 then m[i.op0 := HandleClobber(m[i.op0]).(lastADRP := n)]
    else NormalInst(i, n, m)
  }

  function Initial(out: set<GPR>): Infos {
    seq(31, r requires 0 <= r < 31 => Info(AdrpAdrp, false, r in out, false, -1, -1, -1))
  }

  // The states before instruction n, walking backwards.
  function InfosAt(b: Block, out: set<GPR>, n: nat): Infos
    requires n <= |b|
    decreases |b| - n
  {
    if n == |b| then Initial(out) else StepInfos(b[n], n, InfosAt(b, out, n + 1))
  }

  function HintsAt(b: Block, out: set<GPR>, outside: Info, n: nat): seq<Hint>
    requires n <= |b|
    decreases |b| - n
  {
    if n == |b| then []
    else HintsAt(b, out, outside, n + 1) +
         (if b[n].opcode == ADRP && b[n].op0 >= 0 then AdrpHints(b, n, InfosAt(b, out, n + 1), outside) else [])
  }

  // ----- The pass -----

  class Collector {
    const infos: array<Info>
    var directives: seq<Hint>

    constructor ()
      ensures fresh(infos) && infos.Length == 31 && directives == []
    {
      infos := new Info[31](_ => Info(AdrpAdrp, false, false, false, -1, -1, -1));
      directives := [];
    }

    ghost predicate Valid() { infos.Length == 31 }

    method Middle(i: Instr, n: nat) returns (handled: bool)
      requires Valid() && TriesMiddle(i)
      modifies infos
      ensures (handled, infos[..]) == MiddleInst(i, n, old(infos[..]))
    {
      hide Advance;
      var d, o := i.op0, i.op1;
      if !infos[d].candidate || (d != o && infos[o].oneUser) {
        return false;
      }
      if d != o {
        infos[o] := infos[d];
        infos[d] := HandleClobber(infos[d]);
      } else {
        infos[d] := infos[d].(lastADRP := -1);
      }
      assert infos[..] == Moved(old(infos[..]), d, o);
      var s := Advance(i, n, infos[o]);
      infos[o] := s.1;
      return s.0;
    }

    method Normal(i: Instr, n: nat)
      requires Valid()
      modifies infos
      ensures infos[..] == NormalInst(i, n, old(infos[..]))
    {
      hide HandleUse, HandleClobber;
      for k := 0 to |i.defs|
        invariant infos[..] == Clobbered(old(infos[..]), set j | 0 <= j < k :: i.defs[j])
      {
        ClobberMore(old(infos[..]), set j | 0 <= j < k :: i.defs[j], i.defs[k]);
        assert (set j | 0 <= j < k + 1 :: i.defs[j]) == (set j | 0 <= j < k :: i.defs[j]) + {i.defs[k]};
        if i.defs[k] >= 0 {
          infos[i.defs[k]] := HandleClobber(infos[i.defs[k]]);
        }
      }
      ghost var defs := set j | 0 <= j < |i.defs| :: i.defs[j];
      for r := 0 to 31
        invariant infos[..] == Clobbered(old(infos[..]), defs + set q | q in i.mask && q < r)
      {
        ghost var so := defs + set q | q in i.mask && q < r;
        if r in i.mask {
          ClobberMore(old(infos[..]), so, r);
          assert so + {r} == defs + set q | q in i.mask && q < r + 1;
          infos[r] := HandleClobber(infos[r]);
        }
      }
      ghost var m := infos[..];
      assert Redefs(i) == defs + set q | q in i.mask && q < 31;
      assert m == Clobbered(old(infos[..]), Redefs(i));
      for k := 0 to |i.uses|
        invariant infos[..] == UsesHandled(i, n, m, k)
      {
        var u := i.uses[k];
        if u.reg >= 0 && u.reg !in ReadsUpTo(i, k) {
          infos[u.reg] := HandleUse(i, n, u, infos[u.reg]);
        }
      }
    }

    // The walk over one block.
    method Run(b: Block, out: set<GPR>, outside: Info)
      requires Valid()
      modifies this`directives, infos
      ensures directives == old(directives) + HintsAt(b, out, outside, 0)
    {
      hide StepInfos, AdrpHints;
      for r := 0 to 31
        invariant directives == old(directives) && forall q | 0 <= q < r :: infos[q] == Initial(out)[q]
      {
        infos[r] := Info(AdrpAdrp, false, r in out, false, -1, -1, -1);
      }
      assert infos[..] == Initial(out);
      assert directives + [] == directives;
      var n := |b|;
      while n > 0
        invariant 0 <= n <= |b| && infos[..] == InfosAt(b, out, n)
        invariant directives == old(directives) + HintsAt(b, out, outside, n)
      {
        n := n - 1;
        Visit(b, n, outside);
      }
    }

    method Visit(b: Block, n: nat, outside: Info)
      requires Valid() && n < |b|
      modifies this`directives, infos
      ensures infos[..] == StepInfos(b[n], n, old(infos[..]))
      ensures directives == old(directives) +
                            (if b[n].opcode == ADRP && b[n].op0 >= 0 then AdrpHints(b, n, old(infos[..]), outside) else [])
    {
      hide MiddleInst, NormalInst, CandidateHint;
      var i := b[n];
      if CanBeMiddle(i) {
        if i.op0 >= 0 && i.op1 >= 0 {
          var handled := Middle(i, n);
          if handled { return; }
        }
      } else if i.opcode == ADRP && i.op0 >= 0 {
        directives := directives + AdrpHints(b, n, infos[..], outside);
        infos[i.op0] := HandleClobber(infos[i.op0]).(lastADRP := n);
        return;
      }
      Normal(i, n);
    }
  }

  lemma ClobberMore(m: Infos, regs: set<GPR>, r: GPR)
    ensures r >= 0 ==> Clobbered(m, regs + {r}) == Clobbered(m, regs)[r := HandleClobber(Clobbered(m, regs)[r])]
    ensures r < 0 ==> Clobbered(m, regs + {r}) == Clobbered(m, regs)
  {
  }
}
