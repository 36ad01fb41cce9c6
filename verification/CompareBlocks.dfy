/** A control-flow graph of SSA blocks with compares and conditional branches, and what running a block does
    (the setting of AArch64ConditionalCompares.cpp). */
module CompareBlocks {
  import opened Flags
  import opened Options

  type Reg = nat
  type Label = nat

  datatype Kind = Sub(wide: bool) | Add(wide: bool) | Fp(id: nat)

  datatype Operand = Imm(value: int, shift: int) | Register(reg: Reg)

  // Op is any instruction that is no compare: `unsafe` when it loads or cannot be speculated. The result of
  // a compare is unused when `dead`.
  datatype Ins =
    | Op(id: nat, def: Reg, uses: seq<Reg>, readsFlags: bool, setsFlags: bool, unsafe: bool)
    | Compare(kind: Kind, rn: Reg, rhs: Operand, dead: bool)
    | CCmp(kind: Kind, rn: Reg, rhs: Operand, nzcv: NZCV, cc: CondCode)

  // Conditional terminators go to `taken` or fall to `other`. Cb is cbz, or cbnz when `nonzero`.
  datatype Term =
    | Bcc(cc: CondCode, taken: Label, other: Label)
    | Cb(nonzero: bool, wide: bool, reg: Reg, taken: Label, other: Label)
    | Other(targets: seq<Label>)

  datatype Arg = Arg(reg: Reg, from: Label)
  datatype Phi = Phi(def: Reg, args: seq<Arg>)
  datatype Block = Block(phis: seq<Phi>, body: seq<Ins>, term: Term, succs: seq<Label>, liveIns: bool)

  type Graph = map<Label, Block>

  // ----- Running a block -----

  // What operations compute is left open.
  datatype Sem = Sem(op: (nat, seq<int>, NZCV, int) -> int, flags: (nat, seq<int>, NZCV, int) -> NZCV,
                     world: (nat, seq<int>, NZCV, int) -> int, fcmp: (nat, int, int) -> NZCV)

  datatype State = State(regs: map<Reg, int>, flags: Option<NZCV>, world: int)

  const NO_FLAGS := NZCV(false, false, false, false)

  function Value(s: State, r: Reg): int {
    if r in s.regs then s.regs[r] else 0
  }

  function Values(s: State, rs: seq<Reg>): seq<int> {
    seq(|rs|, k requires 0 <= k < |rs| => Value(s, rs[k]))
  }

  function FlagsIn(s: State): NZCV {
    if s.flags.Some? then s.flags.value else NO_FLAGS
  }

  function OperandValue(s: State, o: Operand): int {
    match o case Imm(v, shift) => (if shift == 12 then v * 4096 else v) case Register(r) => Value(s, r)
  }

  function Width(wide: bool): int { if wide then TWO64 else TWO32 }

  function CompareFlags(sem: Sem, k: Kind, a: int, b: int): NZCV {
    match k
    case Sub(wide) => Subs(Width(wide), a % Width(wide), b % Width(wide))
    case Add(wide) => Adds(Width(wide), a % Width(wide), b % Width(wide))
    case Fp(id) => sem.fcmp(id, a, b)
  }

  function Exec(sem: Sem, i: Ins, s: State): State {
    match i
    case Op(id, def, uses, _, setsFlags, unsafe) =>
      var vs, f := Values(s, uses), if i.readsFlags then FlagsIn(s) else NO_FLAGS;
      var w := if unsafe then s.world else 0;
      State(s.regs[def := sem.op(id, vs, f, w)], if setsFlags then Some(sem.flags(id, vs, f, w)) else s.flags,
            if unsafe then sem.world(id, vs, f, w) else s.world)
    case Compare(k, rn, rhs, _) => s.(flags := Some(CompareFlags(sem, k, Value(s, rn), OperandValue(s, rhs))))
    case CCmp(k, rn, rhs, nzcv, cc) =>
      if Holds(cc, FlagsIn(s)) then s.(flags := Some(CompareFlags(sem, k, Value(s, rn), OperandValue(s, rhs))))
      else s.(flags := Some(nzcv))
  }

  function Run(sem: Sem, body: seq<Ins>, s: State): State {
    if body == [] then s else Exec(sem, body[|body| - 1], Run(sem, body[..|body| - 1], s))
  }

  // Where a terminator goes; a terminator that is not a conditional branch picks any of its targets.
  function Goes(sem: Sem, t: Term, s: State): Label {
    match t
    case Bcc(cc, taken, other) => if Holds(cc, FlagsIn(s)) then taken else other
    case Cb(nonzero, wide, reg, taken, other) => if (Value(s, reg) % Width(wide) == 0) != nonzero then taken else other
    case Other(targets) => if targets == [] then 0 else targets[0]
  }

  // ----- Reading only what is there -----

  predicate OperandThere(s: State, o: Operand) {
    o.Register? ==> o.reg in s.regs
  }

  // The instruction reads no register that has no value yet, and no flags nobody set.
  predicate Strict(i: Ins, s: State) {
    match i
    case Op(_, _, uses, readsFlags, _, _) => (forall k | 0 <= k < |uses| :: uses[k] in s.regs) && (readsFlags ==> s.flags.Some?)
    case Compare(_, rn, rhs, _) => rn in s.regs && OperandThere(s, rhs)
    case CCmp(_, rn, rhs, _, _) => s.flags.Some? && rn in s.regs && OperandThere(s, rhs)
  }

  ghost predicate StrictRun(sem: Sem, body: seq<Ins>, s: State) {
    forall k | 0 <= k < |body| :: Strict(body[k], Run(sem, body[..k], s))
  }

  predicate StrictTerm(t: Term, s: State) {
    match t
    case Bcc(_, _, _) => s.flags.Some?
    case Cb(_, _, reg, _, _) => reg in s.regs
    case Other(_) => true
  }

  // b knows everything a does.
  ghost predicate Below(a: State, b: State) {
    && a.world == b.world && (a.flags.Some? ==> b.flags == a.flags)
    && forall r | r in a.regs :: r in b.regs && b.regs[r] == a.regs[r]
  }

  lemma ExecMonotone(sem: Sem, i: Ins, a: State, b: State)
    requires Strict(i, a) && Below(a, b)
    ensures Strict(i, b) && Below(Exec(sem, i, a), Exec(sem, i, b))
  {
    if i.Op? { assert Values(a, i.uses) == Values(b, i.uses); }
  }

  lemma RunSnoc(sem: Sem, body: seq<Ins>, s: State)
    requires |body| > 0 && StrictRun(sem, body, s)
    ensures var n := |body| - 1; StrictRun(sem, body[..n], s) && Strict(body[n], Run(sem, body[..n], s))
  {
    hide Strict, Run;
    var n := |body| - 1;
    forall k | 0 <= k < n ensures Strict(body[..n][k], Run(sem, body[..n][..k], s)) {
      assert body[..n][..k] == body[..k];
    }
  }

  lemma {:induction false} RunMonotone(sem: Sem, body: seq<Ins>, a: State, b: State)
    requires StrictRun(sem, body, a) && Below(a, b)
    ensures Below(Run(sem, body, a), Run(sem, body, b))
  {
    hide Strict, Exec, Below, StrictRun;
    if |body| > 0 {
      RunSnoc(sem, body, a);
      RunMonotone(sem, body[..|body| - 1], a, b);
      ExecMonotone(sem, body[|body| - 1], Run(sem, body[..|body| - 1], a), Run(sem, body[..|body| - 1], b));
    }
  }

  lemma GoesMonotone(sem: Sem, t: Term, a: State, b: State)
    requires StrictTerm(t, a) && Below(a, b)
    ensures Goes(sem, t, b) == Goes(sem, t, a)
  {
  }

  lemma {:induction false} RunJoin(sem: Sem, x: seq<Ins>, y: seq<Ins>, s: State)
    ensures Run(sem, x + y, s) == Run(sem, y, Run(sem, x, s))
  {
    hide Exec;
    if y == [] {
      assert x + y == x;
    } else {
      var n := |y| - 1;
      RunJoin(sem, x, y[..n], s);
      assert (x + y)[..|x + y| - 1] == x + y[..n];
    }
  }

  lemma RunOne(sem: Sem, i: Ins, s: State)
    ensures Run(sem, [i], s) == Exec(sem, i, s)
  {
    hide Exec;
    assert [i][..0] == [];
    assert Run(sem, [], s) == s;
  }

  // ----- Definitions -----

  function BodyDefs(body: seq<Ins>): set<Reg> {
    set k | 0 <= k < |body| && body[k].Op? :: body[k].def
  }

  lemma {:induction false} RunKeeps(sem: Sem, body: seq<Ins>, s: State)
    ensures Run(sem, body, s).regs.Keys == s.regs.Keys + BodyDefs(body)
    ensures forall r | r in s.regs && r !in BodyDefs(body) :: Run(sem, body, s).regs[r] == s.regs[r]
  {
    if |body| > 0 {
      var n := |body| - 1;
      RunKeeps(sem, body[..n], s);
      assert BodyDefs(body) == BodyDefs(body[..n]) + if body[n].Op? then {body[n].def} else {};
    }
  }

  // Code that may be moved above a branch: it touches no memory and does not set the flags.
  predicate Speculatable(i: Ins) {
    i.Op? && !i.unsafe && !i.setsFlags
  }

  lemma {:induction false} SpeculationIsPure(sem: Sem, body: seq<Ins>, s: State)
    requires forall i | i in body :: Speculatable(i)
    ensures Run(sem, body, s).world == s.world && Run(sem, body, s).flags == s.flags
  {
    if |body| > 0 {
      assert body[|body| - 1] in body && forall i | i in body[..|body| - 1] :: i in body;
      SpeculationIsPure(sem, body[..|body| - 1], s);
    }
  }
}
