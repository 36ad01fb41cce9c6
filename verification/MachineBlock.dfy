/** Straight-line code after register allocation: operands, liveness, kill flags, a meaning in which
    every operation is uninterpreted, and when renaming registers keeps that meaning. */
module MachineBlock {

  type Reg = nat

  datatype Use = Use(reg: Reg, kill: bool, tied: bool)

  datatype Kind = Mul | Mla | Other

  // `mask` holds the registers a register-mask operand clobbers.
  datatype Instr = Instr(kind: Kind, opcode: nat, defs: seq<Reg>, uses: seq<Use>, mask: set<Reg>)

  type Block = seq<Instr>

  function UsedRegs(i: Instr): set<Reg> {
    set k | 0 <= k < |i.uses| :: i.uses[k].reg
  }

  function DefRegs(i: Instr): set<Reg> {
    set k | 0 <= k < |i.defs| :: i.defs[k]
  }

  predicate Mentions(i: Instr, r: Reg) {
    r in UsedRegs(i) || r in DefRegs(i) || r in i.mask
  }

  // ----- Liveness and kill flags -----

  function LiveBefore(i: Instr, after: set<Reg>): set<Reg> {
    (after - DefRegs(i) - i.mask) + UsedRegs(i)
  }

  // Registers live just before instruction n, `out` being live out of the block.
  function Live(b: Block, out: set<Reg>, n: nat): set<Reg>
    requires n <= |b|
    decreases |b| - n
  {
    if n == |b| then out else LiveBefore(b[n], Live(b, out, n + 1))
  }

  // A use marked kill is the last before the register is redefined or the block ends.
  ghost predicate KillsCorrectAt(i: Instr, after: set<Reg>) {
    forall k | 0 <= k < |i.uses| && i.uses[k].kill :: i.uses[k].reg !in after - DefRegs(i) - i.mask
  }

  ghost predicate KillsCorrect(b: Block, out: set<Reg>) {
    forall n | 0 <= n < |b| :: KillsCorrectAt(b[n], Live(b, out, n + 1))
  }

  // ----- Meaning -----

  // The k-th result of an operation on the values it reads. Clobbered registers get results beyond the definitions.
  type Semantics = (nat, seq<int>, nat) -> int
  type RegFile = Reg -> int

  function ReadValues(i: Instr, rf: RegFile): seq<int> {
    seq(|i.uses|, k requires 0 <= k < |i.uses| => rf(i.uses[k].reg))
  }

  // Position of r among the definitions.
  function DefIndex(defs: seq<Reg>, r: Reg): (k: nat)
    requires exists k | 0 <= k < |defs| :: defs[k] == r
    ensures k < |defs| && defs[k] == r && forall j | 0 <= j < k :: defs[j] != r
  {
    if defs[0] == r then 0 else 1 + DefIndex(defs[1..], r)
  }

  function ValueAfter(f: Semantics, i: Instr, rf: RegFile, r: Reg): int {
    if r in DefRegs(i) then f(i.opcode, ReadValues(i, rf), DefIndex(i.defs, r))
    else if r in i.mask then f(i.opcode, ReadValues(i, rf), |i.defs| + r)
    else rf(r)
  }

  function Exec(f: Semantics, i: Instr, rf: RegFile): RegFile {
    (r: Reg) => ValueAfter(f, i, rf, r)
  }

  // The register file just before instruction n.
  function Regs(f: Semantics, b: Block, rf: RegFile, n: nat): RegFile
    requires n <= |b|
  {
    if n == 0 then rf else Exec(f, b[n - 1], Regs(f, b, rf, n - 1))
  }

  // Both blocks read the same values at every instruction and agree on what is live out.
  ghost predicate SameEffect(b: Block, c: Block, out: set<Reg>) {
    && |b| == |c|
    && (forall n | 0 <= n < |b| :: b[n].opcode == c[n].opcode && b[n].kind == c[n].kind)
    && (forall f: Semantics, rf: RegFile, n: nat {:trigger Regs(f, b, rf, n)} | n < |b| ::
          ReadValues(b[n], Regs(f, b, rf, n)) == ReadValues(c[n], Regs(f, c, rf, n)))
    && (forall f: Semantics, rf: RegFile, r: Reg {:trigger Regs(f, b, rf, |b|), r in out} | r in out ::
          Regs(f, b, rf, |b|)(r) == Regs(f, c, rf, |c|)(r))
  }

  // ----- Renaming -----

  // A substitution as colorChain keeps it: registers absent from the map stand for themselves.
  type Substs = map<Reg, Reg>

  function Sub(s: Substs, r: Reg): Reg {
    if r in s then s[r] else r
  }

  ghost predicate InjectiveOn(s: Substs, live: set<Reg>) {
    forall a, b {:trigger Sub(s, a), Sub(s, b)} | a in live && b in live && Sub(s, a) == Sub(s, b) :: a == b
  }

  // Instruction j is instruction i with uses renamed by s and definitions by t; `after` is live after i.
  ghost predicate RenamedBy(i: Instr, j: Instr, s: Substs, t: Substs, after: set<Reg>) {
    && j.kind == i.kind && j.opcode == i.opcode && j.mask == i.mask
    && |j.uses| == |i.uses| && |j.defs| == |i.defs|
    && (forall k | 0 <= k < |i.uses| :: j.uses[k] == i.uses[k].(reg := Sub(s, i.uses[k].reg)))
    && (forall k | 0 <= k < |i.defs| :: j.defs[k] == Sub(t, i.defs[k]))
    && InjectiveOn(t, after + DefRegs(i))
    && (forall r | r in after && r !in DefRegs(i) ::
          if r in i.mask then Sub(t, r) == r else Sub(t, r) == Sub(s, r) && Sub(t, r) !in i.mask)
  }

  ghost predicate Renames(b: Block, c: Block, subs: seq<Substs>, out: set<Reg>) {
    && |c| == |b| && |subs| == |b| + 1
    && (forall n | 0 <= n < |b| :: RenamedBy(b[n], c[n], subs[n], subs[n + 1], Live(b, out, n + 1)))
    && (forall r | r in Live(b, out, 0) :: Sub(subs[0], r) == r)
    && (forall r | r in out :: Sub(subs[|b|], r) == r)
    && InjectiveOn(subs[0], Live(b, out, 0))
  }

  lemma DefPosition(i: Instr, j: Instr, t: Substs, after: set<Reg>, r: Reg)
    requires |j.defs| == |i.defs| && forall k | 0 <= k < |i.defs| :: j.defs[k] == Sub(t, i.defs[k])
    requires InjectiveOn(t, after + DefRegs(i)) && r in after + DefRegs(i)
    ensures Sub(t, r) in DefRegs(j) <==> r in DefRegs(i)
    ensures r in DefRegs(i) ==> DefIndex(j.defs, Sub(t, r)) == DefIndex(i.defs, r)
  {
    if r in DefRegs(i) {
      var k := DefIndex(i.defs, r);
      assert j.defs[k] == Sub(t, r);
      var m := DefIndex(j.defs, Sub(t, r));
      assert Sub(t, i.defs[m]) == Sub(t, r) && i.defs[m] in DefRegs(i);
    } else {
      forall k | 0 <= k < |j.defs| ensures j.defs[k] != Sub(t, r) { assert i.defs[k] in DefRegs(i); }
    }
  }

  // One instruction keeps live registers related.
  lemma ExecRenamed(f: Semantics, i: Instr, j: Instr, s: Substs, t: Substs, after: set<Reg>, rf: RegFile, rg: RegFile)
    requires RenamedBy(i, j, s, t, after)
    requires forall r | r in LiveBefore(i, after) :: rg(Sub(s, r)) == rf(r)
    ensures ReadValues(i, rf) == ReadValues(j, rg)
    ensures forall r | r in after :: Exec(f, j, rg)(Sub(t, r)) == Exec(f, i, rf)(r)
  {
    forall k | 0 <= k < |i.uses| ensures ReadValues(i, rf)[k] == ReadValues(j, rg)[k] {
      assert i.uses[k].reg in UsedRegs(i);
    }
    assert ReadValues(i, rf) == ReadValues(j, rg);
    forall r | r in after ensures ValueAfter(f, j, rg, Sub(t, r)) == ValueAfter(f, i, rf, r) {
      DefPosition(i, j, t, after, r);
      if r !in DefRegs(i) && r !in i.mask { assert r in LiveBefore(i, after); }
    }
  }

  lemma {:induction false} RenamedStates(f: Semantics, b: Block, c: Block, subs: seq<Substs>, out: set<Reg>, rf: RegFile, n: nat)
    requires Renames(b, c, subs, out) && n <= |b|
    ensures forall r | r in Live(b, out, n) :: Regs(f, c, rf, n)(Sub(subs[n], r)) == Regs(f, b, rf, n)(r)
  {
    if n > 0 {
      RenamedStates(f, b, c, subs, out, rf, n - 1);
      ExecRenamed(f, b[n - 1], c[n - 1], subs[n - 1], subs[n], Live(b, out, n), Regs(f, b, rf, n - 1), Regs(f, c, rf, n - 1));
    }
  }

  lemma RenamingKeepsEffect(b: Block, c: Block, subs: seq<Substs>, out: set<Reg>)
    requires Renames(b, c, subs, out)
    ensures SameEffect(b, c, out)
  {
    forall n | 0 <= n < |b| ensures b[n].opcode == c[n].opcode && b[n].kind == c[n].kind {
      assert RenamedBy(b[n], c[n], subs[n], subs[n + 1], Live(b, out, n + 1));
    }
    forall f: Semantics, rf: RegFile, n: nat | n < |b|
      ensures ReadValues(b[n], Regs(f, b, rf, n)) == ReadValues(c[n], Regs(f, c, rf, n))
    {
      RenamedStates(f, b, c, subs, out, rf, n);
      ExecRenamed(f, b[n], c[n], subs[n], subs[n + 1], Live(b, out, n + 1), Regs(f, b, rf, n), Regs(f, c, rf, n));
    }
    forall f: Semantics, rf: RegFile, r: Reg | r in out ensures Regs(f, b, rf, |b|)(r) == Regs(f, c, rf, |c|)(r) {
      RenamedStates(f, b, c, subs, out, rf, |b|);
    }
  }

  lemma SameEffectTrans(a: Block, b: Block, c: Block, out: set<Reg>)
    requires SameEffect(a, b, out) && SameEffect(b, c, out)
    ensures SameEffect(a, c, out)
  {
    forall f: Semantics, rf: RegFile, n: nat | n < |a|
      ensures ReadValues(a[n], Regs(f, a, rf, n)) == ReadValues(c[n], Regs(f, c, rf, n))
    {
      assert ReadValues(b[n], Regs(f, b, rf, n)) == ReadValues(c[n], Regs(f, c, rf, n));
    }
    forall f: Semantics, rf: RegFile, r: Reg | r in out ensures Regs(f, a, rf, |a|)(r) == Regs(f, c, rf, |c|)(r) {
      assert Regs(f, b, rf, |b|)(r) == Regs(f, c, rf, |c|)(r);
    }
  }

  // ----- Liveness and kill flags after renaming -----

  function Image(s: Substs, live: set<Reg>): set<Reg> {
    set r | r in live :: Sub(s, r)
  }

  lemma LiveBeforeRenamed(i: Instr, j: Instr, s: Substs, t: Substs, after: set<Reg>)
    requires RenamedBy(i, j, s, t, after)
    ensures LiveBefore(j, Image(t, after)) == Image(s, LiveBefore(i, after))
  {
    var x, y := LiveBefore(j, Image(t, after)), Image(s, LiveBefore(i, after));
    forall r | r in after ensures Sub(t, r) in DefRegs(j) <==> r in DefRegs(i) { DefPosition(i, j, t, after, r); }
    forall q | q in x ensures q in y {
      if q in UsedRegs(j) {
        var k :| 0 <= k < |j.uses| && j.uses[k].reg == q;
        assert i.uses[k].reg in UsedRegs(i);
      } else {
        var r :| r in after && Sub(t, r) == q;
        assert r in LiveBefore(i, after);
      }
    }
    forall q | q in y ensures q in x {
      var r :| r in LiveBefore(i, after) && Sub(s, r) == q;
      if r in UsedRegs(i) {
        var k :| 0 <= k < |i.uses| && i.uses[k].reg == r;
        assert j.uses[k].reg == q;
      }
    }
  }

  lemma {:induction false} LiveRenamed(b: Block, c: Block, subs: seq<Substs>, out: set<Reg>, n: nat)
    requires Renames(b, c, subs, out) && n <= |b|
    ensures Live(c, out, n) == Image(subs[n], Live(b, out, n))
    decreases |b| - n
  {
    if n == |b| {
      assert Image(subs[n], out) == out by {
        forall r | r in out ensures r in Image(subs[n], out) { assert Sub(subs[n], r) == r; }
      }
    } else {
      LiveRenamed(b, c, subs, out, n + 1);
      LiveBeforeRenamed(b[n], c[n], subs[n], subs[n + 1], Live(b, out, n + 1));
    }
  }

  lemma RenamingKeepsKills(b: Block, c: Block, subs: seq<Substs>, out: set<Reg>)
    requires Renames(b, c, subs, out) && KillsCorrect(b, out)
    requires forall n | 0 <= n <= |b| :: InjectiveOn(subs[n], Live(b, out, n))
    ensures KillsCorrect(c, out)
  {
    forall n | 0 <= n < |c| ensures KillsCorrectAt(c[n], Live(c, out, n + 1)) {
      LiveRenamed(b, c, subs, out, n + 1);
      KillRenamed(b[n], c[n], subs[n], subs[n + 1], Live(b, out, n + 1));
    }
  }

  lemma KillRenamed(i: Instr, j: Instr, s: Substs, t: Substs, after: set<Reg>)
    requires RenamedBy(i, j, s, t, after) && KillsCorrectAt(i, after) && InjectiveOn(s, LiveBefore(i, after))
    ensures KillsCorrectAt(j, Image(t, after))
  {
    forall k | 0 <= k < |j.uses| && j.uses[k].kill && j.uses[k].reg in Image(t, after) - DefRegs(j) - j.mask
      ensures false
    {
      var r := i.uses[k].reg;
      assert r in UsedRegs(i);
      var q :| q in after && Sub(t, q) == Sub(s, r);
      DefPosition(i, j, t, after, q);
    }
  }
}
