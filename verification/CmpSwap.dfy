/** The load-exclusive/store-exclusive loops that expandCMP_SWAP and expandCMP_SWAP_128 put in
    place of the compare-and-swap pseudos, run against other observers of the location.

    The code of each expansion is given block by block. A small interpreter executes it one
    memory access or instruction at a time; between any two steps another observer may write
    the location, the exclusive monitor may be lost, and a store-exclusive may fail for no reason.
    The pair load takes its two halves separately. Every run is shown to be a run of an
    atomic compare-and-swap. */
module CmpSwap {

  datatype Reg = DestLo | DestHi | Status | DesiredLo | DesiredHi | NewLo | NewHi | ZR

  datatype Label = LoadCmpBB | StoreBB | FailBB | DoneBB

  datatype Instr =
    | LDXP(lo: Reg, hi: Reg)
    | LDXR(dst: Reg)
    | SUBS(lhs: Reg, rhs: Reg)               // only Z is used afterwards
    | CSINCEq(dst: Reg, ifEq: Reg, ifNe: Reg)
    | MOVZ0(dst: Reg)
    | CBNZ(reg: Reg, target: Label)
    | BNE(target: Label)
    | B(target: Label)
    | STXP(status: Reg, lo: Reg, hi: Reg)
    | STXR(status: Reg, src: Reg)

  // What is being expanded: the pair form, or a single location of the given width in bits.
  datatype Kind = Pair | Single(bits: nat, statusDead: bool)

  predicate ValidKind(k: Kind) {
    k.Single? ==> k.bits == 8 || k.bits == 16 || k.bits == 32 || k.bits == 64
  }

  function Block(k: Kind, l: Label): seq<Instr> {
    match (k, l)
    case (Pair, LoadCmpBB) => [
      LDXP(DestLo, DestHi),
      SUBS(DestLo, DesiredLo),
      CSINCEq(Status, ZR, ZR),
      SUBS(DestHi, DesiredHi),
      CSINCEq(Status, Status, Status),
      CBNZ(Status, FailBB)]
    case (Pair, StoreBB) => [STXP(Status, NewLo, NewHi), CBNZ(Status, LoadCmpBB), B(DoneBB)]
    case (Pair, FailBB) => [STXP(Status, DestLo, DestHi), CBNZ(Status, LoadCmpBB)]
    case (Single(_, dead), LoadCmpBB) =>
      (if dead then [] else [MOVZ0(Status)]) + [LDXR(DestLo), SUBS(DestLo, DesiredLo), BNE(DoneBB)]
    case (Single(_, _), StoreBB) => [STXR(Status, NewLo), CBNZ(Status, LoadCmpBB)]
    case _ => []
  }

  // Layout successor.
  function FallThrough(k: Kind, l: Label): Label {
    match l
    case LoadCmpBB => StoreBB
    case StoreBB => if k.Pair? then FailBB else DoneBB
    case _ => DoneBB
  }

  // ----- The machine -----

  type Value = v: nat | v < 0x1_0000_0000_0000_0000

  datatype Memory = Memory(lo: Value, hi: Value)

  // half: within a pair load, the half already read.
  datatype Half = Neither | LoRead | HiRead

  datatype Regs = Regs(destLo: Value, destHi: Value, status: Value,
                       desiredLo: Value, desiredHi: Value, newLo: Value, newHi: Value)

  datatype State = State(
    mem: Memory, monitor: bool, regs: Regs, z: bool, block: Label, idx: nat, half: Half)

  // Write: another observer stores to the location. Lose: the monitor is cleared. Run: the loop
  // takes its next step; `luck` resolves its choices (which half first, spurious failure).
  datatype Event = Write(mem: Memory) | Lose | Run(luck: bool)

  function Modulus(k: Kind): nat {
    match k
    case Pair => 0x1_0000_0000_0000_0000
    case Single(bits, _) =>
      if bits == 8 then 0x100 else if bits == 16 then 0x1_0000 else if bits == 32 then 0x1_0000_0000
      else 0x1_0000_0000_0000_0000
  }

  // The part of a register a store of this width writes and a compare of this width looks at.
  function Low(k: Kind, v: Value): Value {
    v % Modulus(k)
  }

  function PowerOfTwo(n: nat): nat {
    if n == 0 then 1 else 2 * PowerOfTwo(n - 1)
  }

  lemma {:induction false} PowerSum(m: nat, n: nat)
    ensures PowerOfTwo(m + n) == PowerOfTwo(m) * PowerOfTwo(n)
  {
    if m > 0 {
      PowerSum(m - 1, n);
      assert 2 * (PowerOfTwo(m - 1) * PowerOfTwo(n)) == 2 * PowerOfTwo(m - 1) * PowerOfTwo(n);
    }
  }

  lemma FourBits()
    ensures PowerOfTwo(4) == 0x10
  {
    assert PowerOfTwo(2) == 4;
  }

  lemma Powers()
    ensures PowerOfTwo(8) == 0x100 && PowerOfTwo(16) == 0x1_0000 && PowerOfTwo(32) == 0x1_0000_0000
    ensures PowerOfTwo(64) == 0x1_0000_0000_0000_0000
  {
    hide PowerOfTwo;
    FourBits();
    PowerSum(4, 4);
    PowerSum(8, 8);
    PowerSum(16, 16);
    PowerSum(32, 32);
  }

  // A location has as many bits as its kind says; each half of a pair has 64.
  lemma WidthInBits(k: Kind)
    requires ValidKind(k)
    ensures Modulus(k) == PowerOfTwo(if k.Pair? then 64 else k.bits)
  {
    hide PowerOfTwo;
    Powers();
  }

  function Get(s: State, r: Reg): Value {
    match r
    case DestLo => s.regs.destLo
    case DestHi => s.regs.destHi
    case Status => s.regs.status
    case DesiredLo => s.regs.desiredLo
    case DesiredHi => s.regs.desiredHi
    case NewLo => s.regs.newLo
    case NewHi => s.regs.newHi
    case ZR => 0
  }

  function Set(s: State, r: Reg, v: Value): State {
    match r
    case DestLo => s.(regs := s.regs.(destLo := v))
    case DestHi => s.(regs := s.regs.(destHi := v))
    case Status => s.(regs := s.regs.(status := v))
    case DesiredLo => s.(regs := s.regs.(desiredLo := v))
    case DesiredHi => s.(regs := s.regs.(desiredHi := v))
    case NewLo => s.(regs := s.regs.(newLo := v))
    case NewHi => s.(regs := s.regs.(newHi := v))
    case ZR => s
  }

  function Goto(s: State, l: Label): State {
    s.(block := l, idx := 0)
  }

  function Next(k: Kind, s: State): State {
    if s.idx + 1 < |Block(k, s.block)| then s.(idx := s.idx + 1) else Goto(s, FallThrough(k, s.block))
  }

  // The right operand of the compare is extended or truncated to the width (UXTB, UXTH, W or X register).
  function ZeroFlag(k: Kind, a: Value, b: Value): bool {
    var m := if k.Single? && k.bits < 64 then 0x1_0000_0000 else 0x1_0000_0000_0000_0000;
    (a - Low(k, b)) % m == 0
  }

  function Execute(k: Kind, s: State, i: Instr, luck: bool): State {
    match i
    case LDXP(lo, hi) =>
      if s.half == Neither then
        if luck then Set(s, lo, s.mem.lo).(half := LoRead, monitor := true)
        else Set(s, hi, s.mem.hi).(half := HiRead, monitor := true)
      else if s.half == LoRead then Next(k, Set(s, hi, s.mem.hi).(half := Neither))
      else Next(k, Set(s, lo, s.mem.lo).(half := Neither))
    case LDXR(d) => Next(k, Set(s, d, s.mem.lo).(monitor := true))
    case SUBS(a, b) => Next(k, s.(z := ZeroFlag(k, Get(s, a), Get(s, b))))
    case CSINCEq(d, a, b) =>
      var r := if s.z then Get(s, a) else (Get(s, b) + 1) % 0x1_0000_0000;
      Next(k, Set(s, d, r))
    case MOVZ0(d) => Next(k, Set(s, d, 0))
    case CBNZ(r, l) => if Get(s, r) != 0 then Goto(s, l) else Next(k, s)
    case BNE(l) => if !s.z then Goto(s, l) else Next(k, s)
    case B(l) => Goto(s, l)
    case STXP(st, lo, hi) =>
      if luck && s.monitor
      then Next(k, Set(s, st, 0).(mem := Memory(Get(s, lo), Get(s, hi)), monitor := false))
      else Next(k, Set(s, st, 1).(monitor := false))
    case STXR(st, r) =>
      if luck && s.monitor
      then Next(k, Set(s, st, 0).(mem := s.mem.(lo := Low(k, Get(s, r))), monitor := false))
      else Next(k, Set(s, st, 1).(monitor := false))
  }

  // Anything another observer stores at a location of this width.
  predicate Fits(k: Kind, m: Memory) {
    k.Single? ==> m.lo < Modulus(k)
  }

  function Step(k: Kind, s: State, e: Event): State {
    match e
    case Write(m) => if Fits(k, m) then s.(mem := m, monitor := false) else s
    case Lose => s.(monitor := false)
    case Run(luck) =>
      if s.idx < |Block(k, s.block)| then Execute(k, s, Block(k, s.block)[s.idx], luck) else s
  }

  function RunAll(k: Kind, s: State, es: seq<Event>): State {
    if es == [] then s else Step(k, RunAll(k, s, es[..|es| - 1]), es[|es| - 1])
  }

  predicate Initial(k: Kind, s: State) {
    s.block == LoadCmpBB && s.idx == 0 && s.half == Neither && Fits(k, s.mem)
  }

  predicate Done(s: State) { s.block == DoneBB }

  // ----- The specification: an atomic compare-and-swap among the same writers -----

  datatype Spec = Spec(mem: Memory, result: Answer)

  datatype Answer = Pending | Answer(read: Memory)

  datatype SpecEvent = SpecWrite(mem: Memory) | SpecCas | SpecNothing

  // What the operation compares with and writes. A single location leaves the other half alone.
  function Desired(k: Kind, s: State): Memory {
    if k.Pair? then Memory(Get(s, DesiredLo), Get(s, DesiredHi))
    else Memory(Low(k, Get(s, DesiredLo)), 0)
  }

  function New(k: Kind, s: State): Memory {
    if k.Pair? then Memory(Get(s, NewLo), Get(s, NewHi)) else Memory(Low(k, Get(s, NewLo)), 0)
  }

  function Viewed(k: Kind, m: Memory): Memory {
    if k.Pair? then m else m.(hi := 0)
  }

  function Cas(k: Kind, m: Memory, desired: Memory, new_: Memory): Memory {
    if Viewed(k, m) == desired then (if k.Pair? then new_ else m.(lo := new_.lo)) else m
  }

  function SpecStep(k: Kind, desired: Memory, new_: Memory, a: Spec, e: SpecEvent): Spec {
    match e
    case SpecWrite(m) => if Fits(k, m) then a.(mem := m) else a
    case SpecCas => Spec(Cas(k, a.mem, desired, new_), Answer(Viewed(k, a.mem)))
    case SpecNothing => a
  }

  function SpecRun(k: Kind, desired: Memory, new_: Memory, a: Spec, es: seq<SpecEvent>): Spec {
    if es == [] then a else SpecStep(k, desired, new_, SpecRun(k, desired, new_, a, es[..|es| - 1]), es[|es| - 1])
  }

  // ----- The link: when has the operation taken effect? -----

  function ReadPair(k: Kind, s: State): Memory {
    if k.Pair? then Memory(Get(s, DestLo), Get(s, DestHi)) else Memory(Get(s, DestLo), 0)
  }

  predicate Matches(k: Kind, s: State) {
    ReadPair(k, s) == Desired(k, s)
  }

  // Position, counted so that both single-location variants agree.
  function At(k: Kind, s: State): nat {
    if k.Single? && k.statusDead && s.block == LoadCmpBB then s.idx + 1 else s.idx
  }

  // The pair loop takes effect at a successful store-exclusive. The single-location loop leaves
  // without a store when the comparison fails, and then takes effect at its load.
  predicate TookEffect(k: Kind, s: State) {
    || s.block == DoneBB
    || (s.block == StoreBB && s.idx >= 1 && Get(s, Status) == 0)
    || (k.Pair? && s.block == FailBB && s.idx == 1 && Get(s, Status) == 0)
    || (k.Single? && s.block == LoadCmpBB && At(k, s) >= 2 && !Matches(k, s))
  }

  function Abs(k: Kind, s: State): Spec {
    Spec(s.mem, if TookEffect(k, s) then Answer(ReadPair(k, s)) else Pending)
  }

  // ----- The invariant -----

  predicate PairInv(s: State) {
    && s.idx < |Block(Pair, s.block)| + (if s.block == DoneBB then 1 else 0)
    && (s.half != Neither ==> s.block == LoadCmpBB && s.idx == 0)
    && (s.monitor && s.half == LoRead ==> Get(s, DestLo) == s.mem.lo)
    && (s.monitor && s.half == HiRead ==> Get(s, DestHi) == s.mem.hi)
    && (s.monitor && (s.block != LoadCmpBB || s.idx >= 1) ==> ReadPair(Pair, s) == s.mem)
    && (s.block == LoadCmpBB && s.idx == 2 ==> s.z == (Get(s, DestLo) == Get(s, DesiredLo)))
    && (s.block == LoadCmpBB && 3 <= s.idx <= 4 ==>
          Get(s, Status) == if Get(s, DestLo) == Get(s, DesiredLo) then 0 else 1)
    && (s.block == LoadCmpBB && s.idx == 4 ==> s.z == (Get(s, DestHi) == Get(s, DesiredHi)))
    && (s.block == LoadCmpBB && s.idx == 5 ==> (Get(s, Status) == 0 <==> Matches(Pair, s)))
    && (s.block == StoreBB ==> Matches(Pair, s) && (s.idx == 2 ==> Get(s, Status) == 0))
    && (s.block == FailBB ==> !Matches(Pair, s))
    && (s.block == DoneBB ==> Get(s, Status) == 0)
  }

  predicate SingleInv(k: Kind, s: State)
    requires k.Single?
  {
    && ValidKind(k) && s.half == Neither && Fits(k, s.mem)
    && s.block != FailBB && s.idx < |Block(k, s.block)| + (if s.block == DoneBB then 1 else 0)
    && (s.block != LoadCmpBB || At(k, s) >= 2 ==> Get(s, DestLo) < Modulus(k))
    && (s.monitor && (s.block == StoreBB || (s.block == LoadCmpBB && At(k, s) >= 2)) ==> Get(s, DestLo) == s.mem.lo)
    && (s.block == LoadCmpBB && At(k, s) == 3 ==> s.z == Matches(k, s))
    && (s.block == StoreBB ==> Matches(k, s))
    && (s.block == LoadCmpBB && At(k, s) >= 1 && !k.statusDead ==> Get(s, Status) == 0)
    && (s.block == DoneBB && !k.statusDead ==> Get(s, Status) == 0)
  }

  predicate Inv(k: Kind, s: State) {
    if k.Pair? then PairInv(s) else SingleInv(k, s)
  }

  lemma InitialInv(k: Kind, s: State)
    requires ValidKind(k) && Initial(k, s)
    ensures Inv(k, s) && Abs(k, s) == Spec(s.mem, Pending)
  {
  }

  // ----- Every step is a step of the specification -----

  function SpecEventOf(k: Kind, s: State, e: Event): SpecEvent {
    match e
    case Write(m) => SpecWrite(m)
    case Lose => SpecNothing
    case Run(_) => if !TookEffect(k, s) && TookEffect(k, Step(k, s, e)) then SpecCas else SpecNothing
  }

  lemma CompareIsEquality(k: Kind, a: Value, b: Value)
    requires ValidKind(k) && a < Modulus(k)
    ensures ZeroFlag(k, a, b) <==> a == Low(k, b)
  {
  }

  // The step keeps the invariant and the operands, and is the specification's step.
  predicate Refines(k: Kind, s: State, e: Event) {
    var t := Step(k, s, e);
    && Inv(k, t) && Desired(k, t) == Desired(k, s) && New(k, t) == New(k, s)
    && Abs(k, t) == SpecStep(k, Desired(k, s), New(k, s), Abs(k, s), SpecEventOf(k, s, e))
  }

  lemma OthersStep(k: Kind, s: State, e: Event)
    requires Inv(k, s) && !e.Run?
    ensures Refines(k, s, e)
  {
    hide Block, Execute, Low;
  }

  lemma PairLoads(s: State, luck: bool)
    requires PairInv(s) && s.block == LoadCmpBB && s.idx == 0
    ensures Refines(Pair, s, Run(luck))
  {
  }

  lemma PairCompares(s: State, luck: bool)
    requires PairInv(s) && s.block == LoadCmpBB && (s.idx == 1 || s.idx == 3)
    ensures Refines(Pair, s, Run(luck))
  {
    CompareIsEquality(Pair, Get(s, DestLo), Get(s, DesiredLo));
    CompareIsEquality(Pair, Get(s, DestHi), Get(s, DesiredHi));
    hide ZeroFlag;
  }

  lemma PairCounts(s: State, luck: bool)
    requires PairInv(s) && s.block == LoadCmpBB && (s.idx == 2 || s.idx == 4)
    ensures Refines(Pair, s, Run(luck))
  {
    hide ZeroFlag;
  }

  lemma PairBranches(s: State, luck: bool)
    requires PairInv(s) && s.block == LoadCmpBB && s.idx == 5
    ensures Refines(Pair, s, Run(luck))
  {
    hide ZeroFlag;
  }

  lemma PairStores(s: State, luck: bool)
    requires PairInv(s) && s.block == StoreBB
    ensures Refines(Pair, s, Run(luck))
  {
    hide ZeroFlag;
  }

  lemma PairPutsBack(s: State, luck: bool)
    requires PairInv(s) && s.block != LoadCmpBB && s.block != StoreBB
    ensures Refines(Pair, s, Run(luck))
  {
    hide ZeroFlag;
  }

  lemma SingleLoads(k: Kind, s: State, luck: bool)
    requires k.Single? && SingleInv(k, s) && s.block == LoadCmpBB && At(k, s) <= 1
    ensures Refines(k, s, Run(luck))
  {
    hide ZeroFlag;
  }

  lemma SingleCompares(k: Kind, s: State, luck: bool)
    requires k.Single? && SingleInv(k, s) && s.block == LoadCmpBB && At(k, s) >= 2
    ensures Refines(k, s, Run(luck))
  {
    CompareIsEquality(k, Get(s, DestLo), Get(s, DesiredLo));
    hide ZeroFlag;
  }

  lemma SingleStores(k: Kind, s: State, luck: bool)
    requires k.Single? && SingleInv(k, s) && s.block != LoadCmpBB
    ensures Refines(k, s, Run(luck))
  {
    hide ZeroFlag;
  }

  lemma StepRefines(k: Kind, s: State, e: Event)
    requires Inv(k, s)
    ensures Refines(k, s, e)
  {
    hide Refines;
    match e
    case Write(_) => OthersStep(k, s, e);
    case Lose => OthersStep(k, s, e);
    case Run(luck) =>
      if k.Pair? {
        if s.block == StoreBB { PairStores(s, luck); }
        else if s.block != LoadCmpBB { PairPutsBack(s, luck); }
        else if s.idx == 0 { PairLoads(s, luck); }
        else if s.idx == 1 || s.idx == 3 { PairCompares(s, luck); }
        else if s.idx == 2 || s.idx == 4 { PairCounts(s, luck); }
        else { PairBranches(s, luck); }
      } else {
        if s.block != LoadCmpBB { SingleStores(k, s, luck); }
        else if At(k, s) <= 1 { SingleLoads(k, s, luck); }
        else { SingleCompares(k, s, luck); }
      }
  }

  // ----- Whole runs -----

  function SpecEvents(k: Kind, s: State, es: seq<Event>): (r: seq<SpecEvent>)
    ensures |r| == |es|
  {
    if es == [] then []
    else SpecEvents(k, s, es[..|es| - 1]) + [SpecEventOf(k, RunAll(k, s, es[..|es| - 1]), es[|es| - 1])]
  }

  // How often the operation happens atomically.
  function CasCount(es: seq<SpecEvent>): nat {
    if es == [] then 0 else CasCount(es[..|es| - 1]) + if es[|es| - 1] == SpecCas then 1 else 0
  }

  // The run and its specification events end in linked states.
  ghost predicate Simulated(k: Kind, s: State, t: State, ses: seq<SpecEvent>) {
    && Inv(k, t) && Desired(k, t) == Desired(k, s) && New(k, t) == New(k, s)
    && Abs(k, t) == SpecRun(k, Desired(k, s), New(k, s), Spec(s.mem, Pending), ses)
    && CasCount(ses) == if TookEffect(k, t) then 1 else 0
  }

  lemma SimulatedNext(k: Kind, s: State, m: State, ses: seq<SpecEvent>, e: Event)
    requires Simulated(k, s, m, ses)
    ensures Simulated(k, s, Step(k, m, e), ses + [SpecEventOf(k, m, e)])
  {
    hide Step, Inv, SpecStep, TookEffect, Desired, New, Abs, SpecEventOf;
    StepRefines(k, m, e);
    EffectStays(k, m, e);
    assert (ses + [SpecEventOf(k, m, e)])[..|ses|] == ses;
  }

  // Any run of the loop, under any interference, is a run of the atomic operation among the same
  // writes in the same order; the operation happens at most once, and has happened if the loop is done.
  lemma {:induction false} RunRefines(k: Kind, s: State, es: seq<Event>)
    requires ValidKind(k) && Initial(k, s)
    ensures Simulated(k, s, RunAll(k, s, es), SpecEvents(k, s, es))
    ensures forall i | 0 <= i < |es| :: es[i].Write? <==> SpecEvents(k, s, es)[i].SpecWrite?
    ensures forall i | 0 <= i < |es| && es[i].Write? :: SpecEvents(k, s, es)[i].mem == es[i].mem
  {
    hide Step, Simulated;
    if es == [] {
      NothingYet(k, s);
    } else {
      var init, last := es[..|es| - 1], es[|es| - 1];
      RunRefines(k, s, init);
      SimulatedNext(k, s, RunAll(k, s, init), SpecEvents(k, s, init), last);
    }
  }

  lemma NothingYet(k: Kind, s: State)
    requires ValidKind(k) && Initial(k, s)
    ensures Simulated(k, s, s, [])
  {
    InitialInv(k, s);
    NotYet(k, s);
    hide Inv, TookEffect;
  }

  lemma NotYet(k: Kind, s: State)
    requires Initial(k, s)
    ensures !TookEffect(k, s)
  {
  }

  lemma EffectStays(k: Kind, s: State, e: Event)
    requires Inv(k, s)
    ensures TookEffect(k, s) ==> TookEffect(k, Step(k, s, e))
    ensures SpecEventOf(k, s, e) == SpecCas <==> !TookEffect(k, s) && TookEffect(k, Step(k, s, e))
  {
    StepRefines(k, s, e);
    hide Step, Inv, Desired, New, ReadPair, Block;
  }

  // What the atomic instant of the pair loop is: a store-exclusive that succeeds, with the pair that was
  // read still in memory. It writes New on a match and puts the same pair back otherwise.
  lemma PairEffect(s: State, e: Event)
    requires PairInv(s) && !TookEffect(Pair, s) && TookEffect(Pair, Step(Pair, s, e))
    ensures e == Run(true) && s.monitor && s.idx == 0 && (s.block == StoreBB || s.block == FailBB)
    ensures ReadPair(Pair, s) == s.mem
    ensures Step(Pair, s, e).mem == if s.mem == Desired(Pair, s) then New(Pair, s) else s.mem
  {
    hide ZeroFlag;
  }

  // The loop never writes memory at any other step.
  lemma QuietOtherwise(k: Kind, s: State, luck: bool)
    requires Inv(k, s) && TookEffect(k, s) == TookEffect(k, Step(k, s, Run(luck)))
    ensures Step(k, s, Run(luck)).mem == s.mem
  {
    hide Step, Inv;
    StepRefines(k, s, Run(luck));
  }

  // When the loop is done the answer is what memory held at the atomic instant, and the status register is zero.
  lemma DoneAnswers(k: Kind, s: State, es: seq<Event>)
    requires ValidKind(k) && Initial(k, s) && Done(RunAll(k, s, es))
    ensures var t := RunAll(k, s, es); var ses := SpecEvents(k, s, es);
            && CasCount(ses) == 1
            && SpecRun(k, Desired(k, s), New(k, s), Spec(s.mem, Pending), ses) == Spec(t.mem, Answer(ReadPair(k, t)))
            && (k.Pair? || !k.statusDead ==> Get(t, Status) == 0)
  {
    RunRefines(k, s, es);
    hide Step, RunAll, SpecRun, SpecEvents, Block;
  }

  // ----- Left alone, the loop finishes -----

  // Steps to the end of the loop when nobody interferes and no store-exclusive fails spuriously.
  // A loop whose monitor is already lost first has to fail its store and start again.
  function PairDistance(s: State): int {
    match s.block
    case DoneBB => 0
    case LoadCmpBB =>
      var at := if s.half != Neither then 1 else if s.idx == 0 then 0 else s.idx + 1;
      if at == 0 || s.monitor then 10 - at else 19 - at
    case _ =>
      if s.idx == 0 then (if s.monitor then 3 else 12)
      else if s.idx == 1 then (if Get(s, Status) == 0 then 2 else 11)
      else 1
  }

  function SingleDistance(k: Kind, s: State): int {
    match s.block
    case DoneBB => 0
    case LoadCmpBB => if At(k, s) <= 1 || s.monitor then 6 - At(k, s) else 12 - At(k, s)
    case _ =>
      if s.idx == 0 then (if s.monitor then 2 else 8)
      else if Get(s, Status) == 0 then 1 else 7
  }

  function Distance(k: Kind, s: State): int {
    if k.Pair? then PairDistance(s) else SingleDistance(k, s)
  }

  lemma PairAloneFinishes(s: State)
    requires PairInv(s) && !Done(s)
    ensures 0 <= PairDistance(Step(Pair, s, Run(true))) < PairDistance(s) <= 18
  {
    hide ZeroFlag, Low;
  }

  lemma SingleAloneFinishes(k: Kind, s: State)
    requires k.Single? && SingleInv(k, s) && !Done(s)
    ensures 0 <= SingleDistance(k, Step(k, s, Run(true))) < SingleDistance(k, s) <= 18
  {
    hide ZeroFlag, Low;
  }

  // Left alone, the loop finishes from every state a run can reach, within 18 steps.
  lemma AloneFinishes(k: Kind, s: State)
    requires Inv(k, s) && !Done(s)
    ensures 0 <= Distance(k, Step(k, s, Run(true))) < Distance(k, s) <= 18
  {
    if k.Pair? { PairAloneFinishes(s); } else { SingleAloneFinishes(k, s); }
  }
}
