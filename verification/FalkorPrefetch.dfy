/** AArch64FalkorHWPFFix: giving colliding strided loads another base register, so that the hardware
    prefetcher tells them apart. */
module FalkorPrefetch {
  import opened Options

  // General registers are 0 to 30; vector registers start at 32. The encoding is the number modulo 32.
  type Reg = nat

  datatype Offset = NoOffset | Symbolic | InReg(reg: Reg) | Imm(value: int)

  // A load with LoadInfo. `tagDest` is the destination that counts for the tag; `others` are the registers it
  // reads besides its base; `shape` stands for the opcode and the remaining operands.
  datatype Load = Load(shape: nat, dests: seq<Reg>, tagDest: Option<Reg>, base: Reg, off: Offset, others: seq<Reg>, prePost: bool, strided: bool)

  datatype Item = Ref(id: nat) | Mov(dst: Reg, src: Reg) | Other(id: nat, defs: set<Reg>, uses: seq<Reg>)

  type Code = seq<Item>
  type Loads = map<nat, Load>

  // ----- Tags -----

  function Encoding(r: Reg): nat { r % 32 }

  function MakeTag(dest: nat, base: nat, offset: int): nat {
    dest % 16 + base % 16 * 16 + offset % 64 * 256
  }

  function GetTag(l: Load): Option<nat> {
    var dest := if l.tagDest.Some? then Encoding(l.tagDest.value) else 0;
    match l.off
    case NoOffset => Some(MakeTag(dest, Encoding(l.base), 0))
    case Symbolic => None
    case InReg(r) => Some(MakeTag(dest, Encoding(l.base), 32 + Encoding(r)))
    case Imm(v) => Some(MakeTag(dest, Encoding(l.base), v / 4))
  }

  type TagMap = map<nat, seq<nat>>

  ghost predicate NoRepeats(s: seq<nat>) {
    forall i, j | 0 <= i < j < |s| :: s[i] != s[j]
  }

  // Each bucket holds exactly the loads whose current tag it is, once each, and there are no empty ones.
  ghost predicate Consistent(tags: TagMap, loads: Loads) {
    && (forall t | t in tags :: tags[t] != [] && NoRepeats(tags[t]) && forall id | id in tags[t] :: id in loads && GetTag(loads[id]) == Some(t))
    && (forall id | id in loads && GetTag(loads[id]).Some? :: GetTag(loads[id]).value in tags && id in tags[GetTag(loads[id]).value])
  }

  // The number of the register that counts for the tag.
  function TagDest(l: Load): nat {
    if l.tagDest.Some? then l.tagDest.value else 0
  }

  // What the tag keeps of the offset: nothing, the register, or the value in words.
  function OffsetField(l: Load): int {
    match l.off
    case InReg(r) => 32 + r % 32
    case Imm(v) => v / 4
    case _ => 0
  }

  // The prefetcher cannot tell the two loads apart.
  predicate Alike(a: Load, b: Load) {
    && a.off != Symbolic && b.off != Symbolic
    && TagDest(a) % 16 == TagDest(b) % 16 && a.base % 16 == b.base % 16 && OffsetField(a) % 64 == OffsetField(b) % 64
  }

  // Two loads have one tag exactly when they are alike; every load has one unless its offset is a symbol.
  lemma SameTag(a: Load, b: Load)
    ensures GetTag(a).Some? && GetTag(a) == GetTag(b) <==> Alike(a, b)
    ensures GetTag(a).None? <==> a.off == Symbolic
  {
    TagIs(a);
    TagIs(b);
    hide GetTag;
    if a.off != Symbolic && b.off != Symbolic {
      SameFields(TagDest(a) % 16, a.base % 16, OffsetField(a) % 64, TagDest(b) % 16, b.base % 16, OffsetField(b) % 64);
    }
  }

  lemma TagIs(l: Load)
    ensures GetTag(l) == if l.off == Symbolic then None else Some(TagDest(l) % 16 + l.base % 16 * 16 + OffsetField(l) % 64 * 256)
  {
    assert forall r: nat :: r % 32 % 16 == r % 16;
  }

  lemma SameFields(d: int, b: int, o: int, e: int, c: int, p: int)
    requires 0 <= d < 16 && 0 <= b < 16 && 0 <= e < 16 && 0 <= c < 16
    ensures d + b * 16 + o * 256 == e + c * 16 + p * 256 <==> d == e && b == c && o == p
  {
  }

  // Pairs of loads with one tag.
  ghost function Collisions(loads: Loads): set<(nat, nat)> {
    set a, b | a in loads && b in loads && a < b && GetTag(loads[a]).Some? && GetTag(loads[a]) == GetTag(loads[b]) :: (a, b)
  }

  lemma CollisionsAre(loads: Loads)
    ensures Collisions(loads) == set a, b | a in loads && b in loads && a < b && Alike(loads[a], loads[b]) :: (a, b)
  {
    hide GetTag, Alike;
    forall a, b | a in loads && b in loads ensures GetTag(loads[a]).Some? && GetTag(loads[a]) == GetTag(loads[b]) <==> Alike(loads[a], loads[b]) {
      SameTag(loads[a], loads[b]);
    }
  }

  // Moving a colliding load to a tag that no load has leaves strictly fewer colliding pairs.
  lemma FewerCollisions(loads: Loads, id: nat, l: Load, partner: nat)
    requires id in loads && partner in loads && partner != id
    requires GetTag(loads[id]).Some? && GetTag(loads[partner]) == GetTag(loads[id])
    requires forall x | x in loads :: GetTag(loads[x]) != GetTag(l)
    ensures Collisions(loads[id := l]) < Collisions(loads)
    ensures |Collisions(loads[id := l])| < |Collisions(loads)|
  {
    hide GetTag;
    var x, y := Collisions(loads[id := l]), Collisions(loads);
    forall p | p in x ensures p in y {}
    var p := if id < partner then (id, partner) else (partner, id);
    assert p in y && p !in x;
    ProperSubset(x, y);
  }

  lemma ProperSubset<T>(x: set<T>, y: set<T>)
    requires x < y
    ensures |x| < |y|
  {
    var z := y - x;
    assert y == x + z && x !! z;
    assert |y| == |x| + |z|;
    assert z != {};
  }

  // ----- Meaning -----

  // What loads, write-backs and other instructions compute is left open.
  datatype Sem = Sem(loaded: (nat, nat, int, seq<int>, int) -> int, back: (nat, int, seq<int>) -> int,
                     def: (nat, Reg, seq<int>, int) -> int, world: (nat, seq<int>, int) -> int, wild: nat -> State)

  datatype State = State(regs: Reg -> int, world: int)

  function Values(s: State, rs: seq<Reg>): seq<int> {
    seq(|rs|, k requires 0 <= k < |rs| => s.regs(rs[k]))
  }

  // Position of r in a list, or its length.
  function IndexOf(rs: seq<Reg>, r: Reg): nat {
    if rs == [] || rs[0] == r then 0 else 1 + IndexOf(rs[1..], r)
  }

  // A write-back load whose base is among its destinations is unpredictable.
  predicate Predictable(l: Load) {
    l.prePost ==> l.base !in l.dests
  }

  // An unpredictable load may leave anything behind, a trap included.
  function ExecLoad(sem: Sem, l: Load, s: State): State {
    if !Predictable(l) then sem.wild(l.shape)
    else
      var b, vs := s.regs(l.base), Values(s, l.others);
      s.(regs := (r: Reg) =>
        if r in l.dests then sem.loaded(l.shape, IndexOf(l.dests, r), b, vs, s.world)
        else if l.prePost && r == l.base then sem.back(l.shape, b, vs)
        else s.regs(r))
  }

  function Exec(sem: Sem, loads: Loads, i: Item, s: State): State {
    match i
    case Ref(id) => if id in loads then ExecLoad(sem, loads[id], s) else s
    case Mov(dst, src) => s.(regs := (r: Reg) => if r == dst then s.regs(src) else s.regs(r))
    case Other(id, defs, uses) =>
      State((r: Reg) => if r in defs then sem.def(id, r, Values(s, uses), s.world) else s.regs(r), sem.world(id, Values(s, uses), s.world))
  }

  function Run(sem: Sem, loads: Loads, code: Code, s: State): State {
    if code == [] then s else Run(sem, loads, code[1..], Exec(sem, loads, code[0], s))
  }

  // ----- Liveness -----

  function Uses(loads: Loads, i: Item): set<Reg> {
    match i
    case Ref(id) => if id in loads then {loads[id].base} + (set r | r in loads[id].others) else {}
    case Mov(_, src) => {src}
    case Other(_, _, uses) => set r | r in uses
  }

  function Defs(loads: Loads, i: Item): set<Reg> {
    match i
    case Ref(id) =>
      if id in loads then (set r | r in loads[id].dests) + (if loads[id].prePost then {loads[id].base} else {}) else {}
    case Mov(dst, _) => {dst}
    case Other(_, defs, _) => defs
  }

  function StepBackward(loads: Loads, i: Item, live: set<Reg>): set<Reg> {
    live - Defs(loads, i) + Uses(loads, i)
  }

  function Live(loads: Loads, code: Code, out: set<Reg>): set<Reg> {
    if code == [] then out else StepBackward(loads, code[0], Live(loads, code[1..], out))
  }

  ghost predicate Agree(live: set<Reg>, s: State, t: State) {
    s.world == t.world && forall r | r in live :: s.regs(r) == t.regs(r)
  }

  lemma StepAgrees(sem: Sem, loads: Loads, i: Item, live: set<Reg>, s: State, t: State)
    requires Agree(StepBackward(loads, i, live), s, t)
    ensures Agree(live, Exec(sem, loads, i, s), Exec(sem, loads, i, t))
  {
    if i.Ref? && i.id in loads { assert Values(s, loads[i.id].others) == Values(t, loads[i.id].others); }
    if i.Other? { assert Values(s, i.uses) == Values(t, i.uses); }
  }

  lemma {:induction false} RunAgrees(sem: Sem, loads: Loads, code: Code, out: set<Reg>, s: State, t: State)
    requires Agree(Live(loads, code, out), s, t)
    ensures Agree(out, Run(sem, loads, code, s), Run(sem, loads, code, t))
  {
    hide Exec, StepBackward;
    if code != [] {
      StepAgrees(sem, loads, code[0], Live(loads, code[1..], out), s, t);
      RunAgrees(sem, loads, code[1..], out, Exec(sem, loads, code[0], s), Exec(sem, loads, code[0], t));
    }
  }

  lemma {:induction false} RunJoin(sem: Sem, loads: Loads, x: Code, y: Code, s: State)
    ensures Run(sem, loads, x + y, s) == Run(sem, loads, y, Run(sem, loads, x, s))
  {
    hide Exec;
    if x == [] {
      assert x + y == y;
    } else {
      assert (x + y)[1..] == x[1..] + y;
      RunJoin(sem, loads, x[1..], y, Exec(sem, loads, x[0], s));
    }
  }

  // ----- One rewrite -----

  function Rebased(l: Load, c: Reg): Load { l.(base := c) }

  // The moves around a load given a new base, and the load itself.
  function Moved(id: nat, l: Load, c: Reg): Code {
    [Mov(c, l.base), Ref(id)] + if l.prePost then [Mov(l.base, c)] else []
  }

  // The rewritten load, between its moves, leaves in every live register what the load did.
  ghost predicate Faithful(loads: Loads, id: nat, l: Load, c: Reg, live: set<Reg>) {
    forall sem: Sem, s: State :: Agree(live, ExecLoad(sem, l, s), Run(sem, loads, Moved(id, l, c), s))
  }

  lemma MovedRuns(sem: Sem, loads: Loads, id: nat, l: Load, c: Reg, s: State)
    requires id in loads && loads[id] == Rebased(l, c)
    ensures var s2 := ExecLoad(sem, Rebased(l, c), Exec(sem, loads, Mov(c, l.base), s));
            Run(sem, loads, Moved(id, l, c), s) == if l.prePost then Exec(sem, loads, Mov(l.base, c), s2) else s2
  {
    hide ExecLoad;
    var s1 := Exec(sem, loads, Mov(c, l.base), s);
    var s2 := Exec(sem, loads, Ref(id), s1);
    var code := Moved(id, l, c);
    assert code[1..] == [Ref(id)] + code[2..] && ([Ref(id)] + code[2..])[1..] == code[2..];
    assert Run(sem, loads, code, s) == Run(sem, loads, code[2..], s2);
    if l.prePost {
      assert code[2..] == [Mov(l.base, c)] && [Mov(l.base, c)][1..] == [];
      assert Run(sem, loads, code[2..], s2) == Exec(sem, loads, Mov(l.base, c), s2);
    } else {
      assert code[2..] == [];
    }
  }

  lemma RewriteKeeps(sem: Sem, loads: Loads, id: nat, l: Load, c: Reg, live: set<Reg>, s: State)
    requires id in loads && loads[id] == Rebased(l, c) && Predictable(l) && Predictable(Rebased(l, c))
    requires c != l.base && c !in live && c !in l.others
    ensures Agree(live, ExecLoad(sem, l, s), Run(sem, loads, Moved(id, l, c), s))
  {
    hide Run, Moved;
    MovedRuns(sem, loads, id, l, c, s);
    assert Values(Exec(sem, loads, Mov(c, l.base), s), l.others) == Values(s, l.others);
  }

  // Loads give zero, other instructions leave the world alone, and an unpredictable load shows.
  function Telltale(): Sem {
    Sem((a, i, b, vs, w) => 0, (a, b, vs) => 0, (i, r, vs, w) => 0, (i, vs, w) => w, a => State(r => 0, 1))
  }

  lemma RewriteLoses(loads: Loads, id: nat, l: Load, c: Reg, live: set<Reg>)
    requires id in loads && loads[id] == Rebased(l, c) && Predictable(l) && !Predictable(Rebased(l, c))
    ensures var s := State(r => 0, 0); !Agree(live, ExecLoad(Telltale(), l, s), Run(Telltale(), loads, Moved(id, l, c), s))
  {
    hide Run, Moved;
    MovedRuns(Telltale(), loads, id, l, c, State(r => 0, 0));
  }

  // A rewrite is right exactly when the new load is predictable.
  lemma RewriteExact(loads: Loads, id: nat, l: Load, c: Reg, live: set<Reg>)
    requires id in loads && loads[id] == Rebased(l, c) && Predictable(l)
    requires c != l.base && c !in live && c !in l.others
    ensures Faithful(loads, id, l, c, live) <==> !(l.prePost && c in l.dests)
  {
    hide Run, ExecLoad, Agree;
    if Predictable(Rebased(l, c)) {
      forall sem: Sem, s: State ensures Agree(live, ExecLoad(sem, l, s), Run(sem, loads, Moved(id, l, c), s)) {
        RewriteKeeps(sem, loads, id, l, c, live, s);
      }
    } else {
      RewriteLoses(loads, id, l, c, live);
    }
  }

  predicate Mentions(code: Code, id: nat) { Ref(id) in code }

  // The loads a block refers to are the same in both.
  ghost predicate SameFor(code: Code, x: Loads, y: Loads) {
    forall id | Mentions(code, id) :: (id in x <==> id in y) && (id in x ==> x[id] == y[id])
  }

  lemma {:induction false} RunSame(sem: Sem, x: Loads, y: Loads, code: Code, s: State)
    requires SameFor(code, x, y)
    ensures Run(sem, x, code, s) == Run(sem, y, code, s)
  {
    if code != [] {
      forall id | Mentions(code[1..], id) ensures Mentions(code, id) {}
      if code[0].Ref? { assert Mentions(code, code[0].id); }
      RunSame(sem, x, y, code[1..], Exec(sem, x, code[0], s));
    }
  }

  // Both blocks leave the same live registers and the same world, from every state.
  ghost predicate SameEffect(x: Loads, a: Code, y: Loads, b: Code, out: set<Reg>) {
    forall sem: Sem, s: State :: Agree(out, Run(sem, x, a, s), Run(sem, y, b, s))
  }

  lemma SameEffectRefl(x: Loads, a: Code, out: set<Reg>)
    ensures SameEffect(x, a, x, a, out)
  {
    hide Run;
    forall sem: Sem, s: State ensures Agree(out, Run(sem, x, a, s), Run(sem, x, a, s)) {}
  }

  lemma SameEffectTrans(x: Loads, a: Code, y: Loads, b: Code, z: Loads, c: Code, out: set<Reg>)
    requires SameEffect(x, a, y, b, out) && SameEffect(y, b, z, c, out)
    ensures SameEffect(x, a, z, c, out)
  {
    hide Run;
    forall sem: Sem, s: State ensures Agree(out, Run(sem, x, a, s), Run(sem, z, c, s)) {
      assert Agree(out, Run(sem, x, a, s), Run(sem, y, b, s)) && Agree(out, Run(sem, y, b, s), Run(sem, z, c, s));
    }
  }

  // Every load the code refers to is predictable.
  ghost predicate AllPredictable(loads: Loads, code: Code) {
    forall id | Mentions(code, id) && id in loads :: Predictable(loads[id])
  }

  lemma {:induction false} CalmRun(loads: Loads, code: Code, s: State)
    requires AllPredictable(loads, code)
    ensures Run(Telltale(), loads, code, s).world == s.world
  {
    if code != [] {
      forall id | Mentions(code[1..], id) ensures Mentions(code, id) {}
      if code[0].Ref? { assert Mentions(code, code[0].id); }
      CalmRun(loads, code[1..], Exec(Telltale(), loads, code[0], s));
    }
  }

  lemma {:induction false} WildRun(loads: Loads, code: Code, s: State)
    requires s.world == 1 || !AllPredictable(loads, code)
    ensures Run(Telltale(), loads, code, s).world == 1
  {
    if code != [] {
      var t := Exec(Telltale(), loads, code[0], s);
      if t.world != 1 {
        var id :| Mentions(code, id) && id in loads && !Predictable(loads[id]);
        assert Mentions(code[1..], id);
      }
      WildRun(loads, code[1..], t);
    }
  }

  // So a block with an unpredictable load does not do what a block without one does.
  lemma WildShows(x: Loads, a: Code, y: Loads, b: Code, out: set<Reg>)
    requires AllPredictable(x, a) && !AllPredictable(y, b)
    ensures !SameEffect(x, a, y, b, out)
  {
    hide Run, AllPredictable;
    var s := State(r => 0, 0);
    CalmRun(x, a, s);
    WildRun(y, b, s);
    assert !Agree(out, Run(Telltale(), x, a, s), Run(Telltale(), y, b, s));
  }

  lemma OneRewrite(loads: Loads, pre: Code, id: nat, c: Reg, suf: Code, out: set<Reg>)
    requires id in loads && !Mentions(pre, id) && !Mentions(suf, id)
    requires Predictable(loads[id]) && Predictable(Rebased(loads[id], c))
    requires c != loads[id].base && c !in Live(loads, suf, out) && c !in loads[id].others
    ensures SameEffect(loads, pre + [Ref(id)] + suf, loads[id := Rebased(loads[id], c)], pre + Moved(id, loads[id], c) + suf, out)
  {
    hide *;
    var l := loads[id];
    var n := loads[id := Rebased(l, c)];
    forall sem: Sem, s: State ensures Agree(out, Run(sem, loads, pre + [Ref(id)] + suf, s), Run(sem, n, pre + Moved(id, l, c) + suf, s)) {
      var u := Run(sem, loads, pre, s);
      OtherFor(pre, loads, id, Rebased(l, c));
      RunSame(sem, loads, n, pre, s);
      RunJoin(sem, loads, pre + [Ref(id)], suf, s);
      RunJoin(sem, loads, pre, [Ref(id)], s);
      RunRef(sem, loads, id, u);
      RunJoin(sem, n, pre + Moved(id, l, c), suf, s);
      RunJoin(sem, n, pre, Moved(id, l, c), s);
      RewriteKeeps(sem, n, id, l, c, Live(loads, suf, out), u);
      var v := Run(sem, n, Moved(id, l, c), u);
      RunAgrees(sem, loads, suf, out, ExecLoad(sem, l, u), v);
      OtherFor(suf, loads, id, Rebased(l, c));
      RunSame(sem, loads, n, suf, v);
    }
    Effect(loads, pre + [Ref(id)] + suf, n, pre + Moved(id, l, c) + suf, out);
  }

  lemma OtherFor(code: Code, loads: Loads, id: nat, l: Load)
    requires !Mentions(code, id)
    ensures SameFor(code, loads, loads[id := l])
  {
  }

  lemma Effect(x: Loads, a: Code, y: Loads, b: Code, out: set<Reg>)
    requires forall sem: Sem, s: State :: Agree(out, Run(sem, x, a, s), Run(sem, y, b, s))
    ensures SameEffect(x, a, y, b, out)
  {
  }

  lemma RunRef(sem: Sem, loads: Loads, id: nat, s: State)
    requires id in loads
    ensures Run(sem, loads, [Ref(id)], s) == ExecLoad(sem, loads[id], s)
  {
    assert [Ref(id)][1..] == [];
  }

  // ----- Moving a load between buckets -----

  // Swap with the last and pop.
  function Without(s: seq<nat>, i: nat): seq<nat>
    requires i < |s|
  {
    s[i := s[|s| - 1]][..|s| - 1]
  }

  lemma WithoutIs(s: seq<nat>, i: nat)
    requires i < |s| && NoRepeats(s)
    ensures |Without(s, i)| == |s| - 1 && NoRepeats(Without(s, i)) && forall x :: x in Without(s, i) <==> x in s && x != s[i]
  {
    var w := Without(s, i);
    forall x ensures x in w <==> x in s && x != s[i] {
      if x in s && x != s[i] {
        var k :| 0 <= k < |s| && s[k] == x;
        assert w[if k == |s| - 1 then i else k] == x;
      }
    }
  }

  lemma MoveKeepsConsistent(tags: TagMap, loads: Loads, id: nat, l: Load, oldTag: nat, newTag: nat, i: nat)
    requires Consistent(tags, loads) && id in loads && GetTag(loads[id]) == Some(oldTag) && GetTag(l) == Some(newTag)
    requires newTag !in tags && oldTag in tags && i < |tags[oldTag]| && |tags[oldTag]| > 1 && tags[oldTag][i] == id
    ensures Consistent(tags[oldTag := Without(tags[oldTag], i)][newTag := [id]], loads[id := l])
    ensures forall x | x in loads :: GetTag(loads[x]) != Some(newTag)
  {
    hide GetTag, Without;
    WithoutIs(tags[oldTag], i);
    var ts, ls := tags[oldTag := Without(tags[oldTag], i)][newTag := [id]], loads[id := l];
    forall t | t in ts ensures ts[t] != [] && NoRepeats(ts[t]) && forall x | x in ts[t] :: x in ls && GetTag(ls[x]) == Some(t) {
      if t == oldTag {
        assert NoRepeats(ts[t]);
      } else if t != newTag {
        assert NoRepeats(tags[t]) && id !in tags[t];
      }
    }
  }

  // ----- What can still be fixed -----

  // The registers the search may hand out for a load: free after it, not read by it, and with a fresh tag.
  predicate Usable(l: Load, tags: TagMap, live0: set<Reg>, reserved: set<Reg>, c: Reg) {
    && c !in live0 && c !in l.others && c !in reserved
    && GetTag(Rebased(l, c)).Some? && GetTag(Rebased(l, c)).value !in tags
  }

  predicate Fixable(l: Load, tags: TagMap, live0: set<Reg>, reserved: set<Reg>, gprs: seq<Reg>) {
    && l.strided && GetTag(l).Some? && GetTag(l).value in tags && |tags[GetTag(l).value]| > 1
    && exists c | c in gprs :: Usable(l, tags, live0, reserved, c)
  }

  // While the buckets are right, a load can be fixed exactly when it is strided, another load is like it, and some
  // register is free after it, is not read by it, and makes it like no load of the loop.
  lemma FixableExactly(id: nat, tags: TagMap, loads: Loads, live0: set<Reg>, reserved: set<Reg>, gprs: seq<Reg>)
    requires Consistent(tags, loads) && id in loads
    ensures Fixable(loads[id], tags, live0, reserved, gprs) <==>
            && loads[id].strided && (exists x :: x in loads && x != id && Alike(loads[id], loads[x]))
            && exists c :: c in gprs && c !in live0 && c !in loads[id].others && c !in reserved && forall x | x in loads :: !Alike(loads[id].(base := c), loads[x])
  {
    hide GetTag, Alike, Consistent;
    Crowded(id, tags, loads);
    SameTag(loads[id], loads[id]);
    if loads[id].off != Symbolic {
      forall c ensures Usable(loads[id], tags, live0, reserved, c) <==>
        c !in live0 && c !in loads[id].others && c !in reserved && forall x | x in loads :: !Alike(loads[id].(base := c), loads[x]) {
        FreshTag(Rebased(loads[id], c), tags, loads);
      }
    } else {
      assert GetTag(loads[id]).None?;
    }
  }

  // A load shares its bucket exactly when another load is like it.
  lemma Crowded(id: nat, tags: TagMap, loads: Loads)
    requires Consistent(tags, loads) && id in loads
    ensures GetTag(loads[id]).Some? && GetTag(loads[id]).value in tags && |tags[GetTag(loads[id]).value]| > 1
            <==> exists x :: x in loads && x != id && Alike(loads[id], loads[x])
  {
    hide GetTag, Alike;
    forall x | x in loads ensures GetTag(loads[id]).Some? && GetTag(loads[id]) == GetTag(loads[x]) <==> Alike(loads[id], loads[x]) { SameTag(loads[id], loads[x]); }
    if GetTag(loads[id]).Some? {
      var bucket := tags[GetTag(loads[id]).value];
      assert NoRepeats(bucket) && id in bucket;
      if |bucket| > 1 {
        var x := if bucket[0] == id then bucket[1] else bucket[0];
        assert x in bucket && x != id;
      }
    }
  }

  // No load has a tag exactly when none is like the load that would get it.
  lemma FreshTag(l: Load, tags: TagMap, loads: Loads)
    requires Consistent(tags, loads) && l.off != Symbolic
    ensures GetTag(l).Some? && (GetTag(l).value !in tags <==> forall x | x in loads :: !Alike(l, loads[x]))
  {
    hide GetTag, Alike;
    SameTag(l, l);
    forall x | x in loads ensures GetTag(l) == GetTag(loads[x]) <==> Alike(l, loads[x]) { SameTag(l, loads[x]); }
    if GetTag(l).value in tags { assert tags[GetTag(l).value][0] in tags[GetTag(l).value]; }
  }

  ghost predicate NoneUsableBefore(l: Load, tags: TagMap, live0: set<Reg>, reserved: set<Reg>, gprs: seq<Reg>, k: nat)
    requires k <= |gprs|
  {
    forall j | 0 <= j < k :: !Usable(l, tags, live0, reserved, gprs[j])
  }

  // The first usable register in class order.
  ghost predicate FirstUsable(l: Load, tags: TagMap, live0: set<Reg>, reserved: set<Reg>, gprs: seq<Reg>, c: Reg) {
    && Usable(l, tags, live0, reserved, c)
    && exists k: nat | k < |gprs| && gprs[k] == c :: NoneUsableBefore(l, tags, live0, reserved, gprs, k)
  }

  // The load at id got base c: the first usable register, a tag no load had, strictly fewer colliding pairs, and
  // nothing left to fix.
  ghost predicate FixedBy(x: Loads, tx: TagMap, y: Loads, ty: TagMap, id: nat, live0: set<Reg>, reserved: set<Reg>, gprs: seq<Reg>, c: Reg) {
    && id in x && y == x[id := Rebased(x[id], c)] && x[id].strided && c != x[id].base
    && FirstUsable(x[id], tx, live0, reserved, gprs, c)
    && (forall z | z in x :: GetTag(x[z]) != GetTag(y[id]))
    && |Collisions(y)| < |Collisions(x)|
    && forall live :: !Fixable(y[id], ty, live, reserved, gprs)
  }

  lemma NoneUsable(l: Load, tags: TagMap, live0: set<Reg>, reserved: set<Reg>, gprs: seq<Reg>)
    requires NoneUsableBefore(l, tags, live0, reserved, gprs, |gprs|)
    ensures !Fixable(l, tags, live0, reserved, gprs)
  {
    hide Usable, GetTag;
  }

  lemma IsFixable(l: Load, tags: TagMap, live0: set<Reg>, reserved: set<Reg>, gprs: seq<Reg>, c: Reg)
    requires l.strided && GetTag(l).Some? && GetTag(l).value in tags && |tags[GetTag(l).value]| > 1
    requires c in gprs && Usable(l, tags, live0, reserved, c)
    ensures Fixable(l, tags, live0, reserved, gprs)
  {
    hide Usable, GetTag;
  }

  lemma IsUsable(l: Load, tags: TagMap, live0: set<Reg>, reserved: set<Reg>, c: Reg)
    requires GetTag(Rebased(l, c)).Some?
    ensures Usable(l, tags, live0, reserved, c) <==>
      !(c in live0 + (set r | r in l.others) || c in reserved) && GetTag(Rebased(l, c)).value !in tags
  {
    hide GetTag;
  }

  lemma AloneUnfixable(l: Load, tags: TagMap, reserved: set<Reg>, gprs: seq<Reg>)
    requires GetTag(l).Some? && GetTag(l).value in tags ==> |tags[GetTag(l).value]| <= 1
    ensures forall live :: !Fixable(l, tags, live, reserved, gprs)
  {
    hide Usable, GetTag;
  }

  lemma MoveEvolves(tags: TagMap, oldTag: nat, newTag: nat, id: nat, i: nat)
    requires oldTag in tags && newTag !in tags && i < |tags[oldTag]|
    ensures Evolves(tags, tags[oldTag := Without(tags[oldTag], i)][newTag := [id]])
  {
  }

  lemma FixedByMeans(x: Loads, tx: TagMap, y: Loads, ty: TagMap, id: nat, live0: set<Reg>, reserved: set<Reg>, gprs: seq<Reg>, c: Reg)
    requires FixedBy(x, tx, y, ty, id, live0, reserved, gprs, c)
    ensures id in x && y == x[id := Rebased(x[id], c)] && c !in live0 && c !in x[id].others && c != x[id].base
    ensures x[id].strided && c in gprs && Usable(x[id], tx, live0, reserved, c)
    ensures |Collisions(y)| < |Collisions(x)|
    ensures forall live :: !Fixable(y[id], ty, live, reserved, gprs)
  {
    hide GetTag, Collisions, Fixable;
  }

  // ----- The scan as a function of the block, the loads and the tags -----

  function FirstOf(l: Load, tags: TagMap, live0: set<Reg>, reserved: set<Reg>, gprs: seq<Reg>): Option<Reg> {
    if gprs == [] then None
    else if Usable(l, tags, live0, reserved, gprs[0]) then Some(gprs[0])
    else FirstOf(l, tags, live0, reserved, gprs[1..])
  }

  // The new base of a load, if it gets one.
  function Pick(l: Load, tags: TagMap, live0: set<Reg>, reserved: set<Reg>, gprs: seq<Reg>): Option<Reg> {
    if l.strided && GetTag(l).Some? && GetTag(l).value in tags && |tags[GetTag(l).value]| > 1 then
      FirstOf(l, tags, live0, reserved, gprs)
    else None
  }

  // The load leaves its bucket for one of its own.
  function Retag(tags: TagMap, id: nat, l: Load, c: Reg): TagMap {
    match (GetTag(l), GetTag(Rebased(l, c)))
    case (Some(x), Some(y)) =>
      if x in tags && IndexOf(tags[x], id) < |tags[x]| then tags[x := Without(tags[x], IndexOf(tags[x], id))][y := [id]] else tags
    case _ => tags
  }

  // The loads and tags once the scan has come back to position i.
  function Scan(loads: Loads, tags: TagMap, code: Code, i: nat, out: set<Reg>, reserved: set<Reg>, gprs: seq<Reg>): (Loads, TagMap)
    decreases |code| - i
  {
    if i >= |code| then (loads, tags)
    else
      var (ls, ts) := Scan(loads, tags, code, i + 1, out, reserved, gprs);
      match code[i]
      case Ref(id) =>
        if id !in ls then (ls, ts)
        else
          (match Pick(ls[id], ts, Live(loads, code[i + 1..], out), reserved, gprs)
           case Some(c) => (ls[id := Rebased(ls[id], c)], Retag(ts, id, ls[id], c))
           case None => (ls, ts))
      case _ => (ls, ts)
  }

  // From position i on no write-back load gets one of its destinations.
  predicate ScanSafe(loads: Loads, tags: TagMap, code: Code, i: nat, out: set<Reg>, reserved: set<Reg>, gprs: seq<Reg>)
    decreases |code| - i
  {
    i >= |code| ||
    (ScanSafe(loads, tags, code, i + 1, out, reserved, gprs) &&
     var (ls, ts) := Scan(loads, tags, code, i + 1, out, reserved, gprs);
     match code[i]
     case Ref(id) => id in ls ==>
       (match Pick(ls[id], ts, Live(loads, code[i + 1..], out), reserved, gprs)
        case Some(c) => !(ls[id].prePost && c in ls[id].dests)
        case None => true)
     case _ => true)
  }

  lemma {:induction false} FirstOfIs(l: Load, tags: TagMap, live0: set<Reg>, reserved: set<Reg>, gprs: seq<Reg>, k: nat)
    requires k <= |gprs| && NoneUsableBefore(l, tags, live0, reserved, gprs, k)
    ensures FirstOf(l, tags, live0, reserved, gprs) ==
            if k < |gprs| && Usable(l, tags, live0, reserved, gprs[k]) then Some(gprs[k]) else FirstOf(l, tags, live0, reserved, gprs[k..])
  {
    hide Usable;
    if k == 0 {
      assert gprs[0..] == gprs;
    } else {
      assert !Usable(l, tags, live0, reserved, gprs[0]);
      assert forall j | 0 <= j < k - 1 :: gprs[1..][j] == gprs[j + 1];
      assert gprs[1..][k - 1..] == gprs[k..];
      FirstOfIs(l, tags, live0, reserved, gprs[1..], k - 1);
    }
  }

  lemma PickedIs(l: Load, tags: TagMap, live0: set<Reg>, reserved: set<Reg>, gprs: seq<Reg>, k: nat)
    requires l.strided && GetTag(l).Some? && GetTag(l).value in tags && |tags[GetTag(l).value]| > 1
    requires k <= |gprs| && NoneUsableBefore(l, tags, live0, reserved, gprs, k)
    requires k < |gprs| ==> Usable(l, tags, live0, reserved, gprs[k])
    ensures Pick(l, tags, live0, reserved, gprs) == if k < |gprs| then Some(gprs[k]) else None
  {
    hide Usable, GetTag;
    FirstOfIs(l, tags, live0, reserved, gprs, k);
  }

  lemma PickNone(l: Load, tags: TagMap, live0: set<Reg>, reserved: set<Reg>, gprs: seq<Reg>)
    requires l.strided && GetTag(l).Some? && GetTag(l).value in tags ==> |tags[GetTag(l).value]| <= 1
    ensures Pick(l, tags, live0, reserved, gprs) == None
  {
    hide GetTag, FirstOf;
  }

  lemma ScanStart(loads: Loads, tags: TagMap, code: Code, out: set<Reg>, reserved: set<Reg>, gprs: seq<Reg>)
    ensures Scan(loads, tags, code, |code|, out, reserved, gprs) == (loads, tags)
    ensures ScanSafe(loads, tags, code, |code|, out, reserved, gprs)
  {
  }

  // One step of the scan, past an item or a load left alone ...
  lemma ScanPlain(loads: Loads, tags: TagMap, code: Code, i: nat, out: set<Reg>, reserved: set<Reg>, gprs: seq<Reg>, ls: Loads, ts: TagMap)
    requires i < |code| && (ls, ts) == Scan(loads, tags, code, i + 1, out, reserved, gprs)
    requires code[i].Ref? && code[i].id in ls ==> Pick(ls[code[i].id], ts, Live(loads, code[i + 1..], out), reserved, gprs) == None
    ensures Scan(loads, tags, code, i, out, reserved, gprs) == (ls, ts)
    ensures ScanSafe(loads, tags, code, i, out, reserved, gprs) == ScanSafe(loads, tags, code, i + 1, out, reserved, gprs)
  {
    hide Pick, Live;
  }

  // ... and past a load that gets a new base.
  lemma ScanFix(loads: Loads, tags: TagMap, code: Code, i: nat, out: set<Reg>, reserved: set<Reg>, gprs: seq<Reg>, ls: Loads, ts: TagMap, c: Reg)
    requires i < |code| && (ls, ts) == Scan(loads, tags, code, i + 1, out, reserved, gprs)
    requires code[i].Ref? && code[i].id in ls && Pick(ls[code[i].id], ts, Live(loads, code[i + 1..], out), reserved, gprs) == Some(c)
    requires Predictable(ls[code[i].id])
    ensures var id := code[i].id; Scan(loads, tags, code, i, out, reserved, gprs) == (ls[id := Rebased(ls[id], c)], Retag(ts, id, ls[id], c))
    ensures ScanSafe(loads, tags, code, i, out, reserved, gprs)
            == (ScanSafe(loads, tags, code, i + 1, out, reserved, gprs) && Predictable(Rebased(ls[code[i].id], c)))
  {
    hide Pick, Live, Retag;
  }

  // The first k loads of the order, in their buckets.
  function Built(order: seq<nat>, loads: Loads, k: nat): TagMap
    requires k <= |order| && forall id | id in order :: id in loads
  {
    if k == 0 then map[]
    else
      var tags := Built(order, loads, k - 1);
      match GetTag(loads[order[k - 1]])
      case Some(t) => tags[t := (if t in tags then tags[t] else []) + [order[k - 1]]]
      case None => tags
  }

  // Each bucket holds the first k loads with its tag.
  lemma {:induction false} BuiltSoFar(order: seq<nat>, loads: Loads, k: nat)
    requires k <= |order| && NoRepeats(order) && forall id | id in order :: id in loads
    ensures var tags := Built(order, loads, k);
            && (forall t | t in tags :: tags[t] != [] && NoRepeats(tags[t]) && forall id | id in tags[t] :: id in order[..k] && GetTag(loads[id]) == Some(t))
            && (forall id | id in order[..k] && GetTag(loads[id]).Some? :: GetTag(loads[id]).value in tags && id in tags[GetTag(loads[id]).value])
  {
    hide GetTag;
    if k > 0 {
      BuiltSoFar(order, loads, k - 1);
      var tags, id := Built(order, loads, k - 1), order[k - 1];
      assert order[..k] == order[..k - 1] + [id];
      NotBefore(order, k - 1);
      var tag := GetTag(loads[id]);
      if tag.Some? && tag.value in tags { Appended(tags[tag.value], id); }
    }
  }

  lemma BuiltIs(order: seq<nat>, loads: Loads)
    requires NoRepeats(order) && forall id :: id in order <==> id in loads
    ensures Consistent(Built(order, loads, |order|), loads)
  {
    hide GetTag, Built, NoRepeats;
    BuiltSoFar(order, loads, |order|);
    assert order[..|order|] == order;
  }

  // The loads and tags before block b is scanned.
  function ScanBlocks(loads: Loads, tags: TagMap, codes: seq<Code>, b: nat, outs: seq<set<Reg>>, reserved: set<Reg>, gprs: seq<Reg>): (Loads, TagMap)
    requires b <= |codes| == |outs|
  {
    if b == 0 then (loads, tags)
    else
      var (ls, ts) := ScanBlocks(loads, tags, codes, b - 1, outs, reserved, gprs);
      Scan(ls, ts, codes[b - 1], 0, outs[b - 1], reserved, gprs)
  }

  // The scan of block b, after those before it, gives no write-back load one of its destinations.
  predicate BlockSafe(loads: Loads, tags: TagMap, codes: seq<Code>, b: nat, outs: seq<set<Reg>>, reserved: set<Reg>, gprs: seq<Reg>)
    requires b < |codes| == |outs|
  {
    var (ls, ts) := ScanBlocks(loads, tags, codes, b, outs, reserved, gprs);
    ScanSafe(ls, ts, codes[b], 0, outs[b], reserved, gprs)
  }

  // With nothing to fix the scan changes nothing.
  ghost predicate Idle(loads: Loads, tags: TagMap) {
    forall id | id in loads && loads[id].strided && GetTag(loads[id]).Some? && GetTag(loads[id]).value in tags ::
      |tags[GetTag(loads[id]).value]| <= 1
  }

  lemma {:induction false} IdleScan(loads: Loads, tags: TagMap, code: Code, i: nat, out: set<Reg>, reserved: set<Reg>, gprs: seq<Reg>)
    requires Idle(loads, tags)
    ensures Scan(loads, tags, code, i, out, reserved, gprs) == (loads, tags) && ScanSafe(loads, tags, code, i, out, reserved, gprs)
    decreases |code| - i
  {
    hide GetTag, Pick, Live;
    if i < |code| {
      IdleScan(loads, tags, code, i + 1, out, reserved, gprs);
      if code[i].Ref? && code[i].id in loads { PickNone(loads[code[i].id], tags, Live(loads, code[i + 1..], out), reserved, gprs); }
    }
  }

  lemma {:induction false} IdleBlocks(loads: Loads, tags: TagMap, codes: seq<Code>, b: nat, outs: seq<set<Reg>>, reserved: set<Reg>, gprs: seq<Reg>)
    requires Idle(loads, tags) && b <= |codes| == |outs|
    ensures ScanBlocks(loads, tags, codes, b, outs, reserved, gprs) == (loads, tags)
    ensures b < |codes| ==> BlockSafe(loads, tags, codes, b, outs, reserved, gprs)
  {
    hide Idle, Scan, ScanSafe;
    if b > 0 {
      IdleBlocks(loads, tags, codes, b - 1, outs, reserved, gprs);
      IdleScan(loads, tags, codes[b - 1], 0, outs[b - 1], reserved, gprs);
    }
    if b < |codes| { IdleScan(loads, tags, codes[b], 0, outs[b], reserved, gprs); }
  }

  lemma IsIdle(loads: Loads, tags: TagMap)
    requires Consistent(tags, loads)
    requires forall t | t in tags && |tags[t]| > 1 :: forall id | id in tags[t] :: id in loads ==> !loads[id].strided
    ensures Idle(loads, tags)
  {
    hide GetTag, NoRepeats;
  }

  // Tags are never freed and buckets never grow.
  ghost predicate Evolves(x: TagMap, y: TagMap) {
    forall t | t in x :: t in y && |y[t]| <= |x[t]|
  }

  lemma EvolvesRefl(x: TagMap)
    ensures Evolves(x, x)
  {
  }

  lemma MustCollide(l: Load, tags: TagMap, live0: set<Reg>, reserved: set<Reg>, gprs: seq<Reg>)
    ensures Fixable(l, tags, live0, reserved, gprs) ==>
      l.strided && GetTag(l).Some? && GetTag(l).value in tags && |tags[GetTag(l).value]| > 1
  {
  }

  lemma EvolvesTrans(x: TagMap, y: TagMap, z: TagMap)
    requires Evolves(x, y) && Evolves(y, z)
    ensures Evolves(x, z)
  {
  }

  // So what cannot be fixed never becomes fixable.
  lemma UnfixableStays(l: Load, x: TagMap, y: TagMap, live0: set<Reg>, reserved: set<Reg>, gprs: seq<Reg>)
    requires !Fixable(l, x, live0, reserved, gprs) && Evolves(x, y) && (GetTag(l).Some? ==> GetTag(l).value in x)
    ensures !Fixable(l, y, live0, reserved, gprs)
  {
    hide GetTag;
    forall c | Usable(l, y, live0, reserved, c) ensures Usable(l, x, live0, reserved, c) {}
  }

  // The liveness of the scan: it does not step over the move it puts after a write-back load it fixed.
  function ScanLive(loads: Loads, fixed: set<nat>, code: Code, out: set<Reg>): set<Reg> {
    if code == [] then out
    else if code[0].Ref? && code[0].id in fixed && code[0].id in loads && loads[code[0].id].prePost && |code| > 1 then
      StepBackward(loads, code[0], ScanLive(loads, fixed, code[2..], out))
    else StepBackward(loads, code[0], ScanLive(loads, fixed, code[1..], out))
  }

  // No load of the code can be fixed any more.
  ghost predicate Settled(loads: Loads, tags: TagMap, fixed: set<nat>, code: Code, out: set<Reg>, reserved: set<Reg>, gprs: seq<Reg>) {
    forall p | 0 <= p < |code| && code[p].Ref? && code[p].id in loads ::
      !Fixable(loads[code[p].id], tags, ScanLive(loads, fixed, code[p + 1..], out), reserved, gprs)
  }

  // The code refers to no load that changed and to none newly fixed.
  ghost predicate Unchanged(code: Code, x: Loads, fx: set<nat>, y: Loads, fy: set<nat>) {
    forall id | Mentions(code, id) :: (id in x <==> id in y) && (id in x ==> x[id] == y[id]) && (id in fx <==> id in fy)
  }

  lemma {:induction false} ScanSame(code: Code, x: Loads, fx: set<nat>, y: Loads, fy: set<nat>, out: set<Reg>)
    requires Unchanged(code, x, fx, y, fy)
    ensures ScanLive(x, fx, code, out) == ScanLive(y, fy, code, out)
  {
    if code != [] {
      forall id | Mentions(code[1..], id) ensures Mentions(code, id) {}
      if code[0].Ref? { assert Mentions(code, code[0].id); }
      ScanSame(code[1..], x, fx, y, fy, out);
      if |code| > 1 {
        forall id | Mentions(code[2..], id) ensures Mentions(code, id) {}
        ScanSame(code[2..], x, fx, y, fy, out);
      }
    }
  }

  lemma SettledStays(code: Code, x: Loads, tx: TagMap, fx: set<nat>, y: Loads, ty: TagMap, fy: set<nat>,
                     out: set<Reg>, reserved: set<Reg>, gprs: seq<Reg>)
    requires Settled(x, tx, fx, code, out, reserved, gprs) && Unchanged(code, x, fx, y, fy) && Evolves(tx, ty) && Consistent(tx, x)
    ensures Settled(y, ty, fy, code, out, reserved, gprs)
  {
    hide Fixable, GetTag, NoRepeats, Evolves;
    forall p | 0 <= p < |code| && code[p].Ref? && code[p].id in y
      ensures !Fixable(y[code[p].id], ty, ScanLive(y, fy, code[p + 1..], out), reserved, gprs)
    {
      assert Mentions(code, code[p].id);
      forall id | Mentions(code[p + 1..], id) ensures Mentions(code, id) {}
      ScanSame(code[p + 1..], x, fx, y, fy, out);
      UnfixableStays(x[code[p].id], tx, ty, ScanLive(x, fx, code[p + 1..], out), reserved, gprs);
    }
  }

  // An item the scan passes.
  lemma SettledPlain(loads: Loads, tags: TagMap, fixed: set<nat>, item: Item, suf: Code, out: set<Reg>, reserved: set<Reg>, gprs: seq<Reg>)
    requires Settled(loads, tags, fixed, suf, out, reserved, gprs)
    requires item.Ref? ==> item.id !in fixed
    requires item.Ref? && item.id in loads ==> !Fixable(loads[item.id], tags, ScanLive(loads, fixed, suf, out), reserved, gprs)
    ensures Settled(loads, tags, fixed, [item] + suf, out, reserved, gprs)
    ensures ScanLive(loads, fixed, [item] + suf, out) == StepBackward(loads, item, ScanLive(loads, fixed, suf, out))
  {
    hide Fixable, StepBackward;
    var code := [item] + suf;
    assert code[1..] == suf;
    forall p | 0 <= p < |code| && code[p].Ref? && code[p].id in loads
      ensures !Fixable(loads[code[p].id], tags, ScanLive(loads, fixed, code[p + 1..], out), reserved, gprs)
    {
      if p > 0 { assert code[p] == suf[p - 1] && code[p + 1..] == suf[p - 1 + 1..]; }
    }
  }

  // A load the scan fixed, with its moves.
  lemma SettledMoved(loads: Loads, tags: TagMap, fixed: set<nat>, id: nat, l: Load, c: Reg, suf: Code, out: set<Reg>,
                     reserved: set<Reg>, gprs: seq<Reg>)
    requires Settled(loads, tags, fixed, suf, out, reserved, gprs) && id in fixed && id in loads && loads[id] == Rebased(l, c)
    requires forall live0 :: !Fixable(loads[id], tags, live0, reserved, gprs)
    ensures Settled(loads, tags, fixed, Moved(id, l, c) + suf, out, reserved, gprs)
    ensures ScanLive(loads, fixed, Moved(id, l, c) + suf, out)
         == StepBackward(loads, Mov(c, l.base), StepBackward(loads, Ref(id), ScanLive(loads, fixed, suf, out)))
  {
    hide Fixable, StepBackward, ScanLive, Settled;
    var post: Code := if l.prePost then [Mov(l.base, c)] else [];
    assert Moved(id, l, c) + suf == [Mov(c, l.base)] + ([Ref(id)] + (post + suf));
    assert Settled(loads, tags, fixed, post + suf, out, reserved, gprs) by {
      if l.prePost { SettledPlain(loads, tags, fixed, Mov(l.base, c), suf, out, reserved, gprs); } else { assert post + suf == suf; }
    }
    SettledFixed(loads, tags, fixed, id, post + suf, out, reserved, gprs);
    FixedLive(loads, fixed, id, l, c, suf, out);
    SettledPlain(loads, tags, fixed, Mov(c, l.base), [Ref(id)] + (post + suf), out, reserved, gprs);
  }

  lemma SettledFixed(loads: Loads, tags: TagMap, fixed: set<nat>, id: nat, suf: Code, out: set<Reg>, reserved: set<Reg>, gprs: seq<Reg>)
    requires Settled(loads, tags, fixed, suf, out, reserved, gprs) && id in loads
    requires forall live0 :: !Fixable(loads[id], tags, live0, reserved, gprs)
    ensures Settled(loads, tags, fixed, [Ref(id)] + suf, out, reserved, gprs)
  {
    hide Fixable, ScanLive;
    var code := [Ref(id)] + suf;
    forall p | 0 <= p < |code| && code[p].Ref? && code[p].id in loads
      ensures !Fixable(loads[code[p].id], tags, ScanLive(loads, fixed, code[p + 1..], out), reserved, gprs)
    {
      if p > 0 { assert code[p] == suf[p - 1] && code[p + 1..] == suf[p - 1 + 1..]; }
    }
  }

  lemma FixedLive(loads: Loads, fixed: set<nat>, id: nat, l: Load, c: Reg, suf: Code, out: set<Reg>)
    requires id in fixed && id in loads && loads[id] == Rebased(l, c)
    ensures var post: Code := if l.prePost then [Mov(l.base, c)] else [];
            ScanLive(loads, fixed, [Ref(id)] + (post + suf), out) == StepBackward(loads, Ref(id), ScanLive(loads, fixed, suf, out))
  {
    hide StepBackward;
    var post: Code := if l.prePost then [Mov(l.base, c)] else [];
    var code := [Ref(id)] + (post + suf);
    if l.prePost { assert code[2..] == suf; } else { assert code[1..] == suf; }
  }

  // What the scans change: strided loads get a free base of the class.
  ghost predicate OnlyRebased(x: Loads, y: Loads, reserved: set<Reg>, gprs: seq<Reg>) {
    x.Keys == y.Keys && forall id | id in x ::
      y[id] == x[id] || (x[id].strided && y[id] == x[id].(base := y[id].base) && y[id].base in gprs && y[id].base !in reserved)
  }

  lemma {:induction false} ScanRebases(loads: Loads, tags: TagMap, code: Code, i: nat, out: set<Reg>, reserved: set<Reg>, gprs: seq<Reg>)
    ensures OnlyRebased(loads, Scan(loads, tags, code, i, out, reserved, gprs).0, reserved, gprs)
    decreases |code| - i
  {
    hide Pick, Live, Retag;
    if i < |code| {
      ScanRebases(loads, tags, code, i + 1, out, reserved, gprs);
      var (ls, ts) := Scan(loads, tags, code, i + 1, out, reserved, gprs);
      if code[i].Ref? && code[i].id in ls { PickRange(ls[code[i].id], ts, Live(loads, code[i + 1..], out), reserved, gprs); }
    }
  }

  lemma PickRange(l: Load, tags: TagMap, live0: set<Reg>, reserved: set<Reg>, gprs: seq<Reg>)
    ensures var c := Pick(l, tags, live0, reserved, gprs); c.Some? ==> l.strided && c.value in gprs && c.value !in reserved
  {
    hide GetTag, FirstOf;
    FirstRange(l, tags, live0, reserved, gprs);
  }

  lemma {:induction false} FirstRange(l: Load, tags: TagMap, live0: set<Reg>, reserved: set<Reg>, gprs: seq<Reg>)
    ensures var c := FirstOf(l, tags, live0, reserved, gprs); c.Some? ==> c.value in gprs && c.value !in reserved
  {
    hide GetTag;
    if gprs != [] { FirstRange(l, tags, live0, reserved, gprs[1..]); }
  }

  lemma {:induction false} BlocksRebase(loads: Loads, tags: TagMap, codes: seq<Code>, b: nat, outs: seq<set<Reg>>, reserved: set<Reg>, gprs: seq<Reg>)
    requires b <= |codes| == |outs|
    ensures OnlyRebased(loads, ScanBlocks(loads, tags, codes, b, outs, reserved, gprs).0, reserved, gprs)
  {
    hide Scan;
    if b > 0 {
      BlocksRebase(loads, tags, codes, b - 1, outs, reserved, gprs);
      var (ls, ts) := ScanBlocks(loads, tags, codes, b - 1, outs, reserved, gprs);
      ScanRebases(ls, ts, codes[b - 1], 0, outs[b - 1], reserved, gprs);
    }
  }

  // ----- The pass -----

  class FalkorHWPFFix {
    var loads: Loads             // the loop's load instructions
    var tagMap: TagMap
    const blocks: array<Code>
    const outs: seq<set<Reg>>    // live out of each block
    const gprs: seq<Reg>         // general registers in class order
    const reserved: set<Reg>

    constructor (l: Loads, b: array<Code>, outs: seq<set<Reg>>, gprs: seq<Reg>, reserved: set<Reg>)
      ensures loads == l && blocks == b && this.outs == outs
    {
      loads, tagMap, blocks := l, map[], b;
      this.outs, this.gprs, this.reserved := outs, gprs, reserved;
    }

    // The initial map over the loop's loads, in program order.
    method BuildTagMap(order: seq<nat>)
      requires NoRepeats(order) && forall id :: id in order <==> id in loads
      modifies this`tagMap
      ensures Consistent(tagMap, loads) && tagMap == Built(order, loads, |order|)
    {
      hide GetTag, Consistent, NoRepeats;
      tagMap := map[];
      for k := 0 to |order|
        invariant tagMap == Built(order, loads, k)
      {
        var tag := GetTag(loads[order[k]]);
        if tag.Some? {
          var bucket := if tag.value in tagMap then tagMap[tag.value] else [];
          tagMap := tagMap[tag.value := bucket + [order[k]]];
        }
      }
      BuiltIs(order, loads);
    }

    // A scratch register for a colliding strided load, if one can be had; the load is rebased and moves to
    // its new bucket.
    method FixLoad(id: nat, live0: set<Reg>) returns (scratch: Option<Reg>)
      requires Consistent(tagMap, loads) && id in loads
      modifies this`loads, this`tagMap
      ensures Consistent(tagMap, loads)
      ensures scratch.None? ==> loads == old(loads) && tagMap == old(tagMap)
      ensures scratch.Some? <==> Fixable(old(loads[id]), old(tagMap), live0, reserved, gprs)
      ensures Evolves(old(tagMap), tagMap)
      ensures scratch.Some? ==> FixedBy(old(loads), old(tagMap), loads, tagMap, id, live0, reserved, gprs, scratch.value)
      ensures scratch == Pick(old(loads[id]), old(tagMap), live0, reserved, gprs)
      ensures scratch.Some? ==> tagMap == Retag(old(tagMap), id, old(loads[id]), scratch.value)
    {
      hide GetTag, Collisions, Without, NoRepeats, Usable, Fixable, Evolves, Pick;
      scratch := None;
      var l := loads[id];
      MustCollide(l, tagMap, live0, reserved, gprs);
      EvolvesRefl(tagMap);
      if !l.strided { PickNone(l, tagMap, live0, reserved, gprs); return; }
      var oldTag := GetTag(l);
      if oldTag.None? { PickNone(l, tagMap, live0, reserved, gprs); return; }
      var bucket := tagMap[oldTag.value];
      if |bucket| <= 1 { PickNone(l, tagMap, live0, reserved, gprs); return; }
      ghost var partner := Partner(bucket, id);
      var live := live0 + set r | r in l.others;
      for k := 0 to |gprs|
        invariant loads == old(loads) && tagMap == old(tagMap)
        invariant NoneUsableBefore(l, tagMap, live0, reserved, gprs, k)
      {
        var c := gprs[k];
        SomeTag(l, c);
        IsUsable(l, tagMap, live0, reserved, c);
        if c in live || c in reserved { continue; }
        var newTag := GetTag(Rebased(l, c)).value;
        if newTag in tagMap { continue; }
        IsFixable(l, tagMap, live0, reserved, gprs, c);
        PickedIs(l, tagMap, live0, reserved, gprs, k);
        var i := Find(bucket, id);
        MoveEvolves(tagMap, oldTag.value, newTag, id, i);
        MoveKeepsConsistent(tagMap, loads, id, Rebased(l, c), oldTag.value, newTag, i);
        FewerCollisions(loads, id, Rebased(l, c), partner);
        SameBaseSameTag(l, c);
        tagMap := tagMap[oldTag.value := Without(bucket, i)][newTag := [id]];
        loads := loads[id := Rebased(l, c)];
        AloneUnfixable(loads[id], tagMap, reserved, gprs);
        return Some(c);
      }
      NoneUsable(l, tagMap, live0, reserved, gprs);
      PickedIs(l, tagMap, live0, reserved, gprs, |gprs|);
    }

    static method Find(s: seq<nat>, x: nat) returns (i: nat)
      requires x in s
      ensures i == IndexOf(s, x) < |s| && s[i] == x
    {
      i := 0;
      while s[i] != x
        invariant i < |s| && x in s[i..] && IndexOf(s, x) == i + IndexOf(s[i..], x)
        decreases |s| - i
      {
        assert s[i..][1..] == s[i + 1..];
        i := i + 1;
      }
    }

    // runOnLoop. `fixed` are the loads rewritten; no load of the loop can be fixed any further.
    method RunOnLoop(order: seq<nat>) returns (ghost fixed: set<nat>)
      requires blocks.Length == |outs| && NoRepeats(order) && forall id :: id in order <==> id in loads
      requires Apart(blocks[..]) && forall b | 0 <= b < blocks.Length :: Once(blocks[b])
      requires forall b, id | 0 <= b < blocks.Length && Mentions(blocks[b], id) :: id in loads && Predictable(loads[id])
      modifies this`loads, this`tagMap, blocks
      ensures Consistent(tagMap, loads) && loads.Keys == old(loads).Keys
      ensures |Collisions(loads)| + |fixed| <= |Collisions(old(loads))|
      ensures OnlyRebased(old(loads), loads, reserved, gprs)
      ensures (loads, tagMap) == ScanBlocks(old(loads), Built(order, old(loads), |order|), old(blocks[..]), blocks.Length, outs, reserved, gprs)
      ensures forall b | 0 <= b < blocks.Length ::
        SameEffect(old(loads), old(blocks[b]), loads, blocks[b], outs[b])
        <==> BlockSafe(old(loads), Built(order, old(loads), |order|), old(blocks[..]), b, outs, reserved, gprs)
      ensures forall b | 0 <= b < blocks.Length && Sheltered(old(loads), Tags(old(loads)), old(blocks[b]), outs[b], reserved, gprs) ::
        SameEffect(old(loads), old(blocks[b]), loads, blocks[b], outs[b])
      ensures AllSettled(loads, tagMap, fixed, blocks[..], blocks.Length, outs, reserved, gprs)
    {
      hide *;
      BuildTagMap(order);
      ghost var l0, b0 := loads, blocks[..];
      BlocksRebase(loads, tagMap, b0, |b0|, outs, reserved, gprs);
      ghost var cx := Context(l0, tagMap, b0, outs, reserved, gprs);
      fixed := {};
      TagsTaken(tagMap, loads);
      var anyCollisions := exists t | t in tagMap :: |tagMap[t]| > 1 && exists id | id in tagMap[t] :: id in loads && loads[id].strided;
      if !anyCollisions {
        IsIdle(loads, tagMap);
        forall b | 0 <= b < blocks.Length
          ensures SameEffect(loads, blocks[b], loads, blocks[b], outs[b]) && BlockSafe(loads, tagMap, b0, b, outs, reserved, gprs)
        {
          SameEffectRefl(loads, blocks[b], outs[b]);
          IdleBlocks(loads, tagMap, b0, b, outs, reserved, gprs);
        }
        IdleBlocks(loads, tagMap, b0, blocks.Length, outs, reserved, gprs);
        NothingToFix(loads, tagMap, blocks[..], outs, reserved, gprs);
        return;
      }
      StartSettledAll(loads, tagMap, blocks[..], outs, reserved, gprs);
      StartSofar(cx);
      NoBlocks(loads, tagMap, b0, outs, reserved, gprs);
      for b := 0 to blocks.Length
        invariant Consistent(tagMap, loads) && |Collisions(loads)| + |fixed| <= |Collisions(l0)|
        invariant Sofar(cx, loads, blocks[..], b) && Tags(l0) <= tagMap.Keys
        invariant (loads, tagMap) == ScanBlocks(l0, cx.t0, b0, b, outs, reserved, gprs)
        invariant FixedBelow(fixed, b0, b)
        invariant AllSettled(loads, tagMap, fixed, blocks[..], b, outs, reserved, gprs)
      {
        ghost var x, tags, fx, before := loads, tagMap, fixed, blocks[..];
        SofarFacts(cx, loads, blocks[..], b);
        SettledOf(x, tags, fx, before, b, outs, reserved, gprs);
        FixedApart(fixed, b0, b);
        fixed := FixBlock(b, fixed);
        assert before == blocks[..][b := b0[b]];
        assert forall j | 0 <= j < b :: blocks[..][j] == before[j];
        ScannedBlocks(l0, cx.t0, b0, b, outs, reserved, gprs, x, tags, loads, tagMap);
        BlockStep(cx, x, tags, loads, blocks[..], b);
        SettledStep(b0, x, tags, fx, loads, tagMap, fixed, blocks[..], b, outs, reserved, gprs);
        FixedNext(fx, fixed, b0, b);
        EvolvesKeys(tags, tagMap);
      }
      SofarFacts(cx, loads, blocks[..], blocks.Length);
      KeptMeans(cx, loads, blocks[..]);
    }

    // One block, backwards. `fixed` collects the loads fixed so far.
    method FixBlock(b: nat, ghost fixed0: set<nat>) returns (ghost fixed: set<nat>)
      requires b < blocks.Length == |outs| && Consistent(tagMap, loads) && Once(blocks[b])
      requires forall id | Mentions(blocks[b], id) :: id in loads && Predictable(loads[id]) && id !in fixed0
      modifies this`loads, this`tagMap, blocks
      ensures Consistent(tagMap, loads) && loads.Keys == old(loads).Keys && Evolves(old(tagMap), tagMap)
      ensures |Collisions(loads)| + |fixed| <= |Collisions(old(loads))| + |fixed0|
      ensures fixed0 <= fixed && forall id | id in fixed && !Mentions(old(blocks[b]), id) :: id in fixed0
      ensures forall j | 0 <= j < blocks.Length && j != b :: blocks[j] == old(blocks[j])
      ensures forall id | id in loads && !Mentions(old(blocks[b]), id) :: loads[id] == old(loads)[id]
      ensures RefsIn(blocks[b], old(blocks[b]))
      ensures (loads, tagMap) == Scan(old(loads), old(tagMap), old(blocks[b]), 0, outs[b], reserved, gprs)
      ensures SameEffect(old(loads), old(blocks[b]), loads, blocks[b], outs[b])
        <==> ScanSafe(old(loads), old(tagMap), old(blocks[b]), 0, outs[b], reserved, gprs)
      ensures Sheltered(old(loads), old(tagMap).Keys, old(blocks[b]), outs[b], reserved, gprs) ==>
        SameEffect(old(loads), old(blocks[b]), loads, blocks[b], outs[b])
      ensures Settled(loads, tagMap, fixed, blocks[b], outs[b], reserved, gprs)
    {
      hide *;
      var code := blocks[b];
      ghost var l0, t0, orig := loads, tagMap, code;
      var suf: Code := [];
      var live := outs[b];
      ghost var clean := true;
      fixed := fixed0;
      var i := |code|;
      StartBlock(loads, code, outs[b]);
      StartSettled(loads, tagMap, fixed0, code, outs[b], reserved, gprs);
      StartKept(loads, code, outs[b]);
      ScanStart(loads, tagMap, code, outs[b], reserved, gprs);
      while i > 0
        invariant 0 <= i <= |code| && blocks[..] == old(blocks[..])
        invariant Consistent(tagMap, loads) && Evolves(old(tagMap), tagMap)
        invariant |Collisions(loads)| + |fixed| <= |Collisions(l0)| + |fixed0|
        invariant OnlyBelow(code, i, l0, loads) && RefsIn(suf, code[i..])
        invariant FixedFrom(fixed0, fixed, code, i) && (clean <==> PredictableFrom(loads, code, i))
        invariant live == Live(l0, code[i..], outs[b]) && RefsIn(code[i..], suf)
        invariant (loads, tagMap) == Scan(l0, t0, code, i, outs[b], reserved, gprs)
        invariant clean == ScanSafe(l0, t0, code, i, outs[b], reserved, gprs)
        invariant Sheltered(l0, t0.Keys, code, outs[b], reserved, gprs) ==> clean
        invariant Settled(loads, tagMap, fixed, suf, outs[b], reserved, gprs) && live == ScanLive(loads, fixed, suf, outs[b])
        invariant clean ==> Done(l0, orig, loads, code[..i], suf, live, outs[b])
      {
        i := i - 1;
        var item := code[i];
        NotFixedYet(fixed0, fixed, code, i);
        LiveAt(l0, code, i, outs[b]);
        if item.Ref? {
          AtPosition(code, i, l0, loads);
          var l := loads[item.id];
          ghost var before, tags := loads, tagMap;
          var c := FixLoad(item.id, live);
          EvolvesTrans(old(tagMap), tags, tagMap);
          if c.Some? {
            FixedByMeans(before, tags, loads, tagMap, item.id, live, reserved, gprs, c.value);
            StepRewrite(l0, orig, before, code, i, suf, live, outs[b], item.id, c.value, clean);
            ChosenKeeps(l0, t0, tags, code, i, live, outs[b], reserved, gprs, c.value);
            KeptMore(before, code, i, item.id, c.value);
            ScanFix(l0, t0, code, i, outs[b], reserved, gprs, before, tags, c.value);
            MovedHas(item.id, l, c.value);
            AlsoMentioned(code, i, suf, Moved(item.id, l, c.value));
            clean := clean && Predictable(Rebased(l, c.value));
            LiveMoved(before, item.id, c.value, live);
            StepSame(l0, before, item, live);
            OneMoreFixed(fixed0, fixed, code, i, suf, before, item.id, Rebased(l, c.value));
            SettledStays(suf, before, tags, fixed, loads, tagMap, fixed + {item.id}, outs[b], reserved, gprs);
            ScanSame(suf, before, fixed, loads, fixed + {item.id}, outs[b]);
            fixed := fixed + {item.id};
            SettledMoved(loads, tagMap, fixed, item.id, l, c.value, suf, outs[b], reserved, gprs);
            live := StepBackward(loads, Mov(c.value, l.base), StepBackward(loads, item, live));
            suf := Moved(item.id, l, c.value) + suf;
            continue;
          }
        }
        StepPlain(l0, orig, loads, code, i, suf, live, outs[b], clean);
        KeptPlain(loads, code, i);
        ScanPlain(l0, t0, code, i, outs[b], reserved, gprs, loads, tagMap);
        AlsoMentioned(code, i, suf, [item]);
        StepSame(l0, loads, item, live);
        SettledPlain(loads, tagMap, fixed, item, suf, outs[b], reserved, gprs);
        live := StepBackward(loads, item, live);
        suf := [item] + suf;
      }
      blocks[b] := suf;
      assert code[0..] == code;
      OnlyThese(code, l0, loads);
      FixedWithin(fixed0, fixed, code);
      if clean { AllDone(l0, orig, loads, code, suf, live, outs[b]); } else { NotAllDone(l0, code, loads, suf, outs[b]); }
    }
  }

  // The tags of the loads.
  ghost function Tags(loads: Loads): set<nat> {
    set id | id in loads && GetTag(loads[id]).Some? :: GetTag(loads[id]).value
  }

  // No destination of the load can be chosen as its base: each one in the class is live after the load, read by it
  // or reserved, or makes a tag that is taken.
  predicate SafeDests(l: Load, taken: set<nat>, live: set<Reg>, reserved: set<Reg>, gprs: seq<Reg>) {
    forall d | d in l.dests && d in gprs ::
      d in live || d in l.others || d in reserved || GetTag(Rebased(l, d)).None? || GetTag(Rebased(l, d)).value in taken
  }

  // So it is for every strided write-back load of the block.
  ghost predicate Sheltered(loads: Loads, taken: set<nat>, code: Code, out: set<Reg>, reserved: set<Reg>, gprs: seq<Reg>) {
    forall p | 0 <= p < |code| && code[p].Ref? && code[p].id in loads ::
      var l := loads[code[p].id];
      l.strided && l.prePost ==> SafeDests(l, taken, Live(loads, code[p + 1..], out), reserved, gprs)
  }

  // From position i on every load is predictable.
  ghost predicate PredictableFrom(loads: Loads, code: Code, i: nat) {
    forall p | i <= p < |code| && code[p].Ref? && code[p].id in loads :: Predictable(loads[code[p].id])
  }

  lemma StartKept(loads: Loads, code: Code, out: set<Reg>)
    ensures PredictableFrom(loads, code, |code|) && Live(loads, code[|code|..], out) == out && RefsIn(code[|code|..], [])
  {
  }

  // An unpredictable load anywhere in the block shows.
  lemma NotAllDone(l0: Loads, code: Code, loads: Loads, suf: Code, out: set<Reg>)
    requires forall id | Mentions(code, id) :: id in l0 && Predictable(l0[id])
    requires RefsIn(code[0..], suf) && !PredictableFrom(loads, code, 0)
    ensures !SameEffect(l0, code, loads, suf, out)
  {
    hide SameEffect, Predictable;
    var p :| 0 <= p < |code| && code[p].Ref? && code[p].id in loads && !Predictable(loads[code[p].id]);
    assert code[0..] == code && Mentions(code, code[p].id);
    WildShows(l0, code, loads, suf, out);
  }

  lemma MovedHas(id: nat, l: Load, c: Reg)
    ensures Ref(id) in Moved(id, l, c)
  {
    assert Moved(id, l, c)[1] == Ref(id);
  }

  lemma AlsoMentioned(code: Code, i: nat, suf: Code, here: Code)
    requires i < |code| && RefsIn(code[i + 1..], suf) && code[i] in here
    ensures RefsIn(code[i..], here + suf)
  {
    assert code[i..] == [code[i]] + code[i + 1..];
    forall id | Mentions(code[i..], id) ensures Mentions(here + suf, id) {
      if Ref(id) != code[i] { assert Mentions(code[i + 1..], id); }
    }
  }

  lemma LiveAt(loads: Loads, code: Code, i: nat, out: set<Reg>)
    requires i < |code|
    ensures Live(loads, code[i..], out) == StepBackward(loads, code[i], Live(loads, code[i + 1..], out))
  {
    hide StepBackward;
    assert code[i..][1..] == code[i + 1..];
  }

  lemma StepSame(x: Loads, y: Loads, item: Item, live: set<Reg>)
    requires item.Ref? ==> item.id in x && item.id in y && x[item.id] == y[item.id]
    ensures StepBackward(x, item, live) == StepBackward(y, item, live)
  {
  }

  // The scan sees the liveness of the original block: the moves take the place of the old base.
  lemma LiveMoved(x: Loads, id: nat, c: Reg, live: set<Reg>)
    requires id in x && c !in live && c !in x[id].others && c != x[id].base
    ensures var n := x[id := Rebased(x[id], c)];
            StepBackward(n, Mov(c, x[id].base), StepBackward(n, Ref(id), live)) == StepBackward(x, Ref(id), live)
  {
  }

  lemma KeptPlain(loads: Loads, code: Code, i: nat)
    requires i < |code| && (code[i].Ref? ==> code[i].id in loads && Predictable(loads[code[i].id]))
    ensures PredictableFrom(loads, code, i) <==> PredictableFrom(loads, code, i + 1)
  {
  }

  lemma KeptMore(x: Loads, code: Code, i: nat, id: nat, c: Reg)
    requires i < |code| && code[i] == Ref(id) && id in x && Once(code)
    ensures PredictableFrom(x[id := Rebased(x[id], c)], code, i)
            <==> PredictableFrom(x, code, i + 1) && Predictable(Rebased(x[id], c))
  {
    hide Predictable;
    var n := x[id := Rebased(x[id], c)];
    assert forall p | i < p < |code| && code[p].Ref? :: code[p].id != id && (code[p].id in x ==> n[code[p].id] == x[code[p].id]);
    if PredictableFrom(n, code, i) { assert PredictableFrom(x, code, i + 1); }
  }

  // In a sheltered block the register chosen for a write-back load is none of its destinations.
  lemma ChosenKeeps(l0: Loads, tags0: TagMap, tags: TagMap, code: Code, i: nat, live: set<Reg>, out: set<Reg>, reserved: set<Reg>, gprs: seq<Reg>, c: Reg)
    requires i < |code| && code[i].Ref? && code[i].id in l0 && live == Live(l0, code[i + 1..], out) && Evolves(tags0, tags)
    requires l0[code[i].id].strided && c in gprs && Usable(l0[code[i].id], tags, live, reserved, c)
    ensures Sheltered(l0, tags0.Keys, code, out, reserved, gprs) ==> Predictable(Rebased(l0[code[i].id], c))
  {
    hide Live, GetTag;
  }

  lemma EvolvesKeys(x: TagMap, y: TagMap)
    requires Evolves(x, y)
    ensures x.Keys <= y.Keys
  {
  }

  lemma TagsTaken(tags: TagMap, loads: Loads)
    requires Consistent(tags, loads)
    ensures Tags(loads) <= tags.Keys
  {
    hide GetTag, NoRepeats;
  }

  // Only loads from position i on have been fixed in this block.
  ghost predicate FixedFrom(fixed0: set<nat>, fixed: set<nat>, code: Code, i: nat)
    requires i <= |code|
  {
    fixed0 <= fixed && forall id | id in fixed && id !in fixed0 :: Mentions(code[i..], id)
  }

  lemma StartSettled(loads: Loads, tags: TagMap, fixed: set<nat>, code: Code, out: set<Reg>, reserved: set<Reg>, gprs: seq<Reg>)
    ensures Settled(loads, tags, fixed, [], out, reserved, gprs) && ScanLive(loads, fixed, [], out) == out
    ensures FixedFrom(fixed, fixed, code, |code|) && Evolves(tags, tags)
  {
  }

  lemma NotFixedYet(fixed0: set<nat>, fixed: set<nat>, code: Code, i: nat)
    requires i < |code| && FixedFrom(fixed0, fixed, code, i + 1) && Once(code)
    requires forall id | Mentions(code, id) :: id !in fixed0
    ensures code[i].Ref? ==> code[i].id !in fixed && code[i].id !in fixed0
    ensures FixedFrom(fixed0, fixed, code, i)
  {
    assert code[i..] == [code[i]] + code[i + 1..];
    forall id | id in fixed && id !in fixed0 ensures Mentions(code[i..], id) { assert Mentions(code[i + 1..], id); }
    if code[i].Ref? {
      assert Mentions(code, code[i].id);
      assert !Mentions(code[i + 1..], code[i].id);
    }
  }

  lemma OneMoreFixed(fixed0: set<nat>, fixed: set<nat>, code: Code, i: nat, suf: Code, x: Loads, id: nat, l: Load)
    requires i < |code| && FixedFrom(fixed0, fixed, code, i) && code[i] == Ref(id) && id !in fixed
    requires Once(code) && RefsIn(suf, code[i + 1..]) && id in x
    ensures FixedFrom(fixed0, fixed + {id}, code, i) && |fixed + {id}| == |fixed| + 1
    ensures Unchanged(suf, x, fixed, x[id := l], fixed + {id})
  {
    NotElsewhere(code, i, suf, id);
    assert code[i..] == [code[i]] + code[i + 1..];
    assert Mentions(code[i..], id);
  }

  lemma FixedWithin(fixed0: set<nat>, fixed: set<nat>, code: Code)
    requires FixedFrom(fixed0, fixed, code, 0)
    ensures fixed0 <= fixed && forall id | id in fixed && !Mentions(code, id) :: id in fixed0
  {
    assert code[0..] == code;
  }

  // The blocks below b cannot be fixed any further.
  ghost predicate AllSettled(loads: Loads, tags: TagMap, fixed: set<nat>, bs: seq<Code>, b: nat, outs: seq<set<Reg>>,
                             reserved: set<Reg>, gprs: seq<Reg>)
    requires b <= |bs| == |outs|
  {
    forall j | 0 <= j < b :: Settled(loads, tags, fixed, bs[j], outs[j], reserved, gprs)
  }

  lemma SettledStep(b0: seq<Code>, x: Loads, tx: TagMap, fx: set<nat>, y: Loads, ty: TagMap, fy: set<nat>, bs: seq<Code>, b: nat,
                    outs: seq<set<Reg>>, reserved: set<Reg>, gprs: seq<Reg>)
    requires b < |b0| == |bs| == |outs| && Apart(b0) && Consistent(tx, x) && Evolves(tx, ty)
    requires forall j | 0 <= j < b :: RefsIn(bs[j], b0[j]) && Settled(x, tx, fx, bs[j], outs[j], reserved, gprs)
    requires y.Keys == x.Keys && (forall id | id in y && !Mentions(b0[b], id) :: y[id] == x[id])
    requires fx <= fy && forall id | id in fy && !Mentions(b0[b], id) :: id in fx
    requires Settled(y, ty, fy, bs[b], outs[b], reserved, gprs)
    ensures AllSettled(y, ty, fy, bs, b + 1, outs, reserved, gprs)
  {
    hide Settled, Consistent, Evolves;
    forall j | 0 <= j < b + 1 ensures Settled(y, ty, fy, bs[j], outs[j], reserved, gprs) {
      if j < b {
        forall id | Mentions(bs[j], id) ensures !Mentions(b0[b], id) { assert Mentions(b0[j], id); }
        SettledStays(bs[j], x, tx, fx, y, ty, fy, outs[j], reserved, gprs);
      }
    }
  }

  lemma StartSettledAll(loads: Loads, tags: TagMap, bs: seq<Code>, outs: seq<set<Reg>>, reserved: set<Reg>, gprs: seq<Reg>)
    requires |bs| == |outs|
    ensures AllSettled(loads, tags, {}, bs, 0, outs, reserved, gprs) && FixedBelow({}, bs, 0)
  {
  }

  lemma SettledOf(loads: Loads, tags: TagMap, fixed: set<nat>, bs: seq<Code>, b: nat, outs: seq<set<Reg>>, reserved: set<Reg>, gprs: seq<Reg>)
    requires b <= |bs| == |outs| && AllSettled(loads, tags, fixed, bs, b, outs, reserved, gprs)
    ensures forall j | 0 <= j < b :: Settled(loads, tags, fixed, bs[j], outs[j], reserved, gprs)
  {
    hide Settled;
  }

  // Every load fixed so far belongs to a block below b.
  ghost predicate FixedBelow(fixed: set<nat>, b0: seq<Code>, b: nat)
    requires b <= |b0|
  {
    forall id | id in fixed :: exists j | 0 <= j < b :: Mentions(b0[j], id)
  }

  lemma FixedApart(fixed: set<nat>, b0: seq<Code>, b: nat)
    requires b < |b0| && FixedBelow(fixed, b0, b) && Apart(b0)
    ensures forall id | Mentions(b0[b], id) :: id !in fixed
  {
    hide Mentions;
  }

  lemma FixedNext(fx: set<nat>, fixed: set<nat>, b0: seq<Code>, b: nat)
    requires b < |b0| && FixedBelow(fx, b0, b) && forall id | id in fixed && !Mentions(b0[b], id) :: id in fx
    ensures FixedBelow(fixed, b0, b + 1)
  {
    hide Mentions;
    forall id | id in fixed ensures exists j | 0 <= j < b + 1 :: Mentions(b0[j], id) {
      if !Mentions(b0[b], id) {
        var j :| 0 <= j < b && Mentions(b0[j], id);
      }
    }
  }

  // Without collisions there is nothing to fix.
  lemma NothingToFix(loads: Loads, tags: TagMap, bs: seq<Code>, outs: seq<set<Reg>>, reserved: set<Reg>, gprs: seq<Reg>)
    requires Consistent(tags, loads) && |bs| == |outs|
    requires forall t | t in tags && |tags[t]| > 1 :: forall id | id in tags[t] :: id in loads ==> !loads[id].strided
    ensures AllSettled(loads, tags, {}, bs, |bs|, outs, reserved, gprs)
  {
    hide GetTag, ScanLive, Usable, NoRepeats;
  }

  // What the blocks are compared with, block by block, and the loads and tags the scan starts from.
  datatype Context = Context(l0: Loads, t0: TagMap, b0: seq<Code>, outs: seq<set<Reg>>, reserved: set<Reg>, gprs: seq<Reg>)

  ghost predicate KeptAt(cx: Context, loads: Loads, code: Code, j: nat)
    requires j < |cx.b0| == |cx.outs|
  {
    && (SameEffect(cx.l0, cx.b0[j], loads, code, cx.outs[j]) <==> BlockSafe(cx.l0, cx.t0, cx.b0, j, cx.outs, cx.reserved, cx.gprs))
    && (Sheltered(cx.l0, Tags(cx.l0), cx.b0[j], cx.outs[j], cx.reserved, cx.gprs) ==> SameEffect(cx.l0, cx.b0[j], loads, code, cx.outs[j]))
  }

  lemma NoBlocks(loads: Loads, tags: TagMap, codes: seq<Code>, outs: seq<set<Reg>>, reserved: set<Reg>, gprs: seq<Reg>)
    requires |codes| == |outs|
    ensures ScanBlocks(loads, tags, codes, 0, outs, reserved, gprs) == (loads, tags)
  {
  }

  lemma ScannedBlocks(loads: Loads, tags: TagMap, codes: seq<Code>, b: nat, outs: seq<set<Reg>>, reserved: set<Reg>, gprs: seq<Reg>,
                      x: Loads, tx: TagMap, y: Loads, ty: TagMap)
    requires b < |codes| == |outs| && (x, tx) == ScanBlocks(loads, tags, codes, b, outs, reserved, gprs)
    requires (y, ty) == Scan(x, tx, codes[b], 0, outs[b], reserved, gprs)
    ensures (y, ty) == ScanBlocks(loads, tags, codes, b + 1, outs, reserved, gprs)
    ensures BlockSafe(loads, tags, codes, b, outs, reserved, gprs) == ScanSafe(x, tx, codes[b], 0, outs[b], reserved, gprs)
  {
    hide Scan, ScanSafe;
  }

  lemma BlockStep(cx: Context, x: Loads, tx: TagMap, y: Loads, bs: seq<Code>, b: nat)
    requires b < |cx.b0| == |bs| == |cx.outs| && Apart(cx.b0)
    requires Sofar(cx, x, bs[b := cx.b0[b]], b) && Tags(cx.l0) <= tx.Keys
    requires y.Keys == x.Keys && (forall id | id in y && !Mentions(cx.b0[b], id) :: y[id] == x[id])
    requires BlockSafe(cx.l0, cx.t0, cx.b0, b, cx.outs, cx.reserved, cx.gprs) == ScanSafe(x, tx, cx.b0[b], 0, cx.outs[b], cx.reserved, cx.gprs)
    requires RefsIn(bs[b], cx.b0[b])
    requires SameEffect(x, cx.b0[b], y, bs[b], cx.outs[b]) <==> ScanSafe(x, tx, cx.b0[b], 0, cx.outs[b], cx.reserved, cx.gprs)
    requires Sheltered(x, tx.Keys, cx.b0[b], cx.outs[b], cx.reserved, cx.gprs) ==> SameEffect(x, cx.b0[b], y, bs[b], cx.outs[b])
    ensures Sofar(cx, y, bs, b + 1)
  {
    hide KeptAt, Tags, ScanSafe, BlockSafe, SameEffect, Sheltered;
    var l0, b0 := cx.l0, cx.b0;
    forall j | 0 <= j < b + 1 ensures RefsIn(bs[j], b0[j]) && KeptAt(cx, y, bs[j], j) {
      if j < b {
        assert bs[b := b0[b]][j] == bs[j];
        forall id | Mentions(bs[j], id) ensures !Mentions(b0[b], id) { assert Mentions(b0[j], id); }
        KeptSame(cx, x, y, bs[j], j);
      } else {
        forall id | Mentions(b0[b], id) ensures (id in x <==> id in l0) && (id in l0 ==> x[id] == l0[id]) {}
        KeptFrom(cx, x, tx, y, bs[b], b);
      }
    }
    forall j, id | b + 1 <= j < |b0| && Mentions(b0[j], id) && id in l0 ensures y[id] == l0[id] {
      assert !Mentions(b0[b], id);
    }
    forall j | b + 1 <= j < |b0| ensures bs[j] == b0[j] { assert bs[b := b0[b]][j] == bs[j]; }
  }

  // Loads of other blocks may change ...
  lemma KeptSame(cx: Context, x: Loads, y: Loads, code: Code, j: nat)
    requires j < |cx.b0| == |cx.outs| && KeptAt(cx, x, code, j) && SameFor(code, x, y)
    ensures KeptAt(cx, y, code, j)
  {
    hide Sheltered, SameEffect, BlockSafe, Tags;
    if SameEffect(cx.l0, cx.b0[j], x, code, cx.outs[j]) { EffectSame(cx.l0, cx.b0[j], x, y, code, cx.outs[j]); }
    if SameEffect(cx.l0, cx.b0[j], y, code, cx.outs[j]) { EffectSame(cx.l0, cx.b0[j], y, x, code, cx.outs[j]); }
  }

  // ... before and after a block is scanned.
  lemma KeptFrom(cx: Context, x: Loads, tx: TagMap, y: Loads, code: Code, b: nat)
    requires b < |cx.b0| == |cx.outs| && SameFor(cx.b0[b], x, cx.l0) && Tags(cx.l0) <= tx.Keys
    requires SameEffect(x, cx.b0[b], y, code, cx.outs[b]) <==> BlockSafe(cx.l0, cx.t0, cx.b0, b, cx.outs, cx.reserved, cx.gprs)
    requires Sheltered(x, tx.Keys, cx.b0[b], cx.outs[b], cx.reserved, cx.gprs) ==> SameEffect(x, cx.b0[b], y, code, cx.outs[b])
    ensures KeptAt(cx, y, code, b)
  {
    hide Sheltered, SameEffect, BlockSafe, Tags;
    ShelterSame(cx.l0, Tags(cx.l0), x, tx.Keys, cx.b0[b], cx.outs[b], cx.reserved, cx.gprs);
    if SameEffect(x, cx.b0[b], y, code, cx.outs[b]) { EffectFrom(cx.l0, x, cx.b0[b], y, code, cx.outs[b]); }
    if SameEffect(cx.l0, cx.b0[b], y, code, cx.outs[b]) { EffectFrom(x, cx.l0, cx.b0[b], y, code, cx.outs[b]); }
  }

  lemma LiveAfter(x: Loads, y: Loads, code: Code, p: nat, out: set<Reg>)
    requires SameFor(code, x, y) && p < |code|
    ensures Live(x, code[p + 1..], out) == Live(y, code[p + 1..], out)
  {
    hide Live;
    forall id | Mentions(code[p + 1..], id) ensures Mentions(code, id) {}
    LiveSame(x, y, code[p + 1..], out);
  }

  lemma ShelterSame(l0: Loads, taken0: set<nat>, x: Loads, taken: set<nat>, code: Code, out: set<Reg>, reserved: set<Reg>, gprs: seq<Reg>)
    requires SameFor(code, x, l0) && taken0 <= taken
    ensures Sheltered(l0, taken0, code, out, reserved, gprs) ==> Sheltered(x, taken, code, out, reserved, gprs)
  {
    hide Live, GetTag;
    if Sheltered(l0, taken0, code, out, reserved, gprs) {
      forall p | 0 <= p < |code| && code[p].Ref? && code[p].id in x
        ensures var l := x[code[p].id];
                l.strided && l.prePost ==> SafeDests(l, taken, Live(x, code[p + 1..], out), reserved, gprs)
      {
        assert Mentions(code, code[p].id);
        LiveAfter(x, l0, code, p, out);
      }
    }
  }

  lemma KeptMeans(cx: Context, loads: Loads, bs: seq<Code>)
    requires |bs| == |cx.b0| == |cx.outs| && Sofar(cx, loads, bs, |bs|)
    ensures forall b | 0 <= b < |bs| ::
              SameEffect(cx.l0, cx.b0[b], loads, bs[b], cx.outs[b]) <==> BlockSafe(cx.l0, cx.t0, cx.b0, b, cx.outs, cx.reserved, cx.gprs)
    ensures forall b | 0 <= b < |bs| && Sheltered(cx.l0, Tags(cx.l0), cx.b0[b], cx.outs[b], cx.reserved, cx.gprs) ::
              SameEffect(cx.l0, cx.b0[b], loads, bs[b], cx.outs[b])
  {
    hide Sheltered, BlockSafe, SameEffect, Tags, RefsIn, Mentions;
    assert forall b | 0 <= b < |bs| :: KeptAt(cx, loads, bs[b], b);
  }

  lemma EffectSame(l0: Loads, a: Code, x: Loads, y: Loads, c: Code, out: set<Reg>)
    requires SameEffect(l0, a, x, c, out) && SameFor(c, x, y)
    ensures SameEffect(l0, a, y, c, out)
  {
    hide Run, SameFor;
    forall sem: Sem, s: State ensures Agree(out, Run(sem, l0, a, s), Run(sem, y, c, s)) { RunSame(sem, x, y, c, s); }
  }

  lemma EffectFrom(l0: Loads, x: Loads, a: Code, y: Loads, c: Code, out: set<Reg>)
    requires SameEffect(x, a, y, c, out) && SameFor(a, x, l0)
    ensures SameEffect(l0, a, y, c, out)
  {
    hide Run, SameFor;
    forall sem: Sem, s: State ensures Agree(out, Run(sem, l0, a, s), Run(sem, y, c, s)) { RunSame(sem, x, l0, a, s); }
  }

  // No two blocks refer to one load.
  ghost predicate Apart(bs: seq<Code>) {
    forall i, j, id | 0 <= i < j < |bs| && Mentions(bs[i], id) :: !Mentions(bs[j], id)
  }

  // Blocks below b are done, the others are as they were, loads included.
  ghost predicate Sofar(cx: Context, loads: Loads, bs: seq<Code>, b: nat)
    requires b <= |cx.b0| == |bs| == |cx.outs|
  {
    && loads.Keys == cx.l0.Keys
    && (forall j | 0 <= j < b :: RefsIn(bs[j], cx.b0[j]) && KeptAt(cx, loads, bs[j], j))
    && (forall j | b <= j < |bs| :: bs[j] == cx.b0[j])
    && (forall j, id | b <= j < |bs| && Mentions(cx.b0[j], id) && id in cx.l0 :: loads[id] == cx.l0[id])
  }

  lemma StartSofar(cx: Context)
    requires |cx.b0| == |cx.outs|
    ensures Sofar(cx, cx.l0, cx.b0, 0)
  {
  }

  lemma SofarFacts(cx: Context, loads: Loads, bs: seq<Code>, b: nat)
    requires b <= |cx.b0| == |bs| == |cx.outs| && Sofar(cx, loads, bs, b)
    ensures loads.Keys == cx.l0.Keys && (forall j | 0 <= j < b :: RefsIn(bs[j], cx.b0[j])) && (b < |bs| ==> bs[b] == cx.b0[b])
    ensures b < |bs| ==> forall id | Mentions(cx.b0[b], id) && id in cx.l0 :: loads[id] == cx.l0[id]
  {
    hide KeptAt, Mentions, RefsIn;
  }

  lemma NotBefore(order: seq<nat>, k: nat)
    requires k < |order| && NoRepeats(order)
    ensures order[k] !in order[..k]
  {
  }

  lemma Appended(s: seq<nat>, x: nat)
    requires NoRepeats(s)
    ensures x !in s ==> NoRepeats(s + [x])
  {
  }

  lemma Partner(s: seq<nat>, x: nat) returns (y: nat)
    requires |s| > 1 && NoRepeats(s)
    ensures y in s && y != x
  {
    y := if s[0] == x then s[1] else s[0];
  }

  lemma SomeTag(l: Load, c: Reg)
    requires GetTag(l).Some?
    ensures GetTag(Rebased(l, c)).Some?
  {
  }

  lemma SameBaseSameTag(l: Load, c: Reg)
    ensures c == l.base ==> GetTag(Rebased(l, c)) == GetTag(l)
  {
  }

  // No load is referred to twice.
  ghost predicate Once(code: Code) {
    forall i, j | 0 <= i < j < |code| && code[i].Ref? :: code[i] != code[j]
  }

  // Only loads from position i on have been changed.
  ghost predicate OnlyBelow(code: Code, i: nat, l0: Loads, loads: Loads)
    requires i <= |code|
  {
    l0.Keys == loads.Keys && forall id | id in l0 && !Mentions(code[i..], id) :: loads[id] == l0[id]
  }

  ghost predicate RefsIn(x: Code, y: Code) {
    forall id | Mentions(x, id) :: Mentions(y, id)
  }

  // The block so far does what the original did, and `live` covers what is live where the scan stands.
  ghost predicate Done(l0: Loads, orig: Code, loads: Loads, pre: Code, suf: Code, live: set<Reg>, out: set<Reg>) {
    SameEffect(l0, orig, loads, pre + suf, out) && Live(loads, suf, out) <= live
  }

  lemma StartBlock(loads: Loads, code: Code, out: set<Reg>)
    ensures OnlyBelow(code, |code|, loads, loads) && RefsIn([], code[|code|..]) && Done(loads, code, loads, code[..|code|], [], out, out)
  {
    hide Run;
    assert code[..|code|] + [] == code;
    forall sem: Sem, s: State ensures Agree(out, Run(sem, loads, code, s), Run(sem, loads, code, s)) {}
  }

  lemma AtPosition(code: Code, i: nat, l0: Loads, loads: Loads)
    requires i < |code| && code[i].Ref? && Once(code) && OnlyBelow(code, i + 1, l0, loads)
    requires forall id | Mentions(code, id) :: id in l0 && Predictable(l0[id])
    ensures code[i].id in l0 && code[i].id in loads && loads[code[i].id] == l0[code[i].id] && Predictable(loads[code[i].id])
  {
    assert Mentions(code, code[i].id);
    assert !Mentions(code[i + 1..], code[i].id);
  }

  lemma LiveMonotone(loads: Loads, i: Item, x: set<Reg>, y: set<Reg>)
    requires x <= y
    ensures StepBackward(loads, i, x) <= StepBackward(loads, i, y)
  {
  }

  lemma StepPlain(l0: Loads, orig: Code, loads: Loads, code: Code, i: nat, suf: Code, live: set<Reg>, out: set<Reg>, clean: bool)
    requires i < |code| && OnlyBelow(code, i + 1, l0, loads) && RefsIn(suf, code[i + 1..])
    requires clean ==> Done(l0, orig, loads, code[..i + 1], suf, live, out)
    ensures OnlyBelow(code, i, l0, loads) && RefsIn([code[i]] + suf, code[i..])
    ensures clean ==> Done(l0, orig, loads, code[..i], [code[i]] + suf, StepBackward(loads, code[i], live), out)
  {
    hide SameEffect, StepBackward;
    assert code[i..] == [code[i]] + code[i + 1..];
    forall id | Mentions([code[i]] + suf, id) ensures Mentions(code[i..], id) {
      if Ref(id) in suf { assert Mentions(suf, id); }
    }
    forall id | id in l0 && !Mentions(code[i..], id) ensures loads[id] == l0[id] { assert !Mentions(code[i + 1..], id); }
    assert code[..i] + ([code[i]] + suf) == code[..i + 1] + suf;
    assert ([code[i]] + suf)[1..] == suf;
    if clean { LiveMonotone(loads, code[i], Live(loads, suf, out), live); }
  }

  lemma StepRewrite(l0: Loads, orig: Code, x: Loads, code: Code, i: nat, suf: Code, live: set<Reg>, out: set<Reg>, id: nat, c: Reg, clean: bool)
    requires i < |code| && code[i] == Ref(id) && id in x && Once(code) && OnlyBelow(code, i + 1, l0, x) && RefsIn(suf, code[i + 1..])
    requires c !in live && c !in x[id].others && c != x[id].base && Predictable(x[id])
    requires clean ==> Done(l0, orig, x, code[..i + 1], suf, live, out)
    ensures var n := x[id := Rebased(x[id], c)]; var m := Moved(id, x[id], c) + suf;
            && OnlyBelow(code, i, l0, n) && RefsIn(m, code[i..])
            && (clean && Predictable(n[id]) ==>
                  Done(l0, orig, n, code[..i], m, StepBackward(n, Mov(c, x[id].base), StepBackward(n, Ref(id), live)), out))
  {
    var n := x[id := Rebased(x[id], c)];
    var m := Moved(id, x[id], c) + suf;
    hide *;
    NotElsewhere(code, i, suf, id);
    RefsAfter(l0, x, code, i, suf, id, c);
    if clean && Predictable(n[id]) {
      DoneFacts(l0, orig, x, code[..i + 1], suf, live, out);
      OneRewrite(x, code[..i], id, c, suf, out);
      assert code[..i] + [Ref(id)] == code[..i + 1] && code[..i] + Moved(id, x[id], c) + suf == code[..i] + m;
      SameEffectTrans(l0, orig, x, code[..i + 1] + suf, n, code[..i] + m, out);
      LiveRewritten(x, id, c, suf, live, out);
      DoneFrom(l0, orig, n, code[..i], m, StepBackward(n, Mov(c, x[id].base), StepBackward(n, Ref(id), live)), out);
    }
  }

  lemma RefsAfter(l0: Loads, x: Loads, code: Code, i: nat, suf: Code, id: nat, c: Reg)
    requires i < |code| && code[i] == Ref(id) && id in x && OnlyBelow(code, i + 1, l0, x) && RefsIn(suf, code[i + 1..])
    ensures OnlyBelow(code, i, l0, x[id := Rebased(x[id], c)]) && RefsIn(Moved(id, x[id], c) + suf, code[i..])
  {
    var n, m := x[id := Rebased(x[id], c)], Moved(id, x[id], c) + suf;
    assert code[i..] == [code[i]] + code[i + 1..];
    forall d | Mentions(m, d) ensures Mentions(code[i..], d) {
      if Ref(d) in suf { assert Mentions(suf, d); }
    }
    forall d | d in l0 && !Mentions(code[i..], d) ensures n[d] == l0[d] { assert !Mentions(code[i + 1..], d); }
  }

  lemma DoneFacts(l0: Loads, orig: Code, loads: Loads, pre: Code, suf: Code, live: set<Reg>, out: set<Reg>)
    requires Done(l0, orig, loads, pre, suf, live, out)
    ensures SameEffect(l0, orig, loads, pre + suf, out) && Live(loads, suf, out) <= live
  {
  }

  lemma DoneFrom(l0: Loads, orig: Code, loads: Loads, pre: Code, suf: Code, live: set<Reg>, out: set<Reg>)
    requires SameEffect(l0, orig, loads, pre + suf, out) && Live(loads, suf, out) <= live
    ensures Done(l0, orig, loads, pre, suf, live, out)
  {
  }

  lemma NotElsewhere(code: Code, i: nat, suf: Code, id: nat)
    requires i < |code| && code[i] == Ref(id) && Once(code) && RefsIn(suf, code[i + 1..])
    ensures !Mentions(code[..i], id) && !Mentions(suf, id)
  {
  }

  lemma {:induction false} LiveSame(x: Loads, y: Loads, code: Code, out: set<Reg>)
    requires SameFor(code, x, y)
    ensures Live(x, code, out) == Live(y, code, out)
  {
    if code != [] {
      forall id | Mentions(code[1..], id) ensures Mentions(code, id) {}
      if code[0].Ref? { assert Mentions(code, code[0].id); }
      LiveSame(x, y, code[1..], out);
    }
  }

  // The move after a write-back load is not stepped over by the scan; that only makes more registers live.
  lemma LiveRewritten(x: Loads, id: nat, c: Reg, suf: Code, live: set<Reg>, out: set<Reg>)
    requires id in x && !Mentions(suf, id) && Live(x, suf, out) <= live
    ensures var n := x[id := Rebased(x[id], c)];
            Live(n, Moved(id, x[id], c) + suf, out) <= StepBackward(n, Mov(c, x[id].base), StepBackward(n, Ref(id), live))
  {
    var n, l := x[id := Rebased(x[id], c)], x[id];
    OtherFor(suf, x, id, Rebased(l, c));
    LiveSame(x, n, suf, out);
    var post: Code := if l.prePost then [Mov(l.base, c)] else [];
    assert Moved(id, l, c) + suf == [Mov(c, l.base)] + ([Ref(id)] + (post + suf));
    var inner := Live(n, post + suf, out);
    LiveCons(n, Mov(c, l.base), [Ref(id)] + (post + suf), out);
    LiveCons(n, Ref(id), post + suf, out);
    if l.prePost { LiveCons(n, Mov(l.base, c), suf, out); } else { assert post + suf == suf; }
    assert inner <= live + {c};
    assert StepBackward(n, Ref(id), inner) <= StepBackward(n, Ref(id), live);
    LiveMonotone(n, Mov(c, l.base), StepBackward(n, Ref(id), inner), StepBackward(n, Ref(id), live));
  }

  lemma LiveCons(loads: Loads, i: Item, code: Code, out: set<Reg>)
    ensures Live(loads, [i] + code, out) == StepBackward(loads, i, Live(loads, code, out))
  {
    hide StepBackward;
    assert ([i] + code)[1..] == code;
  }

  lemma OnlyThese(code: Code, l0: Loads, loads: Loads)
    requires OnlyBelow(code, 0, l0, loads)
    ensures loads.Keys == l0.Keys && forall id | id in loads && !Mentions(code, id) :: loads[id] == l0[id]
  {
    assert code[0..] == code;
  }

  lemma AllDone(l0: Loads, orig: Code, loads: Loads, code: Code, suf: Code, live: set<Reg>, out: set<Reg>)
    requires Done(l0, orig, loads, code[..0], suf, live, out)
    ensures SameEffect(l0, orig, loads, suf, out)
  {
    hide SameEffect, Live;
    assert code[..0] + suf == suf;
  }

  // The search does not avoid the load's own destinations. Here the only usable register is one: the load collides
  // with another, and once rewritten it is unpredictable.
  lemma DeadDestinationIsChosen(live: set<Reg>)
    requires 3 !in live
    ensures var l, other := Load(0, [3], Some(3), 1, Imm(8), [], true, true), Load(1, [3], Some(3), 1, Imm(8), [], false, false);
            var loads, tags := map[0 := l, 1 := other], map[531 := [0, 1]];
            && Consistent(tags, loads) && Predictable(l)
            && Fixable(l, tags, live, {}, [3]) && (forall c | c in [3] :: Usable(l, tags, live, {}, c) <==> c == 3)
            && FirstUsable(l, tags, live, {}, [3], 3)
            && !Faithful(loads[0 := Rebased(l, 3)], 0, l, 3, live)
  {
    var l, other := Load(0, [3], Some(3), 1, Imm(8), [], true, true), Load(1, [3], Some(3), 1, Imm(8), [], false, false);
    var loads, tags := map[0 := l, 1 := other], map[531 := [0, 1]];
    hide *;
    TagsHere(l, other);
    PairConsistent(l, other);
    OnlyChoice(l, tags, live, 3);
    BaseLost(l, 3);
    RewriteExact(loads[0 := Rebased(l, 3)], 0, l, 3, live);
  }

  lemma TagsHere(l: Load, other: Load)
    requires l == Load(0, [3], Some(3), 1, Imm(8), [], true, true) && other == Load(1, [3], Some(3), 1, Imm(8), [], false, false)
    ensures GetTag(l) == Some(531) == GetTag(other) && GetTag(Rebased(l, 3)) == Some(563)
    ensures Rebased(l, 3).base == 3 && Rebased(l, 3) == l.(base := 3)
  {
  }

  lemma PairConsistent(l: Load, other: Load)
    requires GetTag(l).Some? && GetTag(other) == GetTag(l)
    ensures Consistent(map[GetTag(l).value := [0, 1]], map[0 := l, 1 := other])
  {
    hide GetTag;
    assert NoRepeats([0, 1]);
  }

  lemma OnlyChoice(l: Load, tags: TagMap, live: set<Reg>, c: Reg)
    requires l.strided && GetTag(l).Some? && tags == map[GetTag(l).value := [0, 1]]
    requires c !in live && c !in l.others && GetTag(Rebased(l, c)).Some? && GetTag(Rebased(l, c)) != GetTag(l)
    ensures Fixable(l, tags, live, {}, [c]) && (forall d | d in [c] :: Usable(l, tags, live, {}, d) <==> d == c)
    ensures FirstUsable(l, tags, live, {}, [c], c)
  {
    hide GetTag;
    assert Usable(l, tags, live, {}, c);
    assert [c][0] == c && NoneUsableBefore(l, tags, live, {}, [c], 0);
  }

  lemma BaseLost(l: Load, c: Reg)
    requires l.prePost && l.base !in l.dests && c in l.dests
    ensures Predictable(l) && !Predictable(Rebased(l, c))
  {
  }
}
