/** AArch64CleanupLocalDynamicTLSPass: one call for the module's TLS base serves the dominator subtree below it. */
module TLSCleanup {
  import opened Options

  type Reg = nat

  // ModuleCall is the TLSDESC call for _TLS_MODULE_BASE_; it leaves the base in x0. Other instructions may do
  // anything to x0, given its value, but do not write the registers created here.
  datatype Ins = ModuleCall | CopyToX0(reg: Reg) | CopyFromX0(reg: Reg) | Other(id: nat)

  type Code = seq<Ins>

  // The dominator tree; blocks are numbered, and the register a block creates has the block's number.
  datatype Tree = Node(block: nat, children: seq<Tree>)

  // ----- Rewriting one block -----

  // With a register in hand calls become copies; otherwise the first call is kept and its result recorded.
  function Rewrite(code: Code, tls: Option<Reg>, b: nat): Code {
    if code == [] then []
    else if code[0] == ModuleCall then
      if tls.Some? then [CopyToX0(tls.value)] + Rewrite(code[1..], tls, b)
      else [ModuleCall, CopyFromX0(b)] + Rewrite(code[1..], Some(b), b)
    else [code[0]] + Rewrite(code[1..], tls, b)
  }

  function RegisterAfter(code: Code, tls: Option<Reg>, b: nat): Option<Reg> {
    if tls.Some? then tls else if ModuleCall in code then Some(b) else None
  }

  // ----- Dominator subtrees -----

  ghost predicate InTree(t: Tree, b: nat) {
    t.block == b || exists c :: c in t.children && InTree(c, b)
  }

  // Different children hold different blocks, and none holds its parent's.
  ghost predicate Distinct(t: Tree) {
    && (forall c | c in t.children :: Distinct(c) && !InTree(c, t.block))
    && (forall i, j, b: nat | 0 <= i < j < |t.children| && InTree(t.children[i], b) :: !InTree(t.children[j], b))
  }

  ghost predicate InRange(t: Tree, n: nat) {
    forall b: nat | InTree(t, b) :: b < n
  }

  // a properly dominates b within t.
  ghost predicate Dominates(t: Tree, a: nat, b: nat) {
    exists c :: c in t.children && ((t.block == a && InTree(c, b)) || Dominates(c, a, b))
  }

  // Every block of the subtree is rewritten with the register that its dominators left.
  ghost predicate Visited(t: Tree, tls: Option<Reg>, before: seq<Code>, after: seq<Code>) {
    && t.block < |before| == |after| && after[t.block] == Rewrite(before[t.block], tls, t.block)
    && forall c | c in t.children :: Visited(c, RegisterAfter(before[t.block], tls, t.block), before, after)
  }

  lemma {:induction false} VisitedFrame(t: Tree, tls: Option<Reg>, before: seq<Code>, x: seq<Code>, y: seq<Code>)
    requires Visited(t, tls, before, x) && |y| == |x| && forall b: nat | InTree(t, b) && b < |x| :: y[b] == x[b]
    ensures Visited(t, tls, before, y)
  {
    assert InTree(t, t.block);
    forall c | c in t.children ensures Visited(c, RegisterAfter(before[t.block], tls, t.block), before, y) {
      forall b: nat | InTree(c, b) && b < |x| ensures y[b] == x[b] { assert InTree(t, b); }
      VisitedFrame(c, RegisterAfter(before[t.block], tls, t.block), before, x, y);
    }
  }

  // Visiting one child leaves what was done for the earlier ones.
  lemma ChildrenFrame(t: Tree, i: nat, tls: Option<Reg>, before: seq<Code>, x: seq<Code>, y: seq<Code>)
    requires i < |t.children| && Distinct(t) && |y| == |x|
    requires forall j | 0 <= j < i :: Visited(t.children[j], tls, before, x)
    requires forall b: nat | b < |x| && !InTree(t.children[i], b) :: y[b] == x[b]
    ensures forall j | 0 <= j < i :: Visited(t.children[j], tls, before, y)
  {
    forall j | 0 <= j < i ensures Visited(t.children[j], tls, before, y) {
      VisitedFrame(t.children[j], tls, before, x, y);
    }
  }

  class LDTLSCleanup {
    const blocks: array<Code>

    constructor (b: array<Code>)
      ensures blocks == b
    {
      blocks := b;
    }

    // The loop of VisitNode over one block; returns the register its subtree may use.
    method RewriteBlock(b: nat, tls0: Option<Reg>) returns (tls: Option<Reg>, changed: bool)
      requires b < blocks.Length
      modifies blocks
      ensures blocks[..] == old(blocks[..])[b := Rewrite(old(blocks[b]), tls0, b)]
      ensures tls == RegisterAfter(old(blocks[b]), tls0, b) && (changed <==> ModuleCall in old(blocks[b]))
    {
      var code := blocks[b];
      hide Rewrite;
      var out;
      out, tls, changed := RewriteCode(code, tls0, b);
      blocks[b] := out;
    }

    static method RewriteCode(code: Code, tls0: Option<Reg>, b: nat) returns (out: Code, tls: Option<Reg>, changed: bool)
      ensures out == Rewrite(code, tls0, b) && tls == RegisterAfter(code, tls0, b) && (changed <==> ModuleCall in code)
    {
      hide Rewrite;
      out, tls, changed := [], tls0, false;
      for i := 0 to |code|
        invariant out + Rewrite(code[i..], tls, b) == Rewrite(code, tls0, b)
        invariant tls == RegisterAfter(code[..i], tls0, b) && (changed <==> ModuleCall in code[..i])
      {
        RewriteNext(code, i, out, tls, b);
        assert code[..i + 1] == code[..i] + [code[i]];
        if code[i] == ModuleCall {
          if tls.Some? {
            out := out + [CopyToX0(tls.value)];
          } else {
            out := out + [ModuleCall, CopyFromX0(b)];
            tls := Some(b);
          }
          changed := true;
        } else {
          out := out + [code[i]];
        }
      }
      RewriteNone(tls, b);
      assert code[..|code|] == code && code[|code|..] == [] && out + [] == out;
    }

    // VisitNode
    method VisitNode(t: Tree, tls0: Option<Reg>) returns (changed: bool)
      requires Distinct(t) && InRange(t, blocks.Length)
      modifies blocks
      ensures Visited(t, tls0, old(blocks[..]), blocks[..])
      ensures forall b: nat | b < blocks.Length && !InTree(t, b) :: blocks[b] == old(blocks[b])
      decreases t
    {
      ghost var before := blocks[..];
      assert InTree(t, t.block);
      var tls;
      tls, changed := RewriteBlock(t.block, tls0);
      hide Visited, InTree, Distinct, InRange, Rewrite, RegisterAfter;
      for i := 0 to |t.children|
        invariant blocks[t.block] == Rewrite(before[t.block], tls0, t.block)
        invariant forall j | 0 <= j < i :: Visited(t.children[j], tls, before, blocks[..])
        invariant forall b: nat | b < blocks.Length && !InTree(t, b) :: blocks[b] == before[b]
        invariant forall j, b: nat | i <= j < |t.children| && InTree(t.children[j], b) && b < blocks.Length :: blocks[b] == before[b]
      {
        var c := t.children[i];
        ChildFacts(t, i, blocks.Length);
        ghost var x := blocks[..];
        var ch := VisitNode(c, tls);
        VisitedSame(c, tls, x, before, blocks[..]);
        ChildrenFrame(t, i, tls, before, x, blocks[..]);
        changed := changed || ch;
      }
      AllVisited(t, tls0, before, blocks[..]);
    }
  }

  lemma RewriteNone(tls: Option<Reg>, b: nat)
    ensures Rewrite([], tls, b) == []
  {
  }

  lemma RewriteNext(code: Code, i: nat, out: Code, tls: Option<Reg>, b: nat)
    requires i < |code|
    ensures var here, next := code[i], code[i + 1..];
            out + Rewrite(code[i..], tls, b) ==
            if here != ModuleCall then out + [here] + Rewrite(next, tls, b)
            else if tls.Some? then out + [CopyToX0(tls.value)] + Rewrite(next, tls, b)
            else out + [ModuleCall, CopyFromX0(b)] + Rewrite(next, Some(b), b)
  {
    assert code[i..][0] == code[i] && code[i..][1..] == code[i + 1..];
  }

  lemma ChildFacts(t: Tree, i: nat, n: nat)
    requires i < |t.children| && Distinct(t) && InRange(t, n)
    ensures var c := t.children[i]; Distinct(c) && InRange(c, n) && c < t && !InTree(c, t.block)
    ensures forall b: nat | InTree(t.children[i], b) :: InTree(t, b) && forall j | i < j < |t.children| :: !InTree(t.children[j], b)
  {
    forall b: nat | InTree(t.children[i], b) ensures InTree(t, b) {}
  }

  // A visit only depends on what the blocks of the subtree were.
  lemma {:induction false} VisitedSame(t: Tree, tls: Option<Reg>, x: seq<Code>, before: seq<Code>, after: seq<Code>)
    requires Visited(t, tls, x, after) && |before| == |x| && forall b: nat | InTree(t, b) && b < |x| :: x[b] == before[b]
    ensures Visited(t, tls, before, after)
  {
    assert InTree(t, t.block);
    forall c | c in t.children ensures Visited(c, RegisterAfter(before[t.block], tls, t.block), before, after) {
      forall b: nat | InTree(c, b) && b < |x| ensures x[b] == before[b] { assert InTree(t, b); }
      VisitedSame(c, RegisterAfter(before[t.block], tls, t.block), x, before, after);
    }
  }

  lemma AllVisited(t: Tree, tls: Option<Reg>, before: seq<Code>, after: seq<Code>)
    requires t.block < |before| == |after| && after[t.block] == Rewrite(before[t.block], tls, t.block)
    requires forall j | 0 <= j < |t.children| :: Visited(t.children[j], RegisterAfter(before[t.block], tls, t.block), before, after)
    ensures Visited(t, tls, before, after)
  {
    hide Rewrite, RegisterAfter;
  }

  // ----- At most one call on any path -----

  function Calls(code: Code): nat {
    if code == [] then 0 else (if code[0] == ModuleCall then 1 else 0) + Calls(code[1..])
  }

  lemma {:induction false} RewriteCalls(code: Code, tls: Option<Reg>, b: nat)
    ensures Calls(Rewrite(code, tls, b)) == if tls.None? && ModuleCall in code then 1 else 0
  {
    if code != [] {
      var tls' := if code[0] == ModuleCall && tls.None? then Some(b) else tls;
      RewriteCalls(code[1..], tls', b);
      var rest := Rewrite(code[1..], tls', b);
      if code[0] == ModuleCall && tls.None? {
        assert ([ModuleCall, CopyFromX0(b)] + rest)[1..] == [CopyFromX0(b)] + rest;
        assert ([CopyFromX0(b)] + rest)[1..] == rest;
      } else {
        var i := if code[0] == ModuleCall then CopyToX0(tls.value) else code[0];
        assert ([i] + rest)[1..] == rest;
      }
    }
  }

  // A downward path in the tree.
  ghost predicate IsPath(t: Tree, path: seq<nat>)
    decreases |path|
  {
    |path| > 0 && path[0] == t.block && (|path| == 1 || exists c :: c in t.children && IsPath(c, path[1..]))
  }

  function CallsOn(after: seq<Code>, path: seq<nat>): nat {
    if path == [] then 0 else (if path[0] < |after| then Calls(after[path[0]]) else 0) + CallsOn(after, path[1..])
  }

  lemma {:induction false} AtMostOneCall(t: Tree, tls: Option<Reg>, before: seq<Code>, after: seq<Code>, path: seq<nat>)
    requires Visited(t, tls, before, after) && IsPath(t, path)
    ensures CallsOn(after, path) <= if tls.Some? then 0 else 1
    decreases |path|
  {
    RewriteCalls(before[t.block], tls, t.block);
    if |path| > 1 {
      var c :| c in t.children && IsPath(c, path[1..]);
      AtMostOneCall(c, RegisterAfter(before[t.block], tls, t.block), before, after, path[1..]);
    } else {
      assert CallsOn(after, path[1..]) == 0;
    }
  }

  // ----- Running -----

  datatype State = State(x0: int, regs: map<Reg, int>)

  // `base` is the module's TLS base; `other` what other instructions make of x0.
  function Exec(base: int, other: (nat, int) -> int, i: Ins, s: State): State {
    match i
    case ModuleCall => s.(x0 := base)
    case CopyToX0(r) => s.(x0 := if r in s.regs then s.regs[r] else 0)
    case CopyFromX0(r) => s.(regs := s.regs[r := s.x0])
    case Other(id) => s.(x0 := other(id, s.x0))
  }

  function Run(base: int, other: (nat, int) -> int, code: Code, s: State): State {
    if code == [] then s else Run(base, other, code[1..], Exec(base, other, code[0], s))
  }

  // x0 after every instruction, not counting the recording copies.
  function Trace(base: int, other: (nat, int) -> int, code: Code, s: State): seq<int> {
    if code == [] then []
    else
      var t := Exec(base, other, code[0], s);
      (if code[0].CopyFromX0? then [] else [t.x0]) + Trace(base, other, code[1..], t)
  }

  // The original code has neither kind of copy.
  predicate Plain(code: Code) {
    forall i | i in code :: i.ModuleCall? || i.Other?
  }

  lemma {:induction false} RewriteRuns(base: int, other: (nat, int) -> int, code: Code, tls: Option<Reg>, b: nat, s: State, t: State)
    requires Plain(code) && s.x0 == t.x0 && (tls.Some? ==> tls.value in t.regs && t.regs[tls.value] == base)
    ensures var u := Run(base, other, Rewrite(code, tls, b), t);
            && Trace(base, other, Rewrite(code, tls, b), t) == Trace(base, other, code, s)
            && u.x0 == Run(base, other, code, s).x0
            && (forall r | r in t.regs && r != b :: r in u.regs && u.regs[r] == t.regs[r])
            && ((b in t.regs && t.regs[b] == base) || (tls.None? && ModuleCall in code) ==> b in u.regs && u.regs[b] == base)
            && (tls.Some? && b in t.regs ==> b in u.regs && u.regs[b] == t.regs[b])
  {
    if code != [] {
      var s' := Exec(base, other, code[0], s);
      var rest := code[1..];
      if code[0] == ModuleCall && tls.None? {
        var t1 := Exec(base, other, ModuleCall, t);
        var t2 := Exec(base, other, CopyFromX0(b), t1);
        RewriteRuns(base, other, rest, Some(b), b, s', t2);
        var w := Rewrite(rest, Some(b), b);
        assert ([ModuleCall, CopyFromX0(b)] + w)[1..] == [CopyFromX0(b)] + w && ([CopyFromX0(b)] + w)[1..] == w;
      } else {
        var i := if code[0] == ModuleCall then CopyToX0(tls.value) else code[0];
        assert code[0] in code;
        RewriteRuns(base, other, rest, tls, b, s', Exec(base, other, i, t));
        var w := Rewrite(rest, tls, b);
        assert ([i] + w)[1..] == w;
      }
    }
  }

  // Block a records the base: no dominator had it before.
  ghost predicate Creates(before: seq<Code>, after: seq<Code>, a: nat) {
    a < |before| == |after| && after[a] == Rewrite(before[a], None, a) && ModuleCall in before[a]
  }

  // The register a block was rewritten with is the one passed in or comes from a dominator that created it.
  lemma {:induction false} Arrives(t: Tree, tls: Option<Reg>, before: seq<Code>, after: seq<Code>, b: nat) returns (r: Option<Reg>)
    requires Visited(t, tls, before, after) && InTree(t, b)
    ensures b < |before| == |after| && after[b] == Rewrite(before[b], r, b)
    ensures r == tls || (tls.None? && r.Some? && Dominates(t, r.value, b) && Creates(before, after, r.value))
  {
    if t.block == b {
      r := tls;
    } else {
      var c :| c in t.children && InTree(c, b);
      var next := RegisterAfter(before[t.block], tls, t.block);
      r := Arrives(c, next, before, after, b);
      assert r.Some? && Dominates(c, r.value, b) ==> Dominates(t, r.value, b);
      assert Dominates(t, t.block, b);
    }
  }

  // A sequence of blocks as an execution visits them: every dominator of a block comes before it.
  ghost predicate Respects(t: Tree, run: seq<nat>) {
    forall k | 0 <= k < |run| :: InTree(t, run[k]) && forall a: nat | Dominates(t, a, run[k]) :: a in run[..k]
  }

  // others(n) is what ordinary instructions make of x0 on the visit at position n, so two visits of a block may differ.
  function RunBlocks(base: int, others: nat -> ((nat, int) -> int), codes: seq<Code>, run: seq<nat>, s: State): State {
    if run == [] then s
    else
      var n := |run| - 1;
      var p := RunBlocks(base, others, codes, run[..n], s);
      if run[n] < |codes| then Run(base, others(n), codes[run[n]], p) else p
  }

  function TraceBlocks(base: int, others: nat -> ((nat, int) -> int), codes: seq<Code>, run: seq<nat>, s: State): seq<int> {
    if run == [] then []
    else
      var n := |run| - 1;
      TraceBlocks(base, others, codes, run[..n], s) +
      (if run[n] < |codes| then Trace(base, others(n), codes[run[n]], RunBlocks(base, others, codes, run[..n], s)) else [])
  }

  ghost predicate AllPlain(codes: seq<Code>) {
    forall b | 0 <= b < |codes| :: Plain(codes[b])
  }

  lemma RespectsPrefix(t: Tree, run: seq<nat>)
    requires Respects(t, run) && |run| > 0
    ensures Respects(t, run[..|run| - 1])
  {
    var p := run[..|run| - 1];
    forall k | 0 <= k < |p| ensures InTree(t, p[k]) && forall a: nat | Dominates(t, a, p[k]) :: a in p[..k] {
      assert p[..k] == run[..k] && p[k] == run[k];
    }
  }

  // Along every execution x0 has the same value after every instruction as in the original.
  lemma {:induction false} SameX0(t: Tree, before: seq<Code>, after: seq<Code>, base: int, others: nat -> ((nat, int) -> int), run: seq<nat>, s: State)
    requires Visited(t, None, before, after) && AllPlain(before) && Respects(t, run)
    ensures TraceBlocks(base, others, after, run, s) == TraceBlocks(base, others, before, run, s)
    ensures RunBlocks(base, others, after, run, s).x0 == RunBlocks(base, others, before, run, s).x0
    ensures forall a: nat | a in run && Creates(before, after, a) ::
              a in RunBlocks(base, others, after, run, s).regs && RunBlocks(base, others, after, run, s).regs[a] == base
    decreases |run|
  {
    hide Run, Trace, Rewrite, Plain, Dominates, InTree, Visited;
    if run != [] {
      var n := |run| - 1;
      var b := run[n];
      RespectsPrefix(t, run);
      SameX0(t, before, after, base, others, run[..n], s);
      var r := Arrives(t, None, before, after, b);
      var x, y := RunBlocks(base, others, before, run[..n], s), RunBlocks(base, others, after, run[..n], s);
      if r.Some? { assert r.value in run[..n] by { assert Dominates(t, r.value, run[n]); } }
      RewriteRuns(base, others(n), before[b], r, b, x, y);
      forall a: nat | a in run && Creates(before, after, a)
        ensures a in RunBlocks(base, others, after, run, s).regs && RunBlocks(base, others, after, run, s).regs[a] == base
      {
        if a == b {
          CreatorHasNone(before, after, b, r);
        } else {
          assert a in run[..n];
        }
      }
    }
  }

  // A block that records the base was rewritten without a register in hand.
  lemma CreatorHasNone(before: seq<Code>, after: seq<Code>, b: nat, r: Option<Reg>)
    requires Creates(before, after, b) && after[b] == Rewrite(before[b], r, b)
    ensures r.None?
  {
    RewriteCalls(before[b], r, b);
    RewriteCalls(before[b], None, b);
  }
}
