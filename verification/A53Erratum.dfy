/** AArch64A53Fix835769: NOPs between memory operations and 64-bit multiply-accumulates, also where one block
    falls through to the next. */
module A53Erratum {

  // Memory: isFirstInstructionInSequence. Accumulate: isSecondInstructionInSequence. Pseudo: emits nothing.
  datatype Ins = Memory(id: nat) | Accumulate(id: nat) | Pseudo(id: nat) | Nop | Plain(id: nat)

  type Code = seq<Ins>

  // ----- What flows into an instruction -----

  // The last instruction that is no pseudo; Nop when there is none.
  function Last(code: Code): (i: Ins)
    ensures !i.Pseudo?
  {
    if code == [] then Nop else if code[|code| - 1].Pseudo? then Last(code[..|code| - 1]) else code[|code| - 1]
  }

  predicate HasReal(code: Code) {
    exists i :: i in code && !i.Pseudo?
  }

  lemma {:induction false} LastJoin(x: Code, y: Code)
    ensures Last(x + y) == if HasReal(y) then Last(y) else Last(x)
  {
    if y == [] {
      assert x + y == x;
    } else {
      var n := |y| - 1;
      assert (x + y)[..|x + y| - 1] == x + y[..n];
      assert y == y[..n] + [y[n]];
      LastJoin(x, y[..n]);
      assert HasReal(y) == (HasReal(y[..n]) || !y[n].Pseudo?);
    }
  }

  // `falls[i]`: block i - 1 precedes block i and falls through to it without a branch.
  function Flow(f: seq<Code>, falls: seq<bool>, i: nat): Code
    requires i <= |f| == |falls|
  {
    if i == 0 || i == |f| || !falls[i] then [] else Flow(f, falls, i - 1) + f[i - 1]
  }

  // No memory operation is directly followed by a multiply-accumulate.
  ghost predicate SafeAfter(prefix: Code, code: Code) {
    forall k | 0 <= k < |code| && code[k].Accumulate? :: !Last(prefix + code[..k]).Memory?
  }

  ghost predicate Safe(f: seq<Code>, falls: seq<bool>, n: nat)
    requires n <= |f| == |falls|
  {
    forall i | 0 <= i < n :: SafeAfter(Flow(f, falls, i), f[i])
  }

  // ----- The repaired block -----

  predicate Bad(prev: Ins, i: Ins) {
    prev.Memory? && i.Accumulate?
  }

  function After(prev: Ins, i: Ins): Ins {
    if i.Pseudo? then prev else i
  }

  // A NOP before every instruction that would follow a memory operation.
  function Repaired(prev: Ins, code: Code): Code
    decreases |code|
  {
    if code == [] then []
    else (if Bad(prev, code[0]) then [Nop] else []) + [code[0]] + Repaired(After(prev, code[0]), code[1..])
  }

  function Erased(code: Code): Code {
    if code == [] then [] else (if code[0] == Nop then [] else [code[0]]) + Erased(code[1..])
  }

  // The last real instruction after `code`, when `prev` was the last before it.
  function PrevAfter(prev: Ins, code: Code): Ins {
    if code == [] then prev else After(PrevAfter(prev, code[..|code| - 1]), code[|code| - 1])
  }

  lemma {:induction false} PrevIsLast(prefix: Code, code: Code)
    ensures Last(prefix + code) == PrevAfter(Last(prefix), code)
  {
    if code == [] {
      assert prefix + code == prefix;
    } else {
      var n := |code| - 1;
      PrevIsLast(prefix, code[..n]);
      assert (prefix + code)[..|prefix + code| - 1] == prefix + code[..n];
    }
  }

  lemma {:induction false} PrevStep(prev: Ins, i: Ins, code: Code)
    ensures PrevAfter(prev, [i] + code) == PrevAfter(After(prev, i), code)
  {
    if code == [] {
      assert [i] + code == [i] && [i][..0] == [];
      assert PrevAfter(prev, []) == prev;
    } else {
      var n := |code| - 1;
      PrevStep(prev, i, code[..n]);
      assert ([i] + code)[..n + 1] == [i] + code[..n];
    }
  }

  lemma {:induction false} RepairedSnoc(prev: Ins, code: Code, i: Ins)
    ensures Repaired(prev, code + [i]) == Repaired(prev, code) + (if Bad(PrevAfter(prev, code), i) then [Nop] else []) + [i]
    decreases |code|
  {
    hide Repaired, Bad, After, PrevAfter;
    if code == [] {
      assert [i][1..] == [];
      RepairedCons(prev, i, []);
      RepairedNone(prev, []);
      NoCode(prev);
      NoCode(After(prev, i));
      assert code + [i] == [i] + [];
      var nop: Code := if Bad(prev, i) then [Nop] else [];
      assert nop + [i] + [] == [] + nop + [i];
    } else {
      var c, rest := code[0], code[1..];
      assert [c] + rest == code && [c] + (rest + [i]) == code + [i];
      RepairedCons(prev, c, rest);
      RepairedCons(prev, c, rest + [i]);
      RepairedSnoc(After(prev, c), rest, i);
      PrevStep(prev, c, rest);
      var front, y := (if Bad(prev, c) then [Nop] else []) + [c], Repaired(After(prev, c), rest);
      var nop: Code := if Bad(PrevAfter(prev, code), i) then [Nop] else [];
      assert front + (y + nop + [i]) == front + y + nop + [i];
    }
  }

  lemma NoCode(prev: Ins)
    ensures PrevAfter(prev, []) == prev && Repaired(prev, []) == []
  {
  }

  lemma RepairedCons(prev: Ins, i: Ins, code: Code)
    ensures Repaired(prev, [i] + code) == (if Bad(prev, i) then [Nop] else []) + [i] + Repaired(After(prev, i), code)
  {
    assert ([i] + code)[1..] == code;
  }

  ghost predicate BadAt(prev: Ins, code: Code, k: nat)
    requires k < |code|
  {
    Bad(PrevAfter(prev, code[..k]), code[k])
  }

  // Where nothing is bad nothing is inserted.
  lemma {:induction false} RepairedQuiet(prev: Ins, code: Code, q: nat, p: nat)
    requires q <= p <= |code| && forall k | q <= k < p :: !BadAt(prev, code, k)
    ensures Repaired(prev, code[..p]) == Repaired(prev, code[..q]) + code[q..p]
  {
    if q < p {
      RepairedQuiet(prev, code, q, p - 1);
      RepairedSnoc(prev, code[..p - 1], code[p - 1]);
      assert code[..p] == code[..p - 1] + [code[p - 1]] && code[q..p] == code[q..p - 1] + [code[p - 1]];
      assert !BadAt(prev, code, p - 1);
    } else {
      assert code[q..p] == [];
    }
  }

  lemma {:induction false} RepairedErased(prev: Ins, code: Code)
    ensures Erased(Repaired(prev, code)) == Erased(code)
    decreases |code|
  {
    if code != [] {
      RepairedErased(After(prev, code[0]), code[1..]);
      var rest := Repaired(After(prev, code[0]), code[1..]);
      ErasedJoin([code[0]], rest);
      ErasedJoin([Nop], [code[0]] + rest);
      ErasedJoin([code[0]], code[1..]);
      assert [code[0]] + code[1..] == code;
      assert [Nop] + [code[0]] + rest == [Nop] + ([code[0]] + rest) && [] + [code[0]] + rest == [code[0]] + rest;
      assert Erased([Nop]) == [] by { assert [Nop][1..] == []; }
    }
  }

  lemma {:induction false} ErasedJoin(x: Code, y: Code)
    ensures Erased(x + y) == Erased(x) + Erased(y)
  {
    if x == [] {
      assert x + y == y;
    } else {
      assert (x + y)[1..] == x[1..] + y;
      ErasedJoin(x[1..], y);
    }
  }

  // Only the last real instruction before a block matters to it.
  lemma SafeDepends(x: Code, y: Code, code: Code)
    requires SafeAfter(x, code) && Last(x) == Last(y)
    ensures SafeAfter(y, code)
  {
    forall k | 0 <= k < |code| && code[k].Accumulate? ensures !Last(y + code[..k]).Memory? {
      LastJoin(x, code[..k]);
      LastJoin(y, code[..k]);
    }
  }

  lemma {:induction false} RepairedSafe(prefix: Code, code: Code)
    ensures SafeAfter(prefix, Repaired(Last(prefix), code))
    decreases |code|
  {
    if code != [] {
      var n := |code| - 1;
      var r := Repaired(Last(prefix), code[..n]);
      assert code == code[..n] + [code[n]];
      RepairedSafe(prefix, code[..n]);
      RepairedSnoc(Last(prefix), code[..n], code[n]);
      SameLast(prefix, code[..n]);
      if Bad(PrevAfter(Last(prefix), code[..n]), code[n]) {
        SafeMore(prefix, r, Nop);
        LastJoin(prefix + r, [Nop]);
        assert prefix + (r + [Nop]) == prefix + r + [Nop] && HasReal([Nop]) && Last([Nop]) == Nop by { assert Nop in [Nop]; }
        SafeMore(prefix, r + [Nop], code[n]);
      } else {
        SafeMore(prefix, r, code[n]);
        assert r + [] + [code[n]] == r + [code[n]];
      }
    }
  }

  lemma SafeMore(prefix: Code, code: Code, i: Ins)
    requires SafeAfter(prefix, code) && (i.Accumulate? ==> !Last(prefix + code).Memory?)
    ensures SafeAfter(prefix, code + [i])
  {
    var c := code + [i];
    forall k | 0 <= k < |c| && c[k].Accumulate? ensures !Last(prefix + c[..k]).Memory? {
      assert c[..k] == code[..k];
      if k == |code| { assert code[..k] == code; }
    }
  }

  // Repairing does not change what flows out, unless that was a memory operation before a NOP.
  lemma {:induction false} SameLast(prefix: Code, code: Code)
    ensures Last(prefix + Repaired(Last(prefix), code)) == PrevAfter(Last(prefix), code)
    decreases |code|
  {
    if code == [] {
      assert prefix + [] == prefix;
    } else {
      var n := |code| - 1;
      var r := Repaired(Last(prefix), code[..n]);
      assert code == code[..n] + [code[n]];
      RepairedSnoc(Last(prefix), code[..n], code[n]);
      SameLast(prefix, code[..n]);
      NopMeansReal(PrevAfter(Last(prefix), code[..n]), code[n]);
      hide Repaired, Bad, PrevAfter;
      var nop: Code := if Bad(PrevAfter(Last(prefix), code[..n]), code[n]) then [Nop] else [];
      assert prefix + Repaired(Last(prefix), code) == prefix + r + nop + [code[n]];
      PrevEnd(Last(prefix), code);
      OneMore(prefix + r, nop, code[n]);
    }
  }

  lemma NopMeansReal(prev: Ins, i: Ins)
    ensures Bad(prev, i) ==> !i.Pseudo?
  {
  }

  lemma PrevEnd(prev: Ins, code: Code)
    requires code != []
    ensures PrevAfter(prev, code) == After(PrevAfter(prev, code[..|code| - 1]), code[|code| - 1])
  {
  }

  lemma OneMore(x: Code, nop: Code, i: Ins)
    requires nop == [] || (nop == [Nop] && !i.Pseudo?)
    ensures Last(x + nop + [i]) == After(Last(x), i)
  {
    assert (x + nop + [i])[..|x + nop + [i]| - 1] == x + nop;
    assert nop == [] ==> x + nop == x;
  }

  // The repaired block without its leading NOP, which goes to the block before.
  function Trimmed(prev: Ins, code: Code, s: Code): Code {
    if code != [] && s != [] && Bad(prev, code[0]) then s[1..] else s
  }

  lemma TrimmedSafe(prefix: Code, code: Code)
    ensures var front := code != [] && Bad(Last(prefix), code[0]);
            SafeAfter(if front then prefix + [Nop] else prefix, Trimmed(Last(prefix), code, Repaired(Last(prefix), code)))
    ensures Erased(Trimmed(Last(prefix), code, Repaired(Last(prefix), code))) == Erased(code)
  {
    RepairedSafe(prefix, code);
    RepairedErased(Last(prefix), code);
    if code != [] && Bad(Last(prefix), code[0]) {
      RepairedFront(Last(prefix), code);
      LeadingNop(prefix, Repaired(Last(prefix), code));
    }
  }

  lemma RepairedFront(prev: Ins, code: Code)
    requires code != [] && Bad(prev, code[0])
    ensures Repaired(prev, code) != [] && Repaired(prev, code)[0] == Nop
  {
  }

  // A NOP in front may as well end what comes before.
  lemma LeadingNop(prefix: Code, s: Code)
    requires s != [] && s[0] == Nop && SafeAfter(prefix, s)
    ensures SafeAfter(prefix + [Nop], s[1..]) && Erased(s[1..]) == Erased(s)
  {
    hide Last;
    forall k | 0 <= k < |s[1..]| && s[1..][k].Accumulate? ensures !Last(prefix + [Nop] + s[1..][..k]).Memory? {
      PastNop(prefix, s, k);
    }
  }

  lemma PastNop(prefix: Code, s: Code, k: nat)
    requires k + 1 < |s| && s[0] == Nop
    ensures prefix + s[..k + 1] == prefix + [Nop] + s[1..][..k]
  {
    assert s[..k + 1] == [Nop] + s[1..][..k];
  }

  // ----- How many NOPs -----

  // The multiply-accumulates that directly follow a memory operation.
  ghost function Hazards(prefix: Code, code: Code): nat {
    if code == [] then 0
    else
      var n := |code| - 1;
      Hazards(prefix, code[..n]) + if code[n].Accumulate? && Last(prefix + code[..n]).Memory? then 1 else 0
  }

  // Those of the first n blocks.
  ghost function AllHazards(f: seq<Code>, falls: seq<bool>, n: nat): nat
    requires n <= |f| == |falls|
  {
    if n == 0 then 0 else AllHazards(f, falls, n - 1) + Hazards(Flow(f, falls, n - 1), f[n - 1])
  }

  ghost function Length(f: seq<Code>): nat {
    if f == [] then 0 else Length(f[..|f| - 1]) + |f[|f| - 1]|
  }

  lemma {:induction false} LengthUpdated(f: seq<Code>, k: nat, c: Code)
    requires k < |f|
    ensures Length(f[k := c]) == Length(f) - |f[k]| + |c|
  {
    var n, g := |f| - 1, f[k := c];
    if k < n {
      LengthUpdated(f[..n], k, c);
      assert g[..n] == f[..n][k := c];
    } else {
      assert g[..n] == f[..n];
    }
  }

  lemma {:induction false} RepairedLength(prefix: Code, code: Code)
    ensures |Repaired(Last(prefix), code)| == |code| + Hazards(prefix, code)
  {
    hide Repaired, Last;
    if code == [] {
      NoCode(Last(prefix));
    } else {
      var n := |code| - 1;
      RepairedLength(prefix, code[..n]);
      RepairedSnoc(Last(prefix), code[..n], code[n]);
      PrevIsLast(prefix, code[..n]);
      assert code[..n] + [code[n]] == code;
    }
  }

  lemma {:induction false} SameHazards(x: Code, y: Code, code: Code)
    requires Last(x) == Last(y)
    ensures Hazards(x, code) == Hazards(y, code) && Last(x + code) == Last(y + code)
  {
    LastJoin(x, code);
    LastJoin(y, code);
    if code != [] {
      SameHazards(x, y, code[..|code| - 1]);
    }
  }

  // The block without a NOP that went to the block before: how long it is, and what it ends with.
  lemma TrimmedOut(prefix: Code, y: Code, code: Code)
    requires y == prefix || (code != [] && Bad(Last(prefix), code[0]))
    ensures var t := Trimmed(Last(prefix), code, Repaired(Last(prefix), code));
            && |t| + (if code != [] && Bad(Last(prefix), code[0]) then 1 else 0) == |code| + Hazards(prefix, code)
            && Last(y + t) == Last(prefix + code)
  {
    RepairedLength(prefix, code);
    SameLast(prefix, code);
    PrevIsLast(prefix, code);
    if code != [] && Bad(Last(prefix), code[0]) {
      RepairedFront(Last(prefix), code);
      var r := Repaired(Last(prefix), code);
      RepairedSecond(Last(prefix), code);
      assert r == [Nop] + r[1..];
      LastJoin(prefix + [Nop], r[1..]);
      LastJoin(y, r[1..]);
      assert prefix + r == prefix + [Nop] + r[1..];
      assert r[1..][0] in r[1..];
    }
  }

  lemma RepairedSecond(prev: Ins, code: Code)
    requires code != [] && Bad(prev, code[0])
    ensures |Repaired(prev, code)| > 1 && Repaired(prev, code)[1] == code[0] && !code[0].Pseudo?
  {
  }

  // Each NOP is needed: without it the multiply-accumulate would directly follow a memory operation.
  lemma NopNeeded(prefix: Code, code: Code, k: nat, y: Code)
    requires k < |code| && code[k].Accumulate? && Last(prefix + code[..k]).Memory?
    ensures var r := Repaired(Last(prefix), code[..k]);
            Repaired(Last(prefix), code[..k + 1]) == r + [Nop] + [code[k]] && !SafeAfter(prefix, r + [code[k]] + y)
  {
    hide Repaired, Last;
    var r := Repaired(Last(prefix), code[..k]);
    assert code[..k + 1] == code[..k] + [code[k]];
    PrevIsLast(prefix, code[..k]);
    SameLast(prefix, code[..k]);
    RepairedSnoc(Last(prefix), code[..k], code[k]);
    var c := r + [code[k]] + y;
    assert c[|r|] == code[k] && c[..|r|] == r;
  }

  // With the first i blocks repaired: the others are as they were, what falls into them too, and the NOPs added are
  // as many as the hazards there were.
  ghost predicate Accounted(f: seq<Code>, g: seq<Code>, falls: seq<bool>, i: nat)
    requires i <= |f| == |falls|
  {
    && |g| == |f| && (forall j | i <= j < |f| :: g[j] == f[j])
    && (i < |f| ==> Last(Flow(g, falls, i)) == Last(Flow(f, falls, i)))
    && Length(g) == Length(f) + AllHazards(f, falls, i)
  }

  lemma AccountedNext(f: seq<Code>, g: seq<Code>, h: seq<Code>, falls: seq<bool>, i: nat)
    requires i < |f| == |falls| && Accounted(f, g, falls, i) && |h| == |g| && forall j | i < j < |f| :: h[j] == g[j]
    requires Length(h) == Length(g) + Hazards(Flow(g, falls, i), g[i])
    requires Last(Flow(h, falls, i) + h[i]) == Last(Flow(g, falls, i) + g[i])
    ensures Accounted(f, h, falls, i + 1)
  {
    SameHazards(Flow(g, falls, i), Flow(f, falls, i), f[i]);
    hide Hazards, Length, Last;
  }

  // ----- The pass -----

  // Block k ends what falls into block i: everything between is pseudo. -1: nothing falls in.
  ghost predicate FallsFrom(f: seq<Code>, falls: seq<bool>, i: nat, k: int)
    requires i < |f| == |falls|
  {
    && -1 <= k < i
    && (k >= 0 ==> HasReal(f[k]) && (forall j | k < j <= i :: falls[j]) && forall j | k < j < i :: !HasReal(f[j]))
    && (k < 0 ==> Last(Flow(f, falls, i)) == Nop)
  }

  lemma {:induction false} FlowFrom(f: seq<Code>, falls: seq<bool>, i: nat, k: nat)
    requires i < |f| == |falls| && FallsFrom(f, falls, i, k)
    ensures Last(Flow(f, falls, i)) == Last(f[k])
  {
    LastJoin(Flow(f, falls, i - 1), f[i - 1]);
    if k < i - 1 {
      FlowFrom(f, falls, i - 1, k);
    }
  }

  lemma {:induction false} FlowPrefix(f: seq<Code>, g: seq<Code>, falls: seq<bool>, i: nat)
    requires i < |f| == |g| == |falls| && forall j | 0 <= j < i :: g[j] == f[j]
    ensures Flow(g, falls, i) == Flow(f, falls, i)
  {
    if i > 0 && falls[i] { FlowPrefix(f, g, falls, i - 1); }
  }

  // A NOP at the end of block k keeps every block before i safe, and what then falls into i is that NOP.
  lemma NopKeepsSafe(f: seq<Code>, falls: seq<bool>, i: nat, k: nat)
    requires i < |f| == |falls| && FallsFrom(f, falls, i, k) && Safe(f, falls, i)
    ensures var g := f[k := f[k] + [Nop]]; Safe(g, falls, i) && Last(Flow(g, falls, i)) == Nop
  {
    var g := f[k := f[k] + [Nop]];
    assert Nop in g[k];
    assert FallsFrom(g, falls, i, k);
    FlowFrom(g, falls, i, k);
    forall j | 0 <= j < i ensures SafeAfter(Flow(g, falls, j), g[j]) {
      assert SafeAfter(Flow(f, falls, j), f[j]);
      if j <= k {
        FlowPrefix(f, g, falls, j);
        if j == k { SafeMore(Flow(f, falls, k), f[k], Nop); }
      } else {
        NoAccumulate(Flow(g, falls, j), g[j]);
      }
    }
  }

  lemma NoAccumulate(prefix: Code, code: Code)
    requires !HasReal(code)
    ensures SafeAfter(prefix, code)
  {
    forall k | 0 <= k < |code| ensures !code[k].Accumulate? { assert code[k] in code; }
  }

  class A53Fix835769 {
    const blocks: array<Code>
    const falls: seq<bool>

    constructor (b: array<Code>, f: seq<bool>)
      requires b.Length == |f|
      ensures blocks == b && falls == f
    {
      blocks, falls := b, f;
    }

    // getLastNonPseudo: the block it is found in, -1 for none.
    method GetLastNonPseudo(i: nat) returns (k: int)
      requires i < blocks.Length == |falls|
      ensures FallsFrom(blocks[..], falls, i, k)
    {
      ghost var f := blocks[..];
      var j := i;
      while j > 0 && falls[j]
        invariant 0 <= j <= i && (forall n | j < n <= i :: falls[n]) && forall n | j <= n < i :: !HasReal(f[n])
        invariant Last(Flow(f, falls, i)) == Last(Flow(f, falls, j))
      {
        LastJoin(Flow(f, falls, j - 1), f[j - 1]);
        if HasReal(blocks[j - 1]) { return j - 1; }
        j := j - 1;
      }
      return -1;
    }

    // The positions at which the pattern ends, in order.
    method FindSequences(prev0: Ins, code: Code) returns (seqs: seq<nat>)
      ensures forall k | 0 <= k < |code| :: k in seqs <==> BadAt(prev0, code, k)
      ensures forall a | 0 <= a < |seqs| :: seqs[a] < |code|
      ensures forall a, b | 0 <= a < b < |seqs| :: seqs[a] < seqs[b]
    {
      seqs := [];
      var prev := prev0;
      for k := 0 to |code|
        invariant prev == PrevAfter(prev0, code[..k])
        invariant forall j | 0 <= j < |code| :: j in seqs <==> j < k && BadAt(prev0, code, j)
        invariant forall a | 0 <= a < |seqs| :: seqs[a] < k
        invariant forall a, b | 0 <= a < b < |seqs| :: seqs[a] < seqs[b]
      {
        assert code[..k + 1][..k] == code[..k];
        if Bad(prev, code[k]) { seqs := seqs + [k]; }
        if !code[k].Pseudo? { prev := code[k]; }
      }
    }

    // The NOPs that go into the block itself. A sequence ending at its first instruction is the caller's.
    method InsertNops(ghost prev: Ins, code: Code, seqs: seq<nat>) returns (out: Code)
      requires forall k | 0 <= k < |code| :: k in seqs <==> BadAt(prev, code, k)
      requires forall a | 0 <= a < |seqs| :: seqs[a] < |code|
      requires forall a, b | 0 <= a < b < |seqs| :: seqs[a] < seqs[b]
      ensures out == Trimmed(prev, code, Repaired(prev, code))
    {
      hide Repaired, BadAt;
      out := code;
      var added := 0;
      ghost var q := 0;
      StartNops(prev, code);
      for a := 0 to |seqs|
        invariant q <= |code| && (if a == 0 then q == 0 else q == seqs[a - 1] + 1)
        invariant Progress(prev, code, q, out, added)
      {
        var p := seqs[a];
        QuietUpTo(prev, code, seqs, a, q);
        assert p in seqs;
        FirstIsLeast(seqs);
        assert a == 0 && p > 0 ==> 0 !in seqs;
        NextNop(prev, code, q, p, out, added);
        if p != 0 {
          out := out[..p + added] + [Nop] + out[p + added..];
          added := added + 1;
        }
        q := p + 1;
      }
      QuietUpTo(prev, code, seqs, |seqs|, q);
      if |seqs| == 0 && |code| > 0 { assert !BadAt(prev, code, 0); }
      NopsDone(prev, code, q, out, added);
    }

    // Repairs every block in order; only fall-through edges and instructions that emit code matter.
    method Run() returns (changed: bool)
      requires blocks.Length == |falls|
      modifies blocks
      ensures Safe(blocks[..], falls, blocks.Length)
      ensures forall i | 0 <= i < blocks.Length :: Erased(blocks[i]) == Erased(old(blocks[i]))
      ensures Length(blocks[..]) == Length(old(blocks[..])) + AllHazards(old(blocks[..]), falls, blocks.Length)
    {
      hide Erased, SafeAfter, Flow, Hazards, Length, Last;
      ghost var f := blocks[..];
      changed := false;
      for i := 0 to blocks.Length
        invariant Accounted(f, blocks[..], falls, i)
        invariant Safe(blocks[..], falls, i)
        invariant forall j | 0 <= j < blocks.Length :: Erased(blocks[j]) == Erased(old(blocks[j]))
      {
        ghost var g := blocks[..];
        var ch := RunOnBasicBlock(i);
        AccountedNext(f, g, blocks[..], falls, i);
        changed := changed || ch;
      }
    }

    method RunOnBasicBlock(i: nat) returns (changed: bool)
      requires i < blocks.Length == |falls| && Safe(blocks[..], falls, i)
      modifies blocks
      ensures Safe(blocks[..], falls, i + 1)
      ensures forall j | 0 <= j < blocks.Length :: Erased(blocks[j]) == Erased(old(blocks[j]))
      ensures forall j | i < j < blocks.Length :: blocks[j] == old(blocks[j])
      ensures Length(blocks[..]) == Length(old(blocks[..])) + Hazards(Flow(old(blocks[..]), falls, i), old(blocks[i]))
      ensures Last(Flow(blocks[..], falls, i) + blocks[i]) == Last(Flow(old(blocks[..]), falls, i) + old(blocks[i]))
    {
      hide Repaired, BadAt, Erased, SafeAfter, Flow, Last, HasReal, Hazards, Length, Trimmed;
      ghost var f := blocks[..];
      var k := GetLastNonPseudo(i);
      var prev := if k >= 0 then Last(blocks[k]) else Nop;
      PrevFound(f, falls, i, k);
      var code := blocks[i];
      var seqs := FindSequences(prev, code);
      var out := InsertNops(prev, code, seqs);
      TrimmedSafe(Flow(f, falls, i), code);
      changed := |seqs| > 0;
      if |code| > 0 { FrontIsBad(prev, code); }
      if |seqs| > 0 && 0 in seqs {
        assert k >= 0;
        LengthUpdated(f, k, f[k] + [Nop]);
        blocks[k] := blocks[k] + [Nop];
        NopKeepsSafe(f, falls, i, k);
        ErasedNop(f[k]);
        SafeDepends(Flow(f, falls, i) + [Nop], Flow(blocks[..], falls, i), out) by { LastNop(Flow(f, falls, i)); }
      }
      ghost var g := blocks[..];
      blocks[i] := out;
      LengthUpdated(g, i, out);
      FlowPrefix(g, blocks[..], falls, i);
      TrimmedOut(Flow(f, falls, i), Flow(blocks[..], falls, i), code);
      SafeNext(g, blocks[..], falls, i);
    }
  }

  // The state of the insertion loop: positions below q are done, `added` NOPs are in.
  ghost predicate Progress(prev: Ins, code: Code, q: nat, out: Code, added: nat) {
    && q <= |code| && out == Trimmed(prev, code, Repaired(prev, code[..q])) + code[q..]
    && q + added == |Trimmed(prev, code, Repaired(prev, code[..q]))|
    && (q == 0 || code == [] || !Bad(prev, code[0]) || Repaired(prev, code[..q]) != [])
  }

  lemma StartNops(prev: Ins, code: Code)
    ensures Progress(prev, code, 0, code, 0)
  {
    assert code[..0] == [] && [] + code[0..] == code;
  }

  lemma TrimJoin(prev: Ins, code: Code, s: Code, y: Code)
    requires code == [] || !Bad(prev, code[0]) || s != []
    ensures Trimmed(prev, code, s + y) == Trimmed(prev, code, s) + y
  {
  }

  lemma FrontIsBad(prev: Ins, code: Code)
    requires |code| > 0
    ensures BadAt(prev, code, 0) == Bad(prev, code[0])
  {
    assert code[..0] == [];
  }

  lemma NextNop(prev: Ins, code: Code, q: nat, p: nat, out: Code, added: nat)
    requires Progress(prev, code, q, out, added) && q <= p < |code| && BadAt(prev, code, p)
    requires forall k | q <= k < p :: !BadAt(prev, code, k)
    requires q == 0 && p > 0 ==> !BadAt(prev, code, 0)
    ensures p == 0 ==> Progress(prev, code, 1, out, added)
    ensures p > 0 ==> p + added <= |out| && Progress(prev, code, p + 1, out[..p + added] + [Nop] + out[p + added..], added + 1)
  {
    hide *;
    RepairedToBad(prev, code, q, p);
    FrontIsBad(prev, code);
    RepairedNone(prev, code);
    var r := Repaired(prev, code[..q]);
    if p == 0 {
      NextFront(prev, code, out, added);
    } else {
      ProgressFacts(prev, code, q, out, added);
      TrimJoin(prev, code, r, code[q..p]);
      TrimJoin(prev, code, r + code[q..p], [Nop] + [code[p]]);
      assert code[q..] == code[q..p] + [code[p]] + code[p + 1..];
      var t := Trimmed(prev, code, r) + code[q..p];
      Spliced(t, code[p], code[p + 1..], out, p + added);
      ProgressFrom(prev, code, p + 1, out[..p + added] + [Nop] + out[p + added..], added + 1);
    }
  }

  lemma RepairedToBad(prev: Ins, code: Code, q: nat, p: nat)
    requires q <= p < |code| && BadAt(prev, code, p) && forall k | q <= k < p :: !BadAt(prev, code, k)
    ensures Repaired(prev, code[..p + 1]) == Repaired(prev, code[..q]) + code[q..p] + ([Nop] + [code[p]])
  {
    RepairedQuiet(prev, code, q, p);
    RepairedSnoc(prev, code[..p], code[p]);
    hide Repaired;
    assert code[..p + 1] == code[..p] + [code[p]];
  }

  lemma NextFront(prev: Ins, code: Code, out: Code, added: nat)
    requires |code| > 0 && Progress(prev, code, 0, out, added) && BadAt(prev, code, 0)
    requires Repaired(prev, code[..1]) == Repaired(prev, code[..0]) + code[0..0] + ([Nop] + [code[0]])
    ensures Progress(prev, code, 1, out, added)
  {
    FrontIsBad(prev, code);
    RepairedNone(prev, code);
    hide Repaired, BadAt, Bad;
    assert code[0..] == code && code == [code[0]] + code[1..];
  }

  lemma ProgressFacts(prev: Ins, code: Code, q: nat, out: Code, added: nat)
    requires Progress(prev, code, q, out, added)
    ensures q <= |code| && out == Trimmed(prev, code, Repaired(prev, code[..q])) + code[q..]
    ensures q + added == |Trimmed(prev, code, Repaired(prev, code[..q]))|
    ensures q == 0 || code == [] || !Bad(prev, code[0]) || Repaired(prev, code[..q]) != []
  {
  }

  lemma ProgressFrom(prev: Ins, code: Code, q: nat, out: Code, added: nat)
    requires q <= |code| && out == Trimmed(prev, code, Repaired(prev, code[..q])) + code[q..]
    requires q + added == |Trimmed(prev, code, Repaired(prev, code[..q]))| && Repaired(prev, code[..q]) != []
    ensures Progress(prev, code, q, out, added)
  {
  }

  lemma Spliced(t: Code, i: Ins, rest: Code, out: Code, n: nat)
    requires out == t + [i] + rest && |t| == n
    ensures n <= |out| && out[..n] + [Nop] + out[n..] == t + ([Nop] + [i]) + rest
  {
    assert out[..n] == t && out[n..] == [i] + rest;
  }

  lemma RepairedNone(prev: Ins, code: Code)
    ensures code[..0] == [] && Repaired(prev, code[..0]) == []
  {
  }

  lemma NopsDone(prev: Ins, code: Code, q: nat, out: Code, added: nat)
    requires Progress(prev, code, q, out, added) && forall k | q <= k < |code| :: !BadAt(prev, code, k)
    requires q == 0 && |code| > 0 ==> !BadAt(prev, code, 0)
    ensures out == Trimmed(prev, code, Repaired(prev, code))
  {
    RepairedQuiet(prev, code, q, |code|);
    assert code[..|code|] == code && code[q..|code|] == code[q..];
    if |code| > 0 { FrontIsBad(prev, code); }
    hide Repaired, BadAt, Bad;
    if q == 0 { RepairedNone(prev, code); }
    TrimJoin(prev, code, Repaired(prev, code[..q]), code[q..]);
  }

  lemma FirstIsLeast(seqs: seq<nat>)
    requires |seqs| > 0 && forall a, b | 0 <= a < b < |seqs| :: seqs[a] < seqs[b]
    ensures forall x | x in seqs :: seqs[0] <= x
  {
  }

  lemma QuietUpTo(prev: Ins, code: Code, seqs: seq<nat>, a: nat, q: nat)
    requires a <= |seqs| && q <= |code| && (if a == 0 then q == 0 else q == seqs[a - 1] + 1)
    requires forall k | 0 <= k < |code| :: k in seqs <==> BadAt(prev, code, k)
    requires forall b | 0 <= b < |seqs| :: seqs[b] < |code|
    requires forall b, c | 0 <= b < c < |seqs| :: seqs[b] < seqs[c]
    ensures forall k | q <= k < (if a < |seqs| then seqs[a] else |code|) :: !BadAt(prev, code, k)
    ensures a < |seqs| ==> q <= seqs[a] && BadAt(prev, code, seqs[a])
  {
    hide BadAt;
    forall k | 0 <= k < |code| ensures k in seqs ==> k < q || (a < |seqs| && seqs[a] <= k) {
      Position(seqs, a, k);
    }
    if a < |seqs| { assert seqs[a] in seqs; }
  }

  // A listed position lies up to the last one done or from the next one on.
  lemma Position(seqs: seq<nat>, a: nat, k: nat)
    requires a <= |seqs| && forall b, c | 0 <= b < c < |seqs| :: seqs[b] < seqs[c]
    ensures k in seqs ==> (a > 0 && k <= seqs[a - 1]) || (a < |seqs| && seqs[a] <= k)
  {
  }

  lemma PrevFound(f: seq<Code>, falls: seq<bool>, i: nat, k: int)
    requires i < |f| == |falls| && FallsFrom(f, falls, i, k)
    ensures Last(Flow(f, falls, i)) == if k >= 0 then Last(f[k]) else Nop
  {
    if k >= 0 { FlowFrom(f, falls, i, k); }
  }

  lemma ErasedNop(code: Code)
    ensures Erased(code + [Nop]) == Erased(code)
  {
    ErasedJoin(code, [Nop]);
    assert [Nop][1..] == [];
  }

  lemma LastNop(x: Code)
    ensures Last(x + [Nop]) == Nop
  {
  }

  lemma SafeNext(g: seq<Code>, h: seq<Code>, falls: seq<bool>, i: nat)
    requires i < |g| == |h| == |falls| && Safe(g, falls, i) && (forall j | 0 <= j < i :: h[j] == g[j])
    requires SafeAfter(Flow(g, falls, i), h[i])
    ensures Safe(h, falls, i + 1)
  {
    hide SafeAfter, Flow;
    forall j | 0 <= j < i + 1 ensures SafeAfter(Flow(h, falls, j), h[j]) { FlowPrefix(g, h, falls, j); }
  }
}
