/** Merging a compare block into its head: why one conditional compare decides both branches. */
module CompareMerge {
  import opened Flags
  import opened Options
  import opened CompareBlocks

  // parseCond: the condition under which a conditional terminator takes its branch.
  predicate Convertible(t: Term) {
    ((t.Bcc? && IsReal(t.cc)) || t.Cb?) && t.taken != t.other
  }

  function BranchCC(t: Term): (cc: CondCode)
    requires Convertible(t)
    ensures IsReal(cc)
  {
    match t case Bcc(cc, _, _) => cc case Cb(nonzero, _, _, _, _) => if nonzero then NE else EQ
  }

  // The condition under which the terminator goes to `target`.
  function CCTo(t: Term, target: Label): (cc: CondCode)
    requires Convertible(t)
    ensures IsReal(cc)
  {
    if t.taken == target then BranchCC(t) else InvertFlips(BranchCC(t), NO_FLAGS); Invert(BranchCC(t))
  }

  // The explicit compare that takes the place of a cbz or cbnz in Head.
  function ZeroCompare(t: Term): seq<Ins> {
    if t.Cb? then [Compare(Sub(t.wide), t.reg, Imm(0, 0), true)] else []
  }

  lemma ZeroFlags(wide: bool, x: int)
    ensures Subs(Width(wide), x % Width(wide), 0 % Width(wide)).z <==> x % Width(wide) == 0
  {
    SubsMeaning(Width(wide), x % Width(wide), 0);
  }

  // With the flags of ZeroCompare, the condition code says where the terminator goes.
  lemma TermIsCondition(sem: Sem, t: Term, s: State, target: Label)
    requires Convertible(t) && (target == t.taken || target == t.other)
    ensures var f := Run(sem, ZeroCompare(t), s);
            && f.regs == s.regs && f.world == s.world && (t.Bcc? ==> f == s)
            && (Goes(sem, t, s) == target <==> Holds(CCTo(t, target), FlagsIn(f)))
  {
    var f := Run(sem, ZeroCompare(t), s);
    if t.Cb? {
      RunOne(sem, ZeroCompare(t)[0], s);
      ZeroFlags(t.wide, Value(s, t.reg));
    }
    if t.taken != target { InvertFlips(BranchCC(t), FlagsIn(f)); }
  }

  // ----- The compare block -----

  // ccmp takes an unshifted immediate of five bits.
  predicate FitsCCmp(o: Operand) {
    o.Imm? ==> o.shift == 0 && 0 <= o.value < 32
  }

  // Position i is the compare that controls the block's branch; past the body it is the cbz or cbnz itself.
  ghost predicate Mergeable(b: Block, i: nat) {
    && Convertible(b.term) && i <= |b.body|
    && (i == |b.body| <==> b.term.Cb?)
    && (i < |b.body| ==> b.body[i].Compare? && FitsCCmp(b.body[i].rhs))
    && (forall k | 0 <= k < |b.body| && k != i :: Speculatable(b.body[k]))
    && (forall k | i < k < |b.body| :: !b.body[k].readsFlags)
  }

  // The ccmp that replaces the compare: it compares when Head would have gone to the block, and otherwise
  // sets flags that make the block's branch go to Tail.
  function CondCompare(b: Block, i: nat, headCC: CondCode, tail: Label): Ins
    requires Mergeable(b, i)
  {
    var nzcv := NZCVToSatisfy(CCTo(b.term, tail));
    if i < |b.body| then CCmp(b.body[i].kind, b.body[i].rn, b.body[i].rhs, nzcv, headCC)
    else CCmp(Sub(b.term.wide), b.term.reg, Imm(0, 0), nzcv, headCC)
  }

  function MergedBody(b: Block, i: nat, headCC: CondCode, tail: Label): seq<Ins>
    requires Mergeable(b, i)
  {
    b.body[..i] + [CondCompare(b, i, headCC, tail)] + (if i < |b.body| then b.body[i + 1..] else [])
  }

  function MergedTerm(b: Block): Term
    requires Convertible(b.term)
  {
    if b.term.Cb? then Bcc(BranchCC(b.term), b.term.taken, b.term.other) else b.term
  }

  lemma MergedParts(sem: Sem, b: Block, i: nat, headCC: CondCode, tail: Label, s: State)
    requires Mergeable(b, i)
    ensures var rest := if i < |b.body| then b.body[i + 1..] else [];
            Run(sem, MergedBody(b, i, headCC, tail), s)
            == Run(sem, rest, Exec(sem, CondCompare(b, i, headCC, tail), Run(sem, b.body[..i], s)))
  {
    hide Exec, CondCompare;
    var rest := if i < |b.body| then b.body[i + 1..] else [];
    var c := CondCompare(b, i, headCC, tail);
    RunJoin(sem, b.body[..i] + [c], rest, s);
    RunJoin(sem, b.body[..i], [c], s);
    RunOne(sem, c, Run(sem, b.body[..i], s));
  }

  // Head would have gone to Tail: the speculated code changes nothing Tail can see, and the new branch goes to Tail.
  lemma SkippedGoesToTail(sem: Sem, b: Block, i: nat, headCC: CondCode, tail: Label, s: State)
    requires Mergeable(b, i) && (tail == b.term.taken || tail == b.term.other) && !Holds(headCC, FlagsIn(s))
    ensures var u := Run(sem, MergedBody(b, i, headCC, tail), s);
            && Goes(sem, MergedTerm(b), u) == tail && u.world == s.world
            && forall r | r in s.regs && r !in BodyDefs(b.body) :: r in u.regs && u.regs[r] == s.regs[r]
  {
    SkipParts(b, i, headCC, tail);
    var before, rest := b.body[..i], if i < |b.body| then b.body[i + 1..] else [];
    var c := CondCompare(b, i, headCC, tail);
    MergedParts(sem, b, i, headCC, tail, s);
    hide Exec, Run, Mergeable, MergedBody, CondCompare, Goes, Speculatable, BodyDefs, FlagsIn, CCTo, MergedTerm, Holds;
    var t := Run(sem, before, s);
    SpeculationIsPure(sem, before, s);
    SameFlagsIn(s, t);
    CCmpSkips(sem, c, t);
    var v := Exec(sem, c, t);
    var u := Run(sem, rest, v);
    SpeculationIsPure(sem, rest, v);
    ChosenGoes(sem, b, tail, u);
    RunKeeps(sem, before, s);
    RunKeeps(sem, rest, v);
    DefsOfParts(b.body, i);
  }

  lemma SameFlagsIn(s: State, t: State)
    requires s.flags == t.flags
    ensures FlagsIn(s) == FlagsIn(t)
  {
  }

  lemma SkipParts(b: Block, i: nat, headCC: CondCode, tail: Label)
    requires Mergeable(b, i)
    ensures Convertible(b.term) && i <= |b.body|
    ensures forall j | j in b.body[..i] :: Speculatable(j)
    ensures i < |b.body| ==> forall j | j in b.body[i + 1..] :: Speculatable(j)
    ensures var c := CondCompare(b, i, headCC, tail); c.CCmp? && c.cc == headCC && c.nzcv == NZCVToSatisfy(CCTo(b.term, tail))
  {
    hide Speculatable;
  }

  lemma CCmpSkips(sem: Sem, c: Ins, t: State)
    requires c.CCmp? && !Holds(c.cc, FlagsIn(t))
    ensures Exec(sem, c, t) == t.(flags := Some(c.nzcv))
  {
  }

  lemma DefsOfParts(body: seq<Ins>, i: nat)
    requires i <= |body|
    ensures BodyDefs(body[..i]) <= BodyDefs(body)
    ensures i < |body| ==> BodyDefs(body[i + 1..]) <= BodyDefs(body)
    ensures BodyDefs([]) == {}
  {
  }

  lemma ChosenGoes(sem: Sem, b: Block, tail: Label, u: State)
    requires Convertible(b.term) && (tail == b.term.taken || tail == b.term.other)
    requires u.flags == Some(NZCVToSatisfy(CCTo(b.term, tail)))
    ensures Goes(sem, MergedTerm(b), u) == tail
  {
    var cc := CCTo(b.term, tail);
    ChosenFlagsSatisfy(cc);
    if b.term.taken != tail { InvertFlips(BranchCC(b.term), NZCVToSatisfy(cc)); }
  }

  // Head would have gone to the block: the merged code computes what the block computed and goes where it went.
  lemma TakenRunsBlock(sem: Sem, b: Block, i: nat, headCC: CondCode, tail: Label, a: State, s: State)
    requires Mergeable(b, i) && (tail == b.term.taken || tail == b.term.other) && Holds(headCC, FlagsIn(s))
    requires a.flags.None? && Below(a, s) && StrictRun(sem, b.body, a) && StrictTerm(b.term, Run(sem, b.body, a))
    ensures var u := Run(sem, MergedBody(b, i, headCC, tail), s);
            && Goes(sem, MergedTerm(b), u) == Goes(sem, b.term, Run(sem, b.body, a))
            && Below(Run(sem, b.body, a).(flags := None), u)
  {
    MergedParts(sem, b, i, headCC, tail, s);
    if i < |b.body| {
      TakenCompare(sem, b, i, headCC, tail, a, s);
    } else {
      TakenZero(sem, b, i, headCC, tail, a, s);
    }
  }

  lemma StrictParts(sem: Sem, body: seq<Ins>, i: nat, a: State)
    requires StrictRun(sem, body, a) && i <= |body|
    ensures StrictRun(sem, body[..i], a)
    ensures i < |body| ==> Strict(body[i], Run(sem, body[..i], a))
    ensures i < |body| ==> StrictRun(sem, body[i + 1..], Exec(sem, body[i], Run(sem, body[..i], a)))
    ensures i < |body| ==> Run(sem, body, a) == Run(sem, body[i + 1..], Exec(sem, body[i], Run(sem, body[..i], a)))
  {
    hide Exec, Strict, Run;
    forall k | 0 <= k < i ensures Strict(body[..i][k], Run(sem, body[..i][..k], a)) { assert body[..i][..k] == body[..k]; }
    if i < |body| {
      var t := Exec(sem, body[i], Run(sem, body[..i], a));
      RunUpTo(sem, body, i, a);
      var rest := body[i + 1..];
      forall k | 0 <= k < |rest| ensures Strict(rest[k], Run(sem, rest[..k], t)) {
        assert body[..i + 1 + k] == body[..i + 1] + rest[..k];
        RunJoin(sem, body[..i + 1], rest[..k], a);
        assert Strict(body[i + 1 + k], Run(sem, body[..i + 1 + k], a));
      }
      assert body == body[..i + 1] + body[i + 1..];
      RunJoin(sem, body[..i + 1], body[i + 1..], a);
    }
  }

  lemma RunUpTo(sem: Sem, body: seq<Ins>, i: nat, a: State)
    requires i < |body|
    ensures Run(sem, body[..i + 1], a) == Exec(sem, body[i], Run(sem, body[..i], a))
  {
    hide Exec;
    assert body[..i + 1][..i] == body[..i];
  }

  lemma TakenCompare(sem: Sem, b: Block, i: nat, headCC: CondCode, tail: Label, a: State, s: State)
    requires Mergeable(b, i) && i < |b.body| && (tail == b.term.taken || tail == b.term.other) && Holds(headCC, FlagsIn(s))
    requires a.flags.None? && Below(a, s) && StrictRun(sem, b.body, a) && StrictTerm(b.term, Run(sem, b.body, a))
    ensures var u := Run(sem, b.body[i + 1..], Exec(sem, CondCompare(b, i, headCC, tail), Run(sem, b.body[..i], s)));
            && Goes(sem, MergedTerm(b), u) == Goes(sem, b.term, Run(sem, b.body, a))
            && Below(Run(sem, b.body, a).(flags := None), u)
  {
    var before, rest := b.body[..i], b.body[i + 1..];
    StrictParts(sem, b.body, i, a);
    RunMonotone(sem, before, a, s);
    SpeculationIsPure(sem, before, s);
    var ta, ts := Run(sem, before, a), Run(sem, before, s);
    var va, vs := Exec(sem, b.body[i], ta), Exec(sem, CondCompare(b, i, headCC, tail), ts);
    assert Below(va, vs);
    hide Exec, Run, Mergeable, Strict, StrictRun;
    RunMonotone(sem, rest, va, vs);
    GoesMonotone(sem, b.term, Run(sem, rest, va), Run(sem, rest, vs));
    assert b.term.Bcc? by { CompareMeansBcc(b, i); }
  }

  lemma CompareMeansBcc(b: Block, i: nat)
    requires Mergeable(b, i) && i < |b.body|
    ensures b.term.Bcc?
  {
  }

  lemma TakenZero(sem: Sem, b: Block, i: nat, headCC: CondCode, tail: Label, a: State, s: State)
    requires Mergeable(b, i) && i == |b.body| && (tail == b.term.taken || tail == b.term.other) && Holds(headCC, FlagsIn(s))
    requires a.flags.None? && Below(a, s) && StrictRun(sem, b.body, a) && StrictTerm(b.term, Run(sem, b.body, a))
    ensures var u := Run(sem, [], Exec(sem, CondCompare(b, i, headCC, tail), Run(sem, b.body[..i], s)));
            && Goes(sem, MergedTerm(b), u) == Goes(sem, b.term, Run(sem, b.body, a))
            && Below(Run(sem, b.body, a).(flags := None), u)
  {
    assert b.body[..i] == b.body;
    RunMonotone(sem, b.body, a, s);
    SpeculationIsPure(sem, b.body, s);
    var ta, ts := Run(sem, b.body, a), Run(sem, b.body, s);
    assert Run(sem, [], Exec(sem, CondCompare(b, i, headCC, tail), ts)) == Exec(sem, CondCompare(b, i, headCC, tail), ts);
    ZeroFlags(b.term.wide, Value(ts, b.term.reg));
    hide Run, Mergeable, Strict, StrictRun;
  }
}
