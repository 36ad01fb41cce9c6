/** Runs of the original graph through Head and the blocks merged into it, and what one merge keeps of them. */
module CompareRegion {
  import opened CompareBlocks
  import opened CompareMerge
  import opened Flags
  import opened Options

  // Stuck: a register or the flags are read before they have a value, which SSA form rules out.
  datatype Outcome = Stuck | Exit(to: Label, from: Label, st: State)

  ghost predicate Runs(sem: Sem, b: Block, s: State) {
    StrictRun(sem, b.body, s) && StrictTerm(b.term, Run(sem, b.body, s))
  }

  // From block l on, through blocks of `removed`, each entered without flags.
  ghost function RegionRun(sem: Sem, g: Graph, removed: set<Label>, l: Label, s: State): Outcome
    decreases |removed|
  {
    if l !in g || !Runs(sem, g[l], s) then Stuck
    else
      var t := Run(sem, g[l].body, s);
      var to := Goes(sem, g[l].term, t);
      if to in removed then RegionRun(sem, g, removed - {to}, to, t.(flags := None)) else Exit(to, l, t.(flags := None))
  }

  ghost predicate DefinedBy(g: Graph, ls: set<Label>, r: Reg) {
    exists l :: l in ls && l in g && r in BodyDefs(g[l].body)
  }

  // An exit knows only what was known at the start and what the region defined.
  lemma {:induction false} RegionKeeps(sem: Sem, g: Graph, removed: set<Label>, l: Label, s: State)
    requires RegionRun(sem, g, removed, l, s).Exit?
    ensures var x := RegionRun(sem, g, removed, l, s);
            x.st.flags.None? && forall r | r in x.st.regs :: r in s.regs || DefinedBy(g, removed + {l}, r)
    decreases |removed|
  {
    hide Run, Goes, BodyDefs, Runs;
    var t := Run(sem, g[l].body, s);
    var to := Goes(sem, g[l].term, t);
    RunKeeps(sem, g[l].body, s);
    var x := RegionRun(sem, g, removed, l, s);
    if to in removed {
      RegionKeeps(sem, g, removed - {to}, to, t.(flags := None));
      forall r | r in x.st.regs ensures r in s.regs || DefinedBy(g, removed + {l}, r) {
        if r !in t.regs { assert DefinedBy(g, removed - {to} + {to}, r); }
      }
    }
  }

  // Letting one more block count as removed: the run goes on from there, if it gets there.
  lemma {:induction false} RegionGrow(sem: Sem, g: Graph, removed: set<Label>, c: Label, l: Label, s: State) returns (rest: set<Label>)
    requires c !in removed
    ensures var x, y := RegionRun(sem, g, removed, l, s), RegionRun(sem, g, removed + {c}, l, s);
            && rest <= removed && (x.Stuck? ==> y.Stuck?) && (x.Exit? && x.to != c ==> y == x)
            && (x.Exit? && x.to == c ==> y == RegionRun(sem, g, rest, c, x.st))
    decreases |removed|
  {
    hide Run, Goes, Runs;
    rest := removed;
    if l in g && Runs(sem, g[l], s) {
      var t := Run(sem, g[l].body, s);
      var to := Goes(sem, g[l].term, t);
      if to in removed {
        rest := RegionGrow(sem, g, removed - {to}, c, to, t.(flags := None));
        assert removed + {c} - {to} == removed - {to} + {c};
      } else if to == c {
        assert removed + {c} - {c} == removed;
      }
    }
  }

  // What Head of the graph g does agrees with an exit of the original region.
  ghost predicate HeadAgrees(sem: Sem, head: Block, s: State, x: Outcome) {
    x.Exit? ==> var u := Run(sem, head.body, s); Goes(sem, head.term, u) == x.to && Below(x.st, u)
  }

  // Every run of the original that starts at Head without flags and with the region's own registers
  // still unset leaves the region where the merged Head goes, with everything it knows intact.
  ghost predicate Refines(g0: Graph, removed: set<Label>, h: Label, head: Block) {
    forall sem: Sem, s: State | s.flags.None? && (forall r | r in s.regs :: !DefinedBy(g0, removed, r)) ::
      HeadAgrees(sem, head, s, RegionRun(sem, g0, removed, h, s))
  }

  function MergedHead(head: Block, b: Block, i: nat, headCC: CondCode, tail: Label, other: Label): Block
    requires Mergeable(b, i)
  {
    head.(body := head.body + ZeroCompare(head.term) + MergedBody(b, i, headCC, tail), term := MergedTerm(b), succs := [tail, other])
  }

  ghost predicate HeadForks(head: Block, c: Label, tail: Label) {
    Convertible(head.term) && c != tail && (head.term.taken == c || head.term.other == c) && (head.term.taken == tail || head.term.other == tail)
  }

  // One merge, one run. `b` is block c, the same as in the original graph.
  lemma MergeStep(sem: Sem, head: Block, c: Label, b: Block, i: nat, tail: Label, other: Label, s: State, st: State)
    requires HeadForks(head, c, tail) && Mergeable(b, i) && (tail == b.term.taken || tail == b.term.other)
    requires st.flags.None? && Below(st, Run(sem, head.body, s))
    ensures var u := Run(sem, head.body, s);
            var n := MergedHead(head, b, i, CCTo(head.term, c), tail, other);
            var v := Run(sem, n.body, s);
            && (Goes(sem, head.term, u) == c && Runs(sem, b, st) ==>
                  Goes(sem, n.term, v) == Goes(sem, b.term, Run(sem, b.body, st)) && Below(Run(sem, b.body, st).(flags := None), v))
            && (Goes(sem, head.term, u) != c && (forall r | r in st.regs :: r !in BodyDefs(b.body)) ==>
                  Goes(sem, head.term, u) == tail && Goes(sem, n.term, v) == tail && Below(st, v))
  {
    var cc := CCTo(head.term, c);
    var u := Run(sem, head.body, s);
    var f := Run(sem, ZeroCompare(head.term), u);
    TermIsCondition(sem, head.term, u, c);
    RunJoin(sem, head.body, ZeroCompare(head.term), s);
    RunJoin(sem, head.body + ZeroCompare(head.term), MergedBody(b, i, cc, tail), s);
    hide Run, Mergeable, MergedBody, MergedTerm, StrictRun, StrictTerm, BodyDefs, ZeroCompare, CCTo, Holds, FlagsIn;
    if Goes(sem, head.term, u) == c {
      if Runs(sem, b, st) { TakenRunsBlock(sem, b, i, cc, tail, st, f); }
    } else {
      SkippedGoesToTail(sem, b, i, cc, tail, f);
    }
  }

  lemma MergeRefines(g0: Graph, removed: set<Label>, h: Label, head: Block, c: Label, b: Block, i: nat, tail: Label, other: Label)
    requires Refines(g0, removed, h, head) && HeadForks(head, c, tail) && Mergeable(b, i)
    requires (tail == b.term.taken || tail == b.term.other) && b.term.taken !in removed && b.term.other !in removed
    requires c in g0 && c !in removed && g0[c].body == b.body && g0[c].term == b.term
    requires forall r | r in BodyDefs(b.body) :: !DefinedBy(g0, removed + {h}, r)
    ensures Refines(g0, removed + {c}, h, MergedHead(head, b, i, CCTo(head.term, c), tail, other))
  {
    var n := MergedHead(head, b, i, CCTo(head.term, c), tail, other);
    forall sem: Sem, s: State | s.flags.None? && (forall r | r in s.regs :: !DefinedBy(g0, removed + {c}, r))
      ensures HeadAgrees(sem, n, s, RegionRun(sem, g0, removed + {c}, h, s))
    {
      MergeRefinesAt(sem, g0, removed, h, head, c, b, i, tail, other, s);
    }
  }

  lemma DefinedByMore(g: Graph, ls: set<Label>, c: Label, r: Reg)
    requires c in g
    ensures DefinedBy(g, ls, r) || r in BodyDefs(g[c].body) ==> DefinedBy(g, ls + {c}, r)
  {
  }

  lemma MergeRefinesAt(sem: Sem, g0: Graph, removed: set<Label>, h: Label, head: Block, c: Label, b: Block, i: nat, tail: Label, other: Label, s: State)
    requires Refines(g0, removed, h, head) && HeadForks(head, c, tail) && Mergeable(b, i)
    requires (tail == b.term.taken || tail == b.term.other) && b.term.taken !in removed && b.term.other !in removed
    requires c in g0 && c !in removed && g0[c].body == b.body && g0[c].term == b.term
    requires forall r | r in BodyDefs(b.body) :: !DefinedBy(g0, removed + {h}, r)
    requires s.flags.None? && (forall r | r in s.regs :: !DefinedBy(g0, removed + {c}, r))
    ensures HeadAgrees(sem, MergedHead(head, b, i, CCTo(head.term, c), tail, other), s, RegionRun(sem, g0, removed + {c}, h, s))
  {
    forall r | r in s.regs ensures !DefinedBy(g0, removed, r) && r !in BodyDefs(b.body) {
      DefinedByMore(g0, removed, c, r);
    }
    var x := RegionRun(sem, g0, removed, h, s);
    assert HeadAgrees(sem, head, s, x);
    var rest := RegionGrow(sem, g0, removed, c, h, s);
    if x.Exit? {
      RegionKeeps(sem, g0, removed, h, s);
      MergeStep(sem, head, c, b, i, tail, other, s, x.st);
      BranchesOnly(sem, b, x.st);
      hide Run, Goes, Mergeable, MergedHead, HeadForks, DefinedBy, BodyDefs, StrictRun, StrictTerm, Refines;
      if x.to != c {
        forall r | r in x.st.regs ensures r !in BodyDefs(b.body) {}
      }
    }
  }

  lemma BranchesOnly(sem: Sem, b: Block, st: State)
    requires Convertible(b.term)
    ensures var to := Goes(sem, b.term, Run(sem, b.body, st)); to == b.term.taken || to == b.term.other
  {
  }
}
