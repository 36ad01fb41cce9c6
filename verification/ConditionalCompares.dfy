/** SSACCmpConv of AArch64ConditionalCompares: finding a compare block that can be merged into Head, merging it
    in place, and repeating that until nothing is left. */
module ConditionalCompares {
  import opened CompareBlocks
  import opened CompareMerge
  import opened CompareRegion
  import opened Flags
  import opened Options

  // ----- PHIs -----

  // The register a PHI takes from predecessor p.
  function Incoming(args: seq<Arg>, p: Label): Option<Reg> {
    if args == [] then None else if args[0].from == p then Some(args[0].reg) else Incoming(args[1..], p)
  }

  // updateTailPHIs
  function Without(args: seq<Arg>, c: Label): (r: seq<Arg>) {
    if args == [] then [] else if args[0].from == c then Without(args[1..], c) else [args[0]] + Without(args[1..], c)
  }

  // transferSuccessorsAndUpdatePHIs
  function Renamed(args: seq<Arg>, c: Label, h: Label): seq<Arg> {
    seq(|args|, k requires 0 <= k < |args| => if args[k].from == c then args[k].(from := h) else args[k])
  }

  lemma {:induction false} WithoutKeeps(args: seq<Arg>, c: Label, p: Label)
    ensures p != c ==> Incoming(Without(args, c), p) == Incoming(args, p)
    ensures forall a | a in Without(args, c) :: a in args && a.from != c
  {
    if args != [] {
      WithoutKeeps(args[1..], c, p);
      if args[0].from != c {
        assert ([args[0]] + Without(args[1..], c))[1..] == Without(args[1..], c);
      }
    }
  }

  lemma {:induction false} RenamedKeeps(args: seq<Arg>, c: Label, h: Label, p: Label)
    requires forall a | a in args :: a.from != h
    ensures Incoming(Renamed(args, c, h), h) == Incoming(args, c)
    ensures p != c && p != h ==> Incoming(Renamed(args, c, h), p) == Incoming(args, p)
  {
    if args != [] {
      RenamedKeeps(args[1..], c, h, p);
      assert Renamed(args, c, h)[1..] == Renamed(args[1..], c, h);
    }
  }

  function MapPhis(phis: seq<Phi>, f: seq<Arg> -> seq<Arg>): (r: seq<Phi>)
    ensures |r| == |phis| && forall k | 0 <= k < |phis| :: r[k] == phis[k].(args := f(phis[k].args))
  {
    seq(|phis|, k requires 0 <= k < |phis| => phis[k].(args := f(phis[k].args)))
  }

  function DropPhis(phis: seq<Phi>, c: Label): (r: seq<Phi>)
    ensures |r| == |phis| && forall k | 0 <= k < |phis| :: r[k] == phis[k].(args := Without(phis[k].args, c))
  {
    MapPhis(phis, args => Without(args, c))
  }

  function RenamePhis(phis: seq<Phi>, c: Label, h: Label): (r: seq<Phi>)
    ensures |r| == |phis| && forall k | 0 <= k < |phis| :: r[k] == phis[k].(args := Renamed(phis[k].args, c, h))
  {
    MapPhis(phis, args => Renamed(args, c, h))
  }

  // ----- Candidates -----

  predicate SolePred(g: Graph, l: Label, p: Label) {
    forall q | q in g :: l in g[q].succs ==> q == p
  }

  predicate Topology(g: Graph, h: Label, c: Label, tail: Label) {
    && h in g && c in g && tail in g && c != tail && |g[h].succs| == 2 && |g[c].succs| == 2
    && c in g[h].succs && tail in g[h].succs && tail in g[c].succs && SolePred(g, c, h)
  }

  // trivialTailPHIs
  predicate TrivialPhis(phis: seq<Phi>, h: Label, c: Label) {
    forall k | 0 <= k < |phis| :: Incoming(phis[k].args, h) == Incoming(phis[k].args, c)
  }

  ghost predicate Candidate(g: Graph, h: Label, c: Label, tail: Label, i: nat) {
    && Topology(g, h, c, tail) && TrivialPhis(g[tail].phis, h, c) && |g[c].phis| == 0
    && !g[c].liveIns && !g[tail].liveIns && Convertible(g[h].term) && Mergeable(g[c], i)
  }

  function OtherSucc(b: Block, tail: Label): Label
    requires |b.succs| == 2
  {
    if b.succs[0] == tail then b.succs[1] else b.succs[0]
  }

  // The graph after convert().
  function Merged(g: Graph, h: Label, c: Label, tail: Label, i: nat): Graph
    requires Candidate(g, h, c, tail, i)
  {
    var other := OtherSucc(g[c], tail);
    var n := MergedHead(g[h], g[c], i, CCTo(g[h].term, c), tail, other);
    map l | l in g && l != c ::
      var b := if l == h then n else g[l];
      b.(phis := if l == tail then DropPhis(b.phis, c) else if l == other then RenamePhis(b.phis, c, h) else b.phis)
  }

  function UpdatedPhis(g: Graph, h: Label, c: Label, tail: Label, other: Label): Graph {
    map l | l in g :: g[l].(phis := if l == tail then DropPhis(g[l].phis, c) else if l == other then RenamePhis(g[l].phis, c, h) else g[l].phis)
  }

  lemma MergedInSteps(g: Graph, h: Label, c: Label, tail: Label, i: nat)
    requires Candidate(g, h, c, tail, i)
    ensures var other := OtherSucc(g[c], tail);
            var n, u := MergedHead(g[h], g[c], i, CCTo(g[h].term, c), tail, other), UpdatedPhis(g, h, c, tail, other);
            Merged(g, h, c, tail, i) == u[h := u[h].(body := n.body, term := n.term, succs := [tail, other])] - {c}
  {
    hide CCTo, MergedBody, MergedTerm, ZeroCompare, Without, Renamed, Mergeable, TrivialPhis, Convertible, SolePred;
  }

  lemma MergedAt(g: Graph, h: Label, c: Label, tail: Label, i: nat, l: Label)
    requires Candidate(g, h, c, tail, i) && l in g && l != c
    ensures var m, other := Merged(g, h, c, tail, i), OtherSucc(g[c], tail);
            && l in m && |m[l].phis| == |g[l].phis|
            && (l != h ==> m[l].body == g[l].body && m[l].term == g[l].term && m[l].succs == g[l].succs && m[l].liveIns == g[l].liveIns)
            && (l == h ==> var n := MergedHead(g[h], g[c], i, CCTo(g[h].term, c), tail, other);
                           m[l].body == n.body && m[l].term == n.term && m[l].succs == n.succs == [tail, other])
            && (forall k | 0 <= k < |g[l].phis| ::
                  m[l].phis[k] == g[l].phis[k].(args := if l == tail then Without(g[l].phis[k].args, c)
                                                        else if l == other then Renamed(g[l].phis[k].args, c, h) else g[l].phis[k].args))
  {
    hide CCTo, MergedBody, MergedTerm, ZeroCompare, Without, Renamed, Mergeable, Topology, TrivialPhis, Convertible;
  }

  // ----- What a well-formed graph is -----

  predicate WFTerm(b: Block) {
    (b.term.Bcc? || b.term.Cb?) && b.term.taken != b.term.other ==>
      && (b.term.Bcc? ==> IsReal(b.term.cc))
      && |b.succs| == 2 && b.term.taken in b.succs && b.term.other in b.succs
  }

  ghost predicate PhisFromPreds(g: Graph, l: Label)
    requires l in g
  {
    forall k, a | 0 <= k < |g[l].phis| && a in g[l].phis[k].args :: a.from in g && l in g[a.from].succs
  }

  ghost predicate WFAt(g: Graph, l: Label)
    requires l in g
  {
    && WFTerm(g[l]) && (forall x | x in g[l].succs :: x in g) && (|g[l].succs| == 2 ==> g[l].succs[0] != g[l].succs[1])
    && PhisFromPreds(g, l)
  }

  ghost predicate WF(g: Graph) {
    forall l | l in g :: WFAt(g, l)
  }

  // Every register is defined in one block.
  ghost predicate SSA(g: Graph) {
    forall l, m | l in g && m in g && l != m :: BodyDefs(g[l].body) !! BodyDefs(g[m].body)
  }

  // Head can be reached through `outside`, a set of blocks closed towards the entry that does not contain it.
  ghost predicate Outside(g: Graph, outside: set<Label>, h: Label) {
    && h !in outside && (forall l | l in outside :: l in g && Rooted(g, outside, l)) && Rooted(g, outside, h)
  }

  ghost predicate Rooted(g: Graph, outside: set<Label>, l: Label) {
    (exists q :: q in outside && q in g && l in g[q].succs) || (forall q | q in g :: l !in g[q].succs)
  }

  // ----- The invariant of the repetition -----

  ghost predicate Kept(g0: Graph, g: Graph, h: Label) {
    forall l | l in g && l != h ::
      l in g0 && g[l].body == g0[l].body && g[l].term == g0[l].term && g[l].succs == g0[l].succs && g[l].liveIns == g0[l].liveIns
  }

  function Now(removed: set<Label>, h: Label, p: Label): Label {
    if p in removed then h else p
  }

  // Every edge of the original graph into a block that is left brings the PHI the same register as before.
  ghost predicate PhisKept(g0: Graph, removed: set<Label>, g: Graph, h: Label) {
    && (forall l | l in g :: l in g0 && |g[l].phis| == |g0[l].phis| && forall k | 0 <= k < |g[l].phis| :: g[l].phis[k].def == g0[l].phis[k].def)
    && (forall l, p | l in g && p in g0 && l in g0[p].succs :: PhisAgree(g0[l].phis, p, g[l].phis, Now(removed, h, p)))
  }

  ghost predicate PhisAgree(x: seq<Phi>, p: Label, y: seq<Phi>, q: Label) {
    |x| == |y| && forall k | 0 <= k < |x| :: Incoming(x[k].args, p) == Incoming(y[k].args, q)
  }

  // What is left of the merged blocks' successors are successors of Head.
  ghost predicate Covered(g0: Graph, removed: set<Label>, g: Graph, h: Label)
    requires h in g
  {
    forall p, x | p in removed + {h} && p in g0 && x in g0[p].succs && x !in removed :: x in g[h].succs
  }

  ghost predicate Inv(g0: Graph, removed: set<Label>, g: Graph, h: Label, outside: set<Label>) {
    && h in g && h in g0 && WF(g) && SSA(g0) && Outside(g, outside, h)
    && removed !! g.Keys && removed + g.Keys == g0.Keys
    && Kept(g0, g, h) && PhisKept(g0, removed, g, h) && Covered(g0, removed, g, h)
    && Refines(g0, removed, h, g[h])
  }

  lemma InvAtStart(g: Graph, h: Label, outside: set<Label>)
    requires h in g && WF(g) && SSA(g) && Outside(g, outside, h)
    ensures Inv(g, {}, g, h, outside)
  {
    hide WF, SSA, Outside, Run, Goes, Runs;
    forall sem: Sem, s: State | s.flags.None? ensures HeadAgrees(sem, g[h], s, RegionRun(sem, g, {}, h, s)) {}
  }

  // ----- One merge keeps the invariant -----

  // Neither Head nor anything outside is the block being merged.
  lemma NotOutside(g: Graph, h: Label, c: Label, outside: set<Label>)
    requires h in g && c in g && c in g[h].succs && SolePred(g, c, h) && Outside(g, outside, h)
    ensures c != h && c !in outside
  {
    assert c == h || c in outside ==> Rooted(g, outside, c);
  }

  lemma Successors(g: Graph, h: Label, c: Label, tail: Label, i: nat, outside: set<Label>)
    requires Candidate(g, h, c, tail, i) && WF(g) && Outside(g, outside, h)
    ensures var other := OtherSucc(g[c], tail);
            && c != h && other != tail && other != c && other in g && other in g[c].succs && other !in g[h].succs
            && (forall x | x in g[c].succs :: x == tail || x == other) && (forall x | x in g[h].succs :: x == tail || x == c)
            && (g[c].term.taken == tail || g[c].term.taken == other) && (g[c].term.other == tail || g[c].term.other == other)
            && (tail == g[c].term.taken || tail == g[c].term.other) && HeadForks(g[h], c, tail)
  {
    hide Mergeable, PhisFromPreds, Outside, TrivialPhis, WFTerm, Convertible, SolePred;
    assert WFAt(g, c) && WFAt(g, h);
    NotOutside(g, h, c, outside);
    MergeableConverts(g[c], i);
    TwoSuccs(g[c], tail);
    TwoSuccs(g[h], tail);
    NotItsOwn(g, c, h);
    HeadShape(g[h], c, tail);
  }

  lemma NotItsOwn(g: Graph, c: Label, h: Label)
    requires c in g && SolePred(g, c, h) && c != h
    ensures c !in g[c].succs
  {
  }

  lemma HeadShape(head: Block, c: Label, tail: Label)
    requires Convertible(head.term) && WFTerm(head) && |head.succs| == 2 && head.succs[0] != head.succs[1]
    requires c in head.succs && tail in head.succs && c != tail
    ensures HeadForks(head, c, tail)
  {
  }

  lemma TwoSuccs(b: Block, tail: Label)
    requires |b.succs| == 2 && b.succs[0] != b.succs[1] && tail in b.succs && Convertible(b.term) && WFTerm(b)
    ensures var other := OtherSucc(b, tail);
            && other != tail && other in b.succs && (forall x | x in b.succs :: x == tail || x == other)
            && (b.term.taken == tail || b.term.taken == other) && (b.term.other == tail || b.term.other == other)
            && (tail == b.term.taken || tail == b.term.other)
  {
  }

  lemma MergeableConverts(b: Block, i: nat)
    requires Mergeable(b, i)
    ensures Convertible(b.term)
  {
  }

  lemma MergedKeys(g: Graph, h: Label, c: Label, tail: Label, i: nat)
    requires Candidate(g, h, c, tail, i)
    ensures Merged(g, h, c, tail, i).Keys == g.Keys - {c}
  {
    hide CCTo, MergedBody, MergedTerm, ZeroCompare, Without, Renamed, Mergeable, Topology, TrivialPhis, Convertible, MergedHead;
  }

  // Who leads to l after the merge.
  lemma MergedEdges(g: Graph, h: Label, c: Label, tail: Label, i: nat, outside: set<Label>, q: Label, l: Label)
    requires Candidate(g, h, c, tail, i) && WF(g) && Outside(g, outside, h) && q in g && q != c && l in g
    ensures var m, other := Merged(g, h, c, tail, i), OtherSucc(g[c], tail);
            q in m && (l in m[q].succs <==> if q == h then l == tail || l == other else l in g[q].succs)
  {
    hide Candidate, WF, Outside;
    MergedAt(g, h, c, tail, i, q);
  }

  lemma MergedRooted(g: Graph, h: Label, c: Label, tail: Label, i: nat, outside: set<Label>, l: Label)
    requires Candidate(g, h, c, tail, i) && WF(g) && Outside(g, outside, h) && l in g && Rooted(g, outside, l)
    ensures Rooted(Merged(g, h, c, tail, i), outside, l)
  {
    Successors(g, h, c, tail, i, outside);
    NotOutside(g, h, c, outside);
    MergedKeys(g, h, c, tail, i);
    var m := Merged(g, h, c, tail, i);
    assert c in g && h in g && tail in g[c].succs;
    hide Candidate, WF, Merged;
    if q :| q in outside && q in g && l in g[q].succs {
      MergedEdges(g, h, c, tail, i, outside, q, l);
    } else {
      forall q | q in m ensures l !in m[q].succs { MergedEdges(g, h, c, tail, i, outside, q, l); }
    }
  }

  lemma MergedOutside(g: Graph, h: Label, c: Label, tail: Label, i: nat, outside: set<Label>)
    requires Candidate(g, h, c, tail, i) && WF(g) && Outside(g, outside, h)
    ensures Outside(Merged(g, h, c, tail, i), outside, h)
  {
    NotOutside(g, h, c, outside);
    MergedKeys(g, h, c, tail, i);
    hide Candidate, WF, Merged, Rooted;
    forall l | l in outside || l == h ensures Rooted(Merged(g, h, c, tail, i), outside, l) {
      MergedRooted(g, h, c, tail, i, outside, l);
    }
  }

  lemma RenamedArgs(args: seq<Arg>, c: Label, h: Label, a: Arg)
    requires a in Renamed(args, c, h)
    ensures exists b :: b in args && (if b.from == c then a == b.(from := h) else a == b)
  {
    var k :| 0 <= k < |args| && Renamed(args, c, h)[k] == a;
    assert args[k] in args;
  }

  // Where an argument of a PHI comes from after the merge.
  lemma MergedArg(g: Graph, h: Label, c: Label, tail: Label, i: nat, outside: set<Label>, l: Label, k: nat, a: Arg)
    requires Candidate(g, h, c, tail, i) && WF(g) && Outside(g, outside, h) && l in g && l != c && k < |g[l].phis|
    requires l in Merged(g, h, c, tail, i) && k < |Merged(g, h, c, tail, i)[l].phis| && a in Merged(g, h, c, tail, i)[l].phis[k].args
    ensures var m := Merged(g, h, c, tail, i); a.from in m && l in m[a.from].succs
  {
    Successors(g, h, c, tail, i, outside);
    MergedAt(g, h, c, tail, i, l);
    MergedKeys(g, h, c, tail, i);
    assert WFAt(g, l) && h in g && c in g;
    var other := OtherSucc(g[c], tail);
    var args := g[l].phis[k].args;
    WithoutKeeps(args, c, 0);
    if l == other && l != tail { RenamedArgs(args, c, h, a); }
    hide Candidate, WF, Outside, Merged, Without, Renamed, WFTerm, HeadForks, MergedHead, OtherSucc;
    MergedEdges(g, h, c, tail, i, outside, h, l);
    if a.from != h {
      assert a in args && a.from in g && l in g[a.from].succs;
      MergedEdges(g, h, c, tail, i, outside, a.from, l);
    }
  }

  lemma MergedWFAt(g: Graph, h: Label, c: Label, tail: Label, i: nat, outside: set<Label>, l: Label)
    requires Candidate(g, h, c, tail, i) && WF(g) && Outside(g, outside, h) && l in g && l != c
    ensures l in Merged(g, h, c, tail, i) && WFAt(Merged(g, h, c, tail, i), l)
  {
    hide *;
    CandidateFacts(g, h, c, tail, i);
    Successors(g, h, c, tail, i, outside);
    MergedAt(g, h, c, tail, i, l);
    MergedKeys(g, h, c, tail, i);
    WFFacts(g, l);
    WFFacts(g, c);
    TailOf(g, h, c, tail, i);
    var m := Merged(g, h, c, tail, i);
    MergedTermWF(g[h], g[c], i, CCTo(g[h].term, c), tail);
    if l != h { SameTerm(g[l], m[l]); } else { SameTerm(MergedHead(g[h], g[c], i, CCTo(g[h].term, c), tail, OtherSucc(g[c], tail)), m[l]); }
    forall x | x in m[l].succs ensures x in m && x in g && x != c {
      if l != h && x == c { NotSole(g, h, c, l); }
    }
    forall k, a | 0 <= k < |m[l].phis| && a in m[l].phis[k].args ensures a.from in m && l in m[a.from].succs {
      MergedArg(g, h, c, tail, i, outside, l, k, a);
    }
    WFFrom(m, l);
  }

  lemma TailOf(g: Graph, h: Label, c: Label, tail: Label, i: nat)
    requires Candidate(g, h, c, tail, i)
    ensures h in g && c in g && tail in g[c].succs
  {
  }

  lemma NotSole(g: Graph, h: Label, c: Label, l: Label)
    requires l in g && SolePred(g, c, h) && c in g[l].succs
    ensures l == h
  {
  }

  lemma SameTerm(x: Block, y: Block)
    requires WFTerm(x) && x.term == y.term && x.succs == y.succs
    ensures WFTerm(y)
  {
  }

  lemma WFFacts(g: Graph, l: Label)
    requires WF(g) && l in g
    ensures WFTerm(g[l]) && (forall x | x in g[l].succs :: x in g) && (|g[l].succs| == 2 ==> g[l].succs[0] != g[l].succs[1])
  {
    assert WFAt(g, l);
  }

  lemma WFFrom(g: Graph, l: Label)
    requires l in g && WFTerm(g[l]) && (forall x | x in g[l].succs :: x in g) && (|g[l].succs| == 2 ==> g[l].succs[0] != g[l].succs[1])
    requires forall k, a | 0 <= k < |g[l].phis| && a in g[l].phis[k].args :: a.from in g && l in g[a.from].succs
    ensures WFAt(g, l)
  {
  }

  lemma MergedTermWF(head: Block, b: Block, i: nat, headCC: CondCode, tail: Label)
    requires Mergeable(b, i) && WFTerm(b) && |b.succs| == 2 && b.succs[0] != b.succs[1] && tail in b.succs
    ensures WFTerm(MergedHead(head, b, i, headCC, tail, OtherSucc(b, tail)))
  {
    MergeableConverts(b, i);
    TwoSuccs(b, tail);
  }

  lemma MergedWF(g: Graph, h: Label, c: Label, tail: Label, i: nat, outside: set<Label>)
    requires Candidate(g, h, c, tail, i) && WF(g) && Outside(g, outside, h)
    ensures WF(Merged(g, h, c, tail, i))
  {
    MergedKeys(g, h, c, tail, i);
    hide Candidate, WFAt, Outside, Merged;
    forall l | l in Merged(g, h, c, tail, i) ensures WFAt(Merged(g, h, c, tail, i), l) {
      MergedWFAt(g, h, c, tail, i, outside, l);
    }
  }

  lemma MergedKept(g0: Graph, g: Graph, h: Label, c: Label, tail: Label, i: nat)
    requires Candidate(g, h, c, tail, i) && Kept(g0, g, h)
    ensures Kept(g0, Merged(g, h, c, tail, i), h)
  {
    MergedKeys(g, h, c, tail, i);
    hide Candidate;
    var m := Merged(g, h, c, tail, i);
    forall l | l in m && l != h
      ensures l in g0 && m[l].body == g0[l].body && m[l].term == g0[l].term && m[l].succs == g0[l].succs && m[l].liveIns == g0[l].liveIns
    {
      MergedAt(g, h, c, tail, i, l);
    }
  }

  lemma MergedCovered(g0: Graph, removed: set<Label>, g: Graph, h: Label, c: Label, tail: Label, i: nat, outside: set<Label>)
    requires Candidate(g, h, c, tail, i) && Inv(g0, removed, g, h, outside)
    ensures h in Merged(g, h, c, tail, i) && Covered(g0, removed + {c}, Merged(g, h, c, tail, i), h)
  {
    hide *;
    CandidateFacts(g, h, c, tail, i);
    InvFacts(g0, removed, g, h, outside);
    Successors(g, h, c, tail, i, outside);
    MergedAt(g, h, c, tail, i, h);
    KeptAt(g0, g, h, c);
    var m := Merged(g, h, c, tail, i);
    forall p, x | p in removed + {c} + {h} && p in g0 && x in g0[p].succs && x !in removed + {c} ensures x in m[h].succs {
      if p != c { CoveredAt(g0, removed, g, h, p, x); }
    }
    CoveredBy(g0, removed + {c}, m, h);
  }

  lemma KeptAt(g0: Graph, g: Graph, h: Label, l: Label)
    requires Kept(g0, g, h) && l in g && l != h
    ensures l in g0 && g[l].body == g0[l].body && g[l].term == g0[l].term && g[l].succs == g0[l].succs
  {
  }

  lemma CoveredAt(g0: Graph, removed: set<Label>, g: Graph, h: Label, p: Label, x: Label)
    requires h in g && Covered(g0, removed, g, h) && p in removed + {h} && p in g0 && x in g0[p].succs && x !in removed
    ensures x in g[h].succs
  {
  }

  lemma CoveredBy(g0: Graph, removed: set<Label>, g: Graph, h: Label)
    requires h in g && forall p, x | p in removed + {h} && p in g0 && x in g0[p].succs && x !in removed :: x in g[h].succs
    ensures Covered(g0, removed, g, h)
  {
  }

  // An edge into l brings each PHI what it brought before the merge.
  lemma MergedPhi(g0: Graph, removed: set<Label>, g: Graph, h: Label, c: Label, tail: Label, i: nat, outside: set<Label>, l: Label, p: Label, k: nat)
    requires Candidate(g, h, c, tail, i) && Inv(g0, removed, g, h, outside)
    requires l in g && l != c && p in g0 && l in g0[p].succs && k < |g[l].phis|
    ensures l in Merged(g, h, c, tail, i) && k < |Merged(g, h, c, tail, i)[l].phis| && l in g0 && k < |g0[l].phis|
    ensures Incoming(g0[l].phis[k].args, p) == Incoming(Merged(g, h, c, tail, i)[l].phis[k].args, Now(removed + {c}, h, p))
  {
    hide *;
    CandidateFacts(g, h, c, tail, i);
    InvFacts(g0, removed, g, h, outside);
    Successors(g, h, c, tail, i, outside);
    MergedAt(g, h, c, tail, i, l);
    EdgeNow(g0, removed, g, h, outside, l, p, k);
    NowAfter(removed, h, c, p);
    var args, q := g[l].phis[k].args, Now(removed, h, p);
    if l == tail {
      TrivialAt(g[tail].phis, h, c, k);
      WithoutKeeps(args, c, q);
      WithoutKeeps(args, c, h);
    } else if l == OtherSucc(g[c], tail) {
      NotFromHead(g, h, l, k);
      RenamedKeeps(args, c, h, q);
    }
  }

  lemma CandidateFacts(g: Graph, h: Label, c: Label, tail: Label, i: nat)
    requires Candidate(g, h, c, tail, i)
    ensures h in g && c in g && tail in g && c != tail && |g[c].succs| == 2 && |g[h].succs| == 2 && TrivialPhis(g[tail].phis, h, c)
    ensures Convertible(g[h].term) && Mergeable(g[c], i) && SolePred(g, c, h)
  {
  }

  lemma InvFacts(g0: Graph, removed: set<Label>, g: Graph, h: Label, outside: set<Label>)
    requires Inv(g0, removed, g, h, outside)
    ensures h in g && h in g0 && WF(g) && SSA(g0) && Outside(g, outside, h) && removed !! g.Keys && removed + g.Keys == g0.Keys
    ensures Kept(g0, g, h) && PhisKept(g0, removed, g, h) && Covered(g0, removed, g, h) && Refines(g0, removed, h, g[h])
  {
  }

  lemma TrivialAt(phis: seq<Phi>, h: Label, c: Label, k: nat)
    requires TrivialPhis(phis, h, c) && k < |phis|
    ensures Incoming(phis[k].args, h) == Incoming(phis[k].args, c)
  {
  }

  lemma NowAfter(removed: set<Label>, h: Label, c: Label, p: Label)
    ensures Now(removed + {c}, h, p) == if p == c then h else Now(removed, h, p)
    ensures p !in removed ==> Now(removed, h, p) == p
    ensures Now(removed, h, p) == p || Now(removed, h, p) == h
  {
  }

  // The edge as it is now, and what it brings.
  lemma EdgeNow(g0: Graph, removed: set<Label>, g: Graph, h: Label, outside: set<Label>, l: Label, p: Label, k: nat)
    requires Inv(g0, removed, g, h, outside) && l in g && p in g0 && l in g0[p].succs && k < |g[l].phis|
    ensures var q := Now(removed, h, p);
            && q in g && l in g[q].succs && l in g0 && k < |g0[l].phis|
            && Incoming(g0[l].phis[k].args, p) == Incoming(g[l].phis[k].args, q)
  {
    hide WF, SSA, Outside, Refines, Incoming;
    assert PhisAgree(g0[l].phis, p, g[l].phis, Now(removed, h, p));
    if p in removed + {h} { assert l in g[h].succs; }
  }

  lemma NotFromHead(g: Graph, h: Label, l: Label, k: nat)
    requires WF(g) && h in g && l in g && l !in g[h].succs && k < |g[l].phis|
    ensures forall a | a in g[l].phis[k].args :: a.from != h
  {
    assert WFAt(g, l);
  }

  lemma MergedPhisKept(g0: Graph, removed: set<Label>, g: Graph, h: Label, c: Label, tail: Label, i: nat, outside: set<Label>)
    requires Candidate(g, h, c, tail, i) && Inv(g0, removed, g, h, outside)
    ensures PhisKept(g0, removed + {c}, Merged(g, h, c, tail, i), h)
  {
    hide Candidate, Inv, Merged, Incoming, Now;
    InvFacts(g0, removed, g, h, outside);
    MergedKeys(g, h, c, tail, i);
    var m := Merged(g, h, c, tail, i);
    forall l | l in m ensures l in g0 && |m[l].phis| == |g0[l].phis| && forall k | 0 <= k < |m[l].phis| :: m[l].phis[k].def == g0[l].phis[k].def {
      MergedAt(g, h, c, tail, i, l);
    }
    forall l, p | l in m && p in g0 && l in g0[p].succs ensures PhisAgree(g0[l].phis, p, m[l].phis, Now(removed + {c}, h, p)) {
      forall k | 0 <= k < |g0[l].phis| ensures Incoming(g0[l].phis[k].args, p) == Incoming(m[l].phis[k].args, Now(removed + {c}, h, p)) {
        MergedPhi(g0, removed, g, h, c, tail, i, outside, l, p, k);
      }
    }
  }

  lemma MergedRefines(g0: Graph, removed: set<Label>, g: Graph, h: Label, c: Label, tail: Label, i: nat, outside: set<Label>)
    requires Candidate(g, h, c, tail, i) && Inv(g0, removed, g, h, outside)
    ensures h in Merged(g, h, c, tail, i) && Refines(g0, removed + {c}, h, Merged(g, h, c, tail, i)[h])
  {
    hide *;
    CandidateFacts(g, h, c, tail, i);
    InvFacts(g0, removed, g, h, outside);
    Successors(g, h, c, tail, i, outside);
    MergedAt(g, h, c, tail, i, h);
    KeptAt(g0, g, h, c);
    var other := OtherSucc(g[c], tail);
    forall r | r in BodyDefs(g[c].body) ensures !DefinedBy(g0, removed + {h}, r) { OneDefinition(g0, removed + {h}, c, r); }
    MergeRefines(g0, removed, h, g[h], c, g[c], i, tail, other);
    SameCode(g0, removed + {c}, h, MergedHead(g[h], g[c], i, CCTo(g[h].term, c), tail, other), Merged(g, h, c, tail, i)[h]);
  }

  lemma SameCode(g0: Graph, removed: set<Label>, h: Label, x: Block, y: Block)
    requires Refines(g0, removed, h, x) && x.body == y.body && x.term == y.term
    ensures Refines(g0, removed, h, y)
  {
    hide RegionRun, Run, Goes, Below, DefinedBy;
    forall sem: Sem, s: State | s.flags.None? && (forall r | r in s.regs :: !DefinedBy(g0, removed, r))
      ensures HeadAgrees(sem, y, s, RegionRun(sem, g0, removed, h, s))
    {
      assert HeadAgrees(sem, x, s, RegionRun(sem, g0, removed, h, s));
    }
  }

  lemma OneDefinition(g: Graph, ls: set<Label>, c: Label, r: Reg)
    requires SSA(g) && c in g && c !in ls && r in BodyDefs(g[c].body)
    ensures !DefinedBy(g, ls, r)
  {
    hide BodyDefs;
  }

  lemma MergeKeepsInv(g0: Graph, removed: set<Label>, g: Graph, h: Label, c: Label, tail: Label, i: nat, outside: set<Label>)
    requires Candidate(g, h, c, tail, i) && Inv(g0, removed, g, h, outside)
    ensures c in g && Inv(g0, removed + {c}, Merged(g, h, c, tail, i), h, outside)
  {
    hide *;
    CandidateFacts(g, h, c, tail, i);
    InvFacts(g0, removed, g, h, outside);
    MergedKeys(g, h, c, tail, i);
    TopologyEdge(g, h, c, tail, i);
    NotOutside(g, h, c, outside);
    MergedWF(g, h, c, tail, i, outside);
    MergedOutside(g, h, c, tail, i, outside);
    MergedKept(g0, g, h, c, tail, i);
    MergedPhisKept(g0, removed, g, h, c, tail, i, outside);
    MergedCovered(g0, removed, g, h, c, tail, i, outside);
    MergedRefines(g0, removed, g, h, c, tail, i, outside);
    var m := Merged(g, h, c, tail, i);
    assert removed + {c} + m.Keys == g0.Keys;
    InvFrom(g0, removed + {c}, m, h, outside);
  }

  lemma InvFrom(g0: Graph, removed: set<Label>, g: Graph, h: Label, outside: set<Label>)
    requires h in g && h in g0 && WF(g) && SSA(g0) && Outside(g, outside, h) && removed !! g.Keys && removed + g.Keys == g0.Keys
    requires Kept(g0, g, h) && PhisKept(g0, removed, g, h) && Covered(g0, removed, g, h) && Refines(g0, removed, h, g[h])
    ensures Inv(g0, removed, g, h, outside)
  {
  }

  lemma TopologyEdge(g: Graph, h: Label, c: Label, tail: Label, i: nat)
    requires Candidate(g, h, c, tail, i)
    ensures h in g && c in g && c in g[h].succs
  {
  }

  // ----- What the invariant means -----

  lemma {:induction false} ExitEdge(sem: Sem, g: Graph, removed: set<Label>, l: Label, s: State)
    requires RegionRun(sem, g, removed, l, s).Exit?
    ensures var x := RegionRun(sem, g, removed, l, s);
            x.from in removed + {l} && x.from in g && exists t :: x.to == Goes(sem, g[x.from].term, t)
    decreases |removed|
  {
    hide Run, Goes, Runs;
    var t := Run(sem, g[l].body, s);
    var to := Goes(sem, g[l].term, t);
    if to in removed { ExitEdge(sem, g, removed - {to}, to, t.(flags := None)); }
  }

  // The value a PHI of block `to` receives from predecessor p.
  function PhiValue(g: Graph, to: Label, k: nat, p: Label, s: State): Option<int>
    requires to in g && k < |g[to].phis|
  {
    match Incoming(g[to].phis[k].args, p)
    case None => None
    case Some(r) => if r in s.regs then Some(s.regs[r]) else None
  }

  // However often Head was merged: from every initial state it goes where the original went, with every
  // register the original had, and each PHI there receives the same value.
  lemma MergesPreserve(g0: Graph, removed: set<Label>, g: Graph, h: Label, outside: set<Label>, sem: Sem, s: State)
    requires Inv(g0, removed, g, h, outside) && s.flags.None? && (forall r | r in s.regs :: !DefinedBy(g0, removed, r))
    requires RegionRun(sem, g0, removed, h, s).Exit?
    ensures var x, u := RegionRun(sem, g0, removed, h, s), Run(sem, g[h].body, s);
            && h in g && Goes(sem, g[h].term, u) == x.to && Below(x.st, u)
            && (x.to in g && x.from in g0 && x.to in g0[x.from].succs ==>
                  x.to in g0 && |g[x.to].phis| == |g0[x.to].phis| && forall k | 0 <= k < |g0[x.to].phis| ::
                    PhiValue(g0, x.to, k, x.from, x.st).Some? ==> PhiValue(g, x.to, k, h, u) == PhiValue(g0, x.to, k, x.from, x.st))
  {
    InvFacts(g0, removed, g, h, outside);
    var x, u := RegionRun(sem, g0, removed, h, s), Run(sem, g[h].body, s);
    assert HeadAgrees(sem, g[h], s, x);
    ExitEdge(sem, g0, removed, h, s);
    hide RegionRun, Run, Goes, Inv, WF, SSA, Outside, Refines, Incoming;
    if x.to in g && x.from in g0 && x.to in g0[x.from].succs {
      assert Now(removed, h, x.from) == h;
      assert PhisAgree(g0[x.to].phis, x.from, g[x.to].phis, h);
    }
  }

  lemma SuccsIn(g: Graph, l: Label)
    requires l in g && WF(g)
    ensures (forall x | x in g[l].succs :: x in g) && (|g[l].succs| == 2 ==> g[l].succs[0] != g[l].succs[1])
  {
    hide PhisFromPreds;
    assert WFAt(g, l);
  }

  lemma IsMergeable(b: Block, r: nat)
    requires Convertible(b.term) && r <= |b.body| && (r == |b.body| <==> b.term.Cb?)
    requires r < |b.body| ==> b.body[r].Compare? && FitsCCmp(b.body[r].rhs)
    requires forall k | r < k < |b.body| :: b.body[k].Op? && !b.body[k].readsFlags && !b.body[k].setsFlags
    requires forall k | 0 <= k < |b.body| && k != r :: Speculatable(b.body[k])
    ensures Mergeable(b, r)
  {
    hide Speculatable, Convertible, FitsCCmp;
  }

  // ----- What is accepted -----

  // The terminator is a cbz or cbnz, or the instruction at r is the compare that controls it, fits a ccmp and
  // has no other effect, with nothing after it that touches the flags.
  ghost predicate Controlling(b: Block, r: int) {
    if b.term.Cb? then r == |b.body|
    else
      && 0 <= r < |b.body| && b.body[r].Compare? && FitsCCmp(b.body[r].rhs) && (b.body[r].kind.Fp? || b.body[r].dead)
      && forall k | r < k < |b.body| :: b.body[k].Op? && !b.body[k].readsFlags && !b.body[k].setsFlags
  }

  lemma OneControlling(b: Block, r: int, q: int)
    requires Controlling(b, r) && Controlling(b, q)
    ensures r == q
  {
    hide FitsCCmp;
  }

  // The last instruction that touches the flags decides.
  lemma OnlyControlling(b: Block, r: nat)
    requires !b.term.Cb? && r < |b.body| && forall k | r < k < |b.body| :: b.body[k].Op?
    requires b.body[r].Op? ==> b.body[r].readsFlags || b.body[r].setsFlags
    ensures forall q | Controlling(b, q) :: q == r
  {
    hide FitsCCmp;
  }

  lemma ControllingMeans(b: Block, r: nat)
    requires Convertible(b.term) && Controlling(b, r)
    ensures r <= |b.body| && (r == |b.body| <==> b.term.Cb?)
    ensures r < |b.body| ==> b.body[r].Compare? && FitsCCmp(b.body[r].rhs)
    ensures forall k | r < k < |b.body| :: b.body[k].Op? && !b.body[k].readsFlags && !b.body[k].setsFlags
  {
    hide FitsCCmp, Convertible;
  }

  ghost predicate CanSpeculate(b: Block, cmp: int, limit: nat, stress: bool) {
    && !b.liveIns && (|b.body| <= limit || stress)
    && forall k | 0 <= k < |b.body| && k != cmp :: Speculatable(b.body[k])
  }

  lemma SpeculateMeans(b: Block, cmp: int, limit: nat, stress: bool)
    requires CanSpeculate(b, cmp, limit, stress)
    ensures forall k | 0 <= k < |b.body| && k != cmp :: Speculatable(b.body[k])
  {
    hide Speculatable;
  }

  // A candidate within the limits canConvert sets.
  ghost predicate Accepted(g: Graph, h: Label, c: Label, tail: Label, i: nat, limit: nat, stress: bool) {
    Candidate(g, h, c, tail, i) && Controlling(g[c], i) && CanSpeculate(g[c], i, limit, stress)
  }

  // One accepted triangle has been merged.
  ghost predicate MergedOnce(g: Graph, m: Graph, h: Label, limit: nat, stress: bool) {
    exists c, tail, i: nat :: Accepted(g, h, c, tail, i, limit, stress) && m == Merged(g, h, c, tail, i)
  }

  // No successor of h can be merged.
  ghost predicate NoneAccepted(g: Graph, h: Label, limit: nat, stress: bool) {
    forall c, t, i: nat | c != h :: !Accepted(g, h, c, t, i, limit, stress)
  }

  lemma NoneMeans(g: Graph, h: Label, limit: nat, stress: bool)
    ensures NoneAccepted(g, h, limit, stress) <==> forall c, t, i: nat | c != h :: !Accepted(g, h, c, t, i, limit, stress)
  {
    hide Accepted;
  }

  // Each graph but the last was worth merging, and the next is it with one triangle merged.
  ghost predicate MergedInTurn(graphs: seq<Graph>, worthwhile: Graph -> bool, h: Label, limit: nat, stress: bool) {
    forall k | 0 <= k < |graphs| - 1 :: worthwhile(graphs[k]) && MergedOnce(graphs[k], graphs[k + 1], h, limit, stress)
  }

  lemma NoTurns(g: Graph, worthwhile: Graph -> bool, h: Label, limit: nat, stress: bool)
    ensures MergedInTurn([g], worthwhile, h, limit, stress)
  {
  }

  lemma OnceMerged(graphs: seq<Graph>, g: Graph, m: Graph, worthwhile: Graph -> bool, h: Label, c: Label, tail: Label, i: nat, limit: nat, stress: bool)
    requires MergedInTurn(graphs, worthwhile, h, limit, stress) && |graphs| > 0 && graphs[|graphs| - 1] == g && worthwhile(g)
    requires Accepted(g, h, c, tail, i, limit, stress) && Candidate(g, h, c, tail, i) && m == Merged(g, h, c, tail, i)
    ensures MergedInTurn(graphs + [m], worthwhile, h, limit, stress)
  {
    hide Candidate, Merged, Accepted;
    assert MergedOnce(g, m, h, limit, stress);
    hide MergedOnce;
  }

  // A branch ccmp can express: bcc under a condition that can fail, cbz or cbnz, with two different targets.
  predicate TwoWay(t: Term) {
    (t.Cb? || (t.Bcc? && t.cc != AL && t.cc != NV)) && t.taken != t.other
  }

  // What is accepted, in full: a triangle whose lower block h alone enters, with nothing tail's PHIs could tell h
  // and c apart by; every instruction of c is safe above the branch, but for the compare at i that alone decides it.
  lemma AcceptedExactly(g: Graph, h: Label, c: Label, tail: Label, i: nat, limit: nat, stress: bool)
    ensures Accepted(g, h, c, tail, i, limit, stress) <==>
      && h in g && c in g && tail in g && c != tail && |g[h].succs| == 2 && |g[c].succs| == 2
      && c in g[h].succs && tail in g[h].succs && tail in g[c].succs && (forall q | q in g && c in g[q].succs :: q == h)
      && (forall k | 0 <= k < |g[tail].phis| :: Incoming(g[tail].phis[k].args, h) == Incoming(g[tail].phis[k].args, c))
      && |g[c].phis| == 0 && !g[c].liveIns && !g[tail].liveIns && TwoWay(g[h].term) && TwoWay(g[c].term)
      && (|g[c].body| <= limit || stress)
      && (forall k | 0 <= k < |g[c].body| && k != i :: g[c].body[k].Op? && !g[c].body[k].unsafe && !g[c].body[k].setsFlags)
      && (forall k | i < k < |g[c].body| :: !g[c].body[k].readsFlags)
      && if g[c].term.Cb? then i == |g[c].body|
         else i < |g[c].body| && g[c].body[i].Compare? && (g[c].body[i].kind.Fp? || g[c].body[i].dead)
              && (g[c].body[i].rhs.Imm? ==> g[c].body[i].rhs.shift == 0 && 0 <= g[c].body[i].rhs.value <= 31)
  {
  }

  lemma AcceptedNeeds(g: Graph, h: Label, limit: nat, stress: bool)
    ensures forall c, tail, i: nat | Accepted(g, h, c, tail, i, limit, stress) ::
      && Topology(g, h, c, tail) && |g[h].succs| == 2 && |g[c].succs| == 2 && SolePred(g, c, h) && tail in g[c].succs
      && c in g[h].succs && tail in g[h].succs && c != tail
      && TrivialPhis(g[tail].phis, h, c) && |g[c].phis| == 0 && !g[c].liveIns && !g[tail].liveIns
      && Convertible(g[h].term) && Convertible(g[c].term) && Controlling(g[c], i) && CanSpeculate(g[c], i, limit, stress)
  {
    hide TrivialPhis, Convertible, Controlling, CanSpeculate, SolePred;
  }

  // Only one of Head's successors can be the block merged.
  lemma OneTriangle(g: Graph, h: Label, c: Label, tail: Label, c': Label, tail': Label)
    requires WF(g) && Topology(g, h, c', tail') && c' != h
    requires h in g && |g[h].succs| == 2 && c != tail && c in g[h].succs && tail in g[h].succs
    requires SolePred(g, c, h) && (SolePred(g, g[h].succs[0], h) ==> c == g[h].succs[0])
    ensures c' == c && tail' == tail
  {
    hide PhisFromPreds;
    assert WFAt(g, h);
  }

  // ----- The converter -----

  class SSACCmpConv {
    var graph: Graph
    const limit: nat          // most instructions speculated
    const stress: bool
    var head: Label
    var cmpBB: Label
    var tail: Label
    var cmpAt: nat            // the compare in cmpBB
    var headCmpBBCC: CondCode
    var cmpBBTailCC: CondCode

    constructor (g: Graph, limit: nat, stress: bool)
      ensures graph == g
    {
      graph := g;
      this.limit, this.stress := limit, stress;
      head, cmpBB, tail, cmpAt, headCmpBBCC, cmpBBTailCC := 0, 0, 0, 0, AL, AL;
    }

    ghost predicate Ready()
      reads this
    {
      && Candidate(graph, head, cmpBB, tail, cmpAt)
      && headCmpBBCC == CCTo(graph[head].term, cmpBB) && cmpBBTailCC == CCTo(graph[cmpBB].term, tail)
    }

    // findConvertibleCompare; -1 if there is none, the body's length for a cbz or cbnz.
    static method FindConvertibleCompare(b: Block) returns (r: int)
      requires Convertible(b.term)
      ensures -1 <= r <= |b.body|
      ensures r >= 0 ==> Controlling(b, r)
      ensures r < 0 ==> forall q :: !Controlling(b, q)
    {
      hide Convertible;
      if b.term.Cb? {
        return |b.body|;
      }
      r := |b.body|;
      while r > 0
        invariant 0 <= r <= |b.body|
        invariant forall k | r <= k < |b.body| :: b.body[k].Op? && !b.body[k].readsFlags && !b.body[k].setsFlags
      {
        r := r - 1;
        if b.body[r].Op? ==> b.body[r].readsFlags || b.body[r].setsFlags { OnlyControlling(b, r); }
        match b.body[r] {
          case Compare(kind, _, rhs, dead) =>
            if rhs.Imm? && (rhs.shift != 0 || !(0 <= rhs.value < 32)) { return -1; }
            return if kind.Fp? || dead then r else -1;
          case CCmp(_, _, _, _, _) => return -1;
          case Op(_, _, _, readsFlags, setsFlags, _) => if readsFlags || setsFlags { return -1; }
        }
      }
      return -1;
    }

    method CanSpeculateInstrs(b: Block, cmp: nat) returns (ok: bool)
      ensures ok <==> CanSpeculate(b, cmp, limit, stress)
    {
      if b.liveIns { return false; }
      for k := 0 to |b.body|
        invariant forall j | 0 <= j < k && j != cmp :: Speculatable(b.body[j])
        invariant k <= limit || stress
      {
        if k + 1 > limit && !stress { return false; }
        if k != cmp && !Speculatable(b.body[k]) { return false; }
      }
      return true;
    }

    // The choice of successors at the start of canConvert.
    method FindTriangle(mbb: Label) returns (ok: bool, c: Label, t: Label)
      requires mbb in graph && WF(graph)
      ensures !ok ==> forall c', t', i: nat | c' != mbb :: !Accepted(graph, mbb, c', t', i, limit, stress)
      ensures ok ==> c in graph && t in graph && c != t && |graph[mbb].succs| == 2 && |graph[c].succs| == 2
      ensures ok ==> c in graph[mbb].succs && t in graph[mbb].succs && SolePred(graph, c, mbb)
      ensures ok ==> forall c', t', i: nat | c' != mbb && Accepted(graph, mbb, c', t', i, limit, stress) :: c' == c && t' == t
    {
      hide *;
      SuccsIn(graph, mbb);
      AcceptedNeeds(graph, mbb, limit, stress);
      c, t := mbb, mbb;
      if |graph[mbb].succs| != 2 { return false, c, t; }
      c, t := graph[mbb].succs[0], graph[mbb].succs[1];
      if !SolePred(graph, c, mbb) {
        c, t := t, c;
      }
      assert forall l | l in graph[mbb].succs :: l == c || l == t;
      if !SolePred(graph, c, mbb) { return false, c, t; }
      forall c', t', i: nat | c' != mbb && Accepted(graph, mbb, c', t', i, limit, stress) ensures c' == c && t' == t {
        OneTriangle(graph, mbb, c, t, c', t');
      }
      ok := |graph[c].succs| == 2;
    }

    // canConvert
    method CanConvert(mbb: Label) returns (ok: bool)
      requires mbb in graph && WF(graph)
      modifies this`head, this`cmpBB, this`tail, this`cmpAt, this`headCmpBBCC, this`cmpBBTailCC
      ensures ok ==> Ready() && head == mbb && Accepted(graph, mbb, cmpBB, tail, cmpAt, limit, stress)
      ensures !ok ==> NoneAccepted(graph, mbb, limit, stress)
    {
      hide *;
      head := mbb;
      NoneMeans(graph, mbb, limit, stress);
      AcceptedNeeds(graph, mbb, limit, stress);
      var found, succ0, succ1 := FindTriangle(mbb);
      if !found { return false; }
      cmpBB, tail := succ0, succ1;
      if tail !in graph[cmpBB].succs { return false; }
      if !TrivialPhis(graph[tail].phis, head, cmpBB) || graph[tail].liveIns { return false; }
      if |graph[cmpBB].phis| != 0 || graph[cmpBB].liveIns { return false; }
      if !Convertible(graph[head].term) || !Convertible(graph[cmpBB].term) { return false; }
      headCmpBBCC := CCTo(graph[head].term, cmpBB);
      cmpBBTailCC := CCTo(graph[cmpBB].term, tail);
      var at := FindConvertibleCompare(graph[cmpBB]);
      if at < 0 { return false; }
      cmpAt := at;
      forall i: nat | Controlling(graph[cmpBB], i) ensures i == at { OneControlling(graph[cmpBB], i, at); }
      ok := CanSpeculateInstrs(graph[cmpBB], cmpAt);
      if ok {
        ControllingMeans(graph[cmpBB], cmpAt);
        SpeculateMeans(graph[cmpBB], cmpAt, limit, stress);
        IsMergeable(graph[cmpBB], cmpAt);
        IsReady();
        IsAccepted();
      }
    }

    lemma IsAccepted()
      requires Ready() && Controlling(graph[cmpBB], cmpAt) && CanSpeculate(graph[cmpBB], cmpAt, limit, stress)
      ensures Accepted(graph, head, cmpBB, tail, cmpAt, limit, stress)
    {
      hide Candidate, Controlling, CanSpeculate;
    }

    lemma IsReady()
      requires head in graph && cmpBB in graph && tail in graph && cmpBB != tail && |graph[head].succs| == 2 && |graph[cmpBB].succs| == 2
      requires cmpBB in graph[head].succs && tail in graph[head].succs && tail in graph[cmpBB].succs && SolePred(graph, cmpBB, head)
      requires TrivialPhis(graph[tail].phis, head, cmpBB) && |graph[cmpBB].phis| == 0 && !graph[cmpBB].liveIns && !graph[tail].liveIns
      requires Convertible(graph[head].term) && Convertible(graph[cmpBB].term) && Mergeable(graph[cmpBB], cmpAt)
      requires headCmpBBCC == CCTo(graph[head].term, cmpBB) && cmpBBTailCC == CCTo(graph[cmpBB].term, tail)
      ensures Ready()
    {
      hide SolePred, TrivialPhis, Convertible, Mergeable, CCTo;
    }

    // Head's new code: its own, an explicit compare if it ended in cbz or cbnz, then cmpBB's with the ccmp.
    method MergedCode() returns (body: seq<Ins>, term: Term)
      requires Ready()
      ensures var n := MergedHead(graph[head], graph[cmpBB], cmpAt, headCmpBBCC, tail, tail); body == n.body && term == n.term
    {
      var b, t := graph[cmpBB], graph[head].term;
      body := graph[head].body;
      if t.Cb? {
        body := body + [Compare(Sub(t.wide), t.reg, Imm(0, 0), true)];
      }
      var nzcv := NZCVToSatisfy(cmpBBTailCC);
      if cmpAt < |b.body| {
        var c := b.body[cmpAt];
        body := body + (b.body[..cmpAt] + [CCmp(c.kind, c.rn, c.rhs, nzcv, headCmpBBCC)] + b.body[cmpAt + 1..]);
        term := b.term;
      } else {
        body := body + (b.body + [CCmp(Sub(b.term.wide), b.term.reg, Imm(0, 0), nzcv, headCmpBBCC)]);
        term := Bcc(if b.term.nonzero then NE else EQ, b.term.taken, b.term.other);
      }
    }

    // convert: every PHI, then Head, then the block that is gone.
    method Convert()
      requires Ready() && |graph[cmpBB].succs| == 2
      modifies this`graph
      ensures graph == Merged(old(graph), head, cmpBB, tail, cmpAt)
    {
      hide Candidate, Mergeable, MergedBody, MergedTerm, ZeroCompare, CCTo, Convertible, Without, Renamed;
      ReadyFacts();
      CandidateFacts(graph, head, cmpBB, tail, cmpAt);
      var body, term := MergedCode();
      var other := OtherSucc(graph[cmpBB], tail);
      MergedInSteps(graph, head, cmpBB, tail, cmpAt);
      graph := UpdatedPhis(graph, head, cmpBB, tail, other);
      graph := graph[head := graph[head].(body := body, term := term, succs := [tail, other])];
      graph := graph - {cmpBB};
    }

    // One round of tryConvert.
    method ConvertNext(ghost g0: Graph, ghost removed: set<Label>, mbb: Label, ghost outside: set<Label>)
      requires Ready() && head == mbb && Inv(g0, removed, graph, mbb, outside)
      modifies this`graph
      ensures old(Ready()) && graph == Merged(old(graph), mbb, cmpBB, tail, cmpAt)
      ensures cmpBB in old(graph) && graph.Keys == old(graph).Keys - {cmpBB} && |graph| == |old(graph)| - 1
      ensures Inv(g0, removed + {cmpBB}, graph, mbb, outside) && mbb in graph && WF(graph)
    {
      hide *;
      ReadyFacts();
      ghost var g := graph;
      InvFacts(g0, removed, graph, mbb, outside);
      TopologyEdge(graph, head, cmpBB, tail, cmpAt);
      CandidateFacts(graph, head, cmpBB, tail, cmpAt);
      NotOutside(graph, head, cmpBB, outside);
      MergeKeepsInv(g0, removed, graph, mbb, cmpBB, tail, cmpAt, outside);
      MergedKeys(graph, head, cmpBB, tail, cmpAt);
      Convert();
      Fewer(g, graph, cmpBB);
      InvFacts(g0, removed + {cmpBB}, graph, mbb, outside);
    }

    // tryConvert. `worthwhile` is the cost model's answer for a graph. The blocks merged are `removed`, and
    // `graphs` are the graphs from first to last.
    method TryConvert(mbb: Label, worthwhile: Graph -> bool, ghost outside: set<Label>) returns (changed: bool, ghost removed: set<Label>, ghost graphs: seq<Graph>)
      requires mbb in graph && WF(graph) && SSA(graph) && Outside(graph, outside, mbb)
      modifies this
      ensures Inv(old(graph), removed, graph, mbb, outside)
      ensures removed <= old(graph).Keys && |graph| + |removed| == |old(graph)|
      ensures (changed <==> removed != {}) && (!changed ==> graph == old(graph))
      ensures |graphs| == |removed| + 1 && graphs[0] == old(graph) && graphs[|removed|] == graph
      ensures MergedInTurn(graphs, worthwhile, mbb, limit, stress)
      ensures worthwhile(graph) ==> NoneAccepted(graph, mbb, limit, stress)
    {
      hide *;
      ghost var g0 := graph;
      changed, removed, graphs := false, {}, [graph];
      NoTurns(graph, worthwhile, mbb, limit, stress);
      InvAtStart(graph, mbb, outside);
      InvFacts(g0, removed, graph, mbb, outside);
      var ok := CanConvert(mbb);
      while ok && worthwhile(graph)
        invariant Inv(g0, removed, graph, mbb, outside) && mbb in graph && WF(graph)
        invariant ok ==> Ready() && head == mbb && Accepted(graph, mbb, cmpBB, tail, cmpAt, limit, stress)
        invariant |graphs| + |graph| == |g0| + 1 && |graphs| > 0 && graphs[0] == g0 && graphs[|graphs| - 1] == graph
        invariant MergedInTurn(graphs, worthwhile, mbb, limit, stress)
        invariant removed <= g0.Keys && graph.Keys == g0.Keys - removed
        invariant (changed <==> removed != {}) && (!changed ==> graph == g0)
        invariant !ok ==> NoneAccepted(graph, mbb, limit, stress)
        decreases |graph|
      {
        ghost var g := graph;
        ReadyFacts();
        ConvertNext(g0, removed, mbb, outside);
        OnceMerged(graphs, g, graph, worthwhile, mbb, cmpBB, tail, cmpAt, limit, stress);
        removed, graphs, changed := removed + {cmpBB}, graphs + [graph], true;
        ok := CanConvert(mbb);
      }
      KeySplit(g0, graph, removed);
    }

    lemma ReadyFacts()
      requires Ready()
      ensures Candidate(graph, head, cmpBB, tail, cmpAt)
    {
    }
  }

  lemma KeySplit(g: Graph, m: Graph, removed: set<Label>)
    requires removed <= g.Keys && m.Keys == g.Keys - removed
    ensures |m| + |removed| == |g|
  {
    assert |m.Keys| == |g.Keys| - |removed|;
  }

  lemma Fewer(g: Graph, m: Graph, c: Label)
    requires c in g && m.Keys == g.Keys - {c}
    ensures |m| < |g|
  {
    assert |m.Keys| < |g.Keys|;
  }
}
