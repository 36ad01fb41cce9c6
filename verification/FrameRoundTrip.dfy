/** What the lowered prologs and epilogs do: all prologs build the same frame, every epilog undoes any of them. */
module FrameRoundTrip {
  import opened FrameCode
  import opened FrameHelpers
  import opened FrameLayout
  import opened Options

  // Running what replaced a pseudo instruction. A call, if there is one, comes last; `link` is the
  // address after it.
  function RunSite(helpers: map<Name, seq<Ins>>, link: int, code: seq<Ins>, s: State): State {
    if code == [] then s
    else
      var n := |code| - 1;
      match code[n]
      case Bl(name) =>
        if name in helpers then Run(helpers[name], Linked(Run(code[..n], s), link)) else s
      case TailCall(name) => if name in helpers then Run(helpers[name], Run(code[..n], s)) else s
      case _ => Run(code, s)
  }

  function Linked(s: State, link: int): State {
    s.(reg := Put(s.reg, LR, link))
  }

  // Where a helper's return goes, given the state at its end.
  function ReturnTarget(body: seq<Ins>, s: State): int
    requires |body| > 0 && body[|body| - 1].Ret?
  {
    s.reg(body[|body| - 1].reg)
  }

  predicate InLRPair(regs: seq<Reg>, q: nat)
    requires q < |regs|
  {
    if q % 2 == 0 then regs[q] == LR else regs[q - 1] == LR
  }

  // The positions below n, except LR's pair when it is skipped.
  function Below(regs: seq<Reg>, n: int, skipLR: bool): set<nat>
    requires n <= |regs|
  {
    set q: nat | q < n && !(skipLR && InLRPair(regs, q))
  }

  // ----- Prologs -----

  lemma BelowPair(regs: seq<Reg>, p: nat, skipLR: bool)
    requires p % 2 == 0 && p + 2 <= |regs|
    ensures Below(regs, p + 2, skipLR) == Below(regs, p, skipLR) + if skipLR && regs[p] == LR then {} else {p, p + 1}
  {
  }

  lemma {:induction false} StoresRun(regs: seq<Reg>, p: int, skipLR: bool, done: set<nat>, base: int, s0: State, s: State)
    requires SaveList(regs) && p % 2 == 0 && -2 <= p && p + 1 < |regs| && Saving(regs, done, base, 0, s0, s)
    ensures Saving(regs, done + Below(regs, p + 2, skipLR), base, 0, s0, Run(StoresDown(regs, p, skipLR), s))
    decreases p + 2
  {
    hide Saving, SaveList, Exec, StoreIns, Below;
    if p < 0 {
      assert p == -2 && StoresDown(regs, p, skipLR) == [] && Run([], s) == s;
      PairsOK(regs);
      NoneBelow(regs, skipLR);
      assert Below(regs, p + 2, skipLR) == {} && done + {} == done;
      assert Saving(regs, done, base, 0, s0, Run(StoresDown(regs, p, skipLR), s));
    } else {
      BelowPair(regs, p, skipLR);
      if skipLR && regs[p] == LR {
        StoresRun(regs, p - 2, skipLR, done, base, s0, s);
        assert Below(regs, p, skipLR) + {} == Below(regs, p, skipLR);
        assert [] + StoresDown(regs, p - 2, skipLR) == StoresDown(regs, p - 2, skipLR);
      } else {
        var i := StoreIns(regs[p], regs[p + 1], |regs| - p - 2, false);
        RunOne(i, s);
        StoreStep(regs, done, base, 0, s0, s, p, |regs| - p - 2, false);
        StoresRun(regs, p - 2, skipLR, done + {p, p + 1}, base, s0, Run([i], s));
        assert done + {p, p + 1} + Below(regs, p, skipLR) == done + Below(regs, p + 2, skipLR);
        RunJoin([i], StoresDown(regs, p - 2, skipLR), s);
      }
    }
  }

  lemma NoneBelow(regs: seq<Reg>, skipLR: bool)
    ensures Below(regs, 0, skipLR) == {}
  {
  }

  // The frame is built: SP, the saved slots, FP; only LR is left open.
  ghost predicate PrologDone(regs: seq<Reg>, fpOffset: Option<int>, s0: State, s1: State)
    requires |regs| % 2 == 0
  {
    && s1.reg(SP) == s0.reg(SP) - 8 * |regs|
    && Saved(regs, Below(regs, |regs|, false), s1.reg(SP), s0, s1.mem)
    && (forall r | r != SP && r != LR && r != FP :: s1.reg(r) == s0.reg(r))
    && s1.reg(FP) == if fpOffset.Some? then s1.reg(SP) + fpOffset.value else s0.reg(FP)
  }

  lemma FrameSet(regs: seq<Reg>, base: int, s0: State, s: State, fpOffset: Option<int>)
    requires SaveList(regs) && base == s0.reg(SP) - 8 * |regs| && s.reg(SP) == base
    requires Saved(regs, Below(regs, |regs|, false), base, s0, s.mem) && forall r | r != SP && r != LR :: s.reg(r) == s0.reg(r)
    ensures PrologDone(regs, fpOffset, s0, Run(SetFp(fpOffset), s)) && Run(SetFp(fpOffset), s).reg(LR) == s.reg(LR)
  {
    hide Saved, SaveList, Below;
    if fpOffset.Some? { RunOne(AddFp(fpOffset.value), s); }
  }

  lemma NothingSaved(regs: seq<Reg>, base: int, slots: int, s: State)
    requires |regs| % 2 == 0 && s.reg(SP) == base + 8 * slots
    ensures Saving(regs, {}, base, slots, s, s)
  {
  }

  lemma SavingFacts(regs: seq<Reg>, done: set<nat>, base: int, slots: int, s0: State, s: State)
    requires |regs| % 2 == 0 && Saving(regs, done, base, slots, s0, s)
    ensures s.reg(SP) == base + 8 * slots && Saved(regs, done, base, s0, s.mem) && forall r | r != SP :: s.reg(r) == s0.reg(r)
  {
  }

  // The highest pair is stored first, moving SP by `offset` slots, then the rest.
  lemma FirstThenRest(regs: seq<Reg>, skipLR: bool, offset: int, s: State, base: int)
    requires SaveList(regs) && s.reg(SP) + 8 * offset == base
    requires skipLR ==> regs[|regs| - 2] != LR
    ensures var code := [StoreIns(regs[|regs| - 2], regs[|regs| - 1], offset, true)] + StoresDown(regs, |regs| - 4, skipLR);
            Saving(regs, Below(regs, |regs|, skipLR), base, 0, s, Run(code, s))
  {
    PairsOK(regs);
    BelowPair(regs, |regs| - 2, skipLR);
    hide Saving, SaveList, Exec, StoreIns, StoresDown, Below;
    var n := |regs|;
    var first := StoreIns(regs[n - 2], regs[n - 1], offset, true);
    NothingSaved(regs, base, -offset, s);
    StoreStep(regs, {}, base, -offset, s, s, n - 2, offset, true);
    RunOne(first, s);
    StoresRun(regs, n - 4, skipLR, {} + {n - 2, n - 1}, base, s, Run([first], s));
    assert {} + {n - 2, n - 1} + Below(regs, n - 2, skipLR) == Below(regs, n, skipLR);
    RunJoin([first], StoresDown(regs, n - 4, skipLR), s);
  }

  lemma InlinePrologRuns(regs: seq<Reg>, fpOffset: Option<int>, s: State)
    requires SaveList(regs)
    ensures var t := Run(InlineProlog(regs) + SetFp(fpOffset), s);
            PrologDone(regs, fpOffset, s, t) && t.reg(LR) == s.reg(LR)
  {
    PairsOK(regs);
    hide Saving, SaveList, PrologDone, StoresDown, StoreIns, SetFp, Below;
    var base := s.reg(SP) - 8 * |regs|;
    FirstThenRest(regs, false, -|regs|, s, base);
    var t := Run(InlineProlog(regs), s);
    SavingFacts(regs, Below(regs, |regs|, false), base, 0, s, t);
    FrameSet(regs, base, s, t, fpOffset);
    RunJoin(InlineProlog(regs), SetFp(fpOffset), s);
  }

  // The call site's store of FP and LR, then the link register overwritten by the call.
  lemma CallSite(regs: seq<Reg>, s: State, link: int)
    requires SaveList(regs) && SavesLR(regs)
    ensures var i := FindLR(regs);
            var t := Linked(Run([StoreIns(LR, FP, -2 - i, true)], s), link);
            && t.reg(SP) == s.reg(SP) - 8 * (2 + i) && |regs| % 2 == 0
            && Saved(regs, {i, i + 1}, s.reg(SP) - 8 * |regs|, s, t.mem)
            && t.reg(LR) == link && forall r | r != SP && r != LR :: t.reg(r) == s.reg(r)
  {
    hide *;
    PairsOK(regs);
    LRPlace(regs);
    var i: int, base := FindLR(regs), s.reg(SP) - 8 * |regs|;
    var t := Run([StoreIns(LR, FP, -2 - i, true)], s);
    NothingSaved(regs, base, |regs|, s);
    StoreStep(regs, {}, base, |regs|, s, s, i, -2 - i, true);
    RunOne(StoreIns(LR, FP, -2 - i, true), s);
    assert {} + {i as nat, (i + 1) as nat} == {i, i + 1};
    SavingFacts(regs, {} + {i, i + 1}, base, |regs| - 2 - i, s, t);
    LinkedFacts(t, link);
  }

  lemma LinkedFacts(s: State, link: int)
    ensures var t := Linked(s, link); t.mem == s.mem && t.reg(LR) == link && t.reg(SP) == s.reg(SP) && SP != LR && forall r | r != LR :: t.reg(r) == s.reg(r)
  {
  }

  // Saving some positions and then others.
  lemma SavedTwice(regs: seq<Reg>, x: set<nat>, y: set<nat>, base: int, s0: State, t: State, mem: int -> int)
    requires |regs| % 2 == 0 && Saved(regs, x, base, s0, t.mem) && Saved(regs, y, base, t, mem) && x !! y
    requires forall q: nat | q in y && q < |regs| :: t.reg(Cell(regs, q)) == s0.reg(Cell(regs, q))
    ensures Saved(regs, x + y, base, s0, mem)
  {
    forall p: nat | p in x + y && p < |regs| && Cell(regs, p) >= 0
      ensures mem(SlotAddress(base, |regs|, p)) == s0.reg(Cell(regs, p))
    {
      if p in x { assert mem(SlotAddress(base, |regs|, p)) == t.mem(SlotAddress(base, |regs|, p)); }
    }
    forall a: int | forall p: nat | p in x + y && p < |regs| && Cell(regs, p) >= 0 :: a != SlotAddress(base, |regs|, p)
      ensures mem(a) == s0.mem(a)
    {
      assert forall p: nat | p in x && p < |regs| && Cell(regs, p) >= 0 :: p in x + y;
      assert forall p: nat | p in y && p < |regs| && Cell(regs, p) >= 0 :: p in x + y;
    }
  }

  // The helper's own stores, from the state at its entry.
  lemma HelperStoresRun(regs: seq<Reg>, t: State)
    requires SaveList(regs) && SavesLR(regs)
    ensures var base := t.reg(SP) - 8 * (|regs| - 2 - FindLR(regs));
            && |regs| % 2 == 0
            && Saving(regs, Below(regs, |regs|, true), base, 0, t, Run(HelperStores(regs), t))
  {
    hide *;
    PairsOK(regs);
    LRPlace(regs);
    HelperStoresShape(regs);
    var i: int, n := FindLR(regs), |regs|;
    var base := t.reg(SP) - 8 * (n - 2 - i);
    if i != n - 2 {
      LROnce(regs, n - 2);
      FirstThenRest(regs, true, i - n + 2, t, base);
    } else {
      BelowPair(regs, n - 2, true);
      NothingSaved(regs, base, 0, t);
      StoresRun(regs, n - 4, true, {}, base, t, t);
      assert {} + Below(regs, n - 2, true) == Below(regs, n - 2, true) + {};
    }
  }

  lemma LRPlace(regs: seq<Reg>)
    requires SavesLR(regs)
    ensures var i := FindLR(regs); SP != LR && i % 2 == 0 && i + 1 < |regs| && regs[i] == LR && regs[i + 1] == FP
  {
  }

  lemma HelperStoresShape(regs: seq<Reg>)
    requires |regs| >= 2
    ensures var i, n := FindLR(regs), |regs|;
            HelperStores(regs) == if i != n - 2 then [StoreIns(regs[n - 2], regs[n - 1], i - n + 2, true)] + StoresDown(regs, n - 4, true)
                                  else StoresDown(regs, n - 4, true)
  {
    hide StoresDown, StoreIns;
  }

  lemma LROnce(regs: seq<Reg>, p: nat)
    requires SaveList(regs) && SavesLR(regs) && p < |regs| && p != FindLR(regs)
    ensures regs[p] != LR
  {
    if p > FindLR(regs) { assert regs[FindLR(regs)] != regs[p]; }
  }

  lemma CellNotLR(regs: seq<Reg>, q: nat)
    requires SaveList(regs) && SavesLR(regs) && q < |regs| && q != FindLR(regs) && q != FindLR(regs) + 1
    ensures |regs| % 2 == 0 && !InLRPair(regs, q) && Cell(regs, q) != LR && Cell(regs, q) != SP
  {
    hide SaveList;
    PairsOK(regs);
    LROnce(regs, q);
    NotSP(regs, q);
    if q % 2 == 1 {
      LROnce(regs, q - 1);
      NotSP(regs, q - 1);
    }
  }

  lemma NotSP(regs: seq<Reg>, q: nat)
    requires SaveList(regs) && q < |regs|
    ensures regs[q] != SP && regs[q] != X16
  {
    assert PositionOK(regs, q);
  }

  lemma OthersThanLR(regs: seq<Reg>)
    requires SaveList(regs) && SavesLR(regs)
    ensures var i := FindLR(regs); var y := Below(regs, |regs|, true);
            {i, i + 1} + y == Below(regs, |regs|, false) && {i, i + 1} !! y
    ensures |regs| % 2 == 0 && forall q: nat | q in Below(regs, |regs|, true) && q < |regs| :: Cell(regs, q) != LR && Cell(regs, q) != SP
  {
    hide SaveList, Cell, InLRPair;
    PairsOK(regs);
    var i := FindLR(regs);
    assert InLRPair(regs, i) && InLRPair(regs, i + 1) by { LRPairIn(regs); }
    forall q: nat | q < |regs| && q != i && q != i + 1
      ensures !InLRPair(regs, q) && Cell(regs, q) != LR && Cell(regs, q) != SP
    {
      CellNotLR(regs, q);
    }
  }

  lemma LRPairIn(regs: seq<Reg>)
    requires SavesLR(regs)
    ensures InLRPair(regs, FindLR(regs)) && InLRPair(regs, FindLR(regs) + 1)
  {
  }

  lemma HelperBuilds(regs: seq<Reg>, s: State, t: State, base: int)
    requires SaveList(regs) && SavesLR(regs) && base == s.reg(SP) - 8 * |regs| && |regs| % 2 == 0
    requires t.reg(SP) == s.reg(SP) - 8 * (2 + FindLR(regs)) && Saved(regs, {FindLR(regs), FindLR(regs) + 1}, base, s, t.mem)
    requires forall r | r != SP && r != LR :: t.reg(r) == s.reg(r)
    ensures var u := Run(HelperStores(regs), t);
            && u.reg(SP) == base && u.reg(LR) == t.reg(LR)
            && Saved(regs, Below(regs, |regs|, false), base, s, u.mem)
            && forall r | r != SP && r != LR :: u.reg(r) == s.reg(r)
  {
    hide *;
    PairsOK(regs);
    LRPlace(regs);
    var i := FindLR(regs);
    HelperStoresRun(regs, t);
    var u := Run(HelperStores(regs), t);
    SavingFacts(regs, Below(regs, |regs|, true), base, 0, t, u);
    OthersThanLR(regs);
    SavedTwice(regs, {i, i + 1}, Below(regs, |regs|, true), base, s, t, u.mem);
  }

  // The call site and the helper together build the same frame, and the helper returns to the call site.
  lemma HelperPrologRuns(regs: seq<Reg>, fpOffset: Option<int>, s: State, link: int)
    requires SaveList(regs) && SavesLR(regs)
    ensures var kind := PrologKind(fpOffset);
            var t := Linked(Run([StoreIns(LR, FP, -2 - FindLR(regs), true)], s), link);
            var u := Run(Body(kind, regs), t);
            |regs| % 2 == 0 && PrologDone(regs, fpOffset, s, u) && ReturnTarget(Body(kind, regs), u) == link
  {
    PairsOK(regs);
    var kind := PrologKind(fpOffset);
    hide SaveList, SavesLR, Saved, StoreIns, HelperStores, PrologDone, Below, Body, SetFp, Run, Linked, ReturnTarget, FindLR;
    var base := s.reg(SP) - 8 * |regs|;
    CallSite(regs, s, link);
    var t := Linked(Run([StoreIns(LR, FP, -2 - FindLR(regs), true)], s), link);
    HelperBuilds(regs, s, t, base);
    var u := Run(HelperStores(regs), t);
    FrameSet(regs, base, s, u, fpOffset);
    RunJoin(HelperStores(regs), SetFp(fpOffset), t);
    BodyShape(regs, fpOffset);
    RetRuns(HelperStores(regs) + SetFp(fpOffset), LR, t);
  }

  lemma BodyShape(regs: seq<Reg>, fpOffset: Option<int>)
    requires |regs| >= 2
    ensures var kind := PrologKind(fpOffset);
            Body(kind, regs) == HelperStores(regs) + SetFp(fpOffset) + [Ret(LR)]
  {
    assert HelperStores(regs) + [] == HelperStores(regs);
  }

  lemma RetRuns(code: seq<Ins>, r: Reg, s: State)
    ensures Run(code + [Ret(r)], s) == Run(code, s) && ReturnTarget(code + [Ret(r)], Run(code, s)) == Run(code, s).reg(r)
  {
    assert (code + [Ret(r)])[..|code|] == code;
  }

  // ----- Epilogs -----

  lemma {:induction false} LoadsRun(regs: seq<Reg>, p: nat, base: int, s0: State, s: State)
    requires SaveList(regs) && p % 2 == 0 && p + 2 <= |regs| && Restored(regs, p, base, s0, s) && s.reg(SP) == base
    ensures var t := Run(LoadsUp(regs, p), s); Restored(regs, |regs| - 2, base, s0, t) && t.reg(SP) == base
    decreases |regs| - p
  {
    hide *;
    PairsOK(regs);
    LoadsUpStep(regs, p);
    RunNone(s);
    if p + 2 < |regs| {
      var i := LoadIns(regs[p], regs[p + 1], |regs| - p - 2, false);
      LoadStep(regs, base, s0, s, p, |regs| - p - 2, false);
      RunOne(i, s);
      LoadsRun(regs, p + 2, base, s0, Run([i], s));
      RunJoin([i], LoadsUp(regs, p + 2), s);
    }
  }

  lemma NoneRestored(regs: seq<Reg>, s: State)
    requires |regs| % 2 == 0
    ensures Restored(regs, 0, s.reg(SP), s, s)
  {
  }

  lemma LoadsSplit(regs: seq<Reg>)
    requires |regs| >= 2
    ensures Loads(regs) == LoadsUp(regs, 0) + [LoadIns(regs[|regs| - 2], regs[|regs| - 1], |regs|, true)]
  {
  }

  lemma LoadsUpStep(regs: seq<Reg>, p: nat)
    ensures p + 2 < |regs| ==> LoadsUp(regs, p) == [LoadIns(regs[p], regs[p + 1], |regs| - p - 2, false)] + LoadsUp(regs, p + 2)
    ensures p + 2 >= |regs| ==> LoadsUp(regs, p) == []
  {
    hide LoadIns;
  }

  lemma AllLoadsRun(regs: seq<Reg>, s: State)
    requires SaveList(regs)
    ensures |regs| >= 2 && |regs| % 2 == 0
    ensures var t := Run(Loads(regs), s); Restored(regs, |regs|, s.reg(SP), s, t) && t.reg(SP) == s.reg(SP) + 8 * |regs|
  {
    hide *;
    PairsOK(regs);
    NoneRestored(regs, s);
    LoadsSplit(regs);
    var n, base := |regs|, s.reg(SP);
    LoadsRun(regs, 0, base, s, s);
    var u := Run(LoadsUp(regs, 0), s);
    var last := LoadIns(regs[n - 2], regs[n - 1], n, true);
    LoadStep(regs, base, s, u, n - 2, n, true);
    RunOne(last, u);
    RunJoin(LoadsUp(regs, 0), [last], s);
  }

  // The frame at s0's stack pointer is loaded back and released. X16 may change if `x16`.
  ghost predicate EpilogDone(regs: seq<Reg>, x16: bool, s0: State, s1: State)
    requires |regs| % 2 == 0
  {
    && s1.reg(SP) == s0.reg(SP) + 8 * |regs| && (forall a :: s1.mem(a) == s0.mem(a))
    && (forall p: nat | p < |regs| && regs[p] != NO_REGISTER :: s1.reg(regs[p]) == Kept(regs, s0.reg(SP), s0.mem, p))
    && (forall r | r != SP && r !in regs && (x16 ==> r != X16) :: s1.reg(r) == s0.reg(r))
  }

  lemma LoadsDone(regs: seq<Reg>, s: State)
    requires SaveList(regs)
    ensures |regs| >= 2 && |regs| % 2 == 0 && EpilogDone(regs, false, s, Run(Loads(regs), s))
  {
    hide SaveList, Loads, Run;
    AllLoadsRun(regs, s);
  }

  // The plain helper: the link is kept in X16 while LR is loaded, and control returns to the call site.
  lemma EpilogHelperRuns(regs: seq<Reg>, s: State, link: int)
    requires SaveList(regs) && LR in regs
    ensures |regs| >= 2 && |regs| % 2 == 0
    ensures var t := Run(Body(Epilog, regs), Linked(s, link));
            EpilogDone(regs, true, s, t) && ReturnTarget(Body(Epilog, regs), t) == link
  {
    var s1 := Exec(MovX16LR, Linked(s, link));
    LinkKept(s, link);
    assert Body(Epilog, regs) == [MovX16LR] + Loads(regs) + [Ret(X16)] by { PairsOK(regs); }
    hide *;
    PairsOK(regs);
    RunOne(MovX16LR, Linked(s, link));
    NoX16(regs);
    LoadsDone(regs, s1);
    var t := Run(Loads(regs), s1);
    X16Untouched(regs, s1, t);
    RunJoin([MovX16LR], Loads(regs), Linked(s, link));
    RetRuns([MovX16LR] + Loads(regs), X16, Linked(s, link));
    Relinked(regs, s, s1, t);
  }

  lemma LinkKept(s: State, link: int)
    ensures var s1 := Exec(MovX16LR, Linked(s, link));
            s1.reg(X16) == link && s1.mem == s.mem && forall r | r != X16 && r != LR :: s1.reg(r) == s.reg(r)
  {
  }

  lemma X16Untouched(regs: seq<Reg>, s: State, t: State)
    requires |regs| % 2 == 0 && X16 !in regs && EpilogDone(regs, false, s, t)
    ensures t.reg(X16) == s.reg(X16)
  {
    hide Kept;
  }

  lemma NoX16(regs: seq<Reg>)
    requires SaveList(regs)
    ensures X16 !in regs && SP !in regs
  {
    forall p | 0 <= p < |regs| ensures regs[p] != X16 && regs[p] != SP { NotSP(regs, p); }
  }

  lemma Relinked(regs: seq<Reg>, s: State, s1: State, t: State)
    requires |regs| % 2 == 0 && LR in regs && EpilogDone(regs, false, s1, t) && s1.mem == s.mem
    requires forall r | r != X16 && r != LR :: s1.reg(r) == s.reg(r)
    ensures EpilogDone(regs, true, s, t)
  {
    hide Kept;
  }

  // The tail-called helper returns through the restored LR.
  lemma EpilogTailRuns(regs: seq<Reg>, s: State)
    requires SaveList(regs) && LR in regs
    ensures |regs| >= 2 && |regs| % 2 == 0
    ensures var t := Run(Body(EpilogTail, regs), s);
            EpilogDone(regs, false, s, t) && ReturnTarget(Body(EpilogTail, regs), t) == t.reg(LR)
  {
    hide SaveList, Loads, Run;
    LoadsDone(regs, s);
    RetRuns(Loads(regs), LR, s);
  }

  // ----- The main theorems -----

  lemma InlineHasNoCall(code: seq<Ins>, helpers: map<Name, seq<Ins>>, link: int, s: State)
    requires |code| > 0 && !code[|code| - 1].Bl? && !code[|code| - 1].TailCall?
    ensures RunSite(helpers, link, code, s) == Run(code, s)
  {
    hide Run;
  }

  lemma {:induction false} StoresAreMem(regs: seq<Reg>, p: int, skipLR: bool)
    requires p + 1 < |regs|
    ensures forall k | 0 <= k < |StoresDown(regs, p, skipLR)| :: StoresDown(regs, p, skipLR)[k].Mem?
    decreases p + 2
  {
    if p >= 0 { StoresAreMem(regs, p - 2, skipLR); }
  }

  lemma InlinePrologShape(regs: seq<Reg>, fpOffset: Option<int>)
    requires |regs| >= 2
    ensures var code := InlineProlog(regs) + SetFp(fpOffset);
            |code| > 0 && !code[|code| - 1].Bl? && !code[|code| - 1].TailCall?
  {
    StoresAreMem(regs, |regs| - 4, false);
    hide StoresDown;
    var code := InlineProlog(regs) + SetFp(fpOffset);
    if fpOffset.None? { assert code == InlineProlog(regs); }
  }

  // Whichever form lowerProlog chose, the frame is the same.
  lemma PrologCorrect(helpers: map<Name, seq<Ins>>, threshold: int, regs: seq<Reg>, fpOffset: Option<int>, code: seq<Ins>, s: State, link: int)
    requires SaveList(regs) && PrologSite(helpers, threshold, regs, fpOffset, code)
    ensures |regs| % 2 == 0 && PrologDone(regs, fpOffset, s, RunSite(helpers, link, code, s))
  {
    hide *;
    PairsOK(regs);
    SiteCases(helpers, threshold, regs, fpOffset, code);
    if ShouldUseFrameHelper(regs, PrologKind(fpOffset), threshold, false, false) {
      HelperPrologRuns(regs, fpOffset, s, link);
      CallRuns(helpers, link, StoreIns(LR, FP, -2 - FindLR(regs), true), Name(PrologKind(fpOffset), Printed(regs)), s);
    } else {
      InlinePrologRuns(regs, fpOffset, s);
      InlinePrologShape(regs, fpOffset);
      InlineHasNoCall(code, helpers, link, s);
    }
  }

  lemma SiteCases(helpers: map<Name, seq<Ins>>, threshold: int, regs: seq<Reg>, fpOffset: Option<int>, code: seq<Ins>)
    requires |regs| >= 2 && PrologSite(helpers, threshold, regs, fpOffset, code)
    ensures var kind := PrologKind(fpOffset); var name := Name(kind, Printed(regs));
            if ShouldUseFrameHelper(regs, kind, threshold, false, false) then
              && code == [StoreIns(LR, FP, -2 - FindLR(regs), true), Bl(name)]
              && SavesLR(regs) && name in helpers && helpers[name] == Body(kind, regs)
            else code == InlineProlog(regs) + SetFp(fpOffset)
  {
    hide SavesLR, Body, InlineProlog, StoreIns, FindLR, Printed, SetFp, PrologKind, ShouldUseFrameHelper;
  }

  lemma CallRuns(helpers: map<Name, seq<Ins>>, link: int, i: Ins, name: Name, s: State)
    requires name in helpers
    ensures RunSite(helpers, link, [i, Bl(name)], s) == Run(helpers[name], Linked(Run([i], s), link))
  {
    hide Run;
    assert [i, Bl(name)][..1] == [i];
  }

  lemma EpilogCorrect(helpers: map<Name, seq<Ins>>, threshold: int, regs: seq<Reg>, x16Live: bool, thenReturns: bool,
                      code: seq<Ins>, takesReturn: bool, s: State, link: int)
    requires SaveList(regs) && EpilogSite(helpers, threshold, regs, x16Live, thenReturns, code, takesReturn)
    ensures |regs| % 2 == 0 && EpilogDone(regs, !x16Live, s, RunSite(helpers, link, code, s))
  {
    PairsOK(regs);
    hide SaveList, Run, Body, Printed, Loads, Linked, EpilogDone;
    RunNone(s);
    if ShouldUseFrameHelper(regs, EpilogTail, threshold, x16Live, thenReturns) {
      EpilogTailRuns(regs, s);
      assert code[..0] == [];
      X16MayStay(regs, !x16Live, s, RunSite(helpers, link, code, s));
    } else if ShouldUseFrameHelper(regs, Epilog, threshold, x16Live, thenReturns) {
      EpilogHelperRuns(regs, s, link);
      assert code[..0] == [];
    } else {
      LoadsDone(regs, s);
      LoadsShape(regs);
      InlineHasNoCall(code, helpers, link, s);
      X16MayStay(regs, !x16Live, s, RunSite(helpers, link, code, s));
    }
  }

  lemma X16MayStay(regs: seq<Reg>, x16: bool, s: State, t: State)
    requires |regs| % 2 == 0 && EpilogDone(regs, false, s, t)
    ensures EpilogDone(regs, x16, s, t)
  {
    hide Kept;
  }

  lemma RunNone(s: State)
    ensures Run([], s) == s
  {
  }

  lemma LoadsShape(regs: seq<Reg>)
    requires |regs| >= 2
    ensures |Loads(regs)| > 0 && Loads(regs)[|Loads(regs)| - 1].Mem?
  {
    hide LoadsUp;
  }

  // Two prologs of one list from one state leave the same memory and registers, LR excepted.
  lemma PrologsAgree(regs: seq<Reg>, fpOffset: Option<int>, s: State, x: State, y: State)
    requires SaveList(regs) && PrologDone(regs, fpOffset, s, x) && PrologDone(regs, fpOffset, s, y)
    ensures forall a :: x.mem(a) == y.mem(a)
    ensures forall r | r != LR :: x.reg(r) == y.reg(r)
  {
    hide *;
    PairsOK(regs);
    PrologFacts(regs, fpOffset, s, x);
    PrologFacts(regs, fpOffset, s, y);
    SavedDetermines(regs, Below(regs, |regs|, false), x.reg(SP), s, x.mem, y.mem);
  }

  lemma PrologFacts(regs: seq<Reg>, fpOffset: Option<int>, s: State, x: State)
    requires |regs| % 2 == 0 && PrologDone(regs, fpOffset, s, x)
    ensures x.reg(SP) == s.reg(SP) - 8 * |regs| && Saved(regs, Below(regs, |regs|, false), x.reg(SP), s, x.mem)
    ensures x.reg(FP) == if fpOffset.Some? then x.reg(SP) + fpOffset.value else s.reg(FP)
    ensures forall r | r != SP && r != LR && r != FP :: x.reg(r) == s.reg(r)
  {
  }

  lemma SavedDetermines(regs: seq<Reg>, done: set<nat>, base: int, s0: State, x: int -> int, y: int -> int)
    requires |regs| % 2 == 0 && Saved(regs, done, base, s0, x) && Saved(regs, done, base, s0, y)
    ensures forall a :: x(a) == y(a)
  {
    hide Cell, SlotAddress;
    forall a ensures x(a) == y(a) {
      if p: nat :| p in done && p < |regs| && Cell(regs, p) >= 0 && a == SlotAddress(base, |regs|, p) {
      } else {
        assert x(a) == s0.mem(a);
      }
    }
  }

  // The slots of the frame that hold a register.
  ghost predicate FrameIntact(regs: seq<Reg>, base: int, s1: State, s2: State)
    requires |regs| % 2 == 0
  {
    forall p: nat | p < |regs| && Cell(regs, p) >= 0 :: s2.mem(SlotAddress(base, |regs|, p)) == s1.mem(SlotAddress(base, |regs|, p))
  }

  // Any epilog after any prolog: whatever the function body did, if it left SP and the frame as it found
  // them, every saved register and SP come back.
  lemma EpilogUndoesProlog(regs: seq<Reg>, fpOffset: Option<int>, x16: bool, s0: State, s1: State, s2: State, s3: State)
    requires SaveList(regs) && PrologDone(regs, fpOffset, s0, s1)
    requires s2.reg(SP) == s1.reg(SP) && FrameIntact(regs, s1.reg(SP), s1, s2)
    requires EpilogDone(regs, x16, s2, s3)
    ensures s3.reg(SP) == s0.reg(SP) && forall r | r in regs && r != NO_REGISTER :: s3.reg(r) == s0.reg(r)
  {
    hide *;
    PairsOK(regs);
    PrologFacts(regs, fpOffset, s0, s1);
    EpilogFacts(regs, x16, s2, s3);
    forall r | r in regs && r != NO_REGISTER ensures s3.reg(r) == s0.reg(r) {
      var p: nat :| p < |regs| && regs[p] == r;
      CellOf(regs, p);
      SlotHolds(regs, p, s1.reg(SP), s0, s1);
      KeptFrom(regs, p, s1.reg(SP), s1, s2);
    }
  }

  lemma EpilogFacts(regs: seq<Reg>, x16: bool, s: State, t: State)
    requires |regs| % 2 == 0 && EpilogDone(regs, x16, s, t)
    ensures t.reg(SP) == s.reg(SP) + 8 * |regs|
    ensures forall p: nat | p < |regs| && regs[p] != NO_REGISTER :: t.reg(regs[p]) == Kept(regs, s.reg(SP), s.mem, p)
  {
    hide Kept;
  }

  // The position whose slot keeps the register at p.
  function Home(regs: seq<Reg>, p: nat): nat
    requires p < |regs| && |regs| % 2 == 0
  {
    if p % 2 == 0 && regs[p + 1] == NO_REGISTER then p + 1 else p
  }

  lemma SlotHolds(regs: seq<Reg>, p: nat, base: int, s0: State, s1: State)
    requires |regs| % 2 == 0 && p < |regs| && Saved(regs, Below(regs, |regs|, false), base, s0, s1.mem)
    requires regs[p] >= 0 && Cell(regs, Home(regs, p)) == regs[p]
    ensures s1.mem(SlotAddress(base, |regs|, Home(regs, p))) == s0.reg(regs[p])
  {
    hide Cell, SlotAddress;
    assert Home(regs, p) in Below(regs, |regs|, false);
  }

  lemma KeptFrom(regs: seq<Reg>, p: nat, base: int, s1: State, s2: State)
    requires |regs| % 2 == 0 && p < |regs| && FrameIntact(regs, base, s1, s2) && Cell(regs, Home(regs, p)) >= 0
    ensures Kept(regs, base, s2.mem, p) == s1.mem(SlotAddress(base, |regs|, Home(regs, p)))
  {
    hide Cell, SlotAddress;
  }

  lemma CellOf(regs: seq<Reg>, p: nat)
    requires SaveList(regs) && p < |regs| && regs[p] != NO_REGISTER
    ensures |regs| % 2 == 0 && regs[p] >= 0
    ensures Cell(regs, Home(regs, p)) == regs[p]
  {
    assert PositionOK(regs, p);
  }

  // The same for the code the pass emits.
  lemma SaveAndRestore(helpers: map<Name, seq<Ins>>, threshold: int, regs: seq<Reg>, fpOffset: Option<int>, prolog: seq<Ins>,
                       x16Live: bool, thenReturns: bool, epilog: seq<Ins>, takesReturn: bool, s0: State, s2: State, link: int, link': int)
    requires SaveList(regs) && PrologSite(helpers, threshold, regs, fpOffset, prolog)
    requires EpilogSite(helpers, threshold, regs, x16Live, thenReturns, epilog, takesReturn)
    requires var s1 := RunSite(helpers, link, prolog, s0); s2.reg(SP) == s1.reg(SP) && FrameIntact(regs, s1.reg(SP), s1, s2)
    ensures var s3 := RunSite(helpers, link', epilog, s2);
            && s3.reg(SP) == s0.reg(SP) && (forall r | r in regs && r != NO_REGISTER :: s3.reg(r) == s0.reg(r))
            && (x16Live && X16 !in regs ==> s3.reg(X16) == s2.reg(X16))
  {
    NoX16(regs);
    hide SaveList, PrologSite, EpilogSite, RunSite, FrameIntact, PrologDone;
    PrologCorrect(helpers, threshold, regs, fpOffset, prolog, s0, link);
    EpilogCorrect(helpers, threshold, regs, x16Live, thenReturns, epilog, takesReturn, s2, link');
    EpilogUndoesProlog(regs, fpOffset, !x16Live, s0, RunSite(helpers, link, prolog, s0), s2, RunSite(helpers, link', epilog, s2));
  }

  // ----- Encodability -----

  predicate Fits(i: Ins) {
    i.Mem? ==> InRange(i.opc, i.imm)
  }

  predicate Encodable(code: seq<Ins>) {
    forall k | 0 <= k < |code| :: Fits(code[k])
  }

  lemma StoreFits(r1: Reg, r2: Reg, offset: int, pre: bool)
    requires if pre then -30 <= offset <= 0 else 0 <= offset <= 30
    ensures Fits(StoreIns(r1, r2, offset, pre))
  {
  }

  lemma LoadFits(r1: Reg, r2: Reg, offset: int, post: bool)
    requires 0 <= offset <= 30
    ensures Fits(LoadIns(r1, r2, offset, post))
  {
  }

  lemma {:induction false} StoresEncodable(regs: seq<Reg>, p: int, skipLR: bool)
    requires |regs| <= 30 && p + 1 < |regs|
    ensures Encodable(StoresDown(regs, p, skipLR))
    decreases p + 2
  {
    hide Fits, StoreIns;
    if p >= 0 {
      StoreFits(regs[p], regs[p + 1], |regs| - p - 2, false);
      StoresEncodable(regs, p - 2, skipLR);
    }
  }

  lemma {:induction false} LoadsEncodable(regs: seq<Reg>, p: nat)
    requires |regs| <= 30
    ensures Encodable(LoadsUp(regs, p))
    decreases |regs| - p
  {
    hide Fits, LoadIns;
    if p + 2 < |regs| {
      LoadFits(regs[p], regs[p + 1], |regs| - p - 2, false);
      LoadsEncodable(regs, p + 2);
    }
  }

  lemma EncodableJoin(x: seq<Ins>, y: seq<Ins>)
    requires Encodable(x) && Encodable(y)
    ensures Encodable(x + y)
  {
    hide Fits;
  }

  lemma EncodableOne(i: Ins)
    requires Fits(i)
    ensures Encodable([i])
  {
    hide Fits;
  }

  // Up to 30 positions every offset emitted fits its instruction: inline ...
  lemma InlineEncodable(regs: seq<Reg>)
    requires SaveList(regs) && |regs| <= 30
    ensures Encodable(InlineProlog(regs)) && Encodable(Loads(regs))
  {
    hide Encodable, Fits, StoresDown, LoadsUp, StoreIns, LoadIns, SaveList;
    PairsOK(regs);
    var n := |regs|;
    StoresEncodable(regs, n - 4, false);
    LoadsEncodable(regs, 0);
    StoreFits(regs[n - 2], regs[n - 1], -n, true);
    LoadFits(regs[n - 2], regs[n - 1], n, true);
    EncodableOne(StoreIns(regs[n - 2], regs[n - 1], -n, true));
    EncodableOne(LoadIns(regs[n - 2], regs[n - 1], n, true));
    EncodableJoin([StoreIns(regs[n - 2], regs[n - 1], -n, true)], StoresDown(regs, n - 4, false));
    EncodableJoin(LoadsUp(regs, 0), [LoadIns(regs[n - 2], regs[n - 1], n, true)]);
  }

  // ... and through helpers.
  lemma HelperEncodable(regs: seq<Reg>, kind: Helper)
    requires SaveList(regs) && SavesLR(regs) && |regs| <= 30
    ensures |regs| >= 2 && Encodable([StoreIns(LR, FP, -2 - FindLR(regs), true)]) && Encodable(Body(kind, regs))
  {
    hide Encodable, Fits, StoresDown, Loads, StoreIns, SavesLR, SaveList, HelperStores, FindLR, InlineProlog;
    PairsOK(regs);
    LRPlace(regs);
    HelperStoresShape(regs);
    InlineEncodable(regs);
    var i: int, n := FindLR(regs), |regs|;
    StoreFits(LR, FP, -2 - i, true);
    EncodableOne(StoreIns(LR, FP, -2 - i, true));
    StoresEncodable(regs, n - 4, true);
    if i != n - 2 {
      StoreFits(regs[n - 2], regs[n - 1], i - n + 2, true);
      EncodableOne(StoreIns(regs[n - 2], regs[n - 1], i - n + 2, true));
      EncodableJoin([StoreIns(regs[n - 2], regs[n - 1], i - n + 2, true)], StoresDown(regs, n - 4, true));
    }
    AroundEncodable(HelperStores(regs), kind);
    AroundEncodable(Loads(regs), kind);
  }

  lemma AroundEncodable(code: seq<Ins>, kind: Helper)
    requires Encodable(code)
    ensures Encodable(code + [Ret(LR)]) && Encodable([MovX16LR] + code + [Ret(X16)])
    ensures kind.PrologFrame? ==> Encodable(code + [AddFp(kind.fpOffset)] + [Ret(LR)])
  {
  }
}
