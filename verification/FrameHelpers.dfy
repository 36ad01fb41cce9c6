/** Lowering HOM_Prolog and HOM_Epilog, inline or through frame helpers shared by name. */
module FrameHelpers {
  import opened FrameCode
  import opened Options

  // ----- Names -----

  function Printed(regs: seq<Reg>): seq<Reg> {
    if regs == [] then [] else if regs[0] == NO_REGISTER then Printed(regs[1..]) else [regs[0]] + Printed(regs[1..])
  }

  lemma {:induction false} PrintedFull(regs: seq<Reg>)
    requires NO_REGISTER !in regs
    ensures Printed(regs) == regs
  {
    if regs != [] { PrintedFull(regs[1..]); }
  }

  lemma {:induction false} PrintedWithout(regs: seq<Reg>, p: nat)
    requires p < |regs| && regs[p] == NO_REGISTER && NO_REGISTER !in regs[..p] && NO_REGISTER !in regs[p + 1..]
    ensures Printed(regs) == regs[..p] + regs[p + 1..]
  {
    if p == 0 {
      PrintedFull(regs[1..]);
    } else {
      assert regs[1..][..p - 1] == regs[..p][1..] && regs[1..][p..] == regs[p + 1..];
      assert regs[0] == regs[..p][0];
      PrintedWithout(regs[1..], p - 1);
      assert [regs[0]] + (regs[1..][..p - 1] + regs[1..][p..]) == regs[..p] + regs[p + 1..];
    }
  }

  // ----- Code -----

  function FindLR(regs: seq<Reg>): (i: nat)
    ensures i <= |regs| && (i < |regs| ==> regs[i] == LR) && forall j | 0 <= j < i :: regs[j] != LR
  {
    if regs == [] || regs[0] == LR then 0 else FindLR(regs[1..]) + 1
  }

  // LR at an even index and FP next to it.
  predicate SavesLR(regs: seq<Reg>) {
    FindLR(regs) + 1 < |regs| && FindLR(regs) % 2 == 0 && regs[FindLR(regs) + 1] == FP
  }

  // Offset stores for the pairs at p, p - 2, ..., 0.
  function StoresDown(regs: seq<Reg>, p: int, skipLR: bool): seq<Ins>
    requires p + 1 < |regs|
    decreases p + 2
  {
    if p < 0 then []
    else (if skipLR && regs[p] == LR then [] else [StoreIns(regs[p], regs[p + 1], |regs| - p - 2, false)]) + StoresDown(regs, p - 2, skipLR)
  }

  // The pairs at p, p + 2, ..., all but the last.
  function LoadsUp(regs: seq<Reg>, p: nat): seq<Ins>
    decreases |regs| - p
  {
    if p + 2 >= |regs| then [] else [LoadIns(regs[p], regs[p + 1], |regs| - p - 2, false)] + LoadsUp(regs, p + 2)
  }

  function Loads(regs: seq<Reg>): seq<Ins>
    requires |regs| >= 2
  {
    LoadsUp(regs, 0) + [LoadIns(regs[|regs| - 2], regs[|regs| - 1], |regs|, true)]
  }

  function InlineProlog(regs: seq<Reg>): seq<Ins>
    requires |regs| >= 2
  {
    [StoreIns(regs[|regs| - 2], regs[|regs| - 1], -|regs|, true)] + StoresDown(regs, |regs| - 4, false)
  }

  // Everything but LR and FP, which the call site has stored.
  function HelperStores(regs: seq<Reg>): seq<Ins>
    requires |regs| >= 2
  {
    (if FindLR(regs) != |regs| - 2 then [StoreIns(regs[|regs| - 2], regs[|regs| - 1], FindLR(regs) - |regs| + 2, true)] else [])
    + StoresDown(regs, |regs| - 4, true)
  }

  function Body(kind: Helper, regs: seq<Reg>): seq<Ins>
    requires |regs| >= 2
  {
    match kind
    case Prolog => HelperStores(regs) + [Ret(LR)]
    case PrologFrame(fpOffset) => HelperStores(regs) + [AddFp(fpOffset)] + [Ret(LR)]
    case Epilog => [MovX16LR] + Loads(regs) + [Ret(X16)]
    case EpilogTail => Loads(regs) + [Ret(LR)]
  }

  // shouldUseFrameHelper. `x16Live`: X16 is read later; `thenReturns`: a return follows.
  predicate ShouldUseFrameHelper(regs: seq<Reg>, kind: Helper, threshold: int, x16Live: bool, thenReturns: bool) {
    var n := |regs| / 2;
    LR in regs &&
    match kind
    case Prolog => n - 1 >= threshold
    case PrologFrame(_) => n >= threshold
    case Epilog => !x16Live && n >= threshold
    case EpilogTail => thenReturns && n + 1 >= threshold
  }

  function PrologKind(fpOffset: Option<int>): Helper {
    match fpOffset case Some(o) => PrologFrame(o) case None => Prolog
  }

  function SetFp(fpOffset: Option<int>): seq<Ins> {
    match fpOffset case Some(o) => [AddFp(o)] case None => []
  }

  // What replaces HOM_Prolog ...
  function PrologCode(threshold: int, regs: seq<Reg>, fpOffset: Option<int>): seq<Ins>
    requires |regs| >= 2
  {
    var kind := PrologKind(fpOffset);
    if ShouldUseFrameHelper(regs, kind, threshold, false, false) then
      [StoreIns(LR, FP, -2 - FindLR(regs), true), Bl(Name(kind, Printed(regs)))]
    else
      InlineProlog(regs) + SetFp(fpOffset)
  }

  // ... with the helper it calls being the one for these registers.
  ghost predicate PrologSite(helpers: map<Name, seq<Ins>>, threshold: int, regs: seq<Reg>, fpOffset: Option<int>, code: seq<Ins>)
    requires |regs| >= 2
  {
    var kind := PrologKind(fpOffset);
    var name := Name(kind, Printed(regs));
    && code == PrologCode(threshold, regs, fpOffset)
    && (ShouldUseFrameHelper(regs, kind, threshold, false, false) ==>
          SavesLR(regs) && name in helpers && helpers[name] == Body(kind, regs))
  }

  // The kind of helper HOM_Epilog uses, if any.
  function EpilogKind(threshold: int, regs: seq<Reg>, x16Live: bool, thenReturns: bool): Option<Helper> {
    if ShouldUseFrameHelper(regs, EpilogTail, threshold, x16Live, thenReturns) then Some(EpilogTail)
    else if ShouldUseFrameHelper(regs, Epilog, threshold, x16Live, thenReturns) then Some(Epilog)
    else None
  }

  // What replaces HOM_Epilog; the tail call takes over the return after it.
  function EpilogCode(threshold: int, regs: seq<Reg>, x16Live: bool, thenReturns: bool): seq<Ins>
    requires |regs| >= 2
  {
    match EpilogKind(threshold, regs, x16Live, thenReturns)
    case Some(EpilogTail) => [TailCall(Name(EpilogTail, Printed(regs)))]
    case Some(kind) => [Bl(Name(kind, Printed(regs)))]
    case None => Loads(regs)
  }

  ghost predicate EpilogSite(helpers: map<Name, seq<Ins>>, threshold: int, regs: seq<Reg>, x16Live: bool, thenReturns: bool,
                             code: seq<Ins>, takesReturn: bool)
    requires |regs| >= 2
  {
    var kind := EpilogKind(threshold, regs, x16Live, thenReturns);
    && code == EpilogCode(threshold, regs, x16Live, thenReturns) && (takesReturn <==> kind == Some(EpilogTail))
    && (kind.Some? ==> Name(kind.value, Printed(regs)) in helpers && helpers[Name(kind.value, Printed(regs))] == Body(kind.value, regs))
  }

  // ----- When a helper pays -----

  lemma {:induction false} StoresLength(regs: seq<Reg>, p: int)
    requires -2 <= p && p + 1 < |regs| && p % 2 == 0
    ensures |StoresDown(regs, p, false)| == p / 2 + 1
    decreases p + 2
  {
    if p >= 0 { StoresLength(regs, p - 2); }
  }

  lemma {:induction false} LoadsLength(regs: seq<Reg>, p: nat)
    requires p + 2 <= |regs| && p % 2 == |regs| % 2
    ensures |LoadsUp(regs, p)| == (|regs| - p) / 2 - 1
    decreases |regs| - p
  {
    if p + 2 < |regs| { LoadsLength(regs, p + 2); }
  }

  // A prolog calls a helper exactly when LR is saved and all but one of its instructions are as many as the threshold.
  lemma PrologPays(threshold: int, regs: seq<Reg>, fpOffset: Option<int>)
    requires |regs| >= 2 && |regs| % 2 == 0
    ensures var inline, code := InlineProlog(regs) + SetFp(fpOffset), PrologCode(threshold, regs, fpOffset);
            if LR in regs && |inline| - 1 >= threshold then |code| == 2 && code[1] == Bl(Name(PrologKind(fpOffset), Printed(regs))) else code == inline
  {
    StoresLength(regs, |regs| - 4);
  }

  // An epilog does when LR is saved and its instructions are as many as the threshold: with the return counted when
  // one follows, and else while X16 is free.
  lemma EpilogPays(threshold: int, regs: seq<Reg>, x16Live: bool, thenReturns: bool)
    requires |regs| >= 2 && |regs| % 2 == 0
    ensures var inline, code := Loads(regs), EpilogCode(threshold, regs, x16Live, thenReturns);
            if LR in regs && thenReturns && |inline| + 1 >= threshold then code == [TailCall(Name(EpilogTail, Printed(regs)))]
            else if LR in regs && !x16Live && |inline| >= threshold then code == [Bl(Name(Epilog, Printed(regs)))]
            else code == inline
  {
    LoadsLength(regs, 0);
  }

  // ----- A helper's code determines its list -----

  lemma StoreInsRegs(a: Reg, b: Reg, o: int, pre: bool, c: Reg, d: Reg, o': int, pre': bool)
    requires StoreIns(a, b, o, pre) == StoreIns(c, d, o', pre')
    ensures a == c && b == d && o == o' && pre == pre'
  {
  }

  lemma PreDiffers(a: Reg, b: Reg, o: int, c: Reg, d: Reg, o': int)
    ensures StoreIns(a, b, o, false) != StoreIns(c, d, o', true)
  {
  }

  lemma LoadInsRegs(a: Reg, b: Reg, o: int, c: Reg, d: Reg, o': int, post: bool)
    requires LoadIns(a, b, o, post) == LoadIns(c, d, o', post)
    ensures a == c && b == d
  {
  }

  lemma {:induction false} StoresCount(regs: seq<Reg>, p: int)
    requires SaveList(regs) && SavesLR(regs) && p % 2 == 0 && -2 <= p && p + 1 < |regs|
    ensures |StoresDown(regs, p, true)| == p / 2 + 1 - if FindLR(regs) <= p then 1 else 0
    decreases p + 2
  {
    hide StoreIns, PositionOK;
    if p >= 0 {
      StoresCount(regs, p - 2);
      if regs[p] == LR { OnceOnly(regs, p); FindIs(regs, p); }
    }
  }

  // The first store of a run is at least as far up as its pair.
  lemma {:induction false} StoresHead(regs: seq<Reg>, p: int) returns (a: Reg, b: Reg, o: int)
    requires p + 1 < |regs| && StoresDown(regs, p, true) != []
    ensures o >= |regs| - p - 2 && StoresDown(regs, p, true)[0] == StoreIns(a, b, o, false)
    decreases p + 2
  {
    hide StoreIns;
    if regs[p] == LR {
      a, b, o := StoresHead(regs, p - 2);
    } else {
      a, b, o := regs[p], regs[p + 1], |regs| - p - 2;
    }
  }

  lemma {:induction false} StoresDetermine(x: seq<Reg>, y: seq<Reg>, p: int)
    requires SaveList(x) && SavesLR(x) && SaveList(y) && SavesLR(y) && |x| == |y|
    requires p % 2 == 0 && -2 <= p && p + 1 < |x| && StoresDown(x, p, true) == StoresDown(y, p, true)
    ensures x[..p + 2] == y[..p + 2]
    decreases p + 2
  {
    hide StoreIns, SaveList, SavesLR;
    if p >= 0 {
      if x[p] == LR && y[p] == LR {
        StoresSkip(x, p);
        StoresSkip(y, p);
        StoresDetermine(x, y, p - 2);
        AfterLR(x, p);
        AfterLR(y, p);
      } else if x[p] == LR {
        LaterHead(x, y, p);
      } else if y[p] == LR {
        LaterHead(y, x, p);
      } else {
        StoresCons(x, p);
        StoresCons(y, p);
        StoreInsRegs(x[p], x[p + 1], |x| - p - 2, false, y[p], y[p + 1], |y| - p - 2, false);
        StoresDetermine(x, y, p - 2);
      }
      assert x[..p + 2] == x[..p] + [x[p], x[p + 1]] && y[..p + 2] == y[..p] + [y[p], y[p + 1]];
    }
  }

  lemma AfterLR(regs: seq<Reg>, p: nat)
    requires SaveList(regs) && SavesLR(regs) && p + 1 < |regs| && regs[p] == LR
    ensures regs[p + 1] == FP
  {
    OnceOnly(regs, p);
    FindIs(regs, p);
  }

  lemma StoresCons(regs: seq<Reg>, p: nat)
    requires p + 1 < |regs| && regs[p] != LR
    ensures var all := StoresDown(regs, p, true);
            all != [] && all[0] == StoreIns(regs[p], regs[p + 1], |regs| - p - 2, false) && all[1..] == StoresDown(regs, p - 2, true)
  {
    hide StoreIns;
    var all := [StoreIns(regs[p], regs[p + 1], |regs| - p - 2, false)] + StoresDown(regs, p - 2, true);
    assert all == StoresDown(regs, p, true) && all[1..] == StoresDown(regs, p - 2, true);
  }

  lemma StoresSkip(regs: seq<Reg>, p: nat)
    requires p + 1 < |regs| && regs[p] == LR
    ensures StoresDown(regs, p, true) == StoresDown(regs, p - 2, true)
  {
    hide StoreIns;
    assert [] + StoresDown(regs, p - 2, true) == StoresDown(regs, p - 2, true);
  }

  lemma LaterHead(x: seq<Reg>, y: seq<Reg>, p: nat)
    requires |x| == |y| && p + 1 < |x| && x[p] == LR && y[p] != LR
    ensures StoresDown(x, p, true) != StoresDown(y, p, true)
  {
    hide StoreIns;
    StoresCons(y, p);
    assert StoresDown(x, p, true) == StoresDown(x, p - 2, true);
    if StoresDown(x, p - 2, true) != [] {
      var a, b, o := StoresHead(x, p - 2);
      if StoreIns(a, b, o, false) == StoreIns(y[p], y[p + 1], |y| - p - 2, false) {
        StoreInsRegs(a, b, o, false, y[p], y[p + 1], |y| - p - 2, false);
      }
    }
  }

  lemma {:induction false} LoadsCount(regs: seq<Reg>, p: nat)
    requires |regs| % 2 == 0 && p % 2 == 0 && p + 2 <= |regs|
    ensures |LoadsUp(regs, p)| == (|regs| - p) / 2 - 1
    decreases |regs| - p
  {
    hide LoadIns;
    if p + 2 < |regs| { LoadsCount(regs, p + 2); }
  }

  lemma LoadsCons(regs: seq<Reg>, p: nat)
    requires p + 2 < |regs|
    ensures var all := LoadsUp(regs, p);
            all != [] && all[0] == LoadIns(regs[p], regs[p + 1], |regs| - p - 2, false) && all[1..] == LoadsUp(regs, p + 2)
  {
    hide LoadIns;
    var all := [LoadIns(regs[p], regs[p + 1], |regs| - p - 2, false)] + LoadsUp(regs, p + 2);
    assert all == LoadsUp(regs, p) && all[1..] == LoadsUp(regs, p + 2);
  }

  lemma {:induction false} LoadsDetermine(x: seq<Reg>, y: seq<Reg>, p: nat)
    requires |x| == |y| && |x| % 2 == 0 && p % 2 == 0 && p + 2 <= |x| && LoadsUp(x, p) == LoadsUp(y, p)
    ensures x[p..|x| - 2] == y[p..|x| - 2]
    decreases |x| - p
  {
    hide LoadIns;
    if p + 2 < |x| {
      LoadsCons(x, p);
      LoadsCons(y, p);
      LoadInsRegs(x[p], x[p + 1], |x| - p - 2, y[p], y[p + 1], |y| - p - 2, false);
      LoadsDetermine(x, y, p + 2);
      assert x[p..|x| - 2] == [x[p], x[p + 1]] + x[p + 2..|x| - 2] && y[p..|x| - 2] == [y[p], y[p + 1]] + y[p + 2..|x| - 2];
    }
  }

  lemma LoadsParts(regs: seq<Reg>)
    requires |regs| >= 2 && |regs| % 2 == 0
    ensures var n, k := |regs|, |Loads(regs)| - 1;
            && k == n / 2 - 1 && Loads(regs)[..k] == LoadsUp(regs, 0)
            && Loads(regs)[k] == LoadIns(regs[n - 2], regs[n - 1], n, true)
  {
    LoadsCount(regs, 0);
    hide LoadIns, LoadsUp;
  }

  lemma AllLoadsDetermine(x: seq<Reg>, y: seq<Reg>)
    requires |x| >= 2 && |y| >= 2 && |x| % 2 == 0 && |y| % 2 == 0 && Loads(x) == Loads(y)
    ensures x == y
  {
    hide *;
    LoadsParts(x);
    LoadsParts(y);
    var n := |x|;
    assert |y| == n;
    LoadsDetermine(x, y, 0);
    LoadInsRegs(x[n - 2], x[n - 1], n, y[n - 2], y[n - 1], n, true);
    assert x == x[0..n - 2] + [x[n - 2], x[n - 1]] && y == y[0..n - 2] + [y[n - 2], y[n - 1]];
  }

  lemma HelperCount(regs: seq<Reg>)
    requires SaveList(regs) && SavesLR(regs) && |regs| >= 2 && |regs| % 2 == 0
    ensures |HelperStores(regs)| == |regs| / 2 - 1
  {
    StoresCount(regs, |regs| - 4);
    hide StoresDown, SaveList, StoreIns;
    assert FindLR(regs) <= |regs| - 2;
  }

  lemma HelperStoresDetermine(x: seq<Reg>, y: seq<Reg>)
    requires SaveList(x) && SavesLR(x) && SaveList(y) && SavesLR(y)
    requires |x| >= 2 && |y| >= 2 && |x| % 2 == 0 && |y| % 2 == 0 && HelperStores(x) == HelperStores(y)
    ensures x == y
  {
    hide *;
    HelperCount(x);
    HelperCount(y);
    TopAgrees(x, y);
    var n := |x|;
    StoresDetermine(x, y, n - 4);
    assert x == x[..n - 2] + [x[n - 2], x[n - 1]] && y == y[..n - 2] + [y[n - 2], y[n - 1]];
  }

  lemma TopAgrees(x: seq<Reg>, y: seq<Reg>)
    requires SaveList(x) && SavesLR(x) && SaveList(y) && SavesLR(y)
    requires |x| == |y| >= 2 && |x| % 2 == 0 && HelperStores(x) == HelperStores(y)
    ensures x[|x| - 2] == y[|x| - 2] && x[|x| - 1] == y[|x| - 1]
    ensures StoresDown(x, |x| - 4, true) == StoresDown(y, |x| - 4, true)
  {
    var n := |x|;
    hide SaveList, StoreIns, StoresDown;
    var i, j := FindLR(x), FindLR(y);
    if i == n - 2 && j == n - 2 {
      assert HelperStores(x) == StoresDown(x, n - 4, true) && HelperStores(y) == StoresDown(y, n - 4, true);
    } else if i == n - 2 {
      TopDiffers(x, y);
    } else if j == n - 2 {
      TopDiffers(y, x);
    } else {
      TopFirst(x);
      TopFirst(y);
      StoreInsRegs(x[n - 2], x[n - 1], i - n + 2, true, y[n - 2], y[n - 1], j - n + 2, true);
    }
  }

  lemma TopFirst(regs: seq<Reg>)
    requires |regs| >= 2 && FindLR(regs) != |regs| - 2
    ensures var n, all := |regs|, HelperStores(regs);
            && all != [] && all[0] == StoreIns(regs[n - 2], regs[n - 1], FindLR(regs) - n + 2, true)
            && all[1..] == StoresDown(regs, n - 4, true)
  {
    hide StoreIns, StoresDown;
  }

  lemma TopDiffers(x: seq<Reg>, y: seq<Reg>)
    requires |x| == |y| >= 2 && FindLR(x) == |x| - 2 != FindLR(y)
    ensures HelperStores(x) != HelperStores(y)
  {
    TopFirst(y);
    hide StoreIns;
    var n := |x|;
    assert HelperStores(x) == StoresDown(x, n - 4, true);
    var c, d := y[n - 2], y[n - 1];
    if StoresDown(x, n - 4, true) != [] {
      var a, b, o := StoresHead(x, n - 4);
      PreDiffers(a, b, o, c, d, FindLR(y) - n + 2);
    }
  }

  // Different lists need different helpers, of every kind.
  lemma BodyDetermines(kind: Helper, x: seq<Reg>, y: seq<Reg>)
    requires SaveList(x) && SavesLR(x) && SaveList(y) && SavesLR(y)
    requires |x| >= 2 && |y| >= 2 && Body(kind, x) == Body(kind, y)
    ensures x == y
  {
    PairsOK(x);
    PairsOK(y);
    hide SaveList, SavesLR, Loads, HelperStores;
    var c, d := Body(kind, x), Body(kind, y);
    match kind
    case Prolog =>
      assert c[..|c| - 1] == HelperStores(x) && d[..|c| - 1] == HelperStores(y);
      HelperStoresDetermine(x, y);
    case PrologFrame(_) =>
      assert c[..|c| - 2] == HelperStores(x) && d[..|c| - 2] == HelperStores(y);
      HelperStoresDetermine(x, y);
    case Epilog =>
      assert c[1..|c| - 1] == Loads(x) && d[1..|c| - 1] == Loads(y);
      AllLoadsDetermine(x, y);
    case EpilogTail =>
      assert c[..|c| - 1] == Loads(x) && d[..|c| - 1] == Loads(y);
      AllLoadsDetermine(x, y);
  }

  // ----- Names and lists -----

  lemma {:induction false} PrintedJoin(x: seq<Reg>, y: seq<Reg>)
    ensures Printed(x + y) == Printed(x) + Printed(y)
  {
    if x == [] {
      assert x + y == y;
    } else {
      assert (x + y)[1..] == x[1..] + y;
      PrintedJoin(x[1..], y);
    }
  }

  lemma {:induction false} PrintedMembers(regs: seq<Reg>)
    ensures forall r :: r in Printed(regs) <==> r in regs && r != NO_REGISTER
  {
    if regs != [] { PrintedMembers(regs[1..]); }
  }

  // Which slots are empty.
  function Shape(regs: seq<Reg>): seq<bool> {
    if regs == [] then [] else [regs[0] == NO_REGISTER] + Shape(regs[1..])
  }

  // Lists with one name differ exactly when their empty slots do.
  lemma {:induction false} SameNameSameShape(x: seq<Reg>, y: seq<Reg>)
    requires Printed(x) == Printed(y)
    ensures x == y <==> Shape(x) == Shape(y)
  {
    if x != [] && y != [] && Shape(x) == Shape(y) {
      assert Shape(x)[0] == Shape(y)[0] && Shape(x)[1..] == Shape(x[1..]) && Shape(y)[1..] == Shape(y[1..]);
      if x[0] != NO_REGISTER {
        assert Printed(x)[0] == Printed(y)[0] && Printed(x)[1..] == Printed(x[1..]) && Printed(y)[1..] == Printed(y[1..]);
      }
      SameNameSameShape(x[1..], y[1..]);
      assert x == [x[0]] + x[1..] && y == [y[0]] + y[1..];
    }
  }

  predicate OnlyFloats(regs: seq<Reg>, p: nat) {
    forall q | p < q < |regs| :: IsFloat(regs[q])
  }

  // Every empty slot comes right before LR, or has only floats after it.
  ghost predicate GapsFixed(regs: seq<Reg>) {
    forall p | 0 <= p < |regs| && regs[p] == NO_REGISTER ::
      (p + 1 < |regs| && regs[p + 1] == LR) || OnlyFloats(regs, p)
  }

  // Where the gap of a list is, or its length.
  function Gap(regs: seq<Reg>): (p: nat)
    ensures p <= |regs| && NO_REGISTER !in regs[..p] && (p < |regs| ==> regs[p] == NO_REGISTER)
  {
    if regs == [] || regs[0] == NO_REGISTER then 0
    else
      assert regs[..Gap(regs[1..]) + 1] == [regs[0]] + regs[1..][..Gap(regs[1..])];
      Gap(regs[1..]) + 1
  }

  // The only gap is beside a general register and before the floats.
  ghost predicate FloatTail(regs: seq<Reg>) {
    && |regs| % 2 == 0
    && forall p | 0 <= p < |regs| && regs[p] == NO_REGISTER ::
         p > 0 && !IsFloat(regs[p - 1]) && OnlyFloats(regs, p)
  }

  lemma TailFacts(regs: seq<Reg>)
    requires FloatTail(regs)
    ensures var p := Gap(regs);
            if p == |regs| then Printed(regs) == regs
            else p > 0 && !IsFloat(regs[p - 1]) && (forall q | p < q < |regs| :: IsFloat(regs[q]))
                 && Printed(regs) == regs[..p] + regs[p + 1..]
  {
    hide Gap, Printed;
    var p := Gap(regs);
    if p == |regs| {
      assert regs[..p] == regs;
      PrintedFull(regs);
    } else {
      assert forall q | p < q < |regs| :: IsFloat(regs[q]) && regs[q] != NO_REGISTER;
      PrintedWithout(regs, p);
    }
  }

  lemma TailDetermined(x: seq<Reg>, y: seq<Reg>)
    requires FloatTail(x) && FloatTail(y) && Printed(x) == Printed(y)
    ensures x == y
  {
    hide *;
    TailFacts(x);
    TailFacts(y);
    TailEven(x);
    TailEven(y);
    var p, q := Gap(x), Gap(y);
    if p < |x| && q < |y| {
      assert |x| == |y|;
      if p < q { GapsAgree(x, y, p, q); }
      if q < p { GapsAgree(y, x, q, p); }
      Rejoin(x, p);
      Rejoin(y, p);
    }
  }

  lemma TailEven(regs: seq<Reg>)
    requires FloatTail(regs)
    ensures |regs| % 2 == 0 && (Gap(regs) < |regs| ==> regs[Gap(regs)] == NO_REGISTER)
  {
  }

  lemma Rejoin(regs: seq<Reg>, p: nat)
    requires p < |regs| && regs[p] == NO_REGISTER
    ensures var z := regs[..p] + regs[p + 1..]; regs == z[..p] + [NO_REGISTER] + z[p..]
  {
  }

  lemma GapsAgree(x: seq<Reg>, y: seq<Reg>, p: nat, q: nat)
    requires p < q < |y| && |x| == |y| && x[..p] + x[p + 1..] == y[..q] + y[q + 1..]
    requires forall j | p < j < |x| :: IsFloat(x[j])
    ensures IsFloat(y[q - 1])
  {
    assert (y[..q] + y[q + 1..])[q - 1] == y[q - 1];
    assert (x[..p] + x[p + 1..])[q - 1] == x[q];
  }

  lemma GapAt(regs: seq<Reg>, p: nat)
    requires SaveList(regs) && GapsFixed(regs) && p < |regs| && regs[p] == NO_REGISTER
    ensures p > 0 && !IsFloat(regs[p - 1]) && (OnlyFloats(regs, p) || p + 1 == FindLR(regs) < |regs|)
  {
    assert PositionOK(regs, p);
    assert PositionOK(regs, p - 1);
    hide OnlyFloats, FindLR;
    if !OnlyFloats(regs, p) {
      OnceOnly(regs, p + 1);
      FindIs(regs, p + 1);
    }
  }

  lemma OnceOnly(regs: seq<Reg>, p: nat)
    requires SaveList(regs) && p < |regs| && regs[p] == LR
    ensures forall j | 0 <= j < p :: regs[j] != LR
  {
    hide PositionOK;
  }

  // Before LR only the last slot may be empty ...
  lemma HeadGap(regs: seq<Reg>, p: nat)
    requires SaveList(regs) && GapsFixed(regs) && LR in regs && p + 1 < FindLR(regs)
    ensures p < |regs| && regs[p] != NO_REGISTER
  {
    FindsLR(regs);
    hide SaveList, GapsFixed, FindLR;
    assert regs[FindLR(regs)] == LR;
    if regs[p] == NO_REGISTER { GapAt(regs, p); }
  }

  // ... and from LR on only the one before the floats.
  lemma TailGaps(regs: seq<Reg>, i: nat)
    requires SaveList(regs) && GapsFixed(regs) && i <= |regs| && i % 2 == 0
    requires i == FindLR(regs) || LR !in regs
    ensures FloatTail(regs[i..])
  {
    hide *;
    FindsLR(regs);
    PairsOK(regs);
    var t := regs[i..];
    forall p | 0 <= p < |t| && t[p] == NO_REGISTER ensures p > 0 && !IsFloat(t[p - 1]) && OnlyFloats(t, p) {
      GapAt(regs, p + i);
      if p == 0 { HeadNotEmpty(regs, i); }
      FloatsShift(regs, i, p);
    }
    IsFloatTail(t);
  }

  lemma IsFloatTail(regs: seq<Reg>)
    requires |regs| % 2 == 0
    requires forall p | 0 <= p < |regs| && regs[p] == NO_REGISTER :: p > 0 && !IsFloat(regs[p - 1]) && OnlyFloats(regs, p)
    ensures FloatTail(regs)
  {
    hide OnlyFloats;
  }

  lemma FloatsShift(regs: seq<Reg>, i: nat, p: nat)
    requires i + p < |regs| && OnlyFloats(regs, p + i)
    ensures OnlyFloats(regs[i..], p)
  {
  }

  lemma HeadNotEmpty(regs: seq<Reg>, i: nat)
    requires SaveList(regs) && i < |regs| && i % 2 == 0
    ensures regs[i] != NO_REGISTER
  {
    assert PositionOK(regs, i);
  }

  lemma {:induction false} FindsLR(regs: seq<Reg>)
    ensures FindLR(regs) < |regs| <==> LR in regs
    ensures LR !in regs[..FindLR(regs)]
  {
  }

  lemma BeforeLR(z: seq<Reg>)
    requires forall p | 0 <= p < |z| - 1 :: z[p] != NO_REGISTER
    ensures if |z| > 0 && z[|z| - 1] == NO_REGISTER then Printed(z) == z[..|z| - 1] else Printed(z) == z
  {
    if |z| > 0 && z[|z| - 1] == NO_REGISTER {
      PrintedWithout(z, |z| - 1);
      assert z[..|z| - 1] + z[|z|..] == z[..|z| - 1];
    } else {
      PrintedFull(z);
    }
  }

  // LR splits the name where it splits the list.
  lemma NameSplits(regs: seq<Reg>)
    requires SaveList(regs) && LR in regs && SavesLR(regs)
    ensures var i := FindLR(regs);
            && Printed(regs) == Printed(regs[..i]) + Printed(regs[i..])
            && FindLR(Printed(regs)) == |Printed(regs[..i])|
  {
    var i := FindLR(regs);
    FindsLR(regs);
    assert regs == regs[..i] + regs[i..];
    PrintedJoin(regs[..i], regs[i..]);
    PrintedMembers(regs[..i]);
    assert regs[i..][0] == LR;
    FindIs(Printed(regs), |Printed(regs[..i])|);
  }

  lemma {:induction false} FindIs(s: seq<Reg>, k: nat)
    requires k < |s| && s[k] == LR && forall j | 0 <= j < k :: s[j] != LR
    ensures FindLR(s) == k
  {
  }

  // Without that, one name stands for two layouts and two different helpers.
  lemma NameClash()
    ensures var x, y := [LR, FP, 19, NO_REGISTER, 20, 21], [LR, FP, 19, 20, 21, NO_REGISTER];
            && SaveList(x) && SavesLR(x) && SaveList(y) && SavesLR(y) && Printed(x) == Printed(y)
            && forall kind :: Body(kind, x) != Body(kind, y)
  {
    var x, y := [LR, FP, 19, NO_REGISTER, 20, 21], [LR, FP, 19, 20, 21, NO_REGISTER];
    PrintedWithout(x, 3);
    PrintedWithout(y, 5);
    assert x[3] != y[3];
    hide Body, Printed;
    forall kind ensures Body(kind, x) != Body(kind, y) {
      if Body(kind, x) == Body(kind, y) { BodyDetermines(kind, x, y); }
    }
  }

  // With the gaps fixed a name determines the list it was made from: the parity of LR's index tells whether
  // the slot before it is empty, and that of the length whether the one before the floats is.
  lemma NameDeterminesList(x: seq<Reg>, y: seq<Reg>)
    requires SaveList(x) && SaveList(y) && GapsFixed(x) && GapsFixed(y)
    requires (LR in x ==> SavesLR(x)) && (LR in y ==> SavesLR(y))
    requires Printed(x) == Printed(y)
    ensures x == y
  {
    hide *;
    LRInName(x, y);
    if LR in x {
      NameParts(x, y);
      var i, j := FindLR(x), FindLR(y);
      AtLR(x);
      AtLR(y);
      PrefixAgrees(x[..i], y[..j]);
      TailDetermined(x[i..], y[j..]);
      assert x == x[..i] + x[i..] && y == y[..j] + y[j..];
    } else {
      WithoutLR(x);
      WithoutLR(y);
      TailDetermined(x, y);
    }
  }

  lemma WithoutLR(regs: seq<Reg>)
    requires SaveList(regs) && GapsFixed(regs) && LR !in regs
    ensures FloatTail(regs)
  {
    hide *;
    TailGaps(regs, 0);
    assert regs[0..] == regs;
  }

  lemma NameParts(x: seq<Reg>, y: seq<Reg>)
    requires SaveList(x) && LR in x && SavesLR(x) && SaveList(y) && LR in y && SavesLR(y) && Printed(x) == Printed(y)
    ensures Printed(x[..FindLR(x)]) == Printed(y[..FindLR(y)]) && Printed(x[FindLR(x)..]) == Printed(y[FindLR(y)..])
  {
    hide *;
    NameSplits(x);
    NameSplits(y);
    var k := |Printed(x[..FindLR(x)])|;
    assert Printed(x)[..k] == Printed(x[..FindLR(x)]) && Printed(y)[..k] == Printed(y[..FindLR(y)]);
    assert Printed(x)[k..] == Printed(x[FindLR(x)..]) && Printed(y)[k..] == Printed(y[FindLR(y)..]);
  }

  lemma LRInName(x: seq<Reg>, y: seq<Reg>)
    requires Printed(x) == Printed(y)
    ensures LR in x <==> LR in y
  {
    PrintedMembers(x);
    PrintedMembers(y);
  }

  lemma AtLR(regs: seq<Reg>)
    requires SaveList(regs) && GapsFixed(regs) && LR in regs && SavesLR(regs)
    ensures var i := FindLR(regs);
            && i < |regs| && i % 2 == 0 && FloatTail(regs[i..])
            && var z := regs[..i]; if |z| > 0 && z[|z| - 1] == NO_REGISTER then Printed(z) == z[..|z| - 1] else Printed(z) == z
  {
    var i := FindLR(regs);
    FindsLR(regs);
    TailGaps(regs, i);
    hide SaveList, GapsFixed, FindLR, FloatTail, Printed;
    forall p | 0 <= p < |regs[..i]| - 1 ensures regs[..i][p] != NO_REGISTER { HeadGap(regs, p); }
    BeforeLR(regs[..i]);
  }

  lemma PrefixAgrees(z: seq<Reg>, w: seq<Reg>)
    requires |z| % 2 == 0 && |w| % 2 == 0 && Printed(z) == Printed(w)
    requires if |z| > 0 && z[|z| - 1] == NO_REGISTER then Printed(z) == z[..|z| - 1] else Printed(z) == z
    requires if |w| > 0 && w[|w| - 1] == NO_REGISTER then Printed(w) == w[..|w| - 1] else Printed(w) == w
    ensures z == w
  {
    hide Printed;
    assert |z| == |w|;
    if |z| > 0 {
      assert z == z[..|z| - 1] + [z[|z| - 1]] && w == w[..|w| - 1] + [w[|w| - 1]];
    }
  }

  // ----- The module being lowered -----

  ghost predicate MadeFor(name: Name, regs: seq<Reg>, code: seq<Ins>) {
    SaveList(regs) && SavesLR(regs) && name.printed == Printed(regs) && |regs| >= 2 && code == Body(name.kind, regs)
  }

  class Lowering {
    const threshold: int
    var helpers: map<Name, seq<Ins>>

    ghost var made: map<Name, seq<Reg>>   // the list each helper was made for

    ghost predicate Valid()
      reads this
    {
      && made.Keys == helpers.Keys
      && forall n | n in made :: MadeFor(n, made[n], helpers[n])
    }

    // The helper this list would get is yet to be made, or was made for it.
    ghost predicate Ours(kind: Helper, regs: seq<Reg>)
      reads this
    {
      var name := Name(kind, Printed(regs));
      name in made ==> made[name] == regs
    }

    ghost predicate AllFixed()
      reads this
    {
      forall n | n in made :: GapsFixed(made[n])
    }

    // If every list has its gaps fixed no helper is shared by mistake.
    lemma FixedIsOurs(kind: Helper, regs: seq<Reg>)
      requires Valid() && AllFixed() && SaveList(regs) && SavesLR(regs) && GapsFixed(regs)
      ensures Ours(kind, regs)
    {
      hide SaveList, SavesLR, GapsFixed, Body, Printed;
      var name := Name(kind, Printed(regs));
      if name in made {
        assert MadeFor(name, made[name], helpers[name]);
        NameDeterminesList(made[name], regs);
      }
    }

    constructor (t: int)
      ensures Valid() && AllFixed() && threshold == t && helpers == map[]
    {
      threshold := t;
      helpers := map[];
      made := map[];
    }

    method EmitLoads(b: Block, regs: seq<Reg>)
      requires SaveList(regs)
      modifies b
      ensures b.code == old(b.code) + Loads(regs)
    {
      hide LoadIns;
      var i := 0;
      while i < |regs| - 2
        invariant 0 <= i <= |regs| - 2 && i % 2 == 0
        invariant b.code + LoadsUp(regs, i) == old(b.code) + LoadsUp(regs, 0)
      {
        assert PositionOK(regs, i);
        ghost var before := b.code;
        b.EmitLoad(regs[i], regs[i + 1], |regs| - i - 2, false);
        assert before + LoadsUp(regs, i) == b.code + LoadsUp(regs, i + 2);
        i := i + 2;
      }
      assert PositionOK(regs, |regs| - 2);
      assert b.code == old(b.code) + LoadsUp(regs, 0);
      b.EmitLoad(regs[|regs| - 2], regs[|regs| - 1], |regs|, true);
    }

    method EmitStoresDown(b: Block, regs: seq<Reg>, skipLR: bool)
      requires SaveList(regs)
      modifies b
      ensures b.code == old(b.code) + StoresDown(regs, |regs| - 4, skipLR)
    {
      hide SaveList, StoreIns;
      PairsOK(regs);
      ghost var rest := StoresDown(regs, |regs| - 4, skipLR);
      var i := |regs| - 3;
      while i >= 0
        invariant -1 <= i < |regs| - 2 && i % 2 == 1
        invariant b.code + StoresDown(regs, i - 1, skipLR) == old(b.code) + rest
      {
        PairOK(regs, i - 1);
        ghost var before, tail := b.code, StoresDown(regs, i - 3, skipLR);
        if !(skipLR && regs[i - 1] == LR) {
          b.EmitStore(regs[i - 1], regs[i], |regs| - i - 1, false);
          assert before + ([StoreIns(regs[i - 1], regs[i], |regs| - i - 1, false)] + tail) == b.code + tail;
        } else {
          assert [] + tail == tail;
        }
        i := i - 2;
      }
      assert b.code + [] == b.code;
    }

    // The helper found under the name is the right one exactly when it was made for this list.
    method GetOrCreateFrameHelper(regs: seq<Reg>, kind: Helper) returns (name: Name)
      requires Valid() && SaveList(regs) && SavesLR(regs)
      modifies this
      ensures Valid() && name == Name(kind, Printed(regs)) && name in helpers && |regs| >= 2
      ensures helpers[name] == Body(kind, regs) <==> old(Ours(kind, regs))
      ensures made == if name in old(made) then old(made) else old(made)[name := regs]
      ensures forall n | n in old(helpers) :: n in helpers && helpers[n] == old(helpers)[n]
    {
      PairsOK(regs);
      hide SaveList, SavesLR, Printed, Body;
      name := Name(kind, Printed(regs));
      if name in helpers {
        assert MadeFor(name, made[name], helpers[name]);
        PairsOK(made[name]);
        if helpers[name] == Body(kind, regs) { BodyDetermines(kind, made[name], regs); }
        return;
      }
      var code := CreateFrameHelper(regs, kind);
      helpers := helpers[name := code];
      made := made[name := regs];
      assert MadeFor(name, regs, code);
    }

    method CreateFrameHelper(regs: seq<Reg>, kind: Helper) returns (code: seq<Ins>)
      requires SaveList(regs) && SavesLR(regs)
      ensures code == Body(kind, regs)
    {
      hide SaveList, StoreIns, LoadIns, Loads, StoresDown, PositionOK;
      PairsOK(regs);
      var b := new Block();
      if kind.Prolog? || kind.PrologFrame? {
        var lrIdx := FindLR(regs);
        if lrIdx != |regs| - 2 {
          b.EmitStore(regs[|regs| - 2], regs[|regs| - 1], lrIdx - |regs| + 2, true);
        }
        EmitStoresDown(b, regs, true);
        assert b.code == HelperStores(regs);
        if kind.PrologFrame? {
          b.Insert(AddFp(kind.fpOffset));
        }
        b.Insert(Ret(LR));
      } else {
        if kind.Epilog? {
          b.Insert(MovX16LR);
        }
        EmitLoads(b, regs);
        b.Insert(Ret(if kind.Epilog? then X16 else LR));
      }
      code := b.code;
    }

    // lowerProlog: the instructions that replace HOM_Prolog. `fpOffset` is its immediate operand, if any.
    method LowerProlog(regs: seq<Reg>, fpOffset: Option<int>) returns (b: Block)
      requires Valid() && SaveList(regs) && (LR in regs ==> SavesLR(regs))
      modifies this
      ensures Valid() && fresh(b) && |regs| >= 2 && b.code == PrologCode(threshold, regs, fpOffset)
      ensures PrologSite(helpers, threshold, regs, fpOffset, b.code) <==>
        (ShouldUseFrameHelper(regs, PrologKind(fpOffset), threshold, false, false) ==> old(Ours(PrologKind(fpOffset), regs)))
      ensures old(AllFixed()) && GapsFixed(regs) ==> AllFixed() && PrologSite(helpers, threshold, regs, fpOffset, b.code)
    {
      hide SaveList, StoreIns, StoresDown, Body, Printed, PositionOK, SavesLR, FindLR, GapsFixed, Ours, Valid;
      PairsOK(regs);
      b := new Block();
      var kind := PrologKind(fpOffset);
      if ShouldUseFrameHelper(regs, kind, threshold, false, false) {
        if AllFixed() && GapsFixed(regs) { FixedIsOurs(kind, regs); }
        b.EmitStore(LR, FP, -2 - FindLR(regs), true);
        var name := GetOrCreateFrameHelper(regs, kind);
        b.Insert(Bl(name));
      } else {
        b.EmitStore(regs[|regs| - 2], regs[|regs| - 1], -|regs|, true);
        EmitStoresDown(b, regs, false);
        if fpOffset.Some? {
          b.Insert(AddFp(fpOffset.value));
        }
      }
    }

    // lowerEpilog. `returns`: the return that follows is taken over by the helper.
    method LowerEpilog(regs: seq<Reg>, x16Live: bool, thenReturns: bool) returns (b: Block, takesReturn: bool)
      requires Valid() && SaveList(regs) && (LR in regs ==> SavesLR(regs))
      modifies this
      ensures Valid() && fresh(b)
      ensures takesReturn ==> thenReturns
      ensures |regs| >= 2 && b.code == EpilogCode(threshold, regs, x16Live, thenReturns)
      ensures var kind := EpilogKind(threshold, regs, x16Live, thenReturns);
        EpilogSite(helpers, threshold, regs, x16Live, thenReturns, b.code, takesReturn) <==>
          (kind.Some? ==> old(Ours(EpilogKind(threshold, regs, x16Live, thenReturns).value, regs)))
      ensures old(AllFixed()) && GapsFixed(regs) ==>
        AllFixed() && EpilogSite(helpers, threshold, regs, x16Live, thenReturns, b.code, takesReturn)
    {
      hide SaveList, Loads, Body, Printed, SavesLR, GapsFixed, Ours, Valid;
      PairsOK(regs);
      b := new Block();
      takesReturn := false;
      if ShouldUseFrameHelper(regs, EpilogTail, threshold, x16Live, thenReturns) {
        if AllFixed() && GapsFixed(regs) { FixedIsOurs(EpilogTail, regs); }
        var name := GetOrCreateFrameHelper(regs, EpilogTail);
        b.Insert(TailCall(name));
        takesReturn := true;
      } else if ShouldUseFrameHelper(regs, Epilog, threshold, x16Live, thenReturns) {
        if AllFixed() && GapsFixed(regs) { FixedIsOurs(Epilog, regs); }
        var name := GetOrCreateFrameHelper(regs, Epilog);
        b.Insert(Bl(name));
      } else {
        EmitLoads(b, regs);
      }
    }
  }

  lemma PairOK(regs: seq<Reg>, p: nat)
    requires SaveList(regs) && p % 2 == 0 && p < |regs|
    ensures p + 1 < |regs| && regs[p] != NO_REGISTER
    ensures regs[p + 1] != NO_REGISTER ==> IsFloat(regs[p]) == IsFloat(regs[p + 1])
    ensures IsFloat(regs[p]) ==> regs[p + 1] != NO_REGISTER
  {
    assert PositionOK(regs, p);
  }

  lemma PairsOK(regs: seq<Reg>)
    requires SaveList(regs)
    ensures |regs| >= 2 && |regs| % 2 == 0 && var p := |regs| - 2;
            && regs[p] != NO_REGISTER
            && (regs[p + 1] != NO_REGISTER ==> IsFloat(regs[p]) == IsFloat(regs[p + 1]))
            && (IsFloat(regs[p]) ==> regs[p + 1] != NO_REGISTER)
  {
    PairOK(regs, |regs| - 2);
  }
}
