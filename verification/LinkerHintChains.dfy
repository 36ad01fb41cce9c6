/** Every hint the collector reports, other than AdrpAdrp, is a def-use chain in which each link's
    result is read by the next link only. */
module LinkerHintChains {
  import opened LinkerHints

  // Operand shapes: the address-forming instructions touch only their two register operands, loads read
  // only their base, and operand 1 of a store is its base.
  predicate WellFormed(i: Instr) {
    && (i.opcode == ADRP ==> Redefs(i) == {i.op0} && Reads(i) <= {-1})
    && (i.opcode == ADDXri || IsLdrui(i) ==> Redefs(i) == {i.op0} && Reads(i) <= {i.op1, -1} && i.op1 in Reads(i))
    && (i.opcode == LiteralLoad || i.opcode == OtherLoad ==> Reads(i) <= {i.op1, -1})
    && (forall u | u in i.uses && u.no == 1 :: u.reg == i.op1)
  }

  ghost predicate WellFormedBlock(b: Block) {
    forall n | 0 <= n < |b| :: WellFormed(b[n])
  }

  // From n on, r is redefined before it is read, or the block ends and it is not live out.
  predicate Dead(b: Block, out: set<GPR>, n: nat, r: GPR)
    requires n <= |b|
    decreases |b| - n
  {
    if n == |b| then r !in out
    else r !in Reads(b[n]) && (r in Redefs(b[n]) || Dead(b, out, n + 1, r))
  }

  ghost predicate Quiet(b: Block, lo: nat, hi: nat, r: GPR) {
    forall n | lo <= n < hi && n < |b| :: r !in Reads(b[n]) && r !in Redefs(b[n])
  }

  // The value r holds before n is read by u, as its address operand, and by nothing else.
  ghost predicate SoleReader(b: Block, out: set<GPR>, n: nat, r: GPR, u: int) {
    && n <= u < |b| && b[u].op1 == r && r in Reads(b[u]) && Quiet(b, n, u, r)
    && (r in Redefs(b[u]) || Dead(b, out, u + 1, r))
  }

  // The result of d is read by u and by nothing else.
  ghost predicate Link(b: Block, out: set<GPR>, d: int, u: int) {
    0 <= d < |b| && b[d].op0 >= 0 && b[d].op0 in Redefs(b[d]) && SoleReader(b, out, d + 1, b[d].op0, u)
  }

  predicate IsLoad(b: Block, u: int) { 0 <= u < |b| && IsCandidateLoad(b[u]) }

  predicate IsStore(b: Block, u: int) { 0 <= u < |b| && b[u].opcode == StoreUi && !b[u].sameOps }

  predicate IsAddressAdd(b: Block, u: int) { 0 <= u < |b| && b[u].opcode == ADDXri && b[u].address }

  predicate IsGot(b: Block, u: int) { 0 <= u < |b| && IsGotLoad(b[u]) }

  // ----- The invariant of the walk -----

  // A candidate's state describes the chain that starts with the next reader of r.
  ghost predicate ChainFrom(b: Block, out: set<GPR>, n: nat, r: GPR, x: Info) {
    match x.kind
    case AdrpLdr => SoleReader(b, out, n, r, x.mi0) && IsLoad(b, x.mi0)
    case AdrpLdrGot => SoleReader(b, out, n, r, x.mi0) && IsGot(b, x.mi0)
    case AdrpAdd => SoleReader(b, out, n, r, x.mi0) && b[x.mi0].opcode == ADDXri
    case AdrpAddLdr => SoleReader(b, out, n, r, x.mi1) && IsAddressAdd(b, x.mi1) && Link(b, out, x.mi1, x.mi0) && IsLoad(b, x.mi0)
    case AdrpLdrGotLdr => SoleReader(b, out, n, r, x.mi1) && IsGot(b, x.mi1) && Link(b, out, x.mi1, x.mi0) && IsLoad(b, x.mi0)
    case AdrpLdrGotStr => SoleReader(b, out, n, r, x.mi1) && IsGot(b, x.mi1) && Link(b, out, x.mi1, x.mi0) && IsStore(b, x.mi0)
    case AdrpAddStr =>
      IsStore(b, x.mi0) &&
      if x.mi1 == -1 then SoleReader(b, out, n, r, x.mi0)
      else SoleReader(b, out, n, r, x.mi1) && IsAddressAdd(b, x.mi1) && Link(b, out, x.mi1, x.mi0)
    case AdrpAdrp => false
  }

  ghost predicate InfoOK(b: Block, out: set<GPR>, n: nat, r: GPR, x: Info)
    requires n <= |b|
  {
    && (x.multiUsers ==> x.oneUser)
    && (!x.oneUser ==> Dead(b, out, n, r))
    && (x.candidate ==> x.oneUser && !x.multiUsers && ChainFrom(b, out, n, r, x))
  }

  ghost predicate InfosOK(b: Block, out: set<GPR>, n: nat, m: Infos)
    requires n <= |b|
  {
    forall r: GPR | 0 <= r :: InfoOK(b, out, n, r, m[r])
  }

  // ----- One instruction, one register -----

  lemma SoleReaderEarlier(b: Block, out: set<GPR>, n: nat, r: GPR, u: int)
    requires n < |b| && SoleReader(b, out, n + 1, r, u) && r !in Reads(b[n]) && r !in Redefs(b[n])
    ensures SoleReader(b, out, n, r, u)
  {
  }

  lemma UntouchedOK(b: Block, out: set<GPR>, n: nat, r: GPR, x: Info)
    requires n < |b| && InfoOK(b, out, n + 1, r, x) && r !in Reads(b[n]) && r !in Redefs(b[n])
    ensures InfoOK(b, out, n, r, x)
  {
    hide Reads, Redefs, IsLoad, IsStore, IsAddressAdd, IsGot, Link, SoleReader;
    forall u | SoleReader(b, out, n + 1, r, u) ensures SoleReader(b, out, n, r, u) { SoleReaderEarlier(b, out, n, r, u); }
  }

  lemma ClobberedOK(b: Block, out: set<GPR>, n: nat, r: GPR, x: Info)
    requires n < |b| && r !in Reads(b[n]) && r in Redefs(b[n])
    ensures InfoOK(b, out, n, r, HandleClobber(x))
  {
  }

  // x is the state just after n's own redefinitions have been cleared.
  lemma UsedOK(b: Block, out: set<GPR>, n: nat, r: GPR, u: Use, x: Info)
    requires n < |b| && WellFormed(b[n]) && r >= 0 && u in b[n].uses && u.reg == r && r in Reads(b[n])
    requires (x.multiUsers ==> x.oneUser) && (!x.oneUser ==> r in Redefs(b[n]) || Dead(b, out, n + 1, r))
    requires x.candidate ==> x.oneUser
    ensures InfoOK(b, out, n, r, HandleUse(b[n], n, u, x))
  {
    hide Reads, Redefs;
    if !x.oneUser && HandleUse(b[n], n, u, x).candidate {
      assert b[n].op1 == r;
      assert SoleReader(b, out, n, r, n);
    }
  }

  // The use that counts for r.
  lemma {:induction false} UsesHandledAt(i: Instr, n: nat, m: Infos, k: nat, r: GPR) returns (u: Use)
    requires k <= |i.uses| && r >= 0
    ensures r !in ReadsUpTo(i, k) ==> UsesHandled(i, n, m, k)[r] == m[r]
    ensures r in ReadsUpTo(i, k) ==> u in i.uses && u.reg == r && UsesHandled(i, n, m, k)[r] == HandleUse(i, n, u, m[r])
  {
    hide HandleUse;
    if k == 0 {
      u := Use(0, r);
    } else {
      u := UsesHandledAt(i, n, m, k - 1, r);
      assert ReadsUpTo(i, k) == ReadsUpTo(i, k - 1) + {i.uses[k - 1].reg};
      if r !in ReadsUpTo(i, k - 1) { u := i.uses[k - 1]; }
    }
  }

  // A register's state may be out of date only where the instruction is about to settle it.
  ghost predicate Pending(b: Block, out: set<GPR>, n: nat, r: GPR, x: Info)
    requires n < |b|
  {
    InfoOK(b, out, n + 1, r, x) || r in Redefs(b[n]) || (r in Reads(b[n]) && x.oneUser)
  }

  lemma NormalOK(b: Block, out: set<GPR>, n: nat, m: Infos)
    requires n < |b| && WellFormed(b[n])
    requires forall r: GPR | 0 <= r :: Pending(b, out, n, r, m[r])
    ensures InfosOK(b, out, n, NormalInst(b[n], n, m))
  {
    hide Redefs, WellFormed, HandleUse, ChainFrom;
    var i := b[n];
    var c := Clobbered(m, Redefs(i));
    forall r: GPR | 0 <= r ensures InfoOK(b, out, n, r, NormalInst(i, n, m)[r]) {
      var u := UsesHandledAt(i, n, c, |i.uses|, r);
      assert Pending(b, out, n, r, m[r]);
      if r in Reads(i) {
        UsedPending(b, out, n, r, u, c[r]);
      } else if r in Redefs(i) {
        ClobberedOK(b, out, n, r, m[r]);
      } else {
        UntouchedOK(b, out, n, r, m[r]);
      }
    }
  }

  lemma UsedPending(b: Block, out: set<GPR>, n: nat, r: GPR, u: Use, x: Info)
    requires n < |b| && WellFormed(b[n]) && r >= 0 && u in b[n].uses && u.reg == r && r in Reads(b[n])
    requires if r in Redefs(b[n]) then !x.multiUsers && !x.candidate else InfoOK(b, out, n + 1, r, x) || x.oneUser
    ensures InfoOK(b, out, n, r, HandleUse(b[n], n, u, x))
  {
    hide Redefs, Reads, WellFormed, ChainFrom;
    if x.oneUser {
    } else {
      UsedOK(b, out, n, r, u, x);
    }
  }

  lemma MiddleShape(i: Instr)
    requires WellFormed(i) && TriesMiddle(i)
    ensures Redefs(i) == {i.op0} && i.op1 in Reads(i) && forall r: GPR | r >= 0 :: r in Reads(i) <==> r == i.op1
  {
  }

  lemma AdvancedOK(b: Block, out: set<GPR>, n: nat, x: Info)
    requires n < |b| && WellFormed(b[n]) && TriesMiddle(b[n]) && x.candidate
    requires InfoOK(b, out, n + 1, b[n].op0, x) && Advance(b[n], n, x).0
    requires b[n].op0 == b[n].op1 || Dead(b, out, n + 1, b[n].op1)
    ensures InfoOK(b, out, n, b[n].op1, Advance(b[n], n, x).1)
  {
    MiddleShape(b[n]);
    hide WellFormed, Reads, Redefs;
    var i := b[n];
    assert SoleReader(b, out, n, i.op1, n);
    assert Link(b, out, n, x.mi0);
  }

  lemma MiddleOK(b: Block, out: set<GPR>, n: nat, m: Infos)
    requires n < |b| && WellFormed(b[n]) && TriesMiddle(b[n]) && InfosOK(b, out, n + 1, m)
    ensures MiddleInst(b[n], n, m).0 ==> InfosOK(b, out, n, MiddleInst(b[n], n, m).1)
    ensures !MiddleInst(b[n], n, m).0 ==> forall r: GPR | 0 <= r :: Pending(b, out, n, r, MiddleInst(b[n], n, m).1[r])
  {
    MiddleShape(b[n]);
    hide WellFormed, Reads, Redefs, ChainFrom, Dead;
    var i := b[n];
    var d, o := i.op0, i.op1;
    var s := MiddleInst(i, n, m);
    if Moves(m, d, o) {
      assert InfoOK(b, out, n + 1, d, m[d]) && InfoOK(b, out, n + 1, o, m[o]);
      var x := Moved(m, d, o)[o];
      MovedOK(b, out, n, d, m[d], x);
      if s.0 {
        AdvancedOK(b, out, n, x);
        forall r: GPR | 0 <= r ensures InfoOK(b, out, n, r, s.1[r]) {
          if r == o {
          } else if r == d {
            ClobberedOK(b, out, n, r, m[r]);
          } else {
            UntouchedOK(b, out, n, r, m[r]);
          }
        }
      } else {
        assert Advance(i, n, x).1 == x by { hide InfoOK; }
      }
    }
  }

  lemma MovedOK(b: Block, out: set<GPR>, n: nat, d: GPR, x: Info, y: Info)
    requires n < |b| && InfoOK(b, out, n + 1, d, x) && y.(lastADRP := x.lastADRP) == x
    ensures InfoOK(b, out, n + 1, d, y)
  {
  }

  lemma AdrpOK(b: Block, out: set<GPR>, n: nat, m: Infos)
    requires n < |b| && WellFormed(b[n]) && b[n].opcode == ADRP && b[n].op0 >= 0 && InfosOK(b, out, n + 1, m)
    ensures InfosOK(b, out, n, StepInfos(b[n], n, m))
  {
    hide ChainFrom, Redefs, Reads;
    forall r: GPR | 0 <= r ensures InfoOK(b, out, n, r, StepInfos(b[n], n, m)[r]) {
      if r == b[n].op0 {
        ClobberedOK(b, out, n, r, m[r]);
        assert InfoOK(b, out, n, r, HandleClobber(m[r]).(lastADRP := n));
      } else {
        UntouchedOK(b, out, n, r, m[r]);
      }
    }
  }

  lemma StepOK(b: Block, out: set<GPR>, n: nat, m: Infos)
    requires n < |b| && WellFormed(b[n]) && InfosOK(b, out, n + 1, m)
    ensures InfosOK(b, out, n, StepInfos(b[n], n, m))
  {
    hide WellFormed, MiddleInst, NormalInst, InfoOK, Redefs, Reads;
    if TriesMiddle(b[n]) {
      MiddleOK(b, out, n, m);
      if !MiddleInst(b[n], n, m).0 { NormalOK(b, out, n, MiddleInst(b[n], n, m).1); }
    } else if b[n].opcode == ADRP && b[n].op0 >= 0 {
      AdrpOK(b, out, n, m);
    } else {
      NormalOK(b, out, n, m);
    }
  }

  // The walk's invariant holds before every instruction.
  lemma {:induction false} WalkOK(b: Block, out: set<GPR>, n: nat)
    requires WellFormedBlock(b) && n <= |b|
    ensures InfosOK(b, out, n, InfosAt(b, out, n))
    decreases |b| - n
  {
    if n < |b| {
      WalkOK(b, out, n + 1);
      StepOK(b, out, n, InfosAt(b, out, n + 1));
    }
  }

  // ----- The hints -----

  ghost predicate Pair(b: Block, out: set<GPR>, h: Hint) {
    |h.args| == 2 && h.args[0] < |b| && b[h.args[0]].opcode == ADRP && Link(b, out, h.args[0], h.args[1])
  }

  ghost predicate Triple(b: Block, out: set<GPR>, h: Hint) {
    && |h.args| == 3 && h.args[0] < |b| && b[h.args[0]].opcode == ADRP
    && Link(b, out, h.args[0], h.args[1]) && Link(b, out, h.args[1], h.args[2])
  }

  // What each kind of hint promises the linker.
  ghost predicate HintOK(b: Block, out: set<GPR>, h: Hint) {
    match h.kind
    case AdrpAdrp => true
    case AdrpLdr => Pair(b, out, h) && IsLoad(b, h.args[1]) && SupportLoadFromLiteral(b[h.args[1]])
    case AdrpLdrGot => Pair(b, out, h) && IsGot(b, h.args[1])
    case AdrpAdd => Pair(b, out, h) && b[h.args[1]].opcode == ADDXri && AddTargetUnused(b, out, h.args[0], h.args[1])
    case AdrpAddLdr => Triple(b, out, h) && IsAddressAdd(b, h.args[1]) && IsLoad(b, h.args[2]) && h.args[2] == h.args[1] + 1
    case AdrpAddStr => Triple(b, out, h) && IsAddressAdd(b, h.args[1]) && IsStore(b, h.args[2]) && h.args[2] == h.args[1] + 1
    case AdrpLdrGotLdr => Triple(b, out, h) && IsGot(b, h.args[1]) && IsLoad(b, h.args[2])
    case AdrpLdrGotStr => Triple(b, out, h) && IsGot(b, h.args[1]) && IsStore(b, h.args[2])
  }

  // The linker may make the ADRP write the ADD's register: nothing reads that register's old value.
  ghost predicate AddTargetUnused(b: Block, out: set<GPR>, n: nat, add: nat)
    requires n < |b| && add < |b|
  {
    b[add].op0 < 0 || b[add].op0 == b[n].op0 || Dead(b, out, n + 1, b[add].op0)
  }

  lemma CandidateHintOK(b: Block, out: set<GPR>, n: nat, m: Infos, outside: Info, h: Hint)
    requires n < |b| && WellFormed(b[n]) && b[n].opcode == ADRP && b[n].op0 >= 0 && InfosOK(b, out, n + 1, m)
    requires m[b[n].op0].candidate && h in CandidateHint(b, n, m, outside)
    ensures h.kind != AdrpAdrp && HintOK(b, out, h)
  {
    var x := m[b[n].op0];
    assert b[n].op0 in Redefs(b[n]);
    hide Redefs, Reads, WellFormed, Dead;
    assert InfoOK(b, out, n + 1, b[n].op0, x);
    if x.kind == AdrpAdd && b[x.mi0].op0 >= 0 {
      assert InfoOK(b, out, n + 1, b[x.mi0].op0, m[b[x.mi0].op0]);
    }
  }

  lemma {:induction false} HintsOK(b: Block, out: set<GPR>, outside: Info, n: nat, h: Hint)
    requires WellFormedBlock(b) && n <= |b| && h in HintsAt(b, out, outside, n)
    ensures HintOK(b, out, h)
    decreases |b| - n
  {
    hide HintOK, InfosOK, CandidateHint, WellFormed;
    if h in HintsAt(b, out, outside, n + 1) {
      HintsOK(b, out, outside, n + 1, h);
    } else {
      WalkOK(b, out, n + 1);
      var m := InfosAt(b, out, n + 1);
      if m[b[n].op0].candidate && h in CandidateHint(b, n, m, outside) {
        CandidateHintOK(b, out, n, m, outside, h);
      } else {
        AdrpAdrpOnly(b, out, h);
      }
    }
  }

  lemma AdrpAdrpOnly(b: Block, out: set<GPR>, h: Hint)
    requires h.kind == AdrpAdrp
    ensures HintOK(b, out, h)
  {
  }
}
