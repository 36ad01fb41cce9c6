/** What the forward scan does not miss: every multiply is in a chain, every value that could be
    passed on is, and every kill is noted. */
module ChainComplete {
  import opened MachineBlock
  import opened Chains

  // ----- Kills -----

  // Every operand that reads or clobbers r kills it.
  ghost predicate AlwaysKills(i: Instr, r: Reg) {
    && (r in i.mask || exists k :: 0 <= k < |i.uses| && i.uses[k].reg == r)
    && forall k | 0 <= k < |i.uses| && i.uses[k].reg == r :: i.uses[k].kill
  }

  // Why a kill by instruction i was noted, and as immutable.
  ghost predicate KillReason(i: Instr, r: Reg, immutable: bool) {
    || (r in i.mask && immutable)
    || exists k :: 0 <= k < |i.uses| && i.uses[k].reg == r && i.uses[k].kill && i.uses[k].tied == immutable
  }

  // Some operands of instruction i have been handled: the chains that are no longer active are those of
  // registers it mentions, and exactly the kills among them have been noted.
  ghost predicate Handled(i: Instr, idx: nat, act0: map<Reg, nat>, vals0: seq<ChainVal>, act1: map<Reg, nat>, vals1: seq<ChainVal>) {
    && |vals1| == |vals0|
    && (forall r | r in act1 :: r in act0 && act1[r] == act0[r])
    && (forall r | r in act0 && r !in act1 :: Mentions(i, r) && act0[r] < |vals0| &&
          (AlwaysKills(i, r) ==> vals1[act0[r]].kill == idx))
    && (forall k | 0 <= k < |vals0| :: vals1[k] == vals0[k] || NotedAt(i, idx, act0, vals0, act1, vals1, k))
  }

  ghost predicate NotedAt(i: Instr, idx: nat, act0: map<Reg, nat>, vals0: seq<ChainVal>, act1: map<Reg, nat>, vals1: seq<ChainVal>, k: nat)
    requires k < |vals0| == |vals1|
  {
    && vals1[k] == vals0[k].(kill := idx, immutable := vals1[k].immutable)
    && exists r :: r in act0 && r !in act1 && act0[r] == k && KillReason(i, r, vals1[k].immutable)
  }

  ghost predicate OneKey(active: map<Reg, nat>) {
    forall r, q | r in active && q in active && active[r] == active[q] :: r == q
  }

  lemma HandledRefl(i: Instr, idx: nat, act: map<Reg, nat>, vals: seq<ChainVal>)
    ensures Handled(i, idx, act, vals, act, vals)
  {
  }

  lemma HandledTrans(i: Instr, idx: nat, act0: map<Reg, nat>, vals0: seq<ChainVal>, act1: map<Reg, nat>, vals1: seq<ChainVal>,
                     act2: map<Reg, nat>, vals2: seq<ChainVal>)
    requires OneKey(act0) && Handled(i, idx, act0, vals0, act1, vals1) && Handled(i, idx, act1, vals1, act2, vals2)
    ensures Handled(i, idx, act0, vals0, act2, vals2)
  {
    hide AlwaysKills, KillReason, Mentions;
    forall k | 0 <= k < |vals0| ensures vals2[k] == vals0[k] || NotedAt(i, idx, act0, vals0, act2, vals2, k) {
      assert vals1[k] == vals0[k] || NotedAt(i, idx, act0, vals0, act1, vals1, k);
      if vals2[k] != vals1[k] {
        assert NotedAt(i, idx, act1, vals1, act2, vals2, k);
        var r :| r in act1 && r !in act2 && act1[r] == k && KillReason(i, r, vals2[k].immutable);
        assert r in act0 && act0[r] == k;
      } else if vals1[k] != vals0[k] {
        assert NotedAt(i, idx, act0, vals0, act1, vals1, k);
        var r :| r in act0 && r !in act1 && act0[r] == k && KillReason(i, r, vals1[k].immutable);
        assert r !in act2;
      }
    }
    forall r | r in act0 && r !in act2 ensures Mentions(i, r) && act0[r] < |vals0| && (AlwaysKills(i, r) ==> vals2[act0[r]].kill == idx) {
      if r in act1 {
        assert act1[r] == act0[r];
      } else if AlwaysKills(i, r) {
        var k := act0[r];
        if vals2[k] != vals1[k] { assert NotedAt(i, idx, act1, vals1, act2, vals2, k); }
      }
    }
  }

  // maybeKillChain on a register operand, as long as dropping the chain without a kill misses none.
  lemma HandledUse(i: Instr, idx: nat, act: map<Reg, nat>, vals: seq<ChainVal>, u: Use)
    requires OneKey(act) && forall r | r in act :: act[r] < |vals|
    requires u.reg in act ==> Mentions(i, u.reg)
    requires u.kill ==> u in i.uses
    requires !u.kill && u.reg in act ==> !AlwaysKills(i, u.reg)
    ensures Handled(i, idx, act, vals, act - {u.reg}, KillOperand(idx, act, vals, u))
  {
    hide AlwaysKills, Mentions;
    var act1, ws := act - {u.reg}, KillOperand(idx, act, vals, u);
    forall k | 0 <= k < |vals| ensures ws[k] == vals[k] || NotedAt(i, idx, act, vals, act1, ws, k) {
      if u.kill && u.reg in act && k == act[u.reg] {
        var j :| 0 <= j < |i.uses| && i.uses[j] == u;
        assert KillReason(i, u.reg, ws[k].immutable);
      }
    }
  }

  lemma HandledMask(i: Instr, idx: nat, act: map<Reg, nat>, vals: seq<ChainVal>, r: Reg)
    requires OneKey(act) && (forall q | q in act :: act[q] < |vals|) && r in act && r in i.mask
    ensures Handled(i, idx, act, vals, act - {r}, vals[act[r] := vals[act[r]].(kill := idx, immutable := true)])
  {
    hide AlwaysKills;
    var act1, ws := act - {r}, vals[act[r] := vals[act[r]].(kill := idx, immutable := true)];
    forall k | 0 <= k < |vals| ensures ws[k] == vals[k] || NotedAt(i, idx, act, vals, act1, ws, k) {
      if k == act[r] { assert KillReason(i, r, true); }
    }
  }

  // ----- What the scan has not missed so far -----

  ghost predicate Covered(b: Block, seen: nat, vals: seq<ChainVal>)
    requires seen <= |b|
  {
    forall n | 0 <= n < seen && b[n].kind != Other :: exists k :: 0 <= k < |vals| && n in vals[k].order
  }

  // A chain whose last value has not been mentioned since is active under that value.
  ghost predicate ActiveIfUntouched(b: Block, seen: nat, active: map<Reg, nat>, v: ChainVal, k: nat) {
    |v.order| > 0 && Member(b, Last(v)) &&
    (v.kill == -1 && NoMention(b, Last(v) + 1, seen, Dest(b[Last(v)])) ==>
       Dest(b[Last(v)]) in active && active[Dest(b[Last(v)])] == k)
  }

  // No instruction seen could have continued the chain.
  ghost predicate NotContinued(b: Block, seen: nat, v: ChainVal) {
    |v.order| > 0 && forall n: nat | n < seen :: !LinkedAt(b, Last(v), n)
  }

  // The kill is the first mention of the last value; without one the first mention does not kill.
  ghost predicate EndOK(b: Block, seen: nat, v: ChainVal) {
    && |v.order| > 0 && Member(b, Last(v))
    && (v.kill != -1 ==> Last(v) < v.kill < seen && v.kill < |b| && NoMention(b, Last(v) + 1, v.kill, Dest(b[Last(v)]))
                         && KillReason(b[v.kill], Dest(b[Last(v)]), v.immutable))
    && (v.kill == -1 ==> forall e: nat | Last(v) < e < seen && e < |b| && NoMention(b, Last(v) + 1, e, Dest(b[Last(v)])) ::
          !AlwaysKills(b[e], Dest(b[Last(v)])))
  }

  ghost predicate WholeChain(b: Block, seen: nat, active: map<Reg, nat>, v: ChainVal, k: nat) {
    ActiveIfUntouched(b, seen, active, v, k) && NotContinued(b, seen, v) && EndOK(b, seen, v)
  }

  ghost predicate Complete(b: Block, seen: nat, active: map<Reg, nat>, vals: seq<ChainVal>)
    requires seen <= |b|
  {
    Covered(b, seen, vals) && forall k | 0 <= k < |vals| :: WholeChain(b, seen, active, vals[k], k)
  }

  lemma ReasonMentions(i: Instr, r: Reg, immutable: bool)
    requires KillReason(i, r, immutable)
    ensures Mentions(i, r)
  {
  }

  lemma AlwaysMentions(i: Instr, r: Reg)
    requires AlwaysKills(i, r)
    ensures Mentions(i, r)
  {
  }

  // A chain not continued at idx, once the instruction's operands have been handled.
  lemma StepComplete(b: Block, idx: nat, act0: map<Reg, nat>, vals0: seq<ChainVal>, act1: map<Reg, nat>, vals1: seq<ChainVal>, k: nat)
    requires idx < |b| && k < |vals0| && ScanInv(b, idx, idx + 1, act0, vals0) && WholeChain(b, idx, act0, vals0[k], k)
    requires Handled(b[idx], idx, act0, vals0, act1, vals1)
    requires forall r | r in act1 && act1[r] == k :: !Mentions(b[idx], r)
    requires var r := Dest(b[Last(vals0[k])]); Continues(b, idx, r) ==> !(r in act0 && act0[r] == k)
    ensures |vals1| == |vals0| && WholeChain(b, idx + 1, act1, vals1[k], k)
  {
    var v, w := vals0[k], vals1[k];
    HandledLength(b[idx], idx, act0, vals0, act1, vals1);
    NotContinuedAt(b, idx, act0, v, k);
    SameOrderNotContinued(b, idx + 1, v, w);
    EndKept(b, idx, act0, vals0, act1, vals1, k);
    hide *;
    ActiveKept(b, idx, act0, vals0, act1, vals1, k);
    IsComplete(b, idx + 1, act1, w, k);
  }

  lemma IsComplete(b: Block, seen: nat, active: map<Reg, nat>, v: ChainVal, k: nat)
    requires ActiveIfUntouched(b, seen, active, v, k) && NotContinued(b, seen, v) && EndOK(b, seen, v)
    ensures WholeChain(b, seen, active, v, k)
  {
  }

  lemma SameOrderNotContinued(b: Block, seen: nat, v: ChainVal, w: ChainVal)
    requires NotContinued(b, seen, v) && w.order == v.order
    ensures NotContinued(b, seen, w)
  {
    hide LinkedAt;
    assert Last(w) == Last(v);
  }

  lemma ActiveKept(b: Block, idx: nat, act0: map<Reg, nat>, vals0: seq<ChainVal>, act1: map<Reg, nat>, vals1: seq<ChainVal>, k: nat)
    requires idx < |b| && k < |vals0| && WholeChain(b, idx, act0, vals0[k], k) && Handled(b[idx], idx, act0, vals0, act1, vals1)
    requires |vals1| == |vals0| && vals1[k].order == vals0[k].order && EndOK(b, idx + 1, vals1[k])
    requires ScanInv(b, idx, idx + 1, act0, vals0)
    ensures ActiveIfUntouched(b, idx + 1, act1, vals1[k], k)
  {
    hide KillReason, AlwaysKills, Mentions, NotContinued, ChainOK, Disjoint;
    var v := vals0[k];
    var r := Dest(b[Last(v)]);
    assert ValOK(b, idx + 1, v);
    assert vals1[k] == v || NotedAt(b[idx], idx, act0, vals0, act1, vals1, k);
    if vals1[k].kill == -1 && NoMention(b, Last(v) + 1, idx + 1, r) {
      assert NoMention(b, Last(v) + 1, idx, r);
      assert r in act0 && act0[r] == k && Last(v) < idx by { assert ActiveOK(b, idx, r, k, vals0); }
      assert !Mentions(b[idx], r);
    }
  }

  lemma EndKept(b: Block, idx: nat, act0: map<Reg, nat>, vals0: seq<ChainVal>, act1: map<Reg, nat>, vals1: seq<ChainVal>, k: nat)
    requires idx < |b| && k < |vals0| && ScanInv(b, idx, idx + 1, act0, vals0) && WholeChain(b, idx, act0, vals0[k], k)
    requires Handled(b[idx], idx, act0, vals0, act1, vals1) && forall r | r in act1 && act1[r] == k :: !Mentions(b[idx], r)
    ensures |vals1| == |vals0| && EndOK(b, idx + 1, vals1[k])
  {
    hide KillReason, AlwaysKills, Mentions, ChainOK, Disjoint, NotContinued;
    var v, w := vals0[k], vals1[k];
    var r := Dest(b[Last(v)]);
    if w != v {
      assert NotedAt(b[idx], idx, act0, vals0, act1, vals1, k);
      var q :| q in act0 && q !in act1 && act0[q] == k && KillReason(b[idx], q, w.immutable);
      assert ActiveOK(b, idx, q, k, vals0) && q == r;
    } else if v.kill == -1 {
      forall e: nat | Last(v) < e < idx + 1 && e < |b| && NoMention(b, Last(v) + 1, e, r) ensures !AlwaysKills(b[e], r) {
        if e == idx && AlwaysKills(b[idx], r) { AlwaysMentions(b[idx], r); }
      }
    }
  }

  // The value would still be active, or its kill would have mentioned it.
  lemma NotContinuedAt(b: Block, idx: nat, act0: map<Reg, nat>, v: ChainVal, k: nat)
    requires idx < |b| && WholeChain(b, idx, act0, v, k)
    requires var r := Dest(b[Last(v)]); Continues(b, idx, r) ==> !(r in act0 && act0[r] == k)
    ensures NotContinued(b, idx + 1, v)
  {
    hide KillReason, AlwaysKills, Mentions, Continues;
    if LinkedAt(b, Last(v), idx) && v.kill != -1 {
      ReasonMentions(b[v.kill], Dest(b[Last(v)]), v.immutable);
    }
  }

  lemma StepAll(b: Block, idx: nat, act0: map<Reg, nat>, vals0: seq<ChainVal>, act1: map<Reg, nat>, vals1: seq<ChainVal>)
    requires idx < |b| && ScanInv(b, idx, idx + 1, act0, vals0) && Complete(b, idx, act0, vals0)
    requires Handled(b[idx], idx, act0, vals0, act1, vals1)
    requires forall r | r in act1 :: !Mentions(b[idx], r)
    requires b[idx].kind == Mla ==> NotTaken(b, idx, act0)
    ensures |vals1| == |vals0| && forall k | 0 <= k < |vals1| :: WholeChain(b, idx + 1, act1, vals1[k], k)
  {
    hide ScanInv, Handled, WholeChain, Mentions, Covered, Member;
    HandledLength(b[idx], idx, act0, vals0, act1, vals1);
    forall k | 0 <= k < |vals1| ensures WholeChain(b, idx + 1, act1, vals1[k], k) {
      CompleteMember(b, idx, act0, vals0[k], k);
      StepComplete(b, idx, act0, vals0, act1, vals1, k);
    }
  }

  lemma HandledLength(i: Instr, idx: nat, act0: map<Reg, nat>, vals0: seq<ChainVal>, act1: map<Reg, nat>, vals1: seq<ChainVal>)
    requires Handled(i, idx, act0, vals0, act1, vals1)
    ensures |vals1| == |vals0| && forall k | 0 <= k < |vals0| :: vals1[k].order == vals0[k].order
  {
    forall k | 0 <= k < |vals0| ensures vals1[k].order == vals0[k].order {
      if vals1[k] != vals0[k] { assert NotedAt(i, idx, act0, vals0, act1, vals1, k); }
    }
  }

  lemma CompleteMember(b: Block, seen: nat, active: map<Reg, nat>, v: ChainVal, k: nat)
    requires WholeChain(b, seen, active, v, k)
    ensures |v.order| > 0 && Member(b, Last(v))
  {
  }

  // The accumulator of idx is not the last value of an active chain, or is not killed there.
  ghost predicate NotTaken(b: Block, idx: nat, act0: map<Reg, nat>) {
    forall r :: Continues(b, idx, r) ==> r !in act0
  }

  // ----- A chain that begins or continues at idx -----

  lemma FreshComplete(b: Block, idx: nat, active: map<Reg, nat>, v: ChainVal, k: nat)
    requires Member(b, idx) && |v.order| > 0 && Last(v) == idx && v.kill == -1
    requires Dest(b[idx]) in active && active[Dest(b[idx])] == k
    ensures WholeChain(b, idx + 1, active, v, k)
  {
  }

  // Making another chain active under a register that idx defines changes nothing for this one.
  lemma OtherKey(b: Block, idx: nat, act: map<Reg, nat>, act': map<Reg, nat>, v: ChainVal, k: nat)
    requires idx < |b| && WholeChain(b, idx + 1, act, v, k) && |v.order| > 0 && Last(v) < idx
    requires forall r | r in act && act[r] == k && !Mentions(b[idx], r) :: r in act' && act'[r] == k
    ensures WholeChain(b, idx + 1, act', v, k)
  {
    hide Mentions, KillReason, AlwaysKills;
    var r := Dest(b[Last(v)]);
    if v.kill == -1 && NoMention(b, Last(v) + 1, idx + 1, r) {
      assert !Mentions(b[idx], r);
    }
  }

  // idx continues the chain active under acc, and every other active register it mentions has been handled.
  ghost predicate Continuing(b: Block, idx: nat, act1: map<Reg, nat>, acc: Reg) {
    && idx < |b| && Member(b, idx) && acc in act1 && Continues(b, idx, acc)
    && (forall r | r in act1 && r != acc && r != Dest(b[idx]) :: !Mentions(b[idx], r))
    && (Dest(b[idx]) != acc ==> Dest(b[idx]) !in act1)
  }

  // The other chains are not the one idx continues.
  lemma StepOthers(b: Block, idx: nat, act0: map<Reg, nat>, vals0: seq<ChainVal>, act1: map<Reg, nat>, vals1: seq<ChainVal>, acc: Reg, k: nat)
    requires idx < |b| && ScanInv(b, idx, idx + 1, act0, vals0) && Complete(b, idx, act0, vals0)
    requires Handled(b[idx], idx, act0, vals0, act1, vals1) && Continuing(b, idx, act1, acc)
    requires k < |vals0| && k != act1[acc]
    ensures |vals1| == |vals0| && WholeChain(b, idx + 1, act1, vals1[k], k)
  {
    hide Handled, WholeChain, Mentions, Covered, ScanInv, Member;
    CompleteMember(b, idx, act0, vals0[k], k);
    HandledKeys(b[idx], idx, act0, vals0, act1, vals1);
    StepComplete(b, idx, act0, vals0, act1, vals1, k);
  }

  lemma HandledKeys(i: Instr, idx: nat, act0: map<Reg, nat>, vals0: seq<ChainVal>, act1: map<Reg, nat>, vals1: seq<ChainVal>)
    requires Handled(i, idx, act0, vals0, act1, vals1)
    ensures |vals1| == |vals0| && forall r | r in act1 :: r in act0 && act1[r] == act0[r]
  {
  }

  // ----- The chains of a block -----

  // Every multiply is in a chain, no chain could go on, and each kill is the first mention of the last value.
  ghost predicate AllChains(b: Block, vals: seq<ChainVal>) {
    && Covered(b, |b|, vals)
    && forall k | 0 <= k < |vals| :: NotContinued(b, |b|, vals[k]) && EndOK(b, |b|, vals[k])
  }

  lemma FoundAll(b: Block, active: map<Reg, nat>, vals: seq<ChainVal>)
    requires Complete(b, |b|, active, vals)
    ensures AllChains(b, vals)
  {
    hide Covered, NotContinued, EndOK;
  }

  // Whenever one instruction could take over the value of another, some chain passes it on.
  lemma LinksKept(b: Block, vals: seq<ChainVal>, m: nat, n: nat)
    requires AllChains(b, vals) && (forall k | 0 <= k < |vals| :: ChainOK(b, vals[k])) && LinkedAt(b, m, n) && n < |b|
    ensures exists k, j :: 0 <= k < |vals| && 0 <= j < |vals[k].order| - 1 && vals[k].order[j] == m && vals[k].order[j + 1] == n
  {
    hide KillReason, AlwaysKills;
    var k :| 0 <= k < |vals| && m in vals[k].order;
    var j :| 0 <= j < |vals[k].order| && vals[k].order[j] == m;
    assert ChainOK(b, vals[k]);
    assert j < |vals[k].order| - 1 by { assert NotContinued(b, |b|, vals[k]); }
    var n' := vals[k].order[j + 1];
    assert LinkedAt(b, m, n');
    FirstMention(b, m, n, n');
  }

  lemma FirstMention(b: Block, m: nat, n: nat, n': nat)
    requires LinkedAt(b, m, n) && LinkedAt(b, m, n') && n < |b| && n' < |b|
    ensures n == n'
  {
    hide Mentions;
    ContinuesMentions(b, n, Dest(b[m]));
    ContinuesMentions(b, n', Dest(b[m]));
  }

  lemma ContinuesMentions(b: Block, n: nat, r: Reg)
    requires Continues(b, n, r)
    ensures Mentions(b[n], r)
  {
  }
}
