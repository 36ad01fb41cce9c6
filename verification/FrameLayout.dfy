/** Each emitted store fills the two slots of its pair, and each load brings them back. */
module FrameLayout {
  import opened FrameCode

  // Registers other than SP are as in s0.
  ghost predicate SameRegs(s0: State, s: State) {
    forall r | r != SP :: s.reg(r) == s0.reg(r)
  }

  // s has its stack pointer `slots` slots above the final one, and the positions in `done` are saved.
  ghost predicate Saving(regs: seq<Reg>, done: set<nat>, base: int, slots: int, s0: State, s: State)
    requires |regs| % 2 == 0
  {
    s.reg(SP) == base + 8 * slots && SameRegs(s0, s) && Saved(regs, done, base, s0, s.mem)
  }

  lemma StoreAddress(r1: Reg, r2: Reg, offset: int, pre: bool, s: State)
    ensures Address(StoreIns(r1, r2, offset, pre), s) == s.reg(SP) + 8 * offset
    ensures Exec(StoreIns(r1, r2, offset, pre), s).reg(SP) == if pre then s.reg(SP) + 8 * offset else s.reg(SP)
    ensures forall r | r != SP :: Exec(StoreIns(r1, r2, offset, pre), s).reg(r) == s.reg(r)
    ensures Exec(StoreIns(r1, r2, offset, pre), s).mem == Transfer(StoreIns(r1, r2, offset, pre), s).mem
  {
    OffsetIsSlots(StoreOpcode(r1, r2 != NO_REGISTER, pre), offset);
  }

  lemma StoreMem(r1: Reg, r2: Reg, offset: int, pre: bool, s: State, a: int)
    requires s.reg(SP) + 8 * offset == a
    ensures r2 != NO_REGISTER ==>
              Exec(StoreIns(r1, r2, offset, pre), s).mem == Put(Put(s.mem, a, s.reg(r2)), a + 8, s.reg(r1))
    ensures r2 == NO_REGISTER ==> Exec(StoreIns(r1, r2, offset, pre), s).mem == Put(s.mem, a, s.reg(r1))
  {
    StoreAddress(r1, r2, offset, pre, s);
  }

  // Storing the pair at position p.
  lemma StoreSaves(regs: seq<Reg>, done: set<nat>, base: int, s0: State, s: State, p: nat, offset: int, pre: bool)
    requires SaveList(regs) && p % 2 == 0 && p + 1 < |regs|
    requires Saved(regs, done, base, s0, s.mem) && SameRegs(s0, s)
    requires s.reg(SP) + 8 * offset == SlotAddress(base, |regs|, p + 1)
    ensures Saved(regs, done + {p, p + 1}, base, s0, Exec(StoreIns(regs[p], regs[p + 1], offset, pre), s).mem)
  {
    hide Exec, StoreIns, SaveList, PositionOK, Saved;
    Apart(regs, p);
    var a := SlotAddress(base, |regs|, p + 1);
    StoreMem(regs[p], regs[p + 1], offset, pre, s, a);
    SavedMore(regs, done, base, s0, s.mem, Exec(StoreIns(regs[p], regs[p + 1], offset, pre), s).mem, p);
  }

  lemma SavedMore(regs: seq<Reg>, done: set<nat>, base: int, s0: State, m: int -> int, mem: int -> int, p: nat)
    requires |regs| % 2 == 0 && p % 2 == 0 && p + 1 < |regs| && regs[p] >= 0 && regs[p + 1] >= -1
    requires Saved(regs, done, base, s0, m)
    requires var a := SlotAddress(base, |regs|, p + 1);
             if regs[p + 1] != NO_REGISTER then mem == Put(Put(m, a, s0.reg(regs[p + 1])), a + 8, s0.reg(regs[p]))
             else mem == Put(m, a, s0.reg(regs[p]))
    ensures Saved(regs, done + {p, p + 1}, base, s0, mem)
  {
    forall q: nat | q in done + {p, p + 1} && q < |regs| && Cell(regs, q) >= 0
      ensures mem(SlotAddress(base, |regs|, q)) == s0.reg(Cell(regs, q))
    {
      if q != p && q != p + 1 { assert m(SlotAddress(base, |regs|, q)) == s0.reg(Cell(regs, q)); }
    }
    forall a: int | forall q: nat | q in done + {p, p + 1} && q < |regs| && Cell(regs, q) >= 0 :: a != SlotAddress(base, |regs|, q)
      ensures mem(a) == s0.mem(a)
    {
      Elsewhere(regs, done, base, p, a);
    }
  }

  lemma Elsewhere(regs: seq<Reg>, done: set<nat>, base: int, p: nat, a: int)
    requires |regs| % 2 == 0 && p % 2 == 0 && p + 1 < |regs|
    requires regs[p] >= 0 && regs[p + 1] >= -1
    requires forall q: nat | q in done + {p, p + 1} && q < |regs| && Cell(regs, q) >= 0 :: a != SlotAddress(base, |regs|, q)
    ensures forall q: nat | q in done && q < |regs| && Cell(regs, q) >= 0 :: a != SlotAddress(base, |regs|, q)
    ensures a != SlotAddress(base, |regs|, p + 1) && (regs[p + 1] != NO_REGISTER ==> a != SlotAddress(base, |regs|, p))
  {
    assert p in done + {p, p + 1} && p + 1 in done + {p, p + 1};
    assert Cell(regs, p + 1) >= 0;
  }

  lemma StoreStep(regs: seq<Reg>, done: set<nat>, base: int, slots: int, s0: State, s: State, p: nat, offset: int, pre: bool)
    requires SaveList(regs) && p % 2 == 0 && p + 1 < |regs| && Saving(regs, done, base, slots, s0, s)
    requires slots + offset == |regs| - 2 - p
    ensures Saving(regs, done + {p, p + 1}, base, if pre then slots + offset else slots, s0,
                   Exec(StoreIns(regs[p], regs[p + 1], offset, pre), s))
  {
    hide Saved, SaveList, Exec, StoreIns;
    StoreSaves(regs, done, base, s0, s, p, offset, pre);
    StoreAddress(regs[p], regs[p + 1], offset, pre, s);
  }

  // ----- Loads -----

  // The value kept for position p.
  function Kept(regs: seq<Reg>, base: int, mem: int -> int, p: nat): int
    requires p < |regs| && |regs| % 2 == 0
  {
    if p % 2 == 0 && regs[p + 1] == NO_REGISTER then mem(SlotAddress(base, |regs|, p + 1))
    else mem(SlotAddress(base, |regs|, p))
  }

  // The positions below k hold their kept values again; other registers and memory are as in s0.
  ghost predicate Restored(regs: seq<Reg>, k: nat, base: int, s0: State, s: State)
    requires |regs| % 2 == 0
  {
    && (forall a :: s.mem(a) == s0.mem(a))
    && (forall p: nat | p < k && p < |regs| && regs[p] != NO_REGISTER :: s.reg(regs[p]) == Kept(regs, base, s0.mem, p))
    && (forall r | r != SP && (forall p: nat | p < k && p < |regs| :: r != regs[p]) :: s.reg(r) == s0.reg(r))
  }

  lemma LoadEffect(r1: Reg, r2: Reg, offset: int, post: bool, s: State, a: int)
    requires a == if post then s.reg(SP) else s.reg(SP) + 8 * offset
    ensures var t := Exec(LoadIns(r1, r2, offset, post), s);
            && t.mem == s.mem
            && (r1 != SP && r2 != SP ==> t.reg(SP) == if post then s.reg(SP) + 8 * offset else s.reg(SP))
            && (r1 != SP ==> t.reg(r1) == if r2 == NO_REGISTER then s.mem(a) else s.mem(a + 8))
            && (r2 != NO_REGISTER && r2 != SP && r1 != r2 ==> t.reg(r2) == s.mem(a))
            && (forall r | r != SP && r != r1 && r != r2 :: t.reg(r) == s.reg(r))
            && (r2 == NO_REGISTER && r1 != NO_REGISTER ==> t.reg(r2) == s.reg(r2))
  {
    OffsetIsSlots(LoadOpcode(r1, r2 != NO_REGISTER, post), offset);
  }

  lemma LoadStep(regs: seq<Reg>, base: int, s0: State, s: State, p: nat, offset: int, post: bool)
    requires SaveList(regs) && p % 2 == 0 && p + 1 < |regs| && Restored(regs, p, base, s0, s) && s.reg(SP) == base
    requires if post then p + 2 == |regs| else offset == |regs| - 2 - p
    ensures var t := Exec(LoadIns(regs[p], regs[p + 1], offset, post), s);
            Restored(regs, p + 2, base, s0, t) && t.reg(SP) == if post then base + 8 * offset else base
  {
    hide Exec, LoadIns, SaveList, PositionOK, Restored;
    LoadEffect(regs[p], regs[p + 1], offset, post, s, SlotAddress(base, |regs|, p + 1));
    Apart(regs, p);
    assert s.reg(SP) == base;
    RestoreMore(regs, p, base, s0, s, Exec(LoadIns(regs[p], regs[p + 1], offset, post), s));
  }

  lemma RestoreMore(regs: seq<Reg>, p: nat, base: int, s0: State, s: State, t: State)
    requires |regs| % 2 == 0 && p % 2 == 0 && p + 1 < |regs| && Restored(regs, p, base, s0, s)
    requires t.mem == s.mem && regs[p] != NO_REGISTER && t.reg(regs[p]) == Kept(regs, base, s.mem, p)
    requires regs[p + 1] != NO_REGISTER ==> t.reg(regs[p + 1]) == Kept(regs, base, s.mem, p + 1)
    requires forall r | r != SP && r != regs[p] && r != regs[p + 1] :: t.reg(r) == s.reg(r)
    requires forall q: nat | q < p && regs[q] != NO_REGISTER :: regs[q] != regs[p] && regs[q] != regs[p + 1] && regs[q] != SP
    ensures Restored(regs, p + 2, base, s0, t)
  {
    forall q: nat | q < p + 2 && q < |regs| && regs[q] != NO_REGISTER
      ensures t.reg(regs[q]) == Kept(regs, base, s0.mem, q)
    {
      if q < p { assert s.reg(regs[q]) == Kept(regs, base, s0.mem, q); }
    }
    forall r | r != SP && (forall q: nat | q < p + 2 && q < |regs| :: r != regs[q]) ensures t.reg(r) == s0.reg(r) {
      assert r != regs[p] && r != regs[p + 1];
    }
  }

  lemma Apart(regs: seq<Reg>, p: nat)
    requires SaveList(regs) && p % 2 == 0 && p + 1 < |regs|
    ensures |regs| % 2 == 0 && regs[p] != regs[p + 1] && regs[p] >= 0 && regs[p] != SP && regs[p + 1] >= -1 && regs[p + 1] != SP
    ensures forall q: nat | q < p && regs[q] != NO_REGISTER :: regs[q] != regs[p] && regs[q] != regs[p + 1] && regs[q] != SP
  {
    forall q: nat | q < p && regs[q] != NO_REGISTER ensures regs[q] != SP { assert PositionOK(regs, q); }
    assert PositionOK(regs, p) && PositionOK(regs, p + 1);
  }
}
