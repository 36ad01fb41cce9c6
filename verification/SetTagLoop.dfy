/** expandSetTagLoop of AArch64ExpandPseudoInsts.cpp: the loop that tags a range of memory two granules at a time. */
module SetTagLoop {
  import opened Options

  const TWO64: int := 0x1_0000_0000_0000_0000
  const GRANULE: int := 16

  // Store tags to `granules` granules and move the address past them; set, or count down, the size register.
  datatype Ins = StorePost(granules: nat, zero: bool) | MovSize(imm: int) | SubsSize(imm: int)

  // A tag store of one granule, zeroing its data or not.
  datatype Write = Write(addr: int, zero: bool)

  datatype State = State(addr: int, size: int, writes: seq<Write>)

  // `pre` runs once, then `loop` until the size register is zero after it.
  datatype Expansion = Expansion(pre: seq<Ins>, loop: seq<Ins>)

  function Expanded(size: int, zero: bool): Expansion {
    Expansion((if size % 32 != 0 then [StorePost(1, zero)] else []) + [MovSize(size / 32 * 32)], [StorePost(2, zero), SubsSize(32)])
  }

  method ExpandSetTagLoop(size0: int, zeroData: bool) returns (e: Expansion)
    requires size0 > 0 && size0 % GRANULE == 0 && size0 < TWO64
    ensures e == Expanded(size0, zeroData)
  {
    var size := size0;
    var pre: seq<Ins> := [];
    if size % (16 * 2) != 0 {
      pre := pre + [StorePost(1, zeroData)];
      size := size - 16;
    }
    pre := pre + [MovSize(size)];
    e := Expansion(pre, [StorePost(2, zeroData), SubsSize(16 * 2)]);
  }

  // The granules of a range, in order.
  function Granules(addr: int, n: nat, zero: bool): seq<Write> {
    seq(n, k => Write(addr + GRANULE * k, zero))
  }

  function Exec(i: Ins, s: State): State {
    match i
    case StorePost(n, zero) => State(s.addr + GRANULE * n, s.size, s.writes + Granules(s.addr, n, zero))
    case MovSize(imm) => s.(size := imm)
    case SubsSize(imm) => s.(size := (s.size - imm) % TWO64)
  }

  function Run(code: seq<Ins>, s: State): State {
    if code == [] then s else Run(code[1..], Exec(code[0], s))
  }

  // The loop, given up after `fuel` rounds.
  function Loop(body: seq<Ins>, s: State, fuel: nat): Option<State>
    decreases fuel
  {
    if fuel == 0 then None
    else
      var t := Run(body, s);
      if t.size == 0 then Some(t) else Loop(body, t, fuel - 1)
  }

  lemma Round(zero: bool, s: State)
    ensures Run([StorePost(2, zero), SubsSize(32)], s) ==
            State(s.addr + 32, (s.size - 32) % TWO64, s.writes + Granules(s.addr, 2, zero))
  {
    hide Run, Granules;
    var t := Exec(StorePost(2, zero), s);
    assert [StorePost(2, zero), SubsSize(32)] == [StorePost(2, zero)] + [SubsSize(32)];
    RunCons(StorePost(2, zero), [SubsSize(32)], s);
    assert [SubsSize(32)] + [] == [SubsSize(32)];
    RunCons(SubsSize(32), [], t);
    RunNone(Exec(SubsSize(32), t));
  }

  lemma RunNone(s: State)
    ensures Run([], s) == s
  {
  }

  lemma RunCons(i: Ins, code: seq<Ins>, s: State)
    ensures Run([i] + code, s) == Run(code, Exec(i, s))
  {
    hide Exec;
    assert ([i] + code)[1..] == code;
  }

  lemma MoreGranules(addr: int, m: nat, n: nat, zero: bool)
    ensures Granules(addr, m, zero) + Granules(addr + GRANULE * m, n, zero) == Granules(addr, m + n, zero)
  {
    var x, y := Granules(addr, m, zero) + Granules(addr + GRANULE * m, n, zero), Granules(addr, m + n, zero);
    forall k | 0 <= k < m + n ensures x[k] == y[k] {}
  }

  // k rounds for a size of 32 k.
  lemma {:induction false} LoopRuns(zero: bool, s: State, k: nat, fuel: nat)
    requires k > 0 && s.size == 32 * k && s.size < TWO64 && fuel >= k
    ensures Loop([StorePost(2, zero), SubsSize(32)], s, fuel) == Some(State(s.addr + 32 * k, 0, s.writes + Granules(s.addr, 2 * k, zero)))
    decreases k
  {
    hide Run, Granules;
    Round(zero, s);
    if k > 1 {
      var t := Run([StorePost(2, zero), SubsSize(32)], s);
      LoopRuns(zero, t, k - 1, fuel - 1);
      MoreGranules(s.addr, 2, 2 * (k - 1), zero);
      assert s.writes + Granules(s.addr, 2, zero) + Granules(s.addr + 32, 2 * (k - 1), zero)
          == s.writes + (Granules(s.addr, 2, zero) + Granules(s.addr + 32, 2 * (k - 1), zero));
    }
  }

  function Whole(e: Expansion, s: State, fuel: nat): Option<State> {
    Loop(e.loop, Run(e.pre, s), fuel)
  }

  // Every granule of the range once, in order, and the address register left just past it.
  predicate TagsRange(r: Option<State>, s: State, size: int, zero: bool)
    requires size >= 0
  {
    r == Some(State(s.addr + size, 0, s.writes + Granules(s.addr, size / GRANULE, zero)))
  }

  lemma PreRuns(size: int, zero: bool, s: State)
    requires size > 0 && size % GRANULE == 0
    ensures var t := Run(Expanded(size, zero).pre, s); var odd := size % 32 != 0;
            t == State(if odd then s.addr + 16 else s.addr, size / 32 * 32, s.writes + Granules(s.addr, if odd then 1 else 0, zero))
  {
    var mov := [MovSize(size / 32 * 32)];
    assert mov[1..] == [];
    if size % 32 != 0 {
      var pre := [StorePost(1, zero)] + mov;
      assert pre[1..] == mov;
      assert Run(pre, s) == Run(mov, Exec(StorePost(1, zero), s));
    } else {
      assert [] + mov == mov;
      assert s.writes + Granules(s.addr, 0, zero) == s.writes;
    }
  }

  // The expansion tags exactly the range for every size but 16, where the loop starts from a count of zero
  // and runs on past the end.
  lemma SetTagExact(size: int, zero: bool, s: State)
    requires size > 0 && size % GRANULE == 0 && size < TWO64
    ensures (exists fuel: nat :: TagsRange(Whole(Expanded(size, zero), s, fuel), s, size, zero)) <==> size >= 32
  {
    PreRuns(size, zero, s);
    hide Run, Granules;
    var t := Run(Expanded(size, zero).pre, s);
    if size >= 32 {
      var k := size / 32;
      LoopRuns(zero, t, k, k);
      var odd := if size % 32 != 0 then 1 else 0;
      MoreGranules(s.addr, odd, 2 * k, zero);
      assert s.writes + Granules(s.addr, odd, zero) + Granules(t.addr, 2 * k, zero) == s.writes + (Granules(s.addr, odd, zero) + Granules(t.addr, 2 * k, zero));
      assert odd + 2 * k == size / GRANULE;
      assert TagsRange(Whole(Expanded(size, zero), s, k), s, size, zero);
    } else {
      forall fuel: nat ensures !TagsRange(Whole(Expanded(size, zero), s, fuel), s, size, zero) {
        LoopOverruns(zero, t, fuel);
      }
    }
  }

  // From a count of zero the first round already moves the address past a range of one granule.
  lemma {:induction false} LoopOverruns(zero: bool, s: State, fuel: nat)
    ensures Loop([StorePost(2, zero), SubsSize(32)], s, fuel).Some? ==>
              Loop([StorePost(2, zero), SubsSize(32)], s, fuel).value.addr >= s.addr + 32
    decreases fuel
  {
    hide Run;
    if fuel > 0 {
      Round(zero, s);
      LoopOverruns(zero, Run([StorePost(2, zero), SubsSize(32)], s), fuel - 1);
    }
  }
}
