/** AArch64CompressJumpTables: choosing one- or two-byte jump-table entries from estimated block offsets. */
module JumpTables {
  import opened Options

  // `size` is the estimate getInstSizeInBytes gives, an upper bound.
  datatype Kind = Plain | InlineAsm | JumpTableDest(jti: nat)
  datatype Instr = Instr(kind: Kind, size: int)
  datatype Block = Block(align: int, instrs: seq<Instr>)
  type Function = seq<Block>

  predicate PowerOfTwo(n: int) {
    n == 1 || (n > 1 && n % 2 == 0 && PowerOfTwo(n / 2))
  }

  // Sizes are whole instructions; alignments are powers of two.
  ghost predicate WellFormed(f: Function) {
    forall b | b in f :: PowerOfTwo(b.align) && forall i | i in b.instrs :: i.size >= 0 && i.size % 4 == 0
  }

  // Code is at least 4-byte aligned.
  function Alignment(align: int): (a: int)
    ensures a >= 4
  {
    if align > 4 then align else 4
  }

  lemma AlignmentOfCode(align: int)
    requires PowerOfTwo(align)
    ensures Alignment(align) % 4 == 0
  {
    hide PowerOfTwo;
    Halves(align);
    if align > 4 { Halves(align / 2); }
  }

  lemma Halves(n: int)
    requires PowerOfTwo(n)
    ensures n == 1 || (n % 2 == 0 && n / 2 >= 1 && PowerOfTwo(n / 2))
  {}

  // Worst-case padding in front of a block.
  function Padding(align: int): int {
    if align > 4 then align - 4 else 0
  }

  // Estimated offset of instruction j within its block.
  function Within(instrs: seq<Instr>, j: nat): int
    requires j <= |instrs|
  {
    if j == 0 then 0 else Within(instrs, j - 1) + instrs[j - 1].size
  }

  // Estimated offset of block i.
  function Start(f: Function, i: nat): int
    requires i < |f|
  {
    if i == 0 then Padding(f[0].align) else Start(f, i - 1) + Within(f[i - 1].instrs, |f[i - 1].instrs|) + Padding(f[i].align)
  }

  lemma {:induction false} WithinAligned(instrs: seq<Instr>, j: nat)
    requires j <= |instrs| && forall i | i in instrs :: i.size % 4 == 0
    ensures Within(instrs, j) % 4 == 0
  {
    if j > 0 { WithinAligned(instrs, j - 1); }
  }

  // The estimates keep blocks aligned, as the pass asserts.
  lemma {:induction false} BlocksAligned(f: Function, i: nat)
    requires WellFormed(f) && i < |f|
    ensures Start(f, i) % 4 == 0
  {
    assert f[i] in f;
    AlignmentOfCode(f[i].align);
    if i > 0 {
      assert f[i - 1] in f;
      BlocksAligned(f, i - 1);
      WithinAligned(f[i - 1].instrs, |f[i - 1].instrs|);
    }
  }

  predicate HasAsm(b: Block) {
    exists i | i in b.instrs :: i.kind == InlineAsm
  }

  predicate NoAsm(f: Function) {
    forall i | 0 <= i < |f| :: !HasAsm(f[i])
  }

  method ComputeBlockSize(b: Block) returns (size: Option<int>)
    ensures size.Some? <==> !HasAsm(b)
    ensures size.Some? ==> size.value == Within(b.instrs, |b.instrs|)
  {
    var sum := 0;
    for j := 0 to |b.instrs|
      invariant sum == Within(b.instrs, j) && forall k | 0 <= k < j :: b.instrs[k].kind != InlineAsm
    {
      if b.instrs[j].kind == InlineAsm { return None; }
      sum := sum + b.instrs[j].size;
    }
    return Some(sum);
  }

  // ----- Real layouts -----

  // at(i, j) is the address of instruction j of block i; j may be one past the last.
  type Layout = (nat, nat) -> int

  // What an assembler may lay out: each block at the first address of its alignment after the one before, each
  // instruction a multiple of four no longer than estimated.
  ghost predicate LaidOut(f: Function, at: Layout) {
    && (forall i, j | 0 <= i < |f| && 0 <= j < |f[i].instrs| ::
          0 <= at(i, j + 1) - at(i, j) <= f[i].instrs[j].size && (at(i, j + 1) - at(i, j)) % 4 == 0)
    && (forall i | 0 <= i < |f| :: at(i, 0) % Alignment(f[i].align) == 0)
    && (forall i | 0 <= i < |f| - 1 :: 0 <= at(i + 1, 0) - at(i, |f[i].instrs|) < Alignment(f[i + 1].align))
  }

  // Sizes and padding are at most what was estimated; everything stays 4-byte aligned.
  ghost predicate Real(f: Function, at: Layout) {
    && (forall i, j | 0 <= i < |f| && 0 <= j < |f[i].instrs| :: InstrFits(f, at, i, j))
    && (forall i | 0 <= i < |f| - 1 :: GapFits(f, at, i))
  }

  // Whatever is laid out stays within the estimates.
  lemma LaidOutIsReal(f: Function, at: Layout)
    requires WellFormed(f) && LaidOut(f, at)
    ensures Real(f, at)
  {
    hide WellFormed, LaidOut, InstrFits, GapFits;
    forall i, j | 0 <= i < |f| && 0 <= j < |f[i].instrs| ensures InstrFits(f, at, i, j) { InstrLaidOut(f, at, i, j); }
    forall i | 0 <= i < |f| - 1 ensures GapFits(f, at, i) { GapLaidOut(f, at, i); }
  }

  lemma InstrLaidOut(f: Function, at: Layout, i: nat, j: nat)
    requires LaidOut(f, at) && i < |f| && j < |f[i].instrs|
    ensures InstrFits(f, at, i, j)
  {
    hide Alignment;
  }

  lemma GapLaidOut(f: Function, at: Layout, i: nat)
    requires WellFormed(f) && LaidOut(f, at) && i + 1 < |f|
    ensures GapFits(f, at, i)
  {
    hide PowerOfTwo, Alignment, Padding;
    assert PowerOfTwo(f[i].align) && PowerOfTwo(f[i + 1].align) by { assert f[i] in f && f[i + 1] in f; }
    AlignmentOfCode(f[i].align);
    EndAligned(f, at, i, |f[i].instrs|);
    GapWithin(at(i, |f[i].instrs|), at(i + 1, 0), f[i + 1].align);
  }

  lemma GapWithin(end: int, next: int, align: int)
    requires PowerOfTwo(align) && end % 4 == 0 && next % Alignment(align) == 0 && 0 <= next - end < Alignment(align)
    ensures Shrinks(next - end, Padding(align))
  {
    hide PowerOfTwo;
    AlignmentOfCode(align);
    Multiple(next, Alignment(align));
  }

  lemma Multiple(x: int, a: int)
    requires a >= 4 && a % 4 == 0 && x % a == 0
    ensures x % 4 == 0
  {
    var k, q := a / 4, x / a;
    assert a == 4 * k && x == a * q;
    assert x == 4 * (k * q) by { assert 4 * k * q == 4 * (k * q); }
  }

  lemma {:induction false} EndAligned(f: Function, at: Layout, i: nat, j: nat)
    requires LaidOut(f, at) && i < |f| && j <= |f[i].instrs| && Alignment(f[i].align) % 4 == 0
    ensures at(i, j) % 4 == 0
  {
    if j == 0 {
      Multiple(at(i, 0), Alignment(f[i].align));
    } else {
      EndAligned(f, at, i, j - 1);
      assert 0 <= at(i, j - 1 + 1) - at(i, j - 1);
    }
  }

  // The padding assumed is the largest there can be: some block end needs all of it.
  lemma PaddingIsWorst(align: int)
    requires PowerOfTwo(align)
    ensures exists end, next :: end % 4 == 0 && next % Alignment(align) == 0 && 0 <= next - end < Alignment(align) && next - end == Padding(align)
    ensures forall end, next | end % 4 == 0 && next % Alignment(align) == 0 && 0 <= next - end < Alignment(align) :: next - end <= Padding(align)
  {
    AlignmentOfCode(align);
    var a := Alignment(align);
    assert 4 % 4 == 0 && a % a == 0 && a - 4 == Padding(align);
    forall end, next | end % 4 == 0 && next % a == 0 && 0 <= next - end < a ensures next - end <= Padding(align) { GapWithin(end, next, align); }
  }

  predicate InstrFits(f: Function, at: Layout, i: nat, j: nat)
    requires i < |f| && j < |f[i].instrs|
  {
    Shrinks(at(i, j + 1) - at(i, j), f[i].instrs[j].size)
  }

  predicate GapFits(f: Function, at: Layout, i: nat)
    requires i + 1 < |f|
  {
    Shrinks(at(i + 1, 0) - at(i, |f[i].instrs|), Padding(f[i + 1].align))
  }

  // A distance that is an instruction multiple and no longer than estimated.
  predicate Shrinks(actual: int, estimate: int) {
    0 <= actual <= estimate && actual % 4 == 0
  }

  lemma {:induction false} ShrinksInside(f: Function, at: Layout, i: nat, j: nat, k: nat)
    requires Real(f, at) && i < |f| && j <= k <= |f[i].instrs|
    ensures Shrinks(at(i, k) - at(i, j), Within(f[i].instrs, k) - Within(f[i].instrs, j))
  {
    if j < k {
      ShrinksInside(f, at, i, j, k - 1);
      assert InstrFits(f, at, i, k - 1);
    }
  }

  // From instruction j of block i to the start of a later block.
  lemma {:induction false} ShrinksAcross(f: Function, at: Layout, i: nat, j: nat, k: nat)
    requires Real(f, at) && i < k < |f| && j <= |f[i].instrs|
    ensures Shrinks(at(k, 0) - at(i, j), Start(f, k) - (Start(f, i) + Within(f[i].instrs, j)))
  {
    if k == i + 1 {
      ShrinksInside(f, at, i, j, |f[i].instrs|);
      assert GapFits(f, at, i);
    } else {
      ShrinksAcross(f, at, i, j, k - 1);
      ShrinksInside(f, at, k - 1, 0, |f[k - 1].instrs|);
      assert GapFits(f, at, k - 1);
    }
  }

  // So estimated distances to later blocks bound the real ones.
  lemma EstimatesHold(f: Function, at: Layout, i: nat, j: nat, k: nat)
    requires WellFormed(f) && LaidOut(f, at) && i < k < |f| && j <= |f[i].instrs|
    ensures 0 <= at(k, 0) - at(i, j) <= Start(f, k) - (Start(f, i) + Within(f[i].instrs, j)) && (at(k, 0) - at(i, j)) % 4 == 0
  {
    hide WellFormed, LaidOut, Real, Start, Within;
    LaidOutIsReal(f, at);
    ShrinksAcross(f, at, i, j, k);
  }

  // The estimate is what the worst layout takes: all instructions as long as estimated, all gaps full.
  lemma {:induction false} EstimateReached(f: Function, at: Layout, i: nat, j: nat, k: nat)
    requires i < k < |f| && j <= |f[i].instrs|
    requires forall p, q | 0 <= p < |f| && 0 <= q < |f[p].instrs| :: at(p, q + 1) - at(p, q) == f[p].instrs[q].size
    requires forall p | 0 <= p < |f| - 1 :: at(p + 1, 0) - at(p, |f[p].instrs|) == Padding(f[p + 1].align)
    ensures at(k, 0) - at(i, j) == Start(f, k) - (Start(f, i) + Within(f[i].instrs, j))
  {
    hide Padding;
    if k == i + 1 {
      ReachedInside(f, at, i, j, |f[i].instrs|);
    } else {
      EstimateReached(f, at, i, j, k - 1);
      ReachedInside(f, at, k - 1, 0, |f[k - 1].instrs|);
    }
  }

  lemma {:induction false} ReachedInside(f: Function, at: Layout, i: nat, j: nat, k: nat)
    requires i < |f| && j <= k <= |f[i].instrs|
    requires forall p, q | 0 <= p < |f| && 0 <= q < |f[p].instrs| :: at(p, q + 1) - at(p, q) == f[p].instrs[q].size
    ensures at(i, k) - at(i, j) == Within(f[i].instrs, k) - Within(f[i].instrs, j)
  {
    if j < k { ReachedInside(f, at, i, j, k - 1); }
  }

  // ----- Compressing one table -----

  datatype Entry = Entry(size: int, base: nat)

  predicate IsInt21(x: int) { -0x10_0000 <= x < 0x10_0000 }

  // compressJumpTable for a JumpTableDest32 at estimated offset `offset`, given the blocks' estimated offsets.
  method CompressJumpTable(info: seq<int>, targets: seq<nat>, offset: int) returns (e: Option<Entry>)
    requires (forall t | t in targets :: t < |info|) && forall k | 0 <= k < |targets| :: targets[k] < |info|
    ensures e.Some? ==> Compressed(info, targets, offset, e.value)
    ensures e.None? && |targets| > 0 ==> CannotCompress(info, targets, offset)
  {
    if |targets| == 0 { return None; }
    hide Compressed, CannotCompress;
    var maxOffset, minOffset, minBlock := info[targets[0]], info[targets[0]], targets[0];
    ghost var lo, hi := 0, 0;
    for k := 1 to |targets|
      invariant 0 <= lo < k && 0 <= hi < k && targets[lo] == minBlock && info[minBlock] == minOffset && info[targets[hi]] == maxOffset
      invariant forall j | 0 <= j < k :: minOffset <= info[targets[j]] <= maxOffset
    {
      var o := info[targets[k]];
      if o > maxOffset { maxOffset, hi := o, k; }
      if o <= minOffset {
        minOffset, minBlock, lo := o, targets[k], k;
      }
    }
    Spread(info, targets, offset, lo, hi);
    if !IsInt21(minOffset - offset) {
      return None;
    }
    var span := maxOffset - minOffset;
    if span / 4 <= 0xff {
      return Some(Entry(1, minBlock));
    }
    if span / 4 <= 0xffff {
      return Some(Entry(2, minBlock));
    }
    return None;
  }

  // What the extremes of the offsets decide.
  lemma Spread(info: seq<int>, targets: seq<nat>, offset: int, lo: nat, hi: nat)
    requires lo < |targets| && hi < |targets| && (forall t | t in targets :: t < |info|) && forall k | 0 <= k < |targets| :: targets[k] < |info|
    requires forall k | 0 <= k < |targets| :: info[targets[lo]] <= info[targets[k]] <= info[targets[hi]]
    ensures var reach, span := IsInt21(info[targets[lo]] - offset), (info[targets[hi]] - info[targets[lo]]) / 4;
            && (reach && span <= 0xff ==> Compressed(info, targets, offset, Entry(1, targets[lo])))
            && (reach && 0xff < span <= 0xffff ==> Compressed(info, targets, offset, Entry(2, targets[lo])))
            && (!reach || span > 0xffff ==> CannotCompress(info, targets, offset))
  {
    hide IsInt21;
    forall t | t in targets
      ensures info[targets[lo]] <= info[t] && (info[t] - info[targets[lo]]) / 4 <= (info[targets[hi]] - info[targets[lo]]) / 4
    {
      var k :| 0 <= k < |targets| && targets[k] == t;
    }
    assert targets[lo] in targets && targets[hi] in targets;
  }

  // Every distance from the base fits the entry, in instructions; two bytes only when one is not enough.
  ghost predicate Compressed(info: seq<int>, targets: seq<nat>, offset: int, e: Entry) {
    && (forall t | t in targets :: t < |info|) && e.base in targets
    && (e.size == 1 || e.size == 2) && IsInt21(info[e.base] - offset)
    && (forall t | t in targets :: 0 <= (info[t] - info[e.base]) / 4 <= (if e.size == 1 then 0xff else 0xffff) && info[t] >= info[e.base])
    && (e.size == 2 ==> exists t :: t in targets && (info[t] - info[e.base]) / 4 > 0xff)
  }

  // Only a reach or a span that is too large keeps the four-byte form.
  ghost predicate CannotCompress(info: seq<int>, targets: seq<nat>, offset: int)
    requires forall t | t in targets :: t < |info|
  {
    exists lo, hi :: lo in targets && hi in targets && (forall t | t in targets :: info[lo] <= info[t]) &&
      (!IsInt21(info[lo] - offset) || (info[hi] - info[lo]) / 4 > 0xffff)
  }

  // ----- The pass -----

  // Instruction j of block i jumps through table jti.
  predicate Jump(f: Function, i: nat, j: nat, jti: nat) {
    i < |f| && j < |f[i].instrs| && f[i].instrs[j].kind == JumpTableDest(jti)
  }

  ghost predicate TablesOK(f: Function, tables: seq<seq<nat>>) {
    && (forall t | t in tables :: (forall b | b in t :: b < |f|) && forall k | 0 <= k < |t| :: t[k] < |f|)
    && (forall b, i | b in f && i in b.instrs && i.kind.JumpTableDest? :: i.kind.jti < |tables|)
  }

  // The table was compressed, is empty, or cannot be compressed for this jump.
  ghost predicate Tried(f: Function, tables: seq<seq<nat>>, info: seq<int>, entries: map<nat, Entry>, i: nat, j: nat, jti: nat) {
    Jump(f, i, j, jti) ==>
      && jti < |tables| && (forall t | t in tables[jti] :: t < |info|)
      && (jti in entries || tables[jti] == [] || CannotCompress(info, tables[jti], Start(f, i) + Within(f[i].instrs, j)))
  }

  // So for every jump before instruction j of block i.
  ghost predicate TriedBefore(f: Function, tables: seq<seq<nat>>, info: seq<int>, entries: map<nat, Entry>, i: nat, j: nat) {
    forall p: nat, q: nat, jti: nat | p < i || (p == i && q < j) :: Tried(f, tables, info, entries, p, q, jti)
  }

  lemma TriedOne(f: Function, tables: seq<seq<nat>>, info: seq<int>, x: map<nat, Entry>, y: map<nat, Entry>, i: nat, j: nat)
    requires TriedBefore(f, tables, info, x, i, j) && x.Keys <= y.Keys
    requires forall jti: nat :: Tried(f, tables, info, y, i, j, jti)
    ensures TriedBefore(f, tables, info, y, i, j + 1)
  {
    hide CannotCompress, Start, Within;
    forall p: nat, q: nat, jti: nat | p < i || (p == i && q < j + 1) ensures Tried(f, tables, info, y, p, q, jti) {
      if p != i || q != j { assert Tried(f, tables, info, x, p, q, jti); }
    }
  }

  lemma TriedBlock(f: Function, tables: seq<seq<nat>>, info: seq<int>, x: map<nat, Entry>, i: nat)
    requires i < |f| && TriedBefore(f, tables, info, x, i, |f[i].instrs|)
    ensures TriedBefore(f, tables, info, x, i + 1, 0)
  {
    hide CannotCompress, Start, Within;
  }

  // The entry was chosen from the estimated offsets for a jump through this table.
  ghost predicate ChosenFor(f: Function, tables: seq<seq<nat>>, info: seq<int>, jti: nat, e: Entry, i: nat, j: nat) {
    Jump(f, i, j, jti) && jti < |tables| && Compressed(info, tables[jti], Start(f, i) + Within(f[i].instrs, j), e)
  }

  ghost predicate OneJump(f: Function, jti: nat) {
    forall i: nat, j: nat, p: nat, q: nat | Jump(f, i, j, jti) && Jump(f, p, q, jti) :: i == p && j == q
  }

  class CompressJumpTables {
    const func: Function
    const tables: seq<seq<nat>>   // the blocks each jump table leads to
    var blockInfo: array<int>
    var entries: map<nat, Entry>  // setJumpTableEntryInfo, by table index

    constructor (f: Function, tables: seq<seq<nat>>)
      ensures func == f && this.tables == tables && fresh(blockInfo) && blockInfo.Length == |f| && entries == map[]
    {
      func := f;
      this.tables := tables;
      blockInfo := new int[|f|];
      entries := map[];
    }

    ghost predicate Chosen(jti: nat, e: Entry)
      reads this`blockInfo, blockInfo
    {
      exists i: nat, j: nat :: ChosenFor(func, tables, blockInfo[..], jti, e, i, j)
    }

    ghost predicate Scanned()
      reads this`blockInfo, blockInfo
    {
      blockInfo.Length == |func| && forall i | 0 <= i < |func| :: blockInfo[i] == Start(func, i)
    }

    method ScanFunction() returns (ok: bool)
      requires blockInfo.Length == |func|
      modifies blockInfo
      ensures ok ==> Scanned()
      ensures ok <==> NoAsm(func)
    {
      hide HasAsm, Within;
      var offset := 0;
      for i := 0 to |func|
        invariant forall k | 0 <= k < i :: !HasAsm(func[k])
        invariant forall k | 0 <= k < i :: blockInfo[k] == Start(func, k)
        invariant offset == if i == 0 then 0 else Start(func, i - 1) + Within(func[i - 1].instrs, |func[i - 1].instrs|)
      {
        var after := offset;
        if func[i].align > 4 {
          after := after + func[i].align - 4;
        }
        blockInfo[i] := after;
        var size := ComputeBlockSize(func[i]);
        if size.None? { return false; }
        offset := after + size.value;
      }
      return true;
    }

    ghost predicate State(changed: bool)
      reads this, blockInfo
    {
      Scanned() && (forall jti | jti in entries :: Chosen(jti, entries[jti])) && (changed <==> entries != map[])
    }

    // compressJumpTable on one instruction.
    method Try(i: nat, j: nat, offset: int, changed0: bool) returns (changed: bool)
      requires TablesOK(func, tables) && State(changed0) && i < |func| && j < |func[i].instrs|
      requires TriedBefore(func, tables, blockInfo[..], entries, i, j)
      requires offset == Start(func, i) + Within(func[i].instrs, j)
      modifies this`entries
      ensures State(changed) && TriedBefore(func, tables, blockInfo[..], entries, i, j + 1)
    {
      hide Compressed, CannotCompress, Start, Within, TriedBefore;
      changed := changed0;
      ghost var before := entries;
      var mi := func[i].instrs[j];
      if mi.kind.JumpTableDest? {
        assert func[i] in func && mi in func[i].instrs && tables[mi.kind.jti] in tables;
        var e := CompressJumpTable(blockInfo[..], tables[mi.kind.jti], offset);
        if e.Some? {
          entries := entries[mi.kind.jti := e.value];
          changed := true;
          assert ChosenFor(func, tables, blockInfo[..], mi.kind.jti, e.value, i, j);
          assert mi.kind.jti in entries;
        }
      }
      TriedOne(func, tables, blockInfo[..], before, entries, i, j);
    }

    method Run() returns (changed: bool)
      requires blockInfo.Length == |func| && entries == map[] && TablesOK(func, tables)
      modifies this`entries, blockInfo
      ensures State(changed) || (!changed && entries == map[])
      ensures changed ==> NoAsm(func)
      ensures NoAsm(func) ==> State(changed) && TriedBefore(func, tables, blockInfo[..], entries, |func|, 0)
    {
      hide NoAsm, TablesOK;
      changed := false;
      var ok := ScanFunction();
      if !ok { return; }
      for i := 0 to |func|
        invariant State(changed) && TriedBefore(func, tables, blockInfo[..], entries, i, 0)
      {
        var offset := blockInfo[i];
        for j := 0 to |func[i].instrs|
          invariant offset == Start(func, i) + Within(func[i].instrs, j)
          invariant State(changed) && TriedBefore(func, tables, blockInfo[..], entries, i, j)
        {
          changed := Try(i, j, offset, changed);
          offset := offset + func[i].instrs[j].size;
        }
        TriedBlock(func, tables, blockInfo[..], entries, i);
      }
    }

    function EntrySize(jti: nat): int
      reads this`entries
    {
      if jti in entries then entries[jti].size else 4
    }

    // The address the entries count from. A table the pass left alone has no base block: the printer
    // labels the first ADR it emits for the table.
    function Base(jti: nat, at: Layout, anchor: int): int
      reads this`entries
    {
      if jti in entries then at(entries[jti].base, 0) else anchor
    }

    // After the pass every jump goes where its table says, in every real layout. With one jump for each
    // table the ADR reaches the base.
    lemma JumpsDecode(changed: bool, at: Layout, anchor: int, i: nat, j: nat, jti: nat, code: seq<Code>, table: seq<int>, k: nat, s: Regs)
      requires State(changed) || entries == map[]
      requires WellFormed(func) && LaidOut(func, at) && Jump(func, i, j, jti) && jti < |tables| && k < |tables[jti]|
      requires Lowers(code, EntrySize(jti)) && Prints(table, Addresses(at, tables[jti]), Base(jti, at, anchor), EntrySize(jti))
      requires jti !in entries ==> forall t | t in tables[jti] :: -0x8000_0000 <= at(t, 0) - anchor < 0x8000_0000
      ensures RunCode(code, Base(jti, at, anchor), table, k, s).dest == at(tables[jti][k], 0)
      ensures jti in entries && OneJump(func, jti) ==> -0x10_0000 <= Base(jti, at, anchor) - at(i, j) < 0x10_0000
    {
      hide WellFormed, LaidOut, Start, Within, Compressed, RunCode, Lowers, Prints, IsInt21, Addresses;
      if jti in entries {
        var e := entries[jti];
        assert Chosen(jti, e);
        var p: nat, q: nat :| ChosenFor(func, tables, blockInfo[..], jti, e, p, q);
        CompressedDecodes(func, at, blockInfo[..], tables[jti], e, p, q, code, table, k, s);
      } else {
        UncompressedDecodes(at, tables[jti], anchor, code, table, k, s);
      }
    }
  }

  // ----- The printed table and the code that reads it -----

  // Little-endian bytes of a value truncated to `size` bytes.
  function Bytes(v: int, size: nat): seq<int>
    decreases size
  {
    if size == 0 then [] else [v % 256] + Bytes(v / 256, size - 1)
  }

  // The bytes of an entry, lowest first.
  lemma LittleEndian(v: int)
    ensures Bytes(v, 1) == [v % 0x100]
    ensures Bytes(v, 2) == [v % 0x100, v / 0x100 % 0x100]
    ensures Bytes(v, 4) == [v % 0x100, v / 0x100 % 0x100, v / 0x1_0000 % 0x100, v / 0x100_0000 % 0x100]
  {
    assert Bytes(v / 0x100, 1) == [v / 0x100 % 0x100] + Bytes(v / 0x100 / 0x100, 0);
    assert Bytes(v / 0x1_0000, 2) == [v / 0x1_0000 % 0x100] + Bytes(v / 0x1_0000 / 0x100, 1);
    assert Bytes(v / 0x100, 3) == [v / 0x100 % 0x100] + Bytes(v / 0x100 / 0x100, 2);
    assert v / 0x100 / 0x100 == v / 0x1_0000 && v / 0x1_0000 / 0x100 == v / 0x100_0000;
  }

  // An entry: the distance from the base, in instructions unless the entry has four bytes.
  function EntryValue(target: int, base: int, size: int): int {
    if size == 4 then target - base else (target - base) % 0x1_0000_0000_0000_0000 / 4
  }

  // The printed table: the bytes of each entry in turn.
  ghost predicate Prints(table: seq<int>, targets: seq<int>, base: int, size: int) {
    size in {1, 2, 4} && |table| == size * |targets|
    && forall k | 0 <= k < |targets| :: EntryAt(table, size, k) == Bytes(EntryValue(targets[k], base, size), size)
  }

  // emitJumpTableImpl for one table.
  method EmitJumpTable(targets: seq<int>, base: int, size: int) returns (table: seq<int>)
    requires size in {1, 2, 4}
    ensures Prints(table, targets, base, size)
  {
    hide Bytes, EntryValue, EntryAt;
    table := [];
    for k := 0 to |targets|
      invariant |table| == size * k
      invariant forall j | 0 <= j < k :: EntryAt(table, size, j) == Bytes(EntryValue(targets[j], base, size), size)
    {
      ghost var before := table;
      var bytes := Bytes(EntryValue(targets[k], base, size), size);
      table := table + bytes;
      BytesLength(EntryValue(targets[k], base, size), size);
      Longer(size, k);
      EntryNew(before, bytes, size, k);
      forall j | 0 <= j < k ensures EntryAt(table, size, j) == EntryAt(before, size, j) { EntryKept(before, table, size, j, k); }
    }
  }

  lemma Longer(size: int, k: nat)
    ensures size * (k + 1) == size * k + size
  {
  }

  lemma EntryNew(x: seq<int>, bytes: seq<int>, size: int, k: nat)
    requires size in {1, 2, 4} && |x| == size * k && |bytes| == size
    ensures EntryAt(x + bytes, size, k) == bytes
  {
    assert (x + bytes)[|x|..|x| + size] == bytes;
  }

  lemma {:induction false} BytesLength(v: int, size: nat)
    ensures |Bytes(v, size)| == size
    decreases size
  {
    if size > 0 { BytesLength(v / 256, size - 1); }
  }

  function EntryAt(table: seq<int>, size: int, k: nat): seq<int> {
    if size > 0 && size * k + size <= |table| then table[size * k..size * k + size] else []
  }

  lemma EntryKept(x: seq<int>, y: seq<int>, size: int, j: nat, k: nat)
    requires size in {1, 2, 4} && j < k && |x| == size * k && |y| >= |x| && y[..|x|] == x
    ensures EntryAt(y, size, j) == EntryAt(x, size, j)
  {
    assert size * j + size <= size * k;
  }

  // The register-offset load either scales the index by the access size or does not.
  datatype Code = Adr | Load(size: int, doShift: bool) | AddShifted(shift: int)

  datatype Regs = Regs(dest: int, scratch: int)

  function Unbytes(bs: seq<int>): int {
    if bs == [] then 0 else bs[0] + 256 * Unbytes(bs[1..])
  }

  function Power2(n: int): int {
    if n == 1 then 2 else if n == 2 then 4 else 1
  }

  // ldrb and ldrh zero-extend, ldrsw sign-extends.
  function Loaded(bs: seq<int>): int {
    var v := Unbytes(bs);
    if |bs| == 4 && v >= 0x8000_0000 then v - 0x1_0000_0000 else v
  }

  function Exec(c: Code, base: int, table: seq<int>, entry: nat, s: Regs): Regs {
    match c
    case Adr => s.(dest := base)
    case Load(size, doShift) =>
      var o := if doShift then size * entry else entry;
      if 0 <= o && size >= 0 && o + size <= |table| then s.(scratch := Loaded(table[o..o + size])) else s
    case AddShifted(shift) => s.(dest := s.dest + s.scratch * Power2(shift))
  }

  function RunCode(code: seq<Code>, base: int, table: seq<int>, entry: nat, s: Regs): Regs {
    if code == [] then s else RunCode(code[1..], base, table, entry, Exec(code[0], base, table, entry, s))
  }

  // The code computes the base plus the entry, which counts instructions unless it has four bytes.
  ghost predicate Lowers(code: seq<Code>, size: int) {
    forall base, table, entry: nat, s: Regs | size > 0 && size * entry + size <= |table| ::
      RunCode(code, base, table, entry, s).dest == base + Loaded(EntryAt(table, size, entry)) * (if size == 4 then 1 else 4)
  }

  // LowerJumpTableDest
  method LowerJumpTableDest(size: int) returns (code: seq<Code>)
    requires size in {1, 2, 4}
    ensures Lowers(code, size)
  {
    code := [Adr];
    code := code + [Load(size, size != 1)];
    code := code + [AddShifted(if size == 4 then 0 else 2)];
    ThreeLower(code, size);
  }

  lemma ThreeLower(code: seq<Code>, size: int)
    requires size in {1, 2, 4} && code == [Adr, Load(size, size != 1), AddShifted(if size == 4 then 0 else 2)]
    ensures Lowers(code, size)
  {
    hide RunCode, Exec, Loaded, EntryAt;
    forall base, table, entry: nat, s: Regs | size > 0 && size * entry + size <= |table|
      ensures RunCode(code, base, table, entry, s).dest == base + Loaded(EntryAt(table, size, entry)) * (if size == 4 then 1 else 4)
    {
      ThreeRun(code, base, table, entry, s);
      ThreeCompute(size, base, table, entry, s);
    }
  }

  lemma ThreeCompute(size: int, base: int, table: seq<int>, entry: nat, s: Regs)
    requires size in {1, 2, 4} && size * entry + size <= |table|
    ensures var s2 := Exec(Load(size, size != 1), base, table, entry, Exec(Adr, base, table, entry, s));
            Exec(AddShifted(if size == 4 then 0 else 2), base, table, entry, s2).dest
            == base + Loaded(EntryAt(table, size, entry)) * (if size == 4 then 1 else 4)
  {
    hide Loaded;
    assert size == 1 ==> size * entry == entry;
  }

  lemma RunFirst(code: seq<Code>, base: int, table: seq<int>, entry: nat, s: Regs)
    requires code != []
    ensures RunCode(code, base, table, entry, s) == RunCode(code[1..], base, table, entry, Exec(code[0], base, table, entry, s))
  {
  }

  lemma ThreeRun(code: seq<Code>, base: int, table: seq<int>, entry: nat, s: Regs)
    requires |code| == 3
    ensures RunCode(code, base, table, entry, s) ==
            Exec(code[2], base, table, entry, Exec(code[1], base, table, entry, Exec(code[0], base, table, entry, s)))
  {
    hide Exec;
    var s1 := Exec(code[0], base, table, entry, s);
    var s2 := Exec(code[1], base, table, entry, s1);
    assert code[1..][1..] == code[2..] && code[2..][1..] == [];
    RunFirst(code, base, table, entry, s);
    RunFirst(code[1..], base, table, entry, s1);
    RunFirst(code[2..], base, table, entry, s2);
  }

  function Range(size: nat): int
    decreases size
  {
    if size == 0 then 1 else 256 * Range(size - 1)
  }

  lemma ModStep(v: int, m: int)
    requires m > 0
    ensures v % (256 * m) == v % 256 + 256 * (v / 256 % m)
  {
    var q, r := v / 256 / m, v / 256 % m;
    assert v == 256 * (v / 256) + v % 256 && v / 256 == m * q + r;
    assert v == 256 * m * q + (256 * r + v % 256) by { assert 256 * (m * q) == 256 * m * q; }
    assert 0 <= 256 * r + v % 256 < 256 * m;
    Quotient(v, 256 * m, q, 256 * r + v % 256);
  }

  lemma Quotient(v: int, d: int, q: int, r: int)
    requires d > 0 && v == d * q + r && 0 <= r < d
    ensures v % d == r
  {
    var k := v / d - q;
    assert d * k == r - v % d by { assert v == d * (v / d) + v % d; }
    Multiples(d, k);
  }

  lemma Multiples(d: int, k: int)
    requires d > 0
    ensures (k > 0 ==> d * k >= d) && (k < 0 ==> d * k <= -d)
  {
  }

  lemma {:induction false} UnbytesMod(v: int, size: nat)
    ensures Range(size) > 0 && Unbytes(Bytes(v, size)) == v % Range(size)
    decreases size
  {
    if size > 0 {
      UnbytesMod(v / 256, size - 1);
      UnbytesCons(v % 256, Bytes(v / 256, size - 1));
      ModStep(v, Range(size - 1));
    }
  }

  lemma UnbytesBytes(v: int, size: nat)
    requires size in {1, 2, 4}
    ensures Unbytes(Bytes(v, size)) == v % (if size == 1 then 0x100 else if size == 2 then 0x1_0000 else 0x1_0000_0000)
  {
    UnbytesMod(v, size);
    hide Bytes, Unbytes;
    assert Range(1) == 256 * Range(0) && Range(2) == 256 * Range(1) && Range(3) == 256 * Range(2) && Range(4) == 256 * Range(3);
  }

  lemma UnbytesCons(b: int, bs: seq<int>)
    ensures Unbytes([b] + bs) == b + 256 * Unbytes(bs)
  {
    assert ([b] + bs)[1..] == bs;
  }

  // An entry that fits decodes to its target.
  lemma EntryDecodes(targets: seq<int>, base: int, size: int, code: seq<Code>, table: seq<int>, k: nat, s: Regs)
    requires Lowers(code, size) && Prints(table, targets, base, size) && k < |targets|
    requires size == 4 ==> -0x8000_0000 <= targets[k] - base < 0x8000_0000
    requires size != 4 ==> targets[k] >= base && (targets[k] - base) % 4 == 0
    requires size != 4 ==> (targets[k] - base) / 4 <= (if size == 1 then 0xff else 0xffff)
    ensures RunCode(code, base, table, k, s).dest == targets[k]
  {
    hide Loaded, Bytes, EntryAt, RunCode;
    InTable(size, k, |targets|);
    if size == 4 { WordDecodes(targets[k] - base); } else { SmallDecodes(targets[k] - base, size); }
  }

  lemma InTable(size: int, k: nat, n: nat)
    requires size in {1, 2, 4} && k < n
    ensures size * k + size <= size * n
  {
  }

  lemma WordDecodes(d: int)
    requires -0x8000_0000 <= d < 0x8000_0000
    ensures Loaded(Bytes(d, 4)) == d
  {
    UnbytesBytes(d, 4);
    BytesLength(d, 4);
    hide Bytes, Unbytes;
  }

  lemma SmallDecodes(d: int, size: int)
    requires (size == 1 || size == 2) && d >= 0 && d % 4 == 0 && d / 4 <= (if size == 1 then 0xff else 0xffff)
    ensures Loaded(Bytes(d % 0x1_0000_0000_0000_0000 / 4, size)) == d / 4
  {
    UnbytesBytes(d / 4, size);
    BytesLength(d / 4, size);
    hide Bytes, Unbytes;
    NoWrap(d);
    NoTruncation(d / 4, size);
  }

  lemma NoWrap(d: int)
    requires 0 <= d < 0x4_0000
    ensures d % 0x1_0000_0000_0000_0000 == d
  {
  }

  lemma NoTruncation(q: int, size: int)
    requires (size == 1 && 0 <= q <= 0xff) || (size == 2 && 0 <= q <= 0xffff)
    ensures q % (if size == 1 then 0x100 else 0x1_0000) == q
  {
  }

  // ----- The main theorem -----

  // From the base block, the lowest of the table by estimate, to another target.
  lemma TargetAbove(f: Function, at: Layout, base: nat, t: nat)
    requires Real(f, at) && base < |f| && t < |f| && Start(f, t) >= Start(f, base)
    ensures Shrinks(at(t, 0) - at(base, 0), Start(f, t) - Start(f, base))
  {
    hide Start, Real, Within;
    if base < t {
      WithinNothing(f[base].instrs);
      ShrinksAcross(f, at, base, 0, t);
    }
    if t < base {
      WithinNothing(f[t].instrs);
      ShrinksAcross(f, at, t, 0, base);
    }
  }

  lemma WithinNothing(instrs: seq<Instr>)
    ensures Within(instrs, 0) == 0
  {
  }

  // The reach of the ADR only gets shorter.
  lemma ReachShrinks(f: Function, at: Layout, base: nat, i: nat, j: nat)
    requires Real(f, at) && base < |f| && i < |f| && j <= |f[i].instrs|
    requires IsInt21(Start(f, base) - (Start(f, i) + Within(f[i].instrs, j)))
    ensures IsInt21(at(base, 0) - at(i, j))
  {
    if i < base {
      ShrinksAcross(f, at, i, j, base);
    } else {
      ShrinksInside(f, at, i, 0, j);
      if base < i { ShrinksAcross(f, at, base, 0, i); }
    }
  }

  function Addresses(at: Layout, targets: seq<nat>): seq<int> {
    seq(|targets|, k requires 0 <= k < |targets| => at(targets[k], 0))
  }

  // A table the pass compressed: in every real layout the ADR of the jump it was chosen for reaches its base,
  // and each printed entry takes the lowered code to its block.
  lemma CompressedDecodes(f: Function, at: Layout, info: seq<int>, targets: seq<nat>, e: Entry, i: nat, j: nat,
                          code: seq<Code>, table: seq<int>, k: nat, s: Regs)
    requires WellFormed(f) && LaidOut(f, at) && |info| == |f| && (forall b | 0 <= b < |f| :: info[b] == Start(f, b))
    requires i < |f| && j < |f[i].instrs| && Compressed(info, targets, Start(f, i) + Within(f[i].instrs, j), e)
    requires k < |targets| && Lowers(code, e.size) && Prints(table, Addresses(at, targets), at(e.base, 0), e.size)
    ensures e.base < |f| && -0x10_0000 <= at(e.base, 0) - at(i, j) < 0x10_0000
    ensures RunCode(code, at(e.base, 0), table, k, s).dest == at(targets[k], 0)
  {
    hide WellFormed, LaidOut, Real, Start, Within, RunCode, Lowers, Prints;
    LaidOutIsReal(f, at);
    assert targets[k] in targets && e.base in targets;
    ReachShrinks(f, at, e.base, i, j);
    TargetAbove(f, at, e.base, targets[k]);
    EntryDecodes(Addresses(at, targets), at(e.base, 0), e.size, code, table, k, s);
  }

  // A table left as it was is relative to a labelled ADR.
  lemma UncompressedDecodes(at: Layout, targets: seq<nat>, anchor: int, code: seq<Code>, table: seq<int>, k: nat, s: Regs)
    requires k < |targets| && -0x8000_0000 <= at(targets[k], 0) - anchor < 0x8000_0000
    requires Lowers(code, 4) && Prints(table, Addresses(at, targets), anchor, 4)
    ensures RunCode(code, anchor, table, k, s).dest == at(targets[k], 0)
  {
    hide RunCode, Lowers, Prints;
    assert Addresses(at, targets)[k] == at(targets[k], 0);
    EntryDecodes(Addresses(at, targets), anchor, 4, code, table, k, s);
  }
}
