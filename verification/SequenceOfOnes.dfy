/** trySequenceOfOnes: one ORR for a run of ones that one or two 16-bit chunks interrupt,
    then MOVKs for those chunks. The encoder's answer is not looked at by the source;
    the proofs below show that it is always a success. */
module SequenceOfOnes {
  import opened Words
  import opened LogicalImm
  import opened ImmInsns
  import opened ExpandStrategies

  // (Chunk << 48) >> 48 on int64_t
  function SignExtend16(c: Word): (r: Word)
    ensures forall i | 0 <= i < 64 :: r[i] == if i < 16 then c[i] else c[15]
  {
    seq(64, i requires 0 <= i < 64 => if i < 16 then c[i] else c[15])
  }

  // '1...0...' read from the most significant bit
  predicate IsStartChunk(chunk: Word) {
    chunk != ZERO && chunk != Not(ZERO) && IsMask(Not(chunk))
  }

  // '0...1...'
  predicate IsEndChunk(chunk: Word) {
    chunk != ZERO && chunk != Not(ZERO) && IsMask(chunk)
  }

  // The chunk at idx becomes all zeros or all ones.
  function UpdateImm(imm: Word, idx: nat, clear: bool): Word
    requires idx < 4
  {
    var mask := Shl(Ones(16), 16 * idx);
    if clear then And(imm, Not(mask)) else Or(imm, mask)
  }

  predicate Starts(imm: Word, k: nat)
    requires k < 4
  {
    IsStartChunk(SignExtend16(GetChunk(imm, k)))
  }

  predicate Ends(imm: Word, k: nat)
    requires k < 4
  {
    IsEndChunk(SignExtend16(GetChunk(imm, k)))
  }

  // ----- Bit shapes -----

  lemma StartShape(imm: Word, k: nat) returns (a: nat)
    requires k < 4 && Starts(imm, k)
    ensures 1 <= a <= 15 && forall i | 16 * k <= i < 16 * k + 16 :: imm[i] == (16 * k + a <= i)
  {
    var c := GetChunk(imm, k);
    var e := SignExtend16(c);
    var z := Not(e);
    a := CountrOne(z);
    assert z == Ones(a);
    assert z[0] && e[15] == e[63];
    var d := Difference(e, ZERO);
    assert !e[0] && !z[d];
    assert z[15] == z[63];
    forall i | 16 * k <= i < 16 * k + 16 ensures imm[i] == (16 * k + a <= i) {
      assert c[i - 16 * k] == e[i - 16 * k] == !z[i - 16 * k];
    }
  }

  lemma EndShape(imm: Word, k: nat) returns (b: nat)
    requires k < 4 && Ends(imm, k)
    ensures 1 <= b <= 15 && forall i | 16 * k <= i < 16 * k + 16 :: imm[i] == (i < 16 * k + b)
  {
    var c := GetChunk(imm, k);
    var e := SignExtend16(c);
    b := CountrOne(e);
    assert e == Ones(b);
    var d := Difference(e, Not(ZERO));
    assert e[15] == e[63] == e[32];
    assert !e[d];
    forall i | 16 * k <= i < 16 * k + 16 ensures imm[i] == (i < 16 * k + b) {
      assert c[i - 16 * k] == e[i - 16 * k];
    }
  }

  lemma UpdateChunk(imm: Word, idx: nat, clear: bool, k: nat)
    requires idx < 4 && k < 4
    ensures GetChunk(UpdateImm(imm, idx, clear), k) ==
            if k == idx then (if clear then ZERO else Ones(16)) else GetChunk(imm, k)
  {
    hide And, Or, Not, Shl, Ones, GetChunk, Span;
    var y := UpdateImm(imm, idx, clear);
    var g := GetChunk(y, k);
    var e := if k == idx then (if clear then ZERO else Ones(16)) else GetChunk(imm, k);
    forall i | 0 <= i < 64 ensures g[i] == e[i] {
      if i < 16 { assert g[i] == y[16 * k + i]; }
    }
  }

  // ----- The patched immediate -----

  // The chunk the run of ones wants at index k; the run lies between lo and hi, or outside them when wraps.
  function Wanted(imm: Word, lo: nat, hi: nat, wraps: bool, k: nat): Word
    requires k < 4
  {
    if k < lo || hi < k then (if wraps then Ones(16) else ZERO)
    else if lo < k < hi then (if wraps then ZERO else Ones(16))
    else GetChunk(imm, k)
  }

  // The patched immediate holds the wanted chunk everywhere.
  ghost predicate Patched(orr: Word, imm: Word, lo: nat, hi: nat, wraps: bool, upto: nat) {
    && (forall k | 0 <= k < 4 && k < upto :: GetChunk(orr, k) == Wanted(imm, lo, hi, wraps, k))
    && (forall k | 0 <= k < 4 && upto <= k :: GetChunk(orr, k) == GetChunk(imm, k))
  }

  lemma UniformBits(orr: Word, k: nat, v: bool)
    requires k < 4 && GetChunk(orr, k) == if v then Ones(16) else ZERO
    ensures forall i | 16 * k <= i < 16 * k + 16 :: orr[i] == v
  {
    var c := GetChunk(orr, k);
    forall i | 16 * k <= i < 16 * k + 16 ensures orr[i] == v {
      assert c[i - 16 * k] == orr[16 * k + (i - 16 * k)];
    }
  }

  lemma SameChunkBits(orr: Word, imm: Word, k: nat)
    requires k < 4 && GetChunk(orr, k) == GetChunk(imm, k)
    ensures forall i | 16 * k <= i < 16 * k + 16 :: orr[i] == imm[i]
  {
    var c, d := GetChunk(orr, k), GetChunk(imm, k);
    forall i | 16 * k <= i < 16 * k + 16 ensures orr[i] == imm[i] {
      assert c[i - 16 * k] == orr[16 * k + (i - 16 * k)] && d[i - 16 * k] == imm[16 * k + (i - 16 * k)];
    }
  }

  // Bits outside [lo's boundary, hi's boundary) are v, those inside are !v.
  lemma PatchedBits(orr: Word, imm: Word, lo: nat, hi: nat, wraps: bool, a: nat, b: nat, i: nat)
    requires lo < hi < 4 && Patched(orr, imm, lo, hi, wraps, 4) && i < 64
    requires 1 <= a <= 15 && 1 <= b <= 15
    requires forall j | 16 * lo <= j < 16 * lo + 16 :: imm[j] == (wraps != (16 * lo + a <= j))
    requires forall j | 16 * hi <= j < 16 * hi + 16 :: imm[j] == (wraps != (j < 16 * hi + b))
    ensures orr[i] == (wraps != (16 * lo + a <= i < 16 * hi + b))
  {
    hide GetChunk, Ones, Span;
    var k := i / 16;
    assert GetChunk(orr, k) == Wanted(imm, lo, hi, wraps, k);
    if k < lo || hi < k {
      UniformBits(orr, k, wraps);
    } else if lo < k < hi {
      UniformBits(orr, k, !wraps);
    } else {
      SameChunkBits(orr, imm, k);
    }
  }

  // One non-trivial cyclic run of ones.
  lemma PatchedIsLogical(orr: Word, imm: Word, start: nat, end: nat)
    requires start < 4 && end < 4 && Starts(imm, start) && Ends(imm, end)
    requires Patched(orr, imm, if start > end then end else start, if start > end then start else end, start > end, 4)
    ensures start != end && Logical(orr, 64)
  {
    hide Patched, Starts, Ends, GetChunk;
    var a := StartShape(imm, start);
    var b := EndShape(imm, end);
    assert imm[16 * start + 15] && !imm[16 * end + 15];
    if start < end {
      forall i: nat | i < 64 ensures orr[i] == (16 * start + a <= i < 16 * end + b) {
        PatchedBits(orr, imm, start, end, false, a, b, i);
      }
      assert IsPattern(orr, 64, 64, 16 * end + b - (16 * start + a), 16 * start + a);
    } else {
      forall i: nat | i < 64 ensures orr[i] == !(16 * end + b <= i < 16 * start + a) {
        PatchedBits(orr, imm, end, start, true, b, a, i);
      }
      assert IsPattern(orr, 64, 64, 64 - (16 * start + a) + (16 * end + b), 16 * start + a);
    }
  }

  // ----- The search -----

  method FindStartEnd(imm: Word) returns (startIdx: int, endIdx: int)
    ensures -1 <= startIdx < 4 && -1 <= endIdx < 4
    ensures startIdx >= 0 ==> Starts(imm, startIdx)
    ensures endIdx >= 0 ==> Ends(imm, endIdx)
    ensures startIdx == -1 <==> forall k | 0 <= k < 4 :: !Starts(imm, k)
    ensures endIdx == -1 <==> forall k | 0 <= k < 4 :: Ends(imm, k) ==> Starts(imm, k)
  {
    hide Starts, Ends, GetChunk;
    startIdx, endIdx := -1, -1;
    for idx := 0 to 4
      invariant -1 <= startIdx < idx && -1 <= endIdx < idx
      invariant startIdx >= 0 ==> Starts(imm, startIdx)
      invariant endIdx >= 0 ==> Ends(imm, endIdx)
      invariant startIdx == -1 <==> forall k | 0 <= k < idx :: !Starts(imm, k)
      invariant endIdx == -1 <==> forall k | 0 <= k < idx :: Ends(imm, k) ==> Starts(imm, k)
    {
      if Starts(imm, idx) {
        startIdx := idx;
      } else if Ends(imm, idx) {
        endIdx := idx;
      }
    }
  }

  // The chunk at k is one of those to be patched.
  predicate Interrupts(imm: Word, lo: nat, hi: nat, wraps: bool, k: nat)
    requires k < 4
  {
    GetChunk(imm, k) != Wanted(imm, lo, hi, wraps, k)
  }

  // first and second are the interrupting chunks below n, in order; -1 stands for NotSet.
  ghost predicate Noted(imm: Word, lo: nat, hi: nat, wraps: bool, n: nat, first: int, second: int) {
    && -1 <= first < n <= 4 && -1 <= second < n && (second >= 0 ==> 0 <= first < second)
    && (first >= 0 ==> Interrupts(imm, lo, hi, wraps, first))
    && (second >= 0 ==> Interrupts(imm, lo, hi, wraps, second))
    && (forall k | 0 <= k < n && k != first && k != second :: !Interrupts(imm, lo, hi, wraps, k))
  }

  lemma PatchStep(orr: Word, imm: Word, lo: nat, hi: nat, wraps: bool, idx: nat)
    requires lo < hi < 4 && idx < 4 && Patched(orr, imm, lo, hi, wraps, idx)
    ensures !Interrupts(imm, lo, hi, wraps, idx) ==> Patched(orr, imm, lo, hi, wraps, idx + 1)
    ensures idx < lo || hi < idx ==> Patched(UpdateImm(orr, idx, !wraps), imm, lo, hi, wraps, idx + 1)
    ensures lo < idx < hi ==> Patched(UpdateImm(orr, idx, wraps), imm, lo, hi, wraps, idx + 1)
  {
    hide GetChunk, UpdateImm, Ones;
    forall k, clear | 0 <= k < 4
      ensures GetChunk(UpdateImm(orr, idx, clear), k) ==
              if k == idx then (if clear then ZERO else Ones(16)) else GetChunk(orr, k)
    {
      UpdateChunk(orr, idx, clear, k);
    }
  }

  lemma NoteStep(imm: Word, lo: nat, hi: nat, wraps: bool, idx: nat, first: int, second: int)
    requires lo < hi < 4 && idx < 4 && Noted(imm, lo, hi, wraps, idx, first, second)
    ensures if !Interrupts(imm, lo, hi, wraps, idx) then Noted(imm, lo, hi, wraps, idx + 1, first, second)
            else second == -1 && if first == -1 then Noted(imm, lo, hi, wraps, idx + 1, idx, -1)
                                 else Noted(imm, lo, hi, wraps, idx + 1, first, idx)
    ensures Interrupts(imm, lo, hi, wraps, idx) <==>
      ((idx < lo || hi < idx) && GetChunk(imm, idx) != (if wraps then Ones(16) else ZERO))
      || (lo < idx < hi && GetChunk(imm, idx) != if wraps then ZERO else Ones(16))
  {
    hide GetChunk, Ones;
    if Interrupts(imm, lo, hi, wraps, idx) { OnlyTwo(imm, lo, hi, wraps, idx, first, second); }
  }

  // Patch the interrupting chunks and remember them. Only two chunks can be neither start nor end.
  method PatchChunks(imm: Word, lo: nat, hi: nat, wraps: bool) returns (orrImm: Word, first: int, second: int)
    requires lo < hi < 4
    ensures Patched(orrImm, imm, lo, hi, wraps, 4)
    ensures Noted(imm, lo, hi, wraps, 4, first, second)
  {
    hide GetChunk, UpdateImm, Ones, Interrupts, Patched, Noted;
    var outside, inside := if wraps then Ones(16) else ZERO, if wraps then ZERO else Ones(16);
    orrImm, first, second := imm, -1, -1;
    NothingNoted(imm, lo, hi, wraps);
    for idx := 0 to 4
      invariant Patched(orrImm, imm, lo, hi, wraps, idx)
      invariant Noted(imm, lo, hi, wraps, idx, first, second)
    {
      var chunk := GetChunk(imm, idx);
      PatchStep(orrImm, imm, lo, hi, wraps, idx);
      NoteStep(imm, lo, hi, wraps, idx, first, second);
      if (idx < lo || hi < idx) && chunk != outside {
        orrImm := UpdateImm(orrImm, idx, !wraps);
        if first == -1 { first := idx; } else { second := idx; }
      } else if lo < idx < hi && chunk != inside {
        orrImm := UpdateImm(orrImm, idx, wraps);
        if first == -1 { first := idx; } else { second := idx; }
      }
    }
  }

  lemma NothingNoted(imm: Word, lo: nat, hi: nat, wraps: bool)
    ensures Noted(imm, lo, hi, wraps, 0, -1, -1) && Patched(imm, imm, lo, hi, wraps, 0)
  {
  }

  lemma OnlyTwo(imm: Word, lo: nat, hi: nat, wraps: bool, idx: nat, first: int, second: int)
    requires lo < hi < 4 && idx < 4 && -1 <= first < idx && -1 <= second < idx
    requires second >= 0 ==> 0 <= first < second && Interrupts(imm, lo, hi, wraps, second)
    requires first >= 0 ==> Interrupts(imm, lo, hi, wraps, first)
    requires Interrupts(imm, lo, hi, wraps, idx)
    ensures second == -1
  {
    hide GetChunk;
  }

  // The MOVKs put the interrupting chunks back.
  lemma MovksRestore(imm: Word, orr: Word, lo: nat, hi: nat, wraps: bool, first: int, second: int)
    requires Patched(orr, imm, lo, hi, wraps, 4) && Noted(imm, lo, hi, wraps, 4, first, second) && first >= 0
    ensures second == -1 ==> Repair(orr, imm, first) == imm
    ensures second >= 0 ==>
      Repair(Repair(orr, imm, first), imm, second) == imm
  {
    hide GetChunk, Repair, Wanted;
    var x := Repair(orr, imm, first);
    var y := if second >= 0 then Repair(x, imm, second) else x;
    forall k | 0 <= k < 4 ensures GetChunk(y, k) == GetChunk(imm, k) {
      RepairChunk(orr, imm, first, k);
      if second >= 0 { RepairChunk(x, imm, second, k); }
      if k != first && k != second { assert !Interrupts(imm, lo, hi, wraps, k); }
    }
    ChunksDecide(y, imm);
  }

  lemma UnpatchedIsSame(imm: Word, orr: Word, lo: nat, hi: nat, wraps: bool)
    requires Patched(orr, imm, lo, hi, wraps, 4) && Noted(imm, lo, hi, wraps, 4, -1, -1)
    ensures orr == imm
  {
    hide GetChunk, Wanted;
    forall k | 0 <= k < 4 ensures GetChunk(orr, k) == GetChunk(imm, k) {
      assert !Interrupts(imm, lo, hi, wraps, k);
    }
    ChunksDecide(orr, imm);
  }

  method TrySequenceOfOnes(imm: Word, insn: InsnVector) returns (ok: bool)
    requires !Logical(imm, 64) && insn.insns == []
    modifies insn
    ensures ok ==> Builds(insn.insns, imm) && 2 <= |insn.insns| <= 3
    ensures !ok ==> insn.insns == []
    ensures ok <==> exists s, e | 0 <= s < 4 && 0 <= e < 4 :: Starts(imm, s) && Ends(imm, e) && !Starts(imm, e)
  {
    hide *;
    var startIdx, endIdx := FindStartEnd(imm);
    if startIdx == -1 || endIdx == -1 {
      return false;
    }
    assert Ends(imm, endIdx) && !Starts(imm, endIdx) by { NotBoth(imm, endIdx); }
    var wraps := startIdx > endIdx;
    var lo, hi := if wraps then endIdx else startIdx, if wraps then startIdx else endIdx;
    var orrImm, first, second := PatchChunks(imm, lo, hi, wraps);
    PatchedIsLogical(orrImm, imm, startIdx, endIdx);
    NotedRange(imm, lo, hi, wraps, first, second);
    if first == -1 {
      UnpatchedIsSame(imm, orrImm, lo, hi, wraps);
      assert false;   // "Constant materializable with single ORR!"
    }
    var enc := ProcessLogicalImmediate(orrImm, 64);
    OrrBuilds(enc.value, orrImm);
    MovksRestore(imm, orrImm, lo, hi, wraps, first, second);
    insn.PushBack(ORRXri, ZERO, enc.value);
    assert insn.insns == [ImmInsn(ORRXri, ZERO, enc.value)];
    RepairBuilds(insn.insns, orrImm, imm, first);
    insn.PushBack(MOVKXi, GetChunk(imm, first), 16 * first);
    if second == -1 {
      return true;
    }
    RepairBuilds(insn.insns, Repair(orrImm, imm, first), imm, second);
    insn.PushBack(MOVKXi, GetChunk(imm, second), 16 * second);
    return true;
  }

  lemma NotedRange(imm: Word, lo: nat, hi: nat, wraps: bool, first: int, second: int)
    requires Noted(imm, lo, hi, wraps, 4, first, second)
    ensures -1 <= first < 4 && -1 <= second < 4 && (second >= 0 ==> 0 <= first) && (first == -1 ==> second == -1)
  {
  }

  lemma NotBoth(imm: Word, k: nat)
    requires k < 4 && Ends(imm, k)
    ensures !Starts(imm, k)
  {
    var b := EndShape(imm, k);
    assert !imm[16 * k + 15];
    if Starts(imm, k) { var a := StartShape(imm, k); }
  }
}
