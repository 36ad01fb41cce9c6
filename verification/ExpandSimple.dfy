/** expandMOVImmSimple: a MOVZ or MOVN followed by MOVKs for the 16-bit chunks that
    the first instruction did not already set. */
module ExpandSimple {
  import opened Words
  import opened ImmInsns

  // What MOVi32imm / MOVi64imm must leave in the register.
  function Target(imm: Word, bits: nat): Word {
    if bits == 32 then And(imm, Ones(32)) else imm
  }

  predicate UniformChunk(imm: Word, idx: nat, v: bool)
    requires idx < 4
  {
    forall i | 16 * idx <= i < 16 * idx + 16 :: imm[i] == v
  }

  // Number of chunks below index k that are not all v.
  function Remaining(imm: Word, k: nat, v: bool): (n: nat)
    requires k <= 4
    ensures n <= k
  {
    if k == 0 then 0 else Remaining(imm, k - 1, v) + if UniformChunk(imm, k - 1, v) then 0 else 1
  }

  // The register once all chunks up to and including `shift` are in place over a background of v.
  ghost predicate Placed(x: Word, imm: Word, bits: nat, shift: nat, v: bool) {
    forall i | 0 <= i < 64 :: x[i] == (i < bits && if i < shift + 16 then imm[i] else v)
  }

  lemma {:induction false} RemainingUniform(imm: Word, j: nat, k: nat, v: bool)
    requires j <= k <= 4
    requires forall c | j <= c < k :: UniformChunk(imm, c, v)
    ensures Remaining(imm, k, v) == Remaining(imm, j, v)
  {
    if j < k { RemainingUniform(imm, j, k - 1, v); }
  }

  // The immediate the first move is cut from: complemented for a MOVN, and cut to the width.
  function Prepared(imm: Word, bits: nat, isNeg: bool): Word {
    var m := if isNeg then Not(imm) else imm;
    if bits == 32 then And(m, Ones(32)) else m
  }

  function FirstShift(m: Word): nat {
    if m == ZERO then 0 else CountrZero(m) / 16 * 16
  }

  function LastShift(m: Word): int {
    if m == ZERO then 0 else (63 - CountlZero(m)) / 16 * 16
  }

  // Where the first and last set bits lie decides which chunks are non-zero.
  lemma ChunkBounds(m: Word, bits: nat)
    requires bits == 32 || bits == 64
    requires forall i | bits <= i < 64 :: !m[i]
    ensures ChunkShift(FirstShift(m), bits) && 0 <= LastShift(m) && ChunkShift(LastShift(m), bits)
    ensures FirstShift(m) <= LastShift(m)
    ensures forall i | 0 <= i < FirstShift(m) :: !m[i]
    ensures forall i | LastShift(m) + 16 <= i < 64 :: !m[i]
    ensures m != ZERO ==> exists t | FirstShift(m) <= t < FirstShift(m) + 16 :: m[t]
  {
    if m != ZERO {
      var k :| 0 <= k < 64 && m[k] != ZERO[k];
      var t, h := CountrZero(m), 63 - CountlZero(m);
      assert t <= k && h >= k;
      assert m[t] && m[h];
    } else {
      assert forall i | 0 <= i < 64 :: !m[i];
    }
  }

  // One MOVZ/MOVN: the chunk at `shift` over a uniform background.
  lemma FirstMove(imm: Word, m: Word, bits: nat, shift: nat, isNeg: bool)
    requires (bits == 32 || bits == 64) && ChunkShift(shift, bits)
    requires forall i | 0 <= i < 64 :: m[i] == (i < bits && imm[i] != isNeg)
    requires forall i | 0 <= i < shift :: !m[i]
    ensures var c := And(Shr(m, shift), Ones(16));
            var opc := if bits == 32 then (if isNeg then MOVNWi else MOVZWi) else (if isNeg then MOVNXi else MOVZXi);
            && Encodable(ImmInsn(opc, c, shift)) && IgnoresRegister(ImmInsn(opc, c, shift))
            && Placed(Exec(ImmInsn(opc, c, shift), ZERO), imm, bits, shift, isNeg)
  {
    hide And, Or, Xor, Not, Shl, Shr, Ones, Span, Insert;
    var c := And(Shr(m, shift), Ones(16));
    var sh := Shl(c, shift);
    assert forall i | 0 <= i < 64 :: sh[i] == (shift <= i < shift + 16 && m[i]);
  }

  // One MOVK moves the boundary up by a chunk ...
  lemma NextMove(x: Word, imm: Word, bits: nat, shift: nat, v: bool, c: Word)
    requires (bits == 32 || bits == 64) && ChunkShift(shift, bits) && ChunkShift(shift + 16, bits)
    requires Placed(x, imm, bits, shift, v)
    requires forall i | 0 <= i < 64 :: c[i] == (i < 16 && imm[shift + 16 + i])
    ensures var opc := if bits == 32 then MOVKWi else MOVKXi;
            Encodable(ImmInsn(opc, c, shift + 16)) && Placed(Exec(ImmInsn(opc, c, shift + 16), x), imm, bits, shift + 16, v)
  {
    hide And, Or, Xor, Not, Shl, Ones, Span, Insert;
    var t := shift + 16;
    var y := Insert(x, c, t);
    forall i | 0 <= i < 64 ensures y[i] == (i < bits && if i < t + 16 then imm[i] else v) {
      if t <= i < t + 16 { assert c[i - t] == imm[t + (i - t)]; }
    }
  }

  // ... and a chunk that is already uniform needs none.
  lemma ChunkIsUniform(imm: Word, t: nat, v: bool, c: Word)
    requires ChunkShift(t, 64)
    requires forall i | 0 <= i < 64 :: c[i] == (i < 16 && imm[t + i])
    ensures c == (if v then Ones(16) else ZERO) <==> UniformChunk(imm, t / 16, v)
  {
    var u := if v then Ones(16) else ZERO;
    assert t / 16 * 16 == t;
    if c == u {
      forall i | t <= i < t + 16 ensures imm[i] == v { assert c[i - t] == u[i - t] == v; }
    }
    if UniformChunk(imm, t / 16, v) {
      forall i | 0 <= i < 64 ensures c[i] == u[i] { if i < 16 { assert imm[t + i] == v; } }
    }
  }

  lemma SkipMove(x: Word, imm: Word, bits: nat, shift: nat, v: bool)
    requires ChunkShift(shift + 16, 64) && Placed(x, imm, bits, shift, v)
    requires UniformChunk(imm, (shift + 16) / 16, v)
    ensures Placed(x, imm, bits, shift + 16, v)
  {
    assert (shift + 16) / 16 * 16 == shift + 16;
  }

  // One turn of the MOVK loop.
  lemma LoopTurn(x: Word, imm: Word, imm0: Word, bits: nat, shift: nat, v: bool)
    requires (bits == 32 || bits == 64) && ChunkShift(shift, bits) && ChunkShift(shift + 16, bits)
    requires Placed(x, imm0, bits, shift, v)
    requires forall i | 0 <= i < bits :: imm[i] == imm0[i]
    ensures var c := And(Shr(imm, shift + 16), Ones(16));
            var mov := ImmInsn(if bits == 32 then MOVKWi else MOVKXi, c, shift + 16);
            if c == (if v then Ones(16) else ZERO)
            then Placed(x, imm0, bits, shift + 16, v)
                 && Remaining(imm0, (shift + 16) / 16 + 1, v) == Remaining(imm0, shift / 16 + 1, v)
            else Encodable(mov) && Placed(Exec(mov, x), imm0, bits, shift + 16, v)
                 && Remaining(imm0, (shift + 16) / 16 + 1, v) == Remaining(imm0, shift / 16 + 1, v) + 1
  {
    hide Exec, And, Shr, Ones, Placed, UniformChunk, Encodable;
    var c := And(Shr(imm, shift + 16), Ones(16));
    ChunkIsUniform(imm0, shift + 16, v, c);
    NextMove(x, imm0, bits, shift, v, c);
    if UniformChunk(imm0, (shift + 16) / 16, v) { SkipMove(x, imm0, bits, shift, v); }
    assert (shift + 16) / 16 == shift / 16 + 1;
  }

  // Equal halves that still took three or more moves took four, none of them over a background of ones.
  lemma EqualHalvesAllChunks(imm: Word, v: bool)
    requires Shr(imm, 32) == And(imm, Ones(32)) && Remaining(imm, 4, v) > 2
    ensures Remaining(imm, 4, v) == 4
  {
    EqualHalvesUniform(imm, v);
    RemainingUnfold(imm, v);
  }

  lemma EqualHalvesUniform(imm: Word, v: bool)
    requires Shr(imm, 32) == And(imm, Ones(32))
    ensures UniformChunk(imm, 0, v) ==> UniformChunk(imm, 2, v)
    ensures UniformChunk(imm, 1, v) ==> UniformChunk(imm, 3, v)
  {
    forall i | 0 <= i < 32 ensures imm[i] == imm[i + 32] {
      assert Shr(imm, 32)[i] == And(imm, Ones(32))[i];
    }
    if UniformChunk(imm, 0, v) {
      forall i | 32 <= i < 48 ensures imm[i] == v { assert imm[i - 32] == imm[(i - 32) + 32] == v; }
    }
    if UniformChunk(imm, 1, v) {
      forall i | 48 <= i < 64 ensures imm[i] == v { assert imm[i - 32] == imm[(i - 32) + 32] == v; }
    }
  }

  lemma RemainingUnfold(imm: Word, v: bool)
    ensures Remaining(imm, 4, v) ==
      (if UniformChunk(imm, 0, v) then 0 else 1) + (if UniformChunk(imm, 1, v) then 0 else 1)
      + (if UniformChunk(imm, 2, v) then 0 else 1) + (if UniformChunk(imm, 3, v) then 0 else 1)
    ensures Remaining(imm, 2, v) ==
      (if UniformChunk(imm, 0, v) then 0 else 1) + (if UniformChunk(imm, 1, v) then 0 else 1)
  {
    assert Remaining(imm, 1, v) == if UniformChunk(imm, 0, v) then 0 else 1;
    assert Remaining(imm, 2, v) == Remaining(imm, 1, v) + if UniformChunk(imm, 1, v) then 0 else 1;
    assert Remaining(imm, 3, v) == Remaining(imm, 2, v) + if UniformChunk(imm, 2, v) then 0 else 1;
  }

  // Replace everything after the second instruction by ORR Xd, Xd, Xd, lsl #32.
  method FoldHalves(insn: InsnVector, ghost imm: Word, ghost low: Word)
    requires |insn.insns| > 2 && Builds(insn.insns[..2], low)
    requires Placed(low, imm, 64, 16, false) && Shr(imm, 32) == And(imm, Ones(32))
    modifies insn
    ensures Builds(insn.insns, imm) && |insn.insns| == 3
  {
    var size := |insn.insns|;
    while size > 2
      invariant size == |insn.insns| >= 2
      invariant insn.insns[..2] == old(insn.insns)[..2]
    {
      insn.PopBack();
      size := size - 1;
    }
    assert insn.insns == insn.insns[..2];
    BuildsNext(insn.insns, low, ImmInsn(ORRXrs, ZERO, 32));
    insn.PushBack(ORRXrs, ZERO, 32);
    var r := Or(low, Shl(low, 32));
    forall i | 0 <= i < 64 ensures r[i] == imm[i] {
      if i >= 32 { assert Shr(imm, 32)[i - 32] == And(imm, Ones(32))[i - 32]; }
    }
  }

  // The MOVK loop. `low` is the register after two instructions when no chunk has been skipped.
  method PlaceChunks(insn: InsnVector, imm: Word, bits: nat, isNeg: bool, first: nat, last: nat,
                     ghost imm0: Word, ghost start: Word) returns (ghost cur: Word, ghost low: Word)
    requires bits == 32 || bits == 64
    requires first <= last && ChunkShift(first, bits) && ChunkShift(last, bits)
    requires forall i | 0 <= i < bits :: imm[i] == imm0[i]
    requires Builds(insn.insns, start) && Placed(start, imm0, bits, first, isNeg)
    requires |insn.insns| == 1 == Remaining(imm0, first / 16 + 1, isNeg)
    modifies insn
    ensures Builds(insn.insns, cur) && Placed(cur, imm0, bits, last, isNeg)
    ensures 1 <= |insn.insns| == Remaining(imm0, last / 16 + 1, isNeg)
    ensures |insn.insns| == last / 16 + 1 && last >= 16 ==>
      Builds(insn.insns[..2], low) && Placed(low, imm0, bits, 16, isNeg)
  {
    hide Exec, And, Shr, Ones, Builds, Placed, Remaining, Encodable, AllEncodable;
    cur, low := start, start;
    var shift := first;
    var opc := if bits == 32 then MOVKWi else MOVKXi;
    while shift < last
      invariant shift <= last && ChunkShift(shift, bits)
      invariant Builds(insn.insns, cur) && Placed(cur, imm0, bits, shift, isNeg)
      invariant 1 <= |insn.insns| == Remaining(imm0, shift / 16 + 1, isNeg)
      invariant |insn.insns| == shift / 16 + 1 && shift >= 16 ==>
        Builds(insn.insns[..2], low) && Placed(low, imm0, bits, 16, isNeg)
    {
      var imm16 := And(Shr(imm, shift + 16), Ones(16));
      LoopTurn(cur, imm, imm0, bits, shift, isNeg);
      shift := shift + 16;
      if imm16 == if isNeg then Ones(16) else ZERO {
        continue;
      }
      ghost var before := insn.insns;
      BuildsNext(insn.insns, cur, ImmInsn(opc, imm16, shift));
      cur := Exec(ImmInsn(opc, imm16, shift), cur);
      insn.PushBack(opc, imm16, shift);
      if shift == 16 {
        low := cur;
        assert insn.insns[..2] == insn.insns;
      } else {
        assert |before| >= 2 ==> insn.insns[..2] == before[..2];
      }
    }
  }

  // Everything the first move settles.
  lemma FirstPhase(imm: Word, bits: nat, isNeg: bool)
    requires bits == 32 || bits == 64
    ensures var m := Prepared(imm, bits, isNeg);
            var shift, last := FirstShift(m), LastShift(m);
            && 0 <= shift <= last && ChunkShift(shift, bits) && ChunkShift(last, bits)
            && Remaining(imm, bits / 16, isNeg) == Remaining(imm, last / 16 + 1, isNeg)
            && (m != ZERO ==> Remaining(imm, shift / 16 + 1, isNeg) == 1)
            && var mov := FirstInsn(m, bits, isNeg);
               Encodable(mov) && IgnoresRegister(mov) && Placed(Exec(mov, ZERO), imm, bits, shift, isNeg)
  {
    hide *;
    var m := Prepared(imm, bits, isNeg);
    PreparedBits(imm, bits, isNeg);
    ChunkBounds(m, bits);
    PlacedFirst(imm, m, bits, isNeg);
    RestUniform(imm, m, bits, LastShift(m), isNeg);
    if m != ZERO { FirstRemaining(imm, m, FirstShift(m), isNeg); }
  }

  lemma PreparedBits(imm: Word, bits: nat, isNeg: bool)
    requires bits == 32 || bits == 64
    ensures var m := Prepared(imm, bits, isNeg); forall i | 0 <= i < 64 :: m[i] == (i < bits && imm[i] != isNeg)
    ensures var m := Prepared(imm, bits, isNeg); forall i | bits <= i < 64 :: !m[i]
    ensures var m := Prepared(imm, bits, isNeg); forall i | 0 <= i < 64 :: m[i] ==> imm[i] != isNeg
  {
  }

  lemma PlacedFirst(imm: Word, m: Word, bits: nat, isNeg: bool)
    requires (bits == 32 || bits == 64) && ChunkShift(FirstShift(m), bits)
    requires forall i | 0 <= i < 64 :: m[i] == (i < bits && imm[i] != isNeg)
    requires forall i | 0 <= i < FirstShift(m) :: !m[i]
    ensures var mov := FirstInsn(m, bits, isNeg);
            Encodable(mov) && IgnoresRegister(mov) && Placed(Exec(mov, ZERO), imm, bits, FirstShift(m), isNeg)
  {
    hide Encodable, IgnoresRegister, Exec, Placed, FirstShift, And, Shr, Ones;
    FirstMove(imm, m, bits, FirstShift(m), isNeg);
  }

  function FirstInsn(m: Word, bits: nat, isNeg: bool): ImmInsn
    requires FirstShift(m) < 64
  {
    ImmInsn(if bits == 32 then (if isNeg then MOVNWi else MOVZWi) else (if isNeg then MOVNXi else MOVZXi),
            And(Shr(m, FirstShift(m)), Ones(16)), FirstShift(m))
  }

  method ExpandMOVImmSimple(imm0: Word, bits: nat, oneChunks: nat, zeroChunks: nat, insn: InsnVector)
    requires (bits == 32 || bits == 64) && insn.insns == []
    requires oneChunks + Remaining(imm0, bits / 16, true) == bits / 16
    requires zeroChunks + Remaining(imm0, bits / 16, false) == bits / 16
    modifies insn
    ensures Builds(insn.insns, Target(imm0, bits))
    ensures 1 <= |insn.insns|
    ensures |insn.insns| == 1 || |insn.insns| <= Remaining(imm0, bits / 16, oneChunks > zeroChunks)
    ensures |insn.insns| == 1 <==> Remaining(imm0, bits / 16, oneChunks > zeroChunks) <= 1
    ensures bits == 64 && EqualHalves(imm0) ==> |insn.insns| <= 3
  {
    hide Exec, And, Not, Shr, Ones, Span, CountrZero, CountlZero, CountLow, CountHigh, UniformChunk;
    hide Builds, Placed, Remaining, Encodable, AllEncodable, IgnoresRegister;
    var imm := imm0;
    var isNeg := false;
    if oneChunks > zeroChunks {
      isNeg := true;
      imm := Not(imm);
    }
    var firstOpc;
    if bits == 32 {
      imm := And(imm, Ones(32));
      firstOpc := if isNeg then MOVNWi else MOVZWi;
    } else {
      firstOpc := if isNeg then MOVNXi else MOVZXi;
    }
    FirstPhase(imm0, bits, isNeg);
    ghost var mov := FirstInsn(imm, bits, isNeg);
    var shift, lastShift := 0, 0;
    if imm != ZERO {
      var LZ, TZ := CountlZero(imm), CountrZero(imm);
      shift := TZ / 16 * 16;
      lastShift := (63 - LZ) / 16 * 16;
    }
    var imm16 := And(Shr(imm, shift), Ones(16));
    BuildsFirst(mov);
    insn.PushBack(firstOpc, imm16, shift);
    assert insn.insns == [mov];
    if shift == lastShift {
      AllPlaced(Exec(mov, ZERO), imm0, bits, lastShift, isNeg);
      return;
    }
    if isNeg {
      imm := Not(imm);
    }
    Unprepared(imm0, bits, isNeg);
    ghost var cur, low := PlaceChunks(insn, imm, bits, isNeg, shift, lastShift, imm0, Exec(mov, ZERO));
    AllPlaced(cur, imm0, bits, lastShift, isNeg);
    ghost var left := Remaining(imm0, bits / 16, isNeg);
    assert |insn.insns| == left;
    if EqualHalves(imm0) { HalvesAgree(imm0); }
    if |insn.insns| > 2 && Shr(imm, 32) == And(imm, Ones(32)) {
      assert bits == 64;
      FoldableIsFull(imm0, imm, isNeg);
      FoldHalves(insn, imm0, low);
      assert |insn.insns| <= left;
    }
  }

  // The upper half repeats the lower one.
  ghost predicate EqualHalves(imm: Word) {
    forall i | 0 <= i < 32 :: imm[i + 32] == imm[i]
  }

  lemma HalvesAgree(imm: Word)
    requires EqualHalves(imm)
    ensures Shr(imm, 32) == And(imm, Ones(32))
  {
  }

  lemma FoldableIsFull(imm0: Word, imm: Word, v: bool)
    requires imm == imm0 && Shr(imm, 32) == And(imm, Ones(32)) && Remaining(imm0, 4, v) > 2
    requires v ==> 4 - Remaining(imm0, 4, true) > 4 - Remaining(imm0, 4, false)
    ensures Remaining(imm0, 4, v) == 4 && !v
  {
    EqualHalvesAllChunks(imm0, v);
  }

  // Nothing above the last chunk differs from the background ...
  lemma RestUniform(imm: Word, m: Word, bits: nat, last: nat, v: bool)
    requires (bits == 32 || bits == 64) && ChunkShift(last, bits)
    requires forall i | 0 <= i < 64 :: m[i] == (i < bits && imm[i] != v)
    requires forall i | last + 16 <= i < 64 :: !m[i]
    ensures Remaining(imm, bits / 16, v) == Remaining(imm, last / 16 + 1, v)
    ensures forall i | last + 16 <= i < bits :: imm[i] == v
  {
    forall i | last + 16 <= i < bits ensures imm[i] == v { assert !m[i]; }
    forall c | last / 16 + 1 <= c < bits / 16 ensures UniformChunk(imm, c, v) {}
    RemainingUniform(imm, last / 16 + 1, bits / 16, v);
  }

  // ... so once the last chunk is placed the register holds the target.
  lemma AllPlaced(x: Word, imm: Word, bits: nat, last: nat, v: bool)
    requires (bits == 32 || bits == 64) && ChunkShift(last, bits) && Placed(x, imm, bits, last, v)
    requires last == LastShift(Prepared(imm, bits, v))
    ensures x == Target(imm, bits)
  {
    var m := Prepared(imm, bits, v);
    ChunkBounds(m, bits);
    RestUniform(imm, m, bits, last, v);
    var t := Target(imm, bits);
    forall i | 0 <= i < 64 ensures x[i] == t[i] {}
  }

  // Complementing back gives the original chunks.
  lemma Unprepared(imm: Word, bits: nat, isNeg: bool)
    ensures var m := Prepared(imm, bits, isNeg);
            var r := if isNeg then Not(m) else m;
            (forall i | 0 <= i < bits && i < 64 :: r[i] == imm[i]) && (bits != 32 ==> r == imm)
  {
    assert Not(Not(imm)) == imm;
  }

  // The chunk of the first move is the first that differs from the background.
  lemma FirstRemaining(imm: Word, m: Word, shift: nat, v: bool)
    requires ChunkShift(shift, 64)
    requires forall i | 0 <= i < 64 :: m[i] ==> imm[i] != v
    requires forall i | 0 <= i < shift :: imm[i] == v
    requires exists t | shift <= t < shift + 16 :: m[t]
    ensures Remaining(imm, shift / 16 + 1, v) == 1
  {
    RemainingUniform(imm, 0, shift / 16, v);
    var t :| shift <= t < shift + 16 && m[t];
    assert imm[t] != v && !UniformChunk(imm, shift / 16, v);
  }
}
