/** expandCMP_SWAP and expandCMP_SWAP_128 as they fill their blocks, instruction by instruction. The blocks hold
    the code whose runs are studied in CmpSwap. */
module CmpSwapExpansion {
  import opened CmpSwap

  method LoadCompare(bits: nat, statusDead: bool) returns (b: seq<Instr>)
    ensures b == Block(Single(bits, statusDead), LoadCmpBB)
  {
    b := [];
    if !statusDead {
      b := b + [MOVZ0(Status)];
    }
    b := b + [LDXR(DestLo)];
    b := b + [SUBS(DestLo, DesiredLo)];
    b := b + [BNE(DoneBB)];
  }

  method Store(bits: nat, statusDead: bool) returns (b: seq<Instr>)
    ensures b == Block(Single(bits, statusDead), StoreBB)
  {
    b := [STXR(Status, NewLo)];
    b := b + [CBNZ(Status, LoadCmpBB)];
  }

  method ExpandCmpSwap(bits: nat, statusDead: bool) returns (code: map<Label, seq<Instr>>)
    requires ValidKind(Single(bits, statusDead))
    ensures code.Keys == {LoadCmpBB, StoreBB, DoneBB}
    ensures forall l | l in code :: code[l] == Block(Single(bits, statusDead), l)
  {
    hide Block;
    var loadCmp := LoadCompare(bits, statusDead);
    var store := Store(bits, statusDead);
    NothingInDone(Single(bits, statusDead));
    code := map[LoadCmpBB := loadCmp, StoreBB := store, DoneBB := []];
  }

  lemma NothingInDone(k: Kind)
    ensures Block(k, DoneBB) == []
  {
  }

  method LoadComparePair() returns (b: seq<Instr>)
    ensures b == Block(Pair, LoadCmpBB)
  {
    b := [LDXP(DestLo, DestHi)];
    b := b + [SUBS(DestLo, DesiredLo)];
    b := b + [CSINCEq(Status, ZR, ZR)];
    b := b + [SUBS(DestHi, DesiredHi)];
    b := b + [CSINCEq(Status, Status, Status)];
    b := b + [CBNZ(Status, FailBB)];
  }

  method StorePair() returns (b: seq<Instr>)
    ensures b == Block(Pair, StoreBB)
  {
    b := [STXP(Status, NewLo, NewHi)];
    b := b + [CBNZ(Status, LoadCmpBB)];
    b := b + [B(DoneBB)];
  }

  // The pair read is put back, so that it is known to have been read in one piece.
  method PutBackPair() returns (b: seq<Instr>)
    ensures b == Block(Pair, FailBB)
  {
    b := [STXP(Status, DestLo, DestHi)];
    b := b + [CBNZ(Status, LoadCmpBB)];
  }

  method ExpandCmpSwap128() returns (code: map<Label, seq<Instr>>)
    ensures code.Keys == {LoadCmpBB, StoreBB, FailBB, DoneBB}
    ensures forall l | l in code :: code[l] == Block(Pair, l)
  {
    hide Block;
    var loadCmp := LoadComparePair();
    var store := StorePair();
    var fail := PutBackPair();
    NothingInDone(Pair);
    code := map[LoadCmpBB := loadCmp, StoreBB := store, FailBB := fail, DoneBB := []];
  }
}
