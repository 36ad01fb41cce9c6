/** Which linker optimization hints are reported: exactly the chains the block has, stated by its opcodes and by
    who reads what, but for the chains that end in an ADD or a GOT load some of which the walk cannot see. */
module LinkerHintsExact {
  import opened LinkerHints
  import opened LinkerHintChains
  import opened AdrpAdrpHints

  // ----- The chains of a block -----

  predicate LoadEnd(i: Instr) { i.opcode in {LDRXui, LDRWui, LiteralLoad, OtherLoad} && !i.got }

  // The first operand that reads the base register is the address.
  ghost predicate AddressFirst(i: Instr) {
    exists k: nat :: FirstUse(i, k, i.op1) && i.uses[k].no == 1
  }

  ghost predicate FirstUse(i: Instr, k: nat, r: GPR) {
    k < |i.uses| && i.uses[k].reg == r && forall j | 0 <= j < k :: i.uses[j].reg != r
  }

  ghost predicate StoreEnd(i: Instr) { i.opcode == StoreUi && !i.sameOps && AddressFirst(i) }

  ghost predicate ChainEnd(i: Instr) { LoadEnd(i) || StoreEnd(i) }

  predicate AddMiddle(i: Instr) { i.opcode == ADDXri && i.address && i.op0 >= 0 && i.op1 >= 0 }

  predicate GotMiddle(i: Instr) { i.opcode in {LDRXui, LDRWui} && i.global && i.got && i.op0 >= 0 && i.op1 >= 0 }

  // An ADD or a GOT load can end a chain itself.
  predicate ShortEnd(i: Instr) { i.opcode == ADDXri || (i.opcode in {LDRXui, LDRWui} && i.got) }

  // The middle of a chain of three.
  ghost predicate Extends(b: Block, out: set<GPR>, u: int) {
    0 <= u < |b| && (AddMiddle(b[u]) || GotMiddle(b[u])) && exists w :: Link(b, out, u, w) && ChainEnd(b[w])
  }

  // The walk loses the chain that ends at u: u could be a middle, the register it writes starts a chain, and u
  // does not extend that chain.
  ghost predicate Lost(b: Block, out: set<GPR>, u: int)
    decreases |b| - u, 0
  {
    && 0 <= u < |b| && (AddMiddle(b[u]) || GotMiddle(b[u])) && b[u].op0 != b[u].op1
    && !Extends(b, out, u) && Chained(b, out, u + 1, b[u].op0)
  }

  ghost predicate Starts(b: Block, out: set<GPR>, u: int)
    requires 0 <= u < |b|
    decreases |b| - u, 1
  {
    ChainEnd(b[u]) || (ShortEnd(b[u]) && !Lost(b, out, u))
  }

  // The value r holds before n starts a chain.
  ghost predicate Chained(b: Block, out: set<GPR>, n: int, r: GPR)
    requires 0 <= n <= |b|
    decreases |b| - n, 2
  {
    exists u :: SoleReader(b, out, n, r, u) && Starts(b, out, u)
  }

  // What is reported, by kind. `outside`: what the code reads for an ADD of an untracked register.
  ghost predicate Promised(b: Block, out: set<GPR>, outside: Info, h: Hint) {
    && |h.args| == (if h.kind in {AdrpLdr, AdrpAdd, AdrpLdrGot} then 2 else 3)
    && h.args[0] < |b| && b[h.args[0]].opcode == ADRP && Link(b, out, h.args[0], h.args[1])
    && var u := h.args[1];
       match h.kind
       case AdrpLdr => LoadEnd(b[u]) && b[u].opcode != OtherLoad
       case AdrpAdd =>
         && b[u].opcode == ADDXri && !Extends(b, out, u) && !Lost(b, out, u)
         && (if b[u].op0 < 0 then !outside.oneUser && !outside.multiUsers
             else b[u].op0 == b[h.args[0]].op0 || Dead(b, out, h.args[0] + 1, b[u].op0))
       case AdrpLdrGot => b[u].opcode in {LDRXui, LDRWui} && b[u].got && !Extends(b, out, u) && !Lost(b, out, u)
       case AdrpAddLdr => AddMiddle(b[u]) && Link(b, out, u, h.args[2]) && LoadEnd(b[h.args[2]]) && h.args[2] == u + 1
       case AdrpAddStr => AddMiddle(b[u]) && Link(b, out, u, h.args[2]) && StoreEnd(b[h.args[2]]) && h.args[2] == u + 1
       case AdrpLdrGotLdr => GotMiddle(b[u]) && Link(b, out, u, h.args[2]) && LoadEnd(b[h.args[2]])
       case AdrpLdrGotStr => GotMiddle(b[u]) && Link(b, out, u, h.args[2]) && StoreEnd(b[h.args[2]])
       case AdrpAdrp => false
  }

  // ----- One register's state, exactly -----

  // The state that a chain starting at its reader u leaves.
  ghost predicate Shape(b: Block, out: set<GPR>, u: int, x: Info)
    requires 0 <= u < |b|
  {
    if LoadEnd(b[u]) then x.kind == AdrpLdr && x.mi0 == u
    else if StoreEnd(b[u]) then x.kind == AdrpAddStr && x.mi0 == u && x.mi1 == -1
    else if Extends(b, out, u) then
      && x.mi1 == u && Link(b, out, u, x.mi0)
      && (if LoadEnd(b[x.mi0]) then x.kind == if b[u].opcode == ADDXri then AdrpAddLdr else AdrpLdrGotLdr
          else StoreEnd(b[x.mi0]) && x.kind == if b[u].opcode == ADDXri then AdrpAddStr else AdrpLdrGotStr)
    else x.mi0 == u && x.kind == if b[u].opcode == ADDXri then AdrpAdd else AdrpLdrGot
  }

  ghost predicate Exact(b: Block, out: set<GPR>, n: nat, r: GPR, x: Info)
    requires n <= |b|
  {
    && (x.oneUser <==> !Dead(b, out, n, r)) && (x.multiUsers ==> x.oneUser)
    && (x.candidate <==> Chained(b, out, n, r)) && (x.candidate ==> x.oneUser && !x.multiUsers)
    && (x.candidate ==> forall u | SoleReader(b, out, n, r, u) :: Shape(b, out, u, x))
  }

  ghost predicate AllExact(b: Block, out: set<GPR>, n: nat, m: Infos)
    requires n <= |b|
  {
    forall r: GPR | 0 <= r :: Exact(b, out, n, r, m[r])
  }

  // Only one instruction can be the sole reader.
  lemma OneReader(b: Block, out: set<GPR>, n: nat, r: GPR, u: int, w: int)
    requires SoleReader(b, out, n, r, u) && SoleReader(b, out, n, r, w)
    ensures u == w
  {
    hide Reads, Redefs, Dead;
  }

  lemma {:induction false} ReadIsLive(b: Block, out: set<GPR>, n: nat, r: GPR, u: int)
    requires SoleReader(b, out, n, r, u)
    ensures n < |b| && !Dead(b, out, n, r)
    decreases u - n
  {
    hide Reads, Redefs;
    if n < u { ReadIsLive(b, out, n + 1, r, u); }
  }

  // Readers of an untouched register are the same one instruction later ...
  lemma ReaderPast(b: Block, out: set<GPR>, n: nat, r: GPR, u: int)
    requires n < |b| && r !in Reads(b[n]) && r !in Redefs(b[n])
    ensures SoleReader(b, out, n, r, u) <==> SoleReader(b, out, n + 1, r, u)
  {
    hide Reads, Redefs, Dead;
  }

  // ... a redefined one has none, and of one that n reads n is the only possible one.
  lemma ReaderHere(b: Block, out: set<GPR>, n: nat, r: GPR, u: int)
    requires n < |b| && (r in Reads(b[n]) || r in Redefs(b[n]))
    ensures SoleReader(b, out, n, r, u) <==> u == n && b[n].op1 == r && r in Reads(b[n]) && (r in Redefs(b[n]) || Dead(b, out, n + 1, r))
  {
    hide Reads, Redefs, Dead;
  }

  lemma ExactPast(b: Block, out: set<GPR>, n: nat, r: GPR, x: Info)
    requires n < |b| && Exact(b, out, n + 1, r, x) && r !in Reads(b[n]) && r !in Redefs(b[n])
    ensures Exact(b, out, n, r, x)
  {
    hide Reads, Redefs, SoleReader, Shape, Starts;
    forall u ensures SoleReader(b, out, n, r, u) <==> SoleReader(b, out, n + 1, r, u) { ReaderPast(b, out, n, r, u); }
  }

  lemma ExactCleared(b: Block, out: set<GPR>, n: nat, r: GPR, x: Info)
    requires n < |b| && r !in Reads(b[n]) && r in Redefs(b[n]) && !x.oneUser && !x.multiUsers && !x.candidate
    ensures Exact(b, out, n, r, x)
  {
    hide Reads, Redefs, SoleReader, Shape, Starts;
    forall u ensures !SoleReader(b, out, n, r, u) { ReaderHere(b, out, n, r, u); }
  }

  // A register read while it has another reader, or by an instruction whose chain is lost.
  lemma ExactNone(b: Block, out: set<GPR>, n: nat, r: GPR, x: Info)
    requires n < |b| && r in Reads(b[n]) && x.oneUser && !x.candidate
    requires (r !in Redefs(b[n]) && !Dead(b, out, n + 1, r)) || !(b[n].op1 == r && Starts(b, out, n))
    ensures Exact(b, out, n, r, x)
  {
    hide Reads, Redefs, SoleReader, Shape, Starts;
    forall u ensures SoleReader(b, out, n, r, u) ==> u == n && !Starts(b, out, n) { ReaderHere(b, out, n, r, u); }
  }

  lemma ExactOne(b: Block, out: set<GPR>, n: nat, r: GPR, x: Info)
    requires n < |b| && r in Reads(b[n]) && (r in Redefs(b[n]) || Dead(b, out, n + 1, r)) && b[n].op1 == r
    requires x.oneUser && !x.multiUsers && x.candidate && Starts(b, out, n) && Shape(b, out, n, x)
    ensures Exact(b, out, n, r, x)
  {
    hide Reads, Redefs, SoleReader, Shape, Starts;
    forall u ensures SoleReader(b, out, n, r, u) <==> u == n { ReaderHere(b, out, n, r, u); }
    assert SoleReader(b, out, n, r, n) && Starts(b, out, n);
  }

  // ----- One instruction -----

  lemma {:induction false} FirstHandled(i: Instr, n: nat, m: Infos, k: nat, r: GPR) returns (j: nat)
    requires k <= |i.uses| && r >= 0 && r in ReadsUpTo(i, k)
    ensures j < k && FirstUse(i, j, r) && UsesHandled(i, n, m, k)[r] == HandleUse(i, n, i.uses[j], m[r])
  {
    hide HandleUse;
    assert ReadsUpTo(i, k) == ReadsUpTo(i, k - 1) + {i.uses[k - 1].reg};
    if r in ReadsUpTo(i, k - 1) {
      j := FirstHandled(i, n, m, k - 1, r);
    } else {
      j := k - 1;
      var u := UsesHandledAt(i, n, m, k - 1, r);
      assert forall l | 0 <= l < j :: i.uses[l].reg in ReadsUpTo(i, k - 1);
    }
  }

  // The first reader of a register decides.
  lemma FreshUse(b: Block, out: set<GPR>, n: nat, r: GPR, j: nat, x: Info)
    requires n < |b| && WellFormed(b[n]) && r >= 0 && FirstUse(b[n], j, r) && !x.oneUser && !x.multiUsers && !x.candidate
    requires r in Redefs(b[n]) || Dead(b, out, n + 1, r)
    requires !Extends(b, out, n) && !Lost(b, out, n)
    ensures Exact(b, out, n, r, HandleUse(b[n], n, b[n].uses[j], x))
  {
    UseShape(b[n], j, r, n, x);
    hide WellFormed, Redefs, Dead, LoadEnd, ShortEnd, StoreEnd, HandleUse, Lost, Extends;
    var y := HandleUse(b[n], n, b[n].uses[j], x);
    if y.candidate { ExactOne(b, out, n, r, y); } else { ExactNone(b, out, n, r, y); }
  }

  lemma UseShape(i: Instr, j: nat, r: GPR, n: nat, x: Info)
    requires WellFormed(i) && r >= 0 && FirstUse(i, j, r) && !x.oneUser && !x.multiUsers && !x.candidate
    ensures r in Reads(i)
    ensures var y := HandleUse(i, n, i.uses[j], x);
            && y.oneUser && !y.multiUsers && (y.candidate <==> i.op1 == r && (ChainEnd(i) || ShortEnd(i)))
            && (y.candidate ==> y.mi0 == n)
            && (y.candidate ==> if LoadEnd(i) then y.kind == AdrpLdr
                                else if StoreEnd(i) then y.kind == AdrpAddStr && y.mi1 == -1
                                else y.kind == if i.opcode == ADDXri then AdrpAdd else AdrpLdrGot)
  {
    assert i.uses[j] in i.uses;
    FirstIsOne(i, j, r);
    hide FirstUse;
    BaseIsRead(i, r);
  }

  lemma FirstIsOne(i: Instr, j: nat, r: GPR)
    requires FirstUse(i, j, r)
    ensures r in Reads(i) && (r == i.op1 ==> (AddressFirst(i) <==> i.uses[j].no == 1))
  {
    forall k: nat | FirstUse(i, k, r) ensures k == j {}
  }

  // What loads, ADDs and addresses of stores read is operand 1.
  lemma BaseIsRead(i: Instr, r: GPR)
    requires WellFormed(i) && r >= 0 && r in Reads(i)
    ensures i.opcode in {ADDXri, LDRXui, LDRWui, LiteralLoad, OtherLoad} ==> r == i.op1
  {
    hide Reads, Redefs;
  }

  // What ordinary handling needs to know of a register.
  ghost predicate Ready(b: Block, out: set<GPR>, n: nat, r: GPR, x: Info)
    requires n < |b|
  {
    && (r in Reads(b[n]) ==>
          (!Extends(b, out, n) && !Lost(b, out, n) && (r in Redefs(b[n]) || Exact(b, out, n + 1, r, x))) ||
          (r !in Redefs(b[n]) && x.oneUser && (Lost(b, out, n) || !Dead(b, out, n + 1, r))))
    && (r !in Reads(b[n]) && r !in Redefs(b[n]) ==> Exact(b, out, n + 1, r, x))
  }

  lemma NormalExact(b: Block, out: set<GPR>, n: nat, r: GPR, m: Infos)
    requires n < |b| && WellFormed(b[n]) && r >= 0 && Ready(b, out, n, r, m[r])
    ensures Exact(b, out, n, r, NormalInst(b[n], n, m)[r])
  {
    hide WellFormed, Redefs, HandleUse, Extends, Lost, Dead, Exact, ReadsUpTo, UsesHandled, FirstUse;
    var i := b[n];
    var c := Clobbered(m, Redefs(i));
    if r in Reads(i) {
      var j := FirstHandled(i, n, c, |i.uses|, r);
      ReadHandled(b, out, n, r, j, m[r]);
    } else {
      var u := UsesHandledAt(i, n, c, |i.uses|, r);
      if r in Redefs(i) { ExactCleared(b, out, n, r, HandleClobber(m[r])); } else { ExactPast(b, out, n, r, m[r]); }
    }
  }

  lemma ReadHandled(b: Block, out: set<GPR>, n: nat, r: GPR, j: nat, x: Info)
    requires n < |b| && WellFormed(b[n]) && r >= 0 && Ready(b, out, n, r, x) && j < |b[n].uses| && FirstUse(b[n], j, r) && r in Reads(b[n])
    ensures Exact(b, out, n, r, HandleUse(b[n], n, b[n].uses[j], if r in Redefs(b[n]) then HandleClobber(x) else x))
  {
    hide WellFormed, Redefs, Reads, Extends, Dead, FirstUse, Chained, Shape;
    if r in Redefs(b[n]) {
      FreshUse(b, out, n, r, j, HandleClobber(x));
    } else if x.oneUser {
      LostStartsNone(b, out, n);
      ExactNone(b, out, n, r, HandleUse(b[n], n, b[n].uses[j], x));
    } else {
      FreshUse(b, out, n, r, j, x);
    }
  }

  lemma LostStartsNone(b: Block, out: set<GPR>, n: nat)
    requires n < |b|
    ensures Lost(b, out, n) ==> !Starts(b, out, n)
  {
    hide Extends, Chained;
  }

  lemma TriesIs(i: Instr)
    ensures TriesMiddle(i) <==> AddMiddle(i) || GotMiddle(i)
    ensures TriesMiddle(i) ==> (i.opcode == ADDXri <==> AddMiddle(i)) && (AddMiddle(i) ==> i.address) && !ChainEnd(i) && ShortEnd(i)
  {
  }

  lemma ExtendsStarts(b: Block, out: set<GPR>, u: int)
    requires Extends(b, out, u)
    ensures 0 <= u < |b| && Chained(b, out, u + 1, b[u].op0) && Starts(b, out, u)
  {
    var w :| Link(b, out, u, w) && ChainEnd(b[w]);
    assert SoleReader(b, out, u + 1, b[u].op0, w) && Starts(b, out, w);
    TriesIs(b[u]);
  }

  lemma ReaderOf(b: Block, out: set<GPR>, n: nat, r: GPR) returns (u: int)
    requires n <= |b| && Chained(b, out, n, r)
    ensures SoleReader(b, out, n, r, u) && Starts(b, out, u)
  {
    hide Starts;
    u :| SoleReader(b, out, n, r, u) && Starts(b, out, u);
  }

  // The step succeeds exactly when there is a chain to extend.
  lemma AdvanceExact(b: Block, out: set<GPR>, n: nat, x: Info, y: Info)
    requires n < |b| && WellFormed(b[n]) && TriesMiddle(b[n]) && Exact(b, out, n + 1, b[n].op0, x) && x.candidate && y == x.(lastADRP := y.lastADRP)
    ensures var s := Advance(b[n], n, y);
            && (s.0 <==> Extends(b, out, n)) && (!s.0 ==> s.1 == y)
            && (s.0 ==> s.1.candidate && s.1.oneUser && !s.1.multiUsers && Shape(b, out, n, s.1))
  {
    TriesIs(b[n]);
    MiddleShape(b[n]);
    hide WellFormed, TriesMiddle, Reads, Redefs, SoleReader, ChainEnd, Lost, Dead, StoreEnd, LoadEnd;
    var u := ReaderOf(b, out, n + 1, b[n].op0);
    ReaderLinks(b, out, n, u);
    ReaderInside(b, out, n + 1, b[n].op0, u);
    assert Shape(b, out, u, x);
    EndsAre(b[u]);
    if Extends(b, out, n) {
      var w :| Link(b, out, n, w) && ChainEnd(b[w]);
      LinkReader(b, out, n, w);
      OneReader(b, out, n + 1, b[n].op0, u, w);
    }
    EndsAre(b[n]);
  }

  lemma EndsAre(i: Instr)
    ensures ChainEnd(i) <==> LoadEnd(i) || StoreEnd(i)
    ensures ShortEnd(i) ==> !ChainEnd(i)
    ensures LoadEnd(i) ==> !StoreEnd(i)
  {
  }

  lemma ReaderInside(b: Block, out: set<GPR>, n: nat, r: GPR, u: int)
    requires SoleReader(b, out, n, r, u)
    ensures n <= u < |b| && b[u].op1 == r
  {
  }

  lemma ReaderLinks(b: Block, out: set<GPR>, n: nat, u: int)
    requires n < |b| && b[n].op0 >= 0 && b[n].op0 in Redefs(b[n]) && SoleReader(b, out, n + 1, b[n].op0, u)
    ensures Link(b, out, n, u)
  {
  }

  lemma LinkReader(b: Block, out: set<GPR>, n: nat, u: int)
    requires Link(b, out, n, u)
    ensures n < |b| && SoleReader(b, out, n + 1, b[n].op0, u)
  {
  }

  lemma MiddleExact(b: Block, out: set<GPR>, n: nat, m: Infos, r: GPR)
    requires n < |b| && WellFormed(b[n]) && TriesMiddle(b[n]) && AllExact(b, out, n + 1, m) && r >= 0
    ensures var s := MiddleInst(b[n], n, m); if s.0 then Exact(b, out, n, r, s.1[r]) else Ready(b, out, n, r, s.1[r])
  {
    TriesIs(b[n]);
    MiddleShape(b[n]);
    var i := b[n];
    var d, o := i.op0, i.op1;
    assert Exact(b, out, n + 1, d, m[d]) && Exact(b, out, n + 1, o, m[o]) && Exact(b, out, n + 1, r, m[r]);
    hide WellFormed, TriesMiddle, Reads, Redefs, SoleReader, Starts, Dead, Chained, Advance, Shape, Extends;
    if Extends(b, out, n) { ExtendsStarts(b, out, n); }
    if Moves(m, d, o) {
      var x := Moved(m, d, o)[o];
      AdvanceExact(b, out, n, m[d], x);
      if !Advance(i, n, x).0 {
        assert d != o ==> Lost(b, out, n);
      } else if r == o {
        ExactOne(b, out, n, o, Advance(i, n, x).1);
      } else if r == d {
        ExactCleared(b, out, n, d, HandleClobber(m[d]));
      } else {
        ExactPast(b, out, n, r, m[r]);
      }
    }
  }

  lemma StepExact(b: Block, out: set<GPR>, n: nat, m: Infos)
    requires n < |b| && WellFormed(b[n]) && AllExact(b, out, n + 1, m)
    ensures AllExact(b, out, n, StepInfos(b[n], n, m))
  {
    TriesIs(b[n]);
    hide WellFormed, MiddleInst, NormalInst, Exact, Redefs, Reads, Ready, TriesMiddle;
    forall r: GPR | 0 <= r ensures Exact(b, out, n, r, StepInfos(b[n], n, m)[r]) {
      assert Exact(b, out, n + 1, r, m[r]);
      if TriesMiddle(b[n]) {
        MiddleExact(b, out, n, m, r);
        var s := MiddleInst(b[n], n, m);
        if !s.0 { NormalExact(b, out, n, r, s.1); }
      } else if b[n].opcode == ADRP && b[n].op0 >= 0 {
        AdrpExact(b, out, n, r, m);
      } else {
        PlainReady(b, out, n, r, m[r]);
        NormalExact(b, out, n, r, m);
      }
    }
  }

  lemma PlainReady(b: Block, out: set<GPR>, n: nat, r: GPR, x: Info)
    requires n < |b| && !TriesMiddle(b[n]) && Exact(b, out, n + 1, r, x)
    ensures Ready(b, out, n, r, x)
  {
    TriesIs(b[n]);
    hide Reads, Redefs, Exact, Chained;
  }

  lemma AdrpExact(b: Block, out: set<GPR>, n: nat, r: GPR, m: Infos)
    requires n < |b| && WellFormed(b[n]) && b[n].opcode == ADRP && b[n].op0 >= 0 && r >= 0 && Exact(b, out, n + 1, r, m[r])
    ensures Exact(b, out, n, r, StepInfos(b[n], n, m)[r])
  {
    hide Reads, Redefs, Exact;
    if r == b[n].op0 {
      ExactCleared(b, out, n, r, HandleClobber(m[r]).(lastADRP := n));
    } else {
      ExactPast(b, out, n, r, m[r]);
    }
  }

  lemma StartExact(b: Block, out: set<GPR>)
    ensures AllExact(b, out, |b|, Initial(out))
  {
    hide Reads, Redefs, Starts;
  }

  // Before every instruction the state of every register is exactly what its readers make it.
  lemma {:induction false} WalkExact(b: Block, out: set<GPR>, n: nat)
    requires WellFormedBlock(b) && n <= |b|
    ensures AllExact(b, out, n, InfosAt(b, out, n))
    decreases |b| - n
  {
    hide WellFormed, AllExact, StepInfos;
    if n == |b| {
      StartExact(b, out);
    } else {
      WalkExact(b, out, n + 1);
      StepExact(b, out, n, InfosAt(b, out, n + 1));
    }
  }

  // ----- The hints -----

  lemma {:induction false} ReportedAt(b: Block, out: set<GPR>, outside: Info, n: nat, h: Hint)
    requires n <= |b|
    ensures h in HintsAt(b, out, outside, n) <==>
            exists k :: n <= k < |b| && b[k].opcode == ADRP && b[k].op0 >= 0 && h in AdrpHints(b, k, InfosAt(b, out, k + 1), outside)
    decreases |b| - n
  {
    hide AdrpHints, InfosAt;
    if n < |b| { ReportedAt(b, out, outside, n + 1, h); }
  }

  lemma ReaderShape(b: Block, out: set<GPR>, n: nat, m: Infos, r: GPR, u: int)
    requires n <= |b| && r >= 0 && AllExact(b, out, n, m) && SoleReader(b, out, n, r, u) && Starts(b, out, u)
    ensures m[r].candidate && Shape(b, out, u, m[r])
  {
    hide SoleReader, Dead, Shape, Starts;
    assert Exact(b, out, n, r, m[r]);
    assert Chained(b, out, n, r);
  }

  lemma UsedExactly(b: Block, out: set<GPR>, n: nat, m: Infos, r: GPR)
    requires n <= |b| && r >= 0 && AllExact(b, out, n, m)
    ensures m[r].oneUser || m[r].multiUsers <==> !Dead(b, out, n, r)
  {
    hide Dead, Chained, Shape;
    assert Exact(b, out, n, r, m[r]);
  }

  // What is reported for a chain that starts at u.
  lemma ChainReported(b: Block, out: set<GPR>, outside: Info, n: nat, m: Infos, u: nat)
    requires n < |b| && b[n].op0 >= 0 && AllExact(b, out, n + 1, m)
    requires SoleReader(b, out, n + 1, b[n].op0, u) && Starts(b, out, u)
    ensures u < |b| && m[b[n].op0].candidate
    ensures var hs := CandidateHint(b, n, m, outside);
            && (LoadEnd(b[u]) ==> hs == if b[u].opcode != OtherLoad then [Hint(AdrpLdr, [n, u])] else [])
            && (StoreEnd(b[u]) ==> hs == [])
            && (Extends(b, out, u) ==> exists w: nat :: w < |b| && Link(b, out, u, w) && ChainEnd(b[w]) && hs == TripleAt(b, n, u, w))
            && (!ChainEnd(b[u]) && !Extends(b, out, u) ==> hs == ShortAt(b, out, outside, n, u))
  {
    hide AllExact, SoleReader, Dead, ChainEnd, StoreEnd, Lost, Extends, TriesMiddle, Starts, Link, AddMiddle, GotMiddle, ShortEnd, TripleAt, ShortAt;
    ReaderInside(b, out, n + 1, b[n].op0, u);
    EndsAre(b[u]);
    ReaderShape(b, out, n + 1, m, b[n].op0, u);
    if Extends(b, out, u) {
      ExtendsEnds(b, out, u);
      var w := m[b[n].op0].mi0;
      LinkInside(b, out, u, w);
      EndsAre(b[w]);
      TripleReported(b, out, outside, n, m, u, w);
    } else if !ChainEnd(b[u]) {
      ShortReported(b, out, outside, n, m, u);
    }
  }

  lemma ExtendsEnds(b: Block, out: set<GPR>, u: int)
    requires Extends(b, out, u)
    ensures 0 <= u < |b| && !ChainEnd(b[u])
  {
    hide Link;
    TriesIs(b[u]);
  }

  lemma TripleReported(b: Block, out: set<GPR>, outside: Info, n: nat, m: Infos, u: nat, w: nat)
    requires n < |b| && b[n].op0 >= 0 && u < |b| && w < |b| && m[b[n].op0].mi0 == w && Shape(b, out, u, m[b[n].op0])
    requires Extends(b, out, u) && !LoadEnd(b[u]) && !StoreEnd(b[u])
    ensures CandidateHint(b, n, m, outside) == TripleAt(b, n, u, w)
  {
    hide Link, StoreEnd, LoadEnd, Extends;
  }

  lemma ShortReported(b: Block, out: set<GPR>, outside: Info, n: nat, m: Infos, u: nat)
    requires n < |b| && b[n].op0 >= 0 && u < |b| && AllExact(b, out, n + 1, m) && Shape(b, out, u, m[b[n].op0])
    requires !Extends(b, out, u) && !LoadEnd(b[u]) && !StoreEnd(b[u])
    ensures CandidateHint(b, n, m, outside) == ShortAt(b, out, outside, n, u)
  {
    hide AllExact, Link, StoreEnd, LoadEnd, Extends, Dead;
    if b[u].op0 >= 0 { UsedExactly(b, out, n + 1, m, b[u].op0); }
  }

  ghost function TripleAt(b: Block, n: nat, u: nat, w: nat): seq<Hint>
    requires u < |b| && w < |b|
  {
    if b[u].opcode != ADDXri then [Hint(if LoadEnd(b[w]) then AdrpLdrGotLdr else AdrpLdrGotStr, [n, u, w])]
    else if w == u + 1 then [Hint(if LoadEnd(b[w]) then AdrpAddLdr else AdrpAddStr, [n, u, w])]
    else []
  }

  ghost function ShortAt(b: Block, out: set<GPR>, outside: Info, n: nat, u: nat): seq<Hint>
    requires n < |b| && u < |b|
  {
    if b[u].opcode != ADDXri then [Hint(AdrpLdrGot, [n, u])]
    else if (if b[u].op0 < 0 then !outside.oneUser && !outside.multiUsers else b[u].op0 == b[n].op0 || Dead(b, out, n + 1, b[u].op0)) then
      [Hint(AdrpAdd, [n, u])]
    else []
  }

  lemma LinkInside(b: Block, out: set<GPR>, u: int, w: int)
    requires Link(b, out, u, w)
    ensures 0 <= u < w < |b|
  {
  }

  lemma OneLink(b: Block, out: set<GPR>, n: int, u: int, w: int)
    requires Link(b, out, n, u) && Link(b, out, n, w)
    ensures u == w
  {
    OneReader(b, out, n + 1, b[n].op0, u, w);
  }

  // What a hint says of the first reader u and, in a triple, of the last one.
  lemma PromisedMeans(b: Block, out: set<GPR>, outside: Info, n: nat, u: nat, h: Hint)
    requires n < |b| && b[n].opcode == ADRP && Link(b, out, n, u) && h.kind != AdrpAdrp
    ensures Promised(b, out, outside, h) && h.args[0] == n ==>
              if h.kind in {AdrpLdr, AdrpAdd, AdrpLdrGot} then h.args == [n, u] else |h.args| == 3 && h.args == [n, u, h.args[2]]
  {
    hide SoleReader, Dead, Starts, Lost, Link, ChainEnd, StoreEnd, LoadEnd, Extends, Starts, AddMiddle, GotMiddle;
    if Promised(b, out, outside, h) && h.args[0] == n {
      OneLink(b, out, n, u, h.args[1]);
      if |h.args| == 2 { assert h.args == [n, u]; } else { assert h.args == [n, u, h.args[2]]; }
    }
  }

  lemma PromisedLoad(b: Block, out: set<GPR>, outside: Info, n: nat, u: nat, h: Hint)
    requires n < |b| && b[n].opcode == ADRP && Link(b, out, n, u) && u < |b| && LoadEnd(b[u]) && h.kind != AdrpAdrp
    ensures Promised(b, out, outside, h) && h.args[0] == n <==> b[u].opcode != OtherLoad && h == Hint(AdrpLdr, [n, u])
  {
    PromisedMeans(b, out, outside, n, u, h);
    hide SoleReader, Dead, Starts, Lost, Link, StoreEnd, Extends;
  }

  lemma PromisedStore(b: Block, out: set<GPR>, outside: Info, n: nat, u: nat, h: Hint)
    requires n < |b| && b[n].opcode == ADRP && Link(b, out, n, u) && u < |b| && StoreEnd(b[u]) && h.kind != AdrpAdrp
    ensures !(Promised(b, out, outside, h) && h.args[0] == n)
  {
    PromisedMeans(b, out, outside, n, u, h);
    hide SoleReader, Dead, Starts, Lost, Link, Extends;
  }

  lemma PromisedTriple(b: Block, out: set<GPR>, outside: Info, n: nat, u: nat, w: nat, h: Hint)
    requires n < |b| && b[n].opcode == ADRP && Link(b, out, n, u) && u < |b| && (AddMiddle(b[u]) || GotMiddle(b[u])) && h.kind != AdrpAdrp
    requires w < |b| && Link(b, out, u, w) && ChainEnd(b[w])
    ensures Promised(b, out, outside, h) && h.args[0] == n <==> h in TripleAt(b, n, u, w)
  {
    PromisedMeans(b, out, outside, n, u, h);
    EndsAre(b[w]);
    if Promised(b, out, outside, h) && h.args[0] == n && |h.args| == 3 {
      PromisedLast(b, out, outside, h);
      OneLink(b, out, u, w, h.args[2]);
    }
    assert Extends(b, out, u);
    hide SoleReader, Dead, Starts, Lost, Link, StoreEnd, LoadEnd, Extends;
  }

  lemma PromisedLast(b: Block, out: set<GPR>, outside: Info, h: Hint)
    requires Promised(b, out, outside, h) && |h.args| == 3
    ensures Link(b, out, h.args[1], h.args[2])
  {
    hide SoleReader, Dead, Starts, Lost, Link, StoreEnd, LoadEnd, Extends;
  }

  lemma PromisedShort(b: Block, out: set<GPR>, outside: Info, n: nat, u: nat, h: Hint)
    requires n < |b| && b[n].opcode == ADRP && Link(b, out, n, u) && u < |b| && ShortEnd(b[u]) && h.kind != AdrpAdrp
    requires !Extends(b, out, u) && !Lost(b, out, u)
    ensures Promised(b, out, outside, h) && h.args[0] == n <==> h in ShortAt(b, out, outside, n, u)
  {
    PromisedMeans(b, out, outside, n, u, h);
    if Promised(b, out, outside, h) && |h.args| == 3 {
      PromisedLast(b, out, outside, h);
    }
    hide SoleReader, Dead, Starts, Lost, Link, StoreEnd;
  }

  lemma PromisedStarts(b: Block, out: set<GPR>, outside: Info, h: Hint)
    requires Promised(b, out, outside, h)
    ensures h.args[0] < |b| && Chained(b, out, h.args[0] + 1, b[h.args[0]].op0)
  {
    hide SoleReader, Dead, Lost, StoreEnd;
    LinkInside(b, out, h.args[0], h.args[1]);
    LinkReader(b, out, h.args[0], h.args[1]);
    if |h.args| == 3 {
      assert Extends(b, out, h.args[1]);
      ExtendsStarts(b, out, h.args[1]);
    }
    assert Starts(b, out, h.args[1]);
  }

  lemma AdrpReports(b: Block, out: set<GPR>, outside: Info, n: nat, m: Infos, h: Hint)
    requires n < |b| && WellFormed(b[n]) && b[n].opcode == ADRP && b[n].op0 >= 0 && AllExact(b, out, n + 1, m) && h.kind != AdrpAdrp
    ensures h in AdrpHints(b, n, m, outside) <==> Promised(b, out, outside, h) && h.args[0] == n
  {
    assert b[n].op0 in Redefs(b[n]);
    assert Exact(b, out, n + 1, b[n].op0, m[b[n].op0]);
    hide WellFormed, AllExact, SoleReader, Dead, Promised, Extends, Starts, Shape, CandidateHint, Link, StoreEnd;
    if Chained(b, out, n + 1, b[n].op0) {
      var u := ReaderOf(b, out, n + 1, b[n].op0);
      ReaderInside(b, out, n + 1, b[n].op0, u);
      ReaderLinks(b, out, n, u);
      ReportsChain(b, out, outside, n, m, u, h);
    } else if Promised(b, out, outside, h) {
      PromisedStarts(b, out, outside, h);
    }
  }

  lemma ReportsChain(b: Block, out: set<GPR>, outside: Info, n: nat, m: Infos, u: nat, h: Hint)
    requires n < |b| && b[n].opcode == ADRP && b[n].op0 >= 0 && AllExact(b, out, n + 1, m) && h.kind != AdrpAdrp
    requires u < |b| && Link(b, out, n, u) && SoleReader(b, out, n + 1, b[n].op0, u) && Starts(b, out, u)
    ensures h in AdrpHints(b, n, m, outside) <==> Promised(b, out, outside, h) && h.args[0] == n
  {
    ChainReported(b, out, outside, n, m, u);
    EndsAre(b[u]);
    StartsAs(b, out, u);
    hide AllExact, SoleReader, Dead, Promised, CandidateHint, Link, LoadEnd, StoreEnd, ChainEnd, Starts, Lost, Extends, TripleAt, ShortAt, ShortEnd;
    if LoadEnd(b[u]) {
      PromisedLoad(b, out, outside, n, u, h);
    } else if StoreEnd(b[u]) {
      PromisedStore(b, out, outside, n, u, h);
    } else if Extends(b, out, u) {
      var w: nat :| w < |b| && Link(b, out, u, w) && ChainEnd(b[w]) && CandidateHint(b, n, m, outside) == TripleAt(b, n, u, w);
      PromisedTriple(b, out, outside, n, u, w, h);
    } else {
      PromisedShort(b, out, outside, n, u, h);
    }
  }

  lemma StartsAs(b: Block, out: set<GPR>, u: nat)
    requires u < |b| && Starts(b, out, u)
    ensures ChainEnd(b[u]) || (ShortEnd(b[u]) && !Lost(b, out, u))
    ensures Extends(b, out, u) ==> AddMiddle(b[u]) || GotMiddle(b[u])
  {
    hide Link;
  }

  // The hints of every kind but AdrpAdrp are exactly those the block promises.
  lemma HintsExact(b: Block, out: set<GPR>, outside: Info, h: Hint)
    requires WellFormedBlock(b) && h.kind != AdrpAdrp
    ensures h in HintsAt(b, out, outside, 0) <==> Promised(b, out, outside, h)
  {
    hide AdrpHints, InfosAt, WellFormed, AllExact;
    ReportedAt(b, out, outside, 0, h);
    forall k: nat | k < |b| && b[k].opcode == ADRP && b[k].op0 >= 0
      ensures h in AdrpHints(b, k, InfosAt(b, out, k + 1), outside) <==> Promised(b, out, outside, h) && h.args[0] == k
    {
      WalkExact(b, out, k + 1);
      AdrpReports(b, out, outside, k, InfosAt(b, out, k + 1), h);
    }
    if Promised(b, out, outside, h) { AdrpFirst(b, out, outside, h); }
  }

  lemma AdrpFirst(b: Block, out: set<GPR>, outside: Info, h: Hint)
    requires Promised(b, out, outside, h)
    ensures h.args[0] < |b| && b[h.args[0]].opcode == ADRP && b[h.args[0]].op0 >= 0
  {
    hide SoleReader, Dead, Lost, Extends;
  }

  // adrp x0; add x1, x0, :lo12:s; add x2, x1, #8
  function TwoAdds(): Block {
    [Ins(ADRP, 0, -1, [], true), Ins(ADDXri, 1, 0, [Use(1, 0)], true), Ins(ADDXri, 2, 1, [Use(1, 1)], false)]
  }

  // The walk does lose chains: the ADD is the only reader of the ADRP, and nothing reads its register in
  // between, but there is no AdrpAdd hint for the two, since another ADD follows.
  lemma AddIsLost(outside: Info)
    ensures WellFormedBlock(TwoAdds()) && Link(TwoAdds(), {2}, 0, 1) && Lost(TwoAdds(), {2}, 1)
    ensures forall h | h in HintsAt(TwoAdds(), {2}, outside, 0) :: h.kind != AdrpAdd
  {
    var b := TwoAdds();
    forall k | 0 <= k < |b| ensures WellFormed(b[k]) { OperandSets(b[k]); }
    OperandSets(b[0]);
    OperandSets(b[1]);
    OperandSets(b[2]);
    TwoAddsLost();
    forall h | h in HintsAt(b, {2}, outside, 0) ensures h.kind != AdrpAdd {
      if h.kind == AdrpAdd {
        HintsExact(b, {2}, outside, h);
        TwoAddsNone(outside, h);
      }
    }
  }

  lemma TwoAddsLost()
    ensures Link(TwoAdds(), {2}, 0, 1) && Lost(TwoAdds(), {2}, 1)
  {
    var b := TwoAdds();
    OperandSets(b[0]);
    OperandSets(b[1]);
    OperandSets(b[2]);
    hide Reads, Redefs;
    assert Dead(b, {2}, 3, 1) && Dead(b, {2}, 3, 0) && Dead(b, {2}, 2, 0);
    assert SoleReader(b, {2}, 1, 0, 1) && SoleReader(b, {2}, 2, 1, 2);
    assert Starts(b, {2}, 2);
    forall w | Link(b, {2}, 1, w) ensures !ChainEnd(b[w]) {
      LinkReader(b, {2}, 1, w);
      OneReader(b, {2}, 2, 1, 2, w);
    }
  }

  lemma TwoAddsNone(outside: Info, h: Hint)
    requires h.kind == AdrpAdd
    ensures !Promised(TwoAdds(), {2}, outside, h)
  {
    TwoAddsLost();
    hide Lost, SoleReader;
    if Promised(TwoAdds(), {2}, outside, h) { OneLink(TwoAdds(), {2}, 0, 1, h.args[1]); }
  }

  // ----- AdrpAdrp -----

  // The middle step at k overwrites what is known of r with the state of another register.
  ghost predicate Overwrites(b: Block, out: set<GPR>, k: int, r: GPR) {
    && 0 <= k < |b| && (AddMiddle(b[k]) || GotMiddle(b[k])) && b[k].op0 != b[k].op1 && b[k].op1 == r
    && Chained(b, out, k + 1, b[k].op0) && Dead(b, out, k + 1, r)
  }

  ghost predicate Kept(b: Block, out: set<GPR>, n: int, r: GPR, j: int) {
    forall k | n <= k < j :: !Overwrites(b, out, k, r)
  }

  lemma MovesExactly(b: Block, out: set<GPR>, n: nat, m: Infos, r: GPR)
    requires n < |b| && AllExact(b, out, n + 1, m) && r >= 0
    ensures TriesMiddle(b[n]) && b[n].op0 != b[n].op1 && Moves(m, b[n].op0, b[n].op1) && r == b[n].op1 <==> Overwrites(b, out, n, r)
  {
    TriesIs(b[n]);
    hide TriesMiddle, Chained, Dead, Shape, SoleReader;
    if TriesMiddle(b[n]) {
      assert Exact(b, out, n + 1, b[n].op0, m[b[n].op0]) && Exact(b, out, n + 1, b[n].op1, m[b[n].op1]);
    }
  }

  // The ADRP that r reaches unchanged is remembered for r exactly while its record is kept, else for no register.
  lemma {:induction false} LastExact(b: Block, out: set<GPR>, n: nat, r: GPR, j: int, q: GPR)
    requires WellFormedBlock(b) && r >= 0 && q >= 0 && n <= |b| && Reaches(b, n, r, j)
    ensures InfosAt(b, out, n)[q].lastADRP == j <==> q == r && Kept(b, out, n, r, j)
    decreases |b| - n
  {
    hide StepInfos, Redefs, Moves, WellFormed, RecordOK, AllExact, Overwrites, TriesMiddle, Kept;
    var m := InfosAt(b, out, n + 1);
    StepLast(b[n], n, m, q);
    DefShape(b[n]);
    if n < j {
      WalkExact(b, out, n + 1);
      MovesExactly(b, out, n, m, q);
      LastExact(b, out, n + 1, r, j, q);
      if TriesMiddle(b[n]) {
        TriesHasRegs(b[n]);
        LastExact(b, out, n + 1, r, j, b[n].op0);
      }
      KeptStep(b, out, n, r, j);
    } else {
      RecordsKept(b, out, n + 1);
      LaterRecord(b, out, n, m, q);
      NothingBetween(b, out, n, r);
    }
  }

  lemma DefShape(i: Instr)
    requires WellFormed(i)
    ensures i.opcode == ADRP || (TriesMiddle(i) && i.op0 >= 0) ==> i.op0 in Redefs(i)
    ensures i.opcode == ADRP ==> Redefs(i) == {i.op0} && !TriesMiddle(i)
  {
  }

  lemma KeptStep(b: Block, out: set<GPR>, n: nat, r: GPR, j: int)
    requires n < j
    ensures Kept(b, out, n, r, j) <==> !Overwrites(b, out, n, r) && Kept(b, out, n + 1, r, j)
  {
    hide Overwrites;
  }

  lemma NothingBetween(b: Block, out: set<GPR>, n: nat, r: GPR)
    ensures Kept(b, out, n, r, n)
  {
  }

  lemma LaterRecord(b: Block, out: set<GPR>, n: nat, m: Infos, q: GPR)
    requires n < |b| && RecordsOK(b, out, n + 1, m) && q >= 0
    ensures m[q].lastADRP != n
  {
    hide WasMoved, Reaches, Redefined;
    if m[q].lastADRP >= 0 { assert RecordOK(b, out, n + 1, q, m[q].lastADRP); }
  }

  // Two ADRPs of one register with no redefinition in between are reported exactly when no middle step between
  // them overwrote the record.
  lemma AdrpAdrpReported(b: Block, out: set<GPR>, outside: Info, n: nat, j: nat)
    requires WellFormedBlock(b) && n < |b| && b[n].opcode == ADRP && b[n].op0 >= 0 && Reaches(b, n + 1, b[n].op0, j)
    ensures Hint(AdrpAdrp, [n, j]) in HintsAt(b, out, outside, 0) <==> forall k | n < k < j :: !Overwrites(b, out, k, b[n].op0)
  {
    hide InfosAt, Reaches, Overwrites, WellFormed, CandidateHint;
    var h := Hint(AdrpAdrp, [n, j]);
    LastExact(b, out, n + 1, b[n].op0, j, b[n].op0);
    ReportedAt(b, out, outside, 0, h);
    forall k: nat | k < |b| && b[k].op0 >= 0
      ensures h in AdrpHints(b, k, InfosAt(b, out, k + 1), outside) <==> k == n && InfosAt(b, out, n + 1)[b[n].op0].lastADRP == j
    {
      CandidateIsNot(b, k, InfosAt(b, out, k + 1), outside);
      assert [n, j][0] == n && [n, j][1] == j;
    }
  }
}
