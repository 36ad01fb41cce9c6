/** What colorChain leaves intact: the meaning of the block, its kill flags, and every other chain. */
module RecolorOthers {
  import opened MachineBlock
  import opened Chains
  import opened Recolor
  import opened Coloring

  lemma SubstsInjective(b: Block, out: set<Reg>, v: ChainVal, reg: Reg, n: nat, s: Substs)
    requires |v.order| > 0 && EndOf(v) < |b| && Free(b, out, v, reg) && n <= |b| && SubstsAt(b, v, reg, n, s)
    ensures InjectiveOn(s, Live(b, out, n))
  {
    if s != map[] {
      var j :| Pending(b, v, reg, n, j, s);
      FreeNotLive(b, out, v, reg, n);
    }
  }

  // The renaming theorem for one call of colorChain.
  lemma RecoloringIsSound(b: Block, c: Block, out: set<Reg>, v: ChainVal, reg: Reg, subs: seq<Substs>)
    requires Trace(b, c, out, v, reg, subs) && KillsCorrect(b, out)
    ensures SameEffect(b, c, out) && KillsCorrect(c, out)
  {
    assert |subs| == |b| + 1;
    hide SubstsAt, Renames, InjectiveOn, Free, SameEffect, KillsCorrect, ChainOK;
    RenamingKeepsEffect(b, c, subs, out);
    forall n | 0 <= n <= |b| ensures InjectiveOn(subs[n], Live(b, out, n)) {
      SubstsInjective(b, out, v, reg, n, subs[n]);
    }
    RenamingKeepsKills(b, c, subs, out);
  }

  lemma {:induction false} LiveBetween(b: Block, out: set<Reg>, m: nat, n: nat, r: Reg, x: nat)
    requires m < x <= n < |b| && NoMention(b, m + 1, n, r) && r in UsedRegs(b[n])
    ensures r in Live(b, out, x)
    decreases n - x
  {
    if x < n { LiveBetween(b, out, m, n, r, x + 1); }
  }

  // A value passed from m outside the chain to a reader n: nothing pending stands for the same register.
  ghost predicate Passed(b: Block, v: ChainVal, m: nat, n: nat) {
    && m < n < |b| && Member(b, m) && m !in v.order && Dest(b[m]) in UsedRegs(b[n])
    && NoMention(b, m + 1, n, Dest(b[m]))
  }

  lemma PassedNotPending(b: Block, v: ChainVal, reg: Reg, m: nat, n: nat, j: int, s: Substs)
    requires ChainOK(b, v) && Passed(b, v, m, n) && Pending(b, v, reg, n, j, s)
    ensures Dest(b[m]) !in s
  {
    assert Mentions(b[m], Dest(b[m]));
    if s != map[] {
      var p := v.order[j];
      var q: int := if j + 1 < |v.order| then v.order[j + 1] else v.kill;
      assert Mentions(b[p], Dest(b[p])) && m != p;
      assert NoMention(b, p + 1, q, Dest(b[p])) by {
        if j + 1 < |v.order| { assert LinkedAt(b, v.order[j], v.order[j + 1]); }
      }
    }
  }

  // A register mentioned by the new instruction but not by the old is the scavenged one, within the range.
  lemma NewMention(b: Block, c: Block, out: set<Reg>, v: ChainVal, reg: Reg, subs: seq<Substs>, n: nat, r: Reg)
    requires Trace(b, c, out, v, reg, subs) && n < |b| && Mentions(c[n], r) && !Mentions(b[n], r)
    ensures r == reg && Start(v) <= n <= EndOf(v)
  {
    hide Free, ChainOK, Pending, Live, InjectiveOn;
    assert RenamedBy(b[n], c[n], subs[n], subs[n + 1], Live(b, out, n + 1));
    ValueOf(b, v, reg, n, subs[n]);
    ValueOf(b, v, reg, n + 1, subs[n + 1]);
    if r in UsedRegs(c[n]) {
      var k :| 0 <= k < |c[n].uses| && c[n].uses[k].reg == r;
      assert b[n].uses[k].reg in UsedRegs(b[n]);
    } else {
      var k :| 0 <= k < |c[n].defs| && c[n].defs[k] == r;
      assert b[n].defs[k] in DefRegs(b[n]);
    }
  }

  lemma ValueOf(b: Block, v: ChainVal, reg: Reg, n: nat, s: Substs)
    requires |v.order| > 0 && SubstsAt(b, v, reg, n, s)
    ensures forall r | r in s :: s[r] == reg
    ensures s != map[] ==> Start(v) < n <= EndOf(v)
  {
  }

  lemma PassedKeeps(b: Block, c: Block, out: set<Reg>, v: ChainVal, reg: Reg, subs: seq<Substs>, m: nat, n: nat)
    requires Trace(b, c, out, v, reg, subs) && Passed(b, v, m, n)
    ensures |c| == |b| && |subs| == |b| + 1 && Member(c, m) && Dest(c[m]) == Dest(b[m])
    ensures Dest(b[m]) !in subs[n] && (subs[n] != map[] ==> Dest(b[m]) != reg)
    ensures NoMention(c, m + 1, n, Dest(b[m]))
  {
    hide Live, Pending, InjectiveOn;
    assert RenamedBy(b[m], c[m], subs[m], subs[m + 1], Live(b, out, m + 1));
    assert c[m].defs == b[m].defs;
    var r := Dest(b[m]);
    assert SubstsAt(b, v, reg, n, subs[n]);
    if subs[n] != map[] {
      var j :| Pending(b, v, reg, n, j, subs[n]);
      PassedNotPending(b, v, reg, m, n, j, subs[n]);
      assert Mentions(b[n], r);
    }
    hide RenamedBy, SubstsAt, Mentions, Free;
    forall x | m + 1 <= x < n ensures !Mentions(c[x], r) {
      if Mentions(c[x], r) {
        NewMention(b, c, out, v, reg, subs, x, r);
        LiveBetween(b, out, m, n, r, x);
        FreeNotLive(b, out, v, reg, x);
      }
    }
  }

  lemma LinkKept(b: Block, c: Block, out: set<Reg>, v: ChainVal, reg: Reg, subs: seq<Substs>, m: nat, n: nat)
    requires Trace(b, c, out, v, reg, subs) && LinkedAt(b, m, n) && m !in v.order
    ensures |c| == |b| && LinkedAt(c, m, n)
  {
    hide Live, ChainOK, Free, InjectiveOn, NoMention, SubstsAt;
    var r := Dest(b[m]);
    assert r == b[n].uses[2].reg && r in UsedRegs(b[n]);
    PassedKeeps(b, c, out, v, reg, subs, m, n);
    assert RenamedBy(b[n], c[n], subs[n], subs[n + 1], Live(b, out, n + 1));
    assert SubstsAt(b, v, reg, n, subs[n]);
    ValueOf(b, v, reg, n, subs[n]);
  }

  lemma DefsKept(b: Block, c: Block, out: set<Reg>, v: ChainVal, reg: Reg, subs: seq<Substs>, n: nat)
    requires Trace(b, c, out, v, reg, subs) && n < |b| && n !in v.order
    ensures |c| == |b| && c[n].defs == b[n].defs
  {
    hide Live, ChainOK, Free, InjectiveOn, NoMention, SubstsAt;
  }

  lemma MemberKept(b: Block, c: Block, out: set<Reg>, v: ChainVal, reg: Reg, subs: seq<Substs>, m: nat)
    requires Trace(b, c, out, v, reg, subs) && Member(b, m)
    ensures |c| == |b| && Member(c, m)
  {
    hide Live, ChainOK, Free, InjectiveOn, NoMention, SubstsAt;
    assert RenamedBy(b[m], c[m], subs[m], subs[m + 1], Live(b, out, m + 1));
  }

  lemma KilledKept(b: Block, c: Block, out: set<Reg>, v: ChainVal, reg: Reg, subs: seq<Substs>, last: nat, kill: int, immutable: bool)
    requires Trace(b, c, out, v, reg, subs) && Killed(b, last, kill, immutable) && last !in v.order
    ensures Killed(c, last, kill, immutable)
  {
    hide Live, ChainOK, Free, InjectiveOn, NoMention, SubstsAt;
    MemberKept(b, c, out, v, reg, subs, last);
    if !immutable {
      var r := Dest(b[last]);
      var k :| 0 <= k < |b[kill].uses| && b[kill].uses[k].kill && b[kill].uses[k].reg == r;
      assert r in UsedRegs(b[kill]);
      PassedKeeps(b, c, out, v, reg, subs, last, kill);
      assert RenamedBy(b[kill], c[kill], subs[kill], subs[kill + 1], Live(b, out, kill + 1));
      assert c[kill].uses[k].reg == r;
    }
  }

  lemma ChainKept(b: Block, c: Block, out: set<Reg>, v: ChainVal, reg: Reg, subs: seq<Substs>, w: ChainVal)
    requires Trace(b, c, out, v, reg, subs) && ChainOK(b, w) && Disjoint(w, v)
    ensures ChainOK(c, w)
  {
    hide Trace, LinkedAt, Member, Killed, GetColor;
    RangeInBlock(b, w);
    assert Last(w) in w.order;
    DefsKept(b, c, out, v, reg, subs, Last(w));
    forall j | 0 <= j < |w.order| ensures Member(c, w.order[j]) {
      MemberKept(b, c, out, v, reg, subs, w.order[j]);
    }
    forall j | 0 <= j < |w.order| - 1 ensures LinkedAt(c, w.order[j], w.order[j + 1]) {
      LinkKept(b, c, out, v, reg, subs, w.order[j], w.order[j + 1]);
    }
    if w.kill != -1 {
      KilledKept(b, c, out, v, reg, subs, w.order[|w.order| - 1], w.kill, w.immutable);
    }
  }
}
