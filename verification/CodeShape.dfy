/** What every step of the code generator keeps: the jump lists, and the code they thread. */
module CodeShape {
  import opened LuaCode
  import opened CodeGen
  import opened CodeRuns

  ghost predicate Disjoint(a: seq<nat>, b: seq<nat>) { forall j :: j in a ==> j !in b }

  /** Jumps of an expression: each follows a test in code from `start` on. */
  ghost predicate Tested(code: Code, start: nat, list: seq<nat>) {
    forall j :: j in list ==>
      && start < j < |code| && code[j].JMP? && IsTest(code[j - 1])
      && (code[j - 1].TESTSET? ==> code[j - 1].to == NoReg)
  }

  ghost predicate Lists(code: Code, jpc: seq<nat>, t: seq<nat>, f: seq<nat>) {
    && IsList(code, jpc) && IsList(code, t) && IsList(code, f)
    && Disjoint(jpc, t) && Disjoint(jpc, f) && Disjoint(t, f)
  }

  /** States in which code can be added. */
  ghost predicate Ready(fs: State) {
    IsList(fs.code, fs.jpc) && Jumps(fs.code, fs.jpc) && NoTestLast(fs.code) && fs.nactvar <= fs.freereg
  }

  /** `fs` comes from `fs0` by code that jumps out of itself through the lists `t` and `f`. */
  ghost predicate Seg(fs0: State, fs: State, t: seq<nat>, f: seq<nat>) {
    && Extended(fs0.code, fs0.jpc, fs.code, fs.jpc)
    && fs.nactvar == fs0.nactvar && Ready(fs0) && Ready(fs)
    && Lists(fs.code, fs.jpc, t, f)
    && Tested(fs.code, Pc(fs0), t) && Tested(fs.code, Pc(fs0), f)
  }

  lemma Swap(fs0: State, fs: State, t: seq<nat>, f: seq<nat>)
    requires Seg(fs0, fs, t, f)
    ensures Seg(fs0, fs, f, t)
  {
    hide Extended, Ready, IsList, Tested;
  }

  lemma EmptySeg(fs: State)
    requires Ready(fs)
    ensures Seg(fs, fs, [], [])
  {}

  // ----- lists under changes of the code ---------------------------------------------------------

  lemma KeptList(code: Code, code1: Code, start: nat, list: seq<nat>)
    requires IsList(code, list) && Tested(code, start, list)
    requires |code| <= |code1|
    requires forall j :: j in list ==> code1[j] == code[j]
    requires forall j :: j in list ==>
      IsTest(code1[j - 1]) && (code1[j - 1].TESTSET? ==> code1[j - 1].to == NoReg)
    ensures IsList(code1, list) && Tested(code1, start, list)
  {
    KeptLinks(code, code1, list);
    hide IsList;
  }

  lemma KeptLinks(code: Code, code1: Code, list: seq<nat>)
    requires IsList(code, list) && |code| <= |code1|
    requires forall j :: j in list ==> code1[j] == code[j]
    ensures IsList(code1, list)
  {
    hide Link, NoDup;
    forall i | 0 <= i < |list|
      ensures list[i] < |code1| && code1[list[i]] == JMP(Link(list, i))
    {
      assert list[i] in list;
    }
  }

  lemma NoDupConcat(l1: seq<nat>, l2: seq<nat>)
    requires NoDup(l1) && NoDup(l2) && Disjoint(l1, l2)
    ensures NoDup(l1 + l2)
  {
    var l := l1 + l2;
    forall i, j | 0 <= i < j < |l| ensures l[i] != l[j] {
      if i < |l1| <= j {
        assert l1[i] in l1 && l2[j - |l1|] in l2;
      }
    }
  }

  lemma ConcatList(code: Code, l1: seq<nat>, l2: seq<nat>)
    requires IsList(code, l1) && IsList(code, l2) && Disjoint(l1, l2)
    ensures IsList(ConcatCode(code, l1, l2), l1 + l2)
  {
    var code1, l := ConcatCode(code, l1, l2), l1 + l2;
    if l1 == [] {
      assert l == l2;
    } else if l2 == [] {
      assert l == l1;
    } else {
      NoDupConcat(l1, l2);
      forall i | 0 <= i < |l| ensures l[i] < |code1| && code1[l[i]] == JMP(Link(l, i)) {
        LinkConcat(code, l1, l2, i);
      }
    }
  }

  lemma LinkConcat(code: Code, l1: seq<nat>, l2: seq<nat>, i: nat)
    requires IsList(code, l1) && IsList(code, l2) && Disjoint(l1, l2) && l1 != [] && l2 != [] && i < |l1| + |l2|
    ensures var l, code1 := l1 + l2, ConcatCode(code, l1, l2); l[i] < |code1| && code1[l[i]] == JMP(Link(l, i))
  {
    hide IsList, Link, NoDup, Disjoint;
    JoinedLinks(l1, l2, i);
    ListElement(code, l1, |l1| - 1);
    if i < |l1| {
      ListElement(code, l1, i);
    } else {
      ListElement(code, l2, i - |l1|);
      NotInBoth(l1, l2, l1[|l1| - 1]);
    }
  }

  lemma JoinedLinks(l1: seq<nat>, l2: seq<nat>, i: nat)
    requires l1 != [] && l2 != [] && i < |l1| + |l2|
    ensures (l1 + l2)[i] == if i < |l1| then l1[i] else l2[i - |l1|]
    ensures Link(l1 + l2, i) ==
      if i < |l1| - 1 then Link(l1, i)
      else if i == |l1| - 1 then l2[0] as int - (l1[i] as int + 1) else Link(l2, i - |l1|)
  {}

  lemma ListElement(code: Code, list: seq<nat>, i: nat)
    requires IsList(code, list) && i < |list|
    ensures list[i] in list && list[i] < |code| && code[list[i]] == JMP(Link(list, i))
    ensures i < |list| - 1 ==> list[i] != list[|list| - 1]
  {}

  lemma NotInBoth(l1: seq<nat>, l2: seq<nat>, j: nat)
    requires Disjoint(l1, l2) && j in l1
    ensures j !in l2
  {}

  /** Joining lists changes one jump of the first, and nothing else. */
  lemma ConcatKeeps(code: Code, l1: seq<nat>, l2: seq<nat>)
    requires IsList(code, l1)
    ensures forall i :: 0 <= i < |code| ==>
      ConcatCode(code, l1, l2)[i] == code[i] || (i in l1 && ConcatCode(code, l1, l2)[i].JMP?)
  {
    if l1 != [] {
      assert l1[|l1| - 1] in l1;
      assert code[l1[|l1| - 1]].JMP?;
    }
  }

  // ----- steps -----------------------------------------------------------------------------------

  lemma DischargedJpc(fs: State)
    ensures var fs1 := DischargeJpc(fs);
      Pc(fs1) == Pc(fs) && fs1.jpc == [] && fs1.freereg == fs.freereg && fs1.nactvar == fs.nactvar
  {}

  lemma PatchHere(fs: State, i: nat)
    requires Ready(fs) && i < Pc(fs)
    ensures i !in fs.jpc && i + 1 !in fs.jpc ==> DischargeJpc(fs).code[i] == fs.code[i]
    ensures i in fs.jpc || DischargeJpc(fs).code[i] == fs.code[i]
      || (fs.code[i].TESTSET? && DischargeJpc(fs).code[i] == TEST(fs.code[i].b, fs.code[i].c))
  {
    assert DischargeJpc(fs).code[i] == Patched(fs.code, fs.jpc, Pc(fs), NoReg, Pc(fs), i);
  }

  lemma LandList(fs: State, start: nat, list: seq<nat>)
    requires Ready(fs) && IsList(fs.code, list) && Tested(fs.code, start, list) && Disjoint(fs.jpc, list)
    ensures IsList(DischargeJpc(fs).code, list) && Tested(DischargeJpc(fs).code, start, list)
  {
    hide Patch;
    forall j | j in list
      ensures DischargeJpc(fs).code[j] == fs.code[j]
      ensures IsTest(DischargeJpc(fs).code[j - 1])
      ensures DischargeJpc(fs).code[j - 1].TESTSET? ==> DischargeJpc(fs).code[j - 1].to == NoReg
    {
      PatchHere(fs, j);
      PatchHere(fs, j - 1);
    }
    KeptList(fs.code, DischargeJpc(fs).code, start, list);
  }

  lemma LandReady(fs: State)
    requires Ready(fs)
    ensures Ready(DischargeJpc(fs))
  {
    hide Patch;
    if Pc(fs) > 0 {
      PatchHere(fs, Pc(fs) - 1);
      if Pc(fs) - 1 in fs.jpc {
        assert DischargeJpc(fs).code[Pc(fs) - 1].JMP? by { PatchRewires(fs.code, fs.jpc, Pc(fs), NoReg, Pc(fs)); }
      }
    }
  }

  /** Jumps added after `fs0` do not reach into the code before it. */
  lemma LandPrefix(fs0: State, fs: State, i: nat)
    requires Ready(fs0) && Ready(fs) && i < Pc(fs0) <= Pc(fs)
    requires fs.code[i] == DischargeJpc(fs0).code[i] && forall j :: j in fs.jpc ==> j >= Pc(fs0)
    ensures DischargeJpc(fs).code[i] == fs.code[i]
  {
    hide Patch, IsList;
    PatchHere(fs, i);
    PatchHere(fs0, i);
    if i == Pc(fs0) - 1 && i in fs0.jpc {
      PatchRewires(fs0.code, fs0.jpc, Pc(fs0), NoReg, Pc(fs0));
    }
  }

  lemma LandExtended(fs0: State, fs: State)
    requires Ready(fs0) && Ready(fs) && Extended(fs0.code, fs0.jpc, fs.code, fs.jpc)
    ensures Extended(fs0.code, fs0.jpc, DischargeJpc(fs).code, [])
  {
    DischargedJpc(fs0);
    DischargedJpc(fs);
    if fs.code != fs0.code || fs.jpc != fs0.jpc {
      hide Patch, Ready;
      var code1 := DischargeJpc(fs).code;
      forall i | 0 <= i < Pc(fs0) ensures code1[i] == fs.code[i] {
        assert fs.code[i] == fs.code[..Pc(fs0)][i];
        LandPrefix(fs0, fs, i);
      }
      assert code1[..Pc(fs0)] == fs.code[..Pc(fs0)];
    }
  }

  lemma LandSeg(fs0: State, fs: State, t: seq<nat>, f: seq<nat>)
    requires Seg(fs0, fs, t, f)
    ensures Seg(fs0, DischargeJpc(fs), t, f) && DischargeJpc(fs).jpc == []
  {
    assert IsList(DischargeJpc(fs).code, []);
    hide Extended, Ready, IsList, Tested, Patch;
    LandReady(fs);
    LandExtended(fs0, fs);
    LandList(fs, Pc(fs0), t);
    LandList(fs, Pc(fs0), f);
  }

  lemma GrowList(code: Code, more: Code, start: nat, list: seq<nat>)
    requires IsList(code, list) && Tested(code, start, list)
    ensures IsList(code + more, list) && Tested(code + more, start, list)
  {}

  lemma PatchNone(code: Code, vtarget: nat, reg: Target, dtarget: nat)
    ensures Patch(code, [], vtarget, reg, dtarget) == code
  {}

  lemma AppendExtended(fs0: State, fs: State, i: Instr)
    requires Extended(fs0.code, fs0.jpc, fs.code, []) && fs.jpc == []
    ensures Extended(fs0.code, fs0.jpc, Append(fs, i).code, [])
  {
    assert Append(fs, i).code[..Pc(fs0)] == fs.code[..Pc(fs0)];
    if fs.code == fs0.code && fs0.jpc == [] {
      PatchNone(fs0.code, Pc(fs0), NoReg, Pc(fs0));
    }
  }

  lemma AppendSeg(fs0: State, fs: State, t: seq<nat>, f: seq<nat>, i: Instr)
    requires Seg(fs0, fs, t, f) && fs.jpc == [] && !IsTest(i)
    ensures Seg(fs0, Append(fs, i), t, f)
  {
    assert IsList(Append(fs, i).code, []);
    hide Extended, IsList, Tested;
    AppendExtended(fs0, fs, i);
    GrowList(fs.code, [i], Pc(fs0), t);
    GrowList(fs.code, [i], Pc(fs0), f);
  }

  lemma EmitSeg(fs0: State, fs: State, t: seq<nat>, f: seq<nat>, i: Instr)
    requires Seg(fs0, fs, t, f) && !IsTest(i)
    ensures Seg(fs0, Emit(fs, i), t, f)
  {
    hide Seg, DischargeJpc;
    LandSeg(fs0, fs, t, f);
    AppendSeg(fs0, DischargeJpc(fs), t, f, i);
  }

  /** Code with a test and its jump at the end. */
  function WithTest(fs: State, test: Instr): State { Append(Append(fs, test), JMP(-1)) }

  predicate PlainTest(i: Instr) { IsTest(i) && (i.TESTSET? ==> i.to == NoReg) }

  lemma CondJumpIs(fs: State, test: Instr)
    ensures CondJump(fs, test) == (WithTest(DischargeJpc(fs), test), [Pc(fs) + 1])
  {
    var x := [Pc(fs) + 1];
    assert x + [] == x;
  }

  lemma WithTestSeg(fs0: State, fs: State, t: seq<nat>, f: seq<nat>, test: Instr)
    requires Seg(fs0, fs, t, f) && fs.jpc == [] && PlainTest(test)
    ensures var fs1, x := WithTest(fs, test), [Pc(fs) + 1];
      && Seg(fs0, fs1, t, f) && IsList(fs1.code, x) && Tested(fs1.code, Pc(fs0), x)
      && Disjoint(fs1.jpc, x) && Disjoint(t, x) && Disjoint(f, x)
  {
    hide Seg, Extended, IsList, Tested;
    SegFacts(fs0, fs, t, f);
    var fs1, x := WithTest(fs, test), [Pc(fs) + 1];
    AppendExtended(fs0, fs, test);
    AppendExtended(fs0, Append(fs, test), JMP(-1));
    assert fs1.code == fs.code + [test, JMP(-1)];
    SegGrows(fs0, fs, fs1, t, f, [test, JMP(-1)]);
    TestList(fs.code, test, Pc(fs0));
  }

  lemma SegFacts(fs0: State, fs: State, t: seq<nat>, f: seq<nat>)
    requires Seg(fs0, fs, t, f)
    ensures Pc(fs0) <= Pc(fs) && Extended(fs0.code, fs0.jpc, fs.code, fs.jpc)
    ensures forall j :: j in t || j in f || j in fs.jpc ==> j < Pc(fs)
  {
    hide IsList;
  }

  /** Code that is added behind. */
  lemma SegGrows(fs0: State, fs: State, fs1: State, t: seq<nat>, f: seq<nat>, more: Code)
    requires Seg(fs0, fs, t, f) && fs.jpc == [] && fs1 == fs.(code := fs.code + more)
    requires Extended(fs0.code, fs0.jpc, fs1.code, []) && NoTestLast(fs1.code)
    ensures Seg(fs0, fs1, t, f)
  {
    assert IsList(fs1.code, []);
    hide Extended, IsList, Tested;
    GrowList(fs.code, more, Pc(fs0), t);
    GrowList(fs.code, more, Pc(fs0), f);
  }

  /** The jump of a test, as a list. */
  lemma TestList(code: Code, test: Instr, start: nat)
    requires PlainTest(test) && start <= |code|
    ensures var code1, x := code + [test, JMP(-1)], [|code| + 1]; IsList(code1, x) && Tested(code1, start, x)
  {}

  lemma JoinExtended(fs0: State, fs: State, l: seq<nat>, x: seq<nat>)
    requires Extended(fs0.code, fs0.jpc, fs.code, fs.jpc) && IsList(fs.code, l)
    requires x != [] ==> forall j :: j in l ==> j >= Pc(fs0)
    requires x != [] ==> Pc(fs) > Pc(fs0)
    ensures Extended(fs0.code, fs0.jpc, Concat(fs, l, x).code, fs.jpc)
  {
    ConcatKeeps(fs.code, l, x);
    if fs.code != fs0.code {
      assert x != [] ==> Concat(fs, l, x).code[..Pc(fs0)] == fs.code[..Pc(fs0)];
    }
  }

  lemma JoinReady(fs: State, l: seq<nat>, x: seq<nat>)
    requires Ready(fs) && IsList(fs.code, l) && Disjoint(fs.jpc, l)
    ensures Ready(Concat(fs, l, x))
  {
    ConcatKeeps(fs.code, l, x);
  }

  lemma JoinOther(fs: State, l: seq<nat>, x: seq<nat>, start: nat, other: seq<nat>)
    requires IsList(fs.code, l) && IsList(fs.code, other) && Tested(fs.code, start, other) && Disjoint(l, other)
    ensures IsList(Concat(fs, l, x).code, other) && Tested(Concat(fs, l, x).code, start, other)
  {
    ConcatKeeps(fs.code, l, x);
    KeptList(fs.code, Concat(fs, l, x).code, start, other);
  }

  lemma JoinTested(fs: State, l: seq<nat>, x: seq<nat>, start: nat)
    requires IsList(fs.code, l) && Tested(fs.code, start, l) && Tested(fs.code, start, x)
    ensures Tested(Concat(fs, l, x).code, start, l + x)
  {
    ConcatKeeps(fs.code, l, x);
  }

  /** A list of jumps is added to one of those of the expression. */
  lemma JoinSeg(fs0: State, fs: State, t: seq<nat>, f: seq<nat>, x: seq<nat>)
    requires Seg(fs0, fs, t, f) && IsList(fs.code, x) && Tested(fs.code, Pc(fs0), x)
    requires Disjoint(fs.jpc, x) && Disjoint(t, x) && Disjoint(f, x)
    ensures Seg(fs0, Concat(fs, t, x), t + x, f)
  {
    assert x != [] ==> x[0] in x;
    assert forall j :: j in t ==> j >= Pc(fs0);
    ConcatList(fs.code, t, x);
    JoinExtended(fs0, fs, t, x);
    JoinReady(fs, t, x);
    JoinTested(fs, t, x, Pc(fs0));
    JoinOther(fs, t, x, Pc(fs0), f);
    JoinJpc(fs, t, x);
    hide Extended, Ready, IsList, Tested;
    assert Disjoint(fs.jpc, t + x) && Disjoint(t + x, f);
  }

  lemma JoinJpc(fs: State, l: seq<nat>, x: seq<nat>)
    requires IsList(fs.code, l) && IsList(fs.code, fs.jpc) && Disjoint(fs.jpc, l)
    ensures IsList(Concat(fs, l, x).code, fs.jpc)
  {
    ConcatKeeps(fs.code, l, x);
  }

  /** A list of jumps of the expression is made to lead to here. */
  lemma HereSeg(fs0: State, fs: State, t: seq<nat>, f: seq<nat>)
    requires Seg(fs0, fs, t, f)
    ensures Seg(fs0, PatchToHere(fs, t), [], f)
  {
    var fs1 := PatchToHere(fs, t);
    assert t != [] ==> t[0] in t;
    ConcatList(fs.code, fs.jpc, t);
    HereExtended(fs0, fs, t);
    HereReady(fs, t, Pc(fs0));
    JoinOther(fs, fs.jpc, t, Pc(fs0), f);
    assert IsList(fs1.code, []) && Tested(fs1.code, Pc(fs0), []);
    hide Extended, Ready, Tested;
    hide IsList;
    assert Disjoint(fs1.jpc, f) && Disjoint(fs1.jpc, []);
  }

  lemma HereExtended(fs0: State, fs: State, t: seq<nat>)
    requires Extended(fs0.code, fs0.jpc, fs.code, fs.jpc) && IsList(fs.code, fs.jpc) && Tested(fs.code, Pc(fs0), t)
    ensures Extended(fs0.code, fs0.jpc, PatchToHere(fs, t).code, PatchToHere(fs, t).jpc)
  {
    assert t != [] ==> t[0] in t;
    if t == [] {
      assert fs.jpc + t == fs.jpc;
    } else {
      JoinExtended(fs0, fs, fs.jpc, t);
    }
  }

  lemma HereReady(fs: State, t: seq<nat>, start: nat)
    requires Ready(fs) && IsList(fs.code, t) && Tested(fs.code, start, t) && Disjoint(fs.jpc, t)
    ensures Ready(PatchToHere(fs, t))
  {
    var fs1 := PatchToHere(fs, t);
    ConcatList(fs.code, fs.jpc, t);
    ConcatKeeps(fs.code, fs.jpc, t);
    hide IsList;
    assert Jumps(fs1.code, fs1.jpc);
  }

  // ----- one piece of code after another ---------------------------------------------------------

  lemma ExtendedTrans(fs0: State, fs1: State, fs2: State)
    requires Ready(fs0) && Ready(fs1)
    requires Extended(fs0.code, fs0.jpc, fs1.code, fs1.jpc) && Extended(fs1.code, fs1.jpc, fs2.code, fs2.jpc)
    ensures Extended(fs0.code, fs0.jpc, fs2.code, fs2.jpc)
  {
    if (fs1.code == fs0.code && fs1.jpc == fs0.jpc) || (fs2.code == fs1.code && fs2.jpc == fs1.jpc) {
    } else {
      hide IsList, NoTestLast;
      LandExtended(fs0, fs1);
      hide Patch;
      assert fs2.code[..Pc(fs0)] == DischargeJpc(fs1).code[..Pc(fs0)];
      if fs0.code == DischargeJpc(fs1).code && fs0.jpc == [] {
        PatchNone(fs0.code, Pc(fs0), NoReg, Pc(fs0));
      }
    }
  }

  /** The jumps of a piece of code are unharmed by code that follows. */
  lemma EarlierList(fs0: State, fs1: State, fs2: State, list: seq<nat>)
    requires Ready(fs1) && Extended(fs1.code, fs1.jpc, fs2.code, fs2.jpc)
    requires IsList(fs1.code, list) && Tested(fs1.code, Pc(fs0), list) && Disjoint(fs1.jpc, list)
    ensures IsList(fs2.code, list) && Tested(fs2.code, Pc(fs0), list) && Disjoint(fs2.jpc, list)
  {
    if fs2.code != fs1.code || fs2.jpc != fs1.jpc {
      LandList(fs1, Pc(fs0), list);
      hide Patch;
      assert DischargeJpc(fs1).code + fs2.code[Pc(fs1)..] == fs2.code;
      GrowList(DischargeJpc(fs1).code, fs2.code[Pc(fs1)..], Pc(fs0), list);
    }
  }

  lemma LaterTested(code: Code, start: nat, end: nat, list: seq<nat>, earlier: seq<nat>)
    requires Tested(code, end, list) && start <= end && forall j :: j in earlier ==> j < end
    ensures Tested(code, start, list) && Disjoint(earlier, list)
  {}

  lemma TransSeg(fs0: State, fs1: State, fs2: State, t1: seq<nat>, f1: seq<nat>, t2: seq<nat>, f2: seq<nat>)
    requires Seg(fs0, fs1, t1, f1) && Seg(fs1, fs2, t2, f2)
    ensures Seg(fs0, fs2, t2, f2)
    ensures IsList(fs2.code, t1) && Tested(fs2.code, Pc(fs0), t1) && Disjoint(fs2.jpc, t1) && Disjoint(t1, t2)
    ensures Disjoint(t1, f2)
    ensures IsList(fs2.code, f1) && Tested(fs2.code, Pc(fs0), f1) && Disjoint(fs2.jpc, f1) && Disjoint(f1, t2)
    ensures Disjoint(f1, f2)
  {
    assert Pc(fs0) <= Pc(fs1);
    assert (forall j :: j in t1 ==> j < Pc(fs1)) && (forall j :: j in f1 ==> j < Pc(fs1));
    hide Extended, Ready, IsList, Tested;
    ExtendedTrans(fs0, fs1, fs2);
    EarlierList(fs0, fs1, fs2, t1);
    EarlierList(fs0, fs1, fs2, f1);
    LaterTested(fs2.code, Pc(fs0), Pc(fs1), t2, t1);
    LaterTested(fs2.code, Pc(fs0), Pc(fs1), t2, f1);
    LaterTested(fs2.code, Pc(fs0), Pc(fs1), f2, t1);
    LaterTested(fs2.code, Pc(fs0), Pc(fs1), f2, f1);
  }
}
