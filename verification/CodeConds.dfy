/** Conditions: `luaK_goiftrue`, `luaK_goiffalse` and `codenot`. */
module CodeConds {
  import opened LuaCode
  import opened CodeGen
  import opened CodeRuns
  import opened CodeShape
  import opened CodeSteps
  import opened CodeExprs

  lemma BranchedTests(fs0: State, base: State, go: seq<nat>, stay: seq<nat>, test: Instr)
    requires Seg(fs0, base, go, stay) && base.jpc == [] && PlainTest(test)
    ensures var fs1 := Branched(WithTest(base, test), go, stay, [Pc(base) + 1]);
      && Pc(fs1) == Pc(base) + 2 && fs1.code[Pc(base)] == test
      && (forall j :: j in go ==> 1 <= j < Pc(base) && fs1.code[j - 1] == base.code[j - 1])
  {
    hide Extended, Ready;
    JumpsInside(fs0, base, go, stay);
    var fs1, x := WithTest(base, test), [Pc(base) + 1];
    assert fs1.code == base.code + [test, JMP(-1)];
    WithTestSeg(fs0, base, go, stay, test);
    JoinSeg(fs0, fs1, go, stay, x);
    assert forall j :: j in go ==> IsTest(fs1.code[j - 1]);
    assert IsList(fs1.code, go) && IsList(Concat(fs1, go, x).code, []);
    ConcatKeeps(fs1.code, go, x);
    ConcatKeeps(Concat(fs1, go, x).code, [], stay);
  }

  /** A test in place turns the operand into a condition. */
  lemma BranchedMeans(fs0: State, base: State, go: seq<nat>, stay: seq<nat>, test: Instr, cond: bool, env: Env, n: nat,
                      regs: Regs, v: Value)
    requires Seg(fs0, base, go, stay) && base.jpc == [] && PlainTest(test)
    requires Undecided(fs0, base, if cond then go else stay, if cond then stay else go, test, cond, env, n, regs, v)
    ensures var x := [Pc(base) + 1];
      Branches(fs0, Branched(WithTest(base, test), go, stay, x), go + x, cond, env, n, regs, v)
  {
    hide Seg, Out, Accepts;
    assert Both(go, stay) == Both(stay, go);
    BranchedFlow(fs0, base, go, stay, test, env, regs);
    BranchedTests(fs0, base, go, stay, test);
    JumpsInside(fs0, base, go, stay);
    hide Branched, Flow, Agree;
  }

  /** The code before the test of an operand, and the test: it jumps when the truth of the value is
    * `cond`. */
  function Decided(fs: State, d: Desc, cond: bool): (State, Instr)
    requires TailLen(d) <= Pc(fs)
  {
    if d.k == VJMP then
      var i := fs.code[Pc(fs) - 2];
      (Body(fs, d), if i.CMP? && !cond then i.(accept := !i.accept) else i)
    else var (base, test) := TestOf(fs, d, cond); (DischargeJpc(base), test)
  }

  lemma DecidedShape(fs0: State, fs: State, d: Desc, cond: bool)
    requires Shape(fs0, fs, d) && Discharged(d) && (d.k == VNONRELOC ==> d.info < fs.nactvar)
    ensures var (base, test) := Decided(fs, d, cond);
      && Seg(fs0, base, d.t, d.f) && base.jpc == [] && PlainTest(test) && base.freereg == fs.freereg
      && base.nactvar == fs.nactvar
  {
    if d.k != VJMP {
      hide Seg, TestOf, DischargeJpc;
      var (base, test) := TestOf(fs, d, cond);
      TestOfShape(fs0, fs, d, cond);
      JumpOnCondIs(fs, d, cond);
      LandSeg(fs0, base, d.t, d.f);
      DischargedJpc(base);
    } else {
      hide Seg;
    }
  }

  lemma DecidedMeans(fs0: State, fs: State, d: Desc, cond: bool, env: Env, n: nat, regs: Regs, v: Value)
    requires Shape(fs0, fs, d) && Discharged(d) && (d.k == VNONRELOC ==> d.info < fs.nactvar)
    requires n <= fs.freereg && Means(fs0, fs, d, env, n, regs, v)
    ensures var (base, test) := Decided(fs, d, cond);
      IsTest(test) && Undecided(fs0, base, d.t, d.f, test, cond, env, n, regs, v)
  {
    if d.k == VJMP {
      ComparisonDecides(fs0, fs, d, cond, env, n, regs, v);
    } else {
      hide Seg, TestOf, DischargeJpc, Means, Undecided;
      var (base, test) := TestOf(fs, d, cond);
      TestOfShape(fs0, fs, d, cond);
      TestOfDecides(fs0, fs, d, cond, env, n, regs, v);
      LandUndecided(fs0, base, d.t, d.f, test, cond, env, n, regs, v);
    }
  }

  lemma ComparisonDecides(fs0: State, fs: State, d: Desc, cond: bool, env: Env, n: nat, regs: Regs, v: Value)
    requires Shape(fs0, fs, d) && d.k == VJMP && Means(fs0, fs, d, env, n, regs, v)
    ensures var (base, test) := Decided(fs, d, cond);
      IsTest(test) && Undecided(fs0, base, d.t, d.f, test, cond, env, n, regs, v)
  {
    JumpsInside(fs0, Body(fs, d), d.t, d.f);
    hide Seg, Flow, Agree;
    match Flow(fs0, Body(fs, d), Both(d.t, d.f), env, regs) {
      case Fall(r) =>
      case Exit(j, r, tested) =>
        LeavesKept(fs.code, Body(fs, d).code, d.t, d.f, n, regs, v, Exit(j, r, tested));
    }
  }

  // ----- goiftrue and goiffalse --------------------------------------------------------------------

  /** What the condition operations make of an operand that is not a constant. */
  function Conditional(fs: State, d: Desc, cond: bool): (State, Desc)
    requires TailLen(d) <= Pc(fs)
  {
    var (base, test) := Decided(fs, d, cond);
    var x := [Pc(base) + 1];
    if cond then (Branched(WithTest(base, test), d.t, d.f, x), d.(t := d.t + x, f := []))
    else (Branched(WithTest(base, test), d.f, d.t, x), d.(t := [], f := d.f + x))
  }

  lemma ComparisonInPlace(fs0: State, fs: State, d: Desc, cond: bool)
    requires Shape(fs0, fs, d) && d.k == VJMP
    ensures var (base, test) := Decided(fs, d, cond);
      && WithTest(base, test) == (if cond then fs else InvertJump(fs, d.info)) && Pc(base) + 1 == d.info
  {
    hide Seg;
    var (base, test) := Decided(fs, d, cond);
    var fs1 := if cond then fs else InvertJump(fs, d.info);
    assert fs1.code == WithTest(base, test).code;
  }

  lemma GoIfTrueIs(fs0: State, fs: State, d: Desc)
    requires Shape(fs0, fs, d)
    ensures var (fs1, d1) := DischargeVars(fs, d);
      && TailLen(d1) <= Pc(fs1)
      && GoIfTrue(fs, d) == if d1.k == VK then (PatchToHere(fs1, d1.t), d1.(t := [])) else Conditional(fs1, d1, false)
  {
    hide Seg, DischargeVars, Discharge2AnyReg, PatchToHere, DischargeJpc;
    var (fs1, d1) := DischargeVars(fs, d);
    DischargeVarsShape(fs0, fs, d);
    if d1.k == VJMP {
      ComparisonInPlace(fs0, fs1, d1, false);
    } else if d1.k == VK {
      assert d1.f + [] == d1.f;
    } else {
      JumpOnCondIs(fs1, d1, false);
      DischargedJpc(TestOf(fs1, d1, false).0);
      hide JumpOnCond, TestOf;
    }
  }

  lemma GoIfFalseIs(fs0: State, fs: State, d: Desc)
    requires Shape(fs0, fs, d)
    ensures var (fs1, d1) := DischargeVars(fs, d);
      && TailLen(d1) <= Pc(fs1) && GoIfFalse(fs, d) == Conditional(fs1, d1, true)
  {
    hide Seg, DischargeVars, Discharge2AnyReg, PatchToHere, DischargeJpc;
    var (fs1, d1) := DischargeVars(fs, d);
    DischargeVarsShape(fs0, fs, d);
    if d1.k == VJMP {
      ComparisonInPlace(fs0, fs1, d1, true);
    } else {
      JumpOnCondIs(fs1, d1, true);
      DischargedJpc(TestOf(fs1, d1, true).0);
      hide JumpOnCond, TestOf;
    }
  }

  /** Operands as `Compile` leaves them: registers of locals only. */
  predicate Owned(fs: State, d: Desc) { d.k == VNONRELOC ==> d.info < fs.nactvar }

  lemma BranchedState(fs: State, go: seq<nat>, stay: seq<nat>, x: seq<nat>)
    ensures Branched(fs, go, stay, x).freereg == fs.freereg && Branched(fs, go, stay, x).nactvar == fs.nactvar
  {}

  lemma DecidedBranchedShape(fs0: State, base: State, t: seq<nat>, f: seq<nat>, test: Instr, cond: bool)
    requires Seg(fs0, base, t, f) && base.jpc == [] && PlainTest(test)
    ensures var x := [Pc(base) + 1];
      if cond then Seg(fs0, Branched(WithTest(base, test), t, f, x), t + x, [])
      else Seg(fs0, Branched(WithTest(base, test), f, t, x), [], f + x)
  {
    hide Seg, Branched;
    if cond {
      BranchedShape(fs0, base, t, f, test);
    } else {
      var x := [Pc(base) + 1];
      Swap(fs0, base, t, f);
      BranchedShape(fs0, base, f, t, test);
      Swap(fs0, Branched(WithTest(base, test), f, t, x), f + x, []);
    }
  }

  lemma ConditionalShape(fs0: State, fs: State, d: Desc, cond: bool)
    requires Shape(fs0, fs, d) && Discharged(d) && Owned(fs, d)
    ensures var (fs1, d1) := Conditional(fs, d, cond);
      && Seg(fs0, fs1, d1.t, d1.f) && (if cond then d1.f else d1.t) == [] && fs1.freereg == fs.freereg
      && fs1.nactvar == fs.nactvar
  {
    hide Seg, Decided;
    var (base, test) := Decided(fs, d, cond);
    DecidedShape(fs0, fs, d, cond);
    var x := [Pc(base) + 1];
    BranchedState(WithTest(base, test), d.t, d.f, x);
    BranchedState(WithTest(base, test), d.f, d.t, x);
    hide Shape, Branched;
    DecidedBranchedShape(fs0, base, d.t, d.f, test, cond);
  }

  lemma DecidedBranches(fs0: State, base: State, t: seq<nat>, f: seq<nat>, test: Instr, cond: bool, env: Env, n: nat,
                        regs: Regs, v: Value)
    requires Seg(fs0, base, t, f) && base.jpc == [] && PlainTest(test)
    requires Undecided(fs0, base, t, f, test, cond, env, n, regs, v)
    ensures var go, stay, x := if cond then t else f, if cond then f else t, [Pc(base) + 1];
      Branches(fs0, Branched(WithTest(base, test), go, stay, x), go + x, cond, env, n, regs, v)
  {
    hide Seg, Undecided, Branches, Branched;
    if cond {
      BranchedMeans(fs0, base, t, f, test, cond, env, n, regs, v);
    } else {
      Swap(fs0, base, t, f);
      BranchedMeans(fs0, base, f, t, test, cond, env, n, regs, v);
    }
  }

  lemma ConditionalMeans(fs0: State, fs: State, d: Desc, cond: bool, env: Env, n: nat, regs: Regs, v: Value)
    requires Shape(fs0, fs, d) && Discharged(d) && Owned(fs, d) && n <= fs.freereg && Means(fs0, fs, d, env, n, regs, v)
    ensures var (fs1, d1) := Conditional(fs, d, cond);
      Branches(fs0, fs1, if cond then d1.t else d1.f, cond, env, n, regs, v)
  {
    hide Seg, Undecided, Means, Decided;
    var (base, test) := Decided(fs, d, cond);
    DecidedShape(fs0, fs, d, cond);
    DecidedMeans(fs0, fs, d, cond, env, n, regs, v);
    hide Shape, Branched, Branches;
    DecidedBranches(fs0, base, d.t, d.f, test, cond, env, n, regs, v);
  }

  /** Constants are strings and numbers. */
  ghost predicate ConstsTrue(env: Env) { forall k: nat :: Truthy(env.consts(k)) }

  lemma HereState(fs: State, list: seq<nat>)
    ensures PatchToHere(fs, list).freereg == fs.freereg && PatchToHere(fs, list).nactvar == fs.nactvar
  {}

  lemma GoIfTrueShape(fs0: State, fs: State, d: Desc)
    requires Shape(fs0, fs, d) && Owned(fs, d)
    ensures var (fs1, d1) := GoIfTrue(fs, d);
      d1.t == [] && Seg(fs0, fs1, [], d1.f) && fs1.freereg == fs.freereg && fs1.nactvar == fs.nactvar
  {
    hide Seg, GoIfTrue, Conditional, PatchToHere;
    var (fs1, d1) := DischargeVars(fs, d);
    DischargeVarsShape(fs0, fs, d);
    GoIfTrueIs(fs0, fs, d);
    if d1.k == VK {
      assert Body(fs1, d1) == fs1;
      HereState(fs1, d1.t);
      HereSeg(fs0, fs1, d1.t, d1.f);
    } else {
      ConditionalShape(fs0, fs1, d1, false);
    }
  }

  /** After `luaK_goiftrue`, control goes on exactly when the operand is true, and is at a jump of the `f`
    * list, with the value, exactly when it is false. */
  lemma GoIfTrueMeans(fs0: State, fs: State, d: Desc, env: Env, n: nat, regs: Regs, v: Value)
    requires Shape(fs0, fs, d) && Owned(fs, d) && ConstsTrue(env) && n <= fs.freereg
    requires Means(fs0, fs, d, env, n, regs, v)
    ensures var (fs1, d1) := GoIfTrue(fs, d); Branches(fs0, fs1, d1.f, false, env, n, regs, v)
  {
    hide Seg, GoIfTrue, Conditional, PatchToHere, Means, Branches;
    var (fs1, d1) := DischargeVars(fs, d);
    DischargeVarsShape(fs0, fs, d);
    DischargeVarsMeans(fs0, fs, d, env, n, regs, v);
    GoIfTrueIs(fs0, fs, d);
    if d1.k == VK {
      ConstantMeans(fs0, fs1, d1, env, n, regs, v);
    } else {
      ConditionalMeans(fs0, fs1, d1, false, env, n, regs, v);
    }
  }

  lemma ConstantMeans(fs0: State, fs: State, d: Desc, env: Env, n: nat, regs: Regs, v: Value)
    requires Shape(fs0, fs, d) && d.k == VK && ConstsTrue(env) && Means(fs0, fs, d, env, n, regs, v)
    ensures Branches(fs0, PatchToHere(fs, d.t), d.f, false, env, n, regs, v)
  {
    assert Body(fs, d) == fs;
    JumpsInside(fs0, fs, d.t, d.f);
    HereTests(fs0, fs, d.t, d.f);
    hide PatchToHere, Out, Agree;
    HereFlow(fs0, fs, d.t, d.f, env, regs);
    hide Seg, Flow;
  }

  lemma HereTests(fs0: State, fs: State, t: seq<nat>, f: seq<nat>)
    requires Seg(fs0, fs, t, f)
    ensures Pc(PatchToHere(fs, t)) == Pc(fs)
    ensures forall j :: j in f ==> 1 <= j < Pc(fs) && PatchToHere(fs, t).code[j - 1] == fs.code[j - 1]
  {
    hide Extended;
    ConcatKeeps(fs.code, fs.jpc, t);
    assert forall i :: 0 <= i < Pc(fs) && !fs.code[i].JMP? ==> PatchToHere(fs, t).code[i] == fs.code[i];
  }

  lemma GoIfFalseShape(fs0: State, fs: State, d: Desc)
    requires Shape(fs0, fs, d) && Owned(fs, d)
    ensures var (fs1, d1) := GoIfFalse(fs, d);
      d1.f == [] && Seg(fs0, fs1, d1.t, []) && fs1.freereg == fs.freereg && fs1.nactvar == fs.nactvar
  {
    hide Seg, GoIfFalse, Conditional;
    var (fs1, d1) := DischargeVars(fs, d);
    DischargeVarsShape(fs0, fs, d);
    GoIfFalseIs(fs0, fs, d);
    ConditionalShape(fs0, fs1, d1, true);
  }

  lemma GoIfFalseMeans(fs0: State, fs: State, d: Desc, env: Env, n: nat, regs: Regs, v: Value)
    requires Shape(fs0, fs, d) && Owned(fs, d) && n <= fs.freereg && Means(fs0, fs, d, env, n, regs, v)
    ensures var (fs1, d1) := GoIfFalse(fs, d); Branches(fs0, fs1, d1.t, true, env, n, regs, v)
  {
    hide Seg, GoIfFalse, Conditional, Means, Branches;
    var (fs1, d1) := DischargeVars(fs, d);
    DischargeVarsShape(fs0, fs, d);
    DischargeVarsMeans(fs0, fs, d, env, n, regs, v);
    GoIfFalseIs(fs0, fs, d);
    ConditionalMeans(fs0, fs1, d1, true, env, n, regs, v);
  }

  // ----- not ---------------------------------------------------------------------------------------

  lemma RemovedAt(fs: State, list: seq<nat>, i: nat)
    requires i < Pc(fs)
    ensures Removed(fs, list).code[i] == if i + 1 in list then Resolve(fs.code[i], NoReg) else fs.code[i]
  {}

  lemma RemovedExtended(fs0: State, fs: State, list: seq<nat>)
    requires Extended(fs0.code, fs0.jpc, fs.code, fs.jpc) && Tested(fs.code, Pc(fs0), list)
    ensures Extended(fs0.code, fs0.jpc, Removed(fs, list).code, fs.jpc)
  {
    hide RemoveValues;
    forall i | 0 <= i < Pc(fs0) ensures Removed(fs, list).code[i] == fs.code[i] { RemovedAt(fs, list, i); }
    if list == [] {
      forall i | 0 <= i < Pc(fs) ensures Removed(fs, list).code[i] == fs.code[i] { RemovedAt(fs, list, i); }
      assert Removed(fs, list).code == fs.code;
    } else {
      assert list[0] in list;
      assert Pc(fs) > Pc(fs0);
      assert Removed(fs, list).code[..Pc(fs0)] == fs.code[..Pc(fs0)];
    }
  }

  lemma RemovedReady(fs: State, start: nat, list: seq<nat>)
    requires Ready(fs) && Tested(fs.code, start, list)
    ensures Ready(Removed(fs, list)) && IsList(Removed(fs, list).code, fs.jpc)
  {
    hide RemoveValues;
    forall i | 0 <= i < Pc(fs)
      ensures Removed(fs, list).code[i] == if i + 1 in list then Resolve(fs.code[i], NoReg) else fs.code[i]
    {
      RemovedAt(fs, list, i);
    }
  }

  lemma RemovedList(fs: State, start: nat, list: seq<nat>, other: seq<nat>)
    requires IsList(fs.code, other) && Tested(fs.code, start, other)
    ensures IsList(Removed(fs, list).code, other) && Tested(Removed(fs, list).code, start, other)
  {
    hide RemoveValues;
    forall i | 0 <= i < Pc(fs)
      ensures Removed(fs, list).code[i] == if i + 1 in list then Resolve(fs.code[i], NoReg) else fs.code[i]
    {
      RemovedAt(fs, list, i);
    }
  }

  lemma RemovedSeg(fs0: State, fs: State, t: seq<nat>, f: seq<nat>)
    requires Seg(fs0, fs, t, f)
    ensures Seg(fs0, Removed(fs, t), t, f)
  {
    hide Extended, Ready, IsList, Tested, RemoveValues;
    RemovedExtended(fs0, fs, t);
    RemovedReady(fs, Pc(fs0), t);
    RemovedList(fs, Pc(fs0), t, t);
    RemovedList(fs, Pc(fs0), t, f);
  }

  lemma RemovedFlow(fs0: State, fs: State, t: seq<nat>, f: seq<nat>, env: Env, regs: Regs)
    requires Seg(fs0, fs, t, f)
    ensures Flow(fs0, Removed(fs, t), Both(t, f), env, regs) == Flow(fs0, fs, Both(t, f), env, regs)
  {
    hide Run, RemoveValues;
    forall i | 0 <= i < Pc(fs)
      ensures Removed(fs, t).code[i] == if i + 1 in t then Resolve(fs.code[i], NoReg) else fs.code[i]
    {
      RemovedAt(fs, t, i);
    }
    RewiredRun(fs.code, Removed(fs, t).code, env, Both(t, f) + Elements(fs.jpc), t, NoReg, Pc(fs0), regs);
  }

  function RemovedBoth(fs: State, t: seq<nat>, f: seq<nat>): State { Removed(Removed(fs, t), f) }

  lemma RemovedBothFlow(fs0: State, fs: State, t: seq<nat>, f: seq<nat>, env: Env, regs: Regs)
    requires Seg(fs0, fs, t, f)
    ensures Flow(fs0, RemovedBoth(fs, t, f), Both(f, t), env, regs) == Flow(fs0, fs, Both(t, f), env, regs)
  {
    hide Seg, Flow, RemoveValues;
    var fs1 := Removed(fs, t);
    RemovedSeg(fs0, fs, t, f);
    RemovedFlow(fs0, fs, t, f, env, regs);
    Swap(fs0, fs1, t, f);
    RemovedFlow(fs0, fs1, f, t, env, regs);
    assert Both(f, t) == Both(t, f);
  }

  lemma RemovedBothSeg(fs0: State, fs: State, t: seq<nat>, f: seq<nat>)
    requires Seg(fs0, fs, t, f)
    ensures Seg(fs0, RemovedBoth(fs, t, f), f, t)
    ensures Pc(RemovedBoth(fs, t, f)) == Pc(fs)
    ensures forall j :: (j in t || j in f) && j < Pc(fs) ==> !HasValue(RemovedBoth(fs, t, f).code, j)
  {
    hide Seg, Flow, RemoveValues;
    var fs1 := Removed(fs, t);
    RemovedSeg(fs0, fs, t, f);
    Swap(fs0, fs1, t, f);
    RemovedSeg(fs0, fs1, f, t);
    forall j | (j in t || j in f) && j < Pc(fs) ensures !HasValue(RemovedBoth(fs, t, f).code, j) {
      if j >= 1 {
        RemovedAt(fs, t, j - 1);
        RemovedAt(fs1, f, j - 1);
      }
    }
  }

  lemma NegatedShape(fs0: State, fs: State, d: Desc)
    requires Shape(fs0, fs, d) && Discharged(d) && Owned(fs, d)
    ensures var (fs1, d1) := Negated(fs, d);
      && Shape(fs0, fs1, d1) && d1.t == d.t && d1.f == d.f && (d1.k == VJMP || d1.k == VRELOCABLE)
      && fs1.freereg == fs.freereg && fs1.nactvar == fs.nactvar
  {
    RegistersOk(fs0, fs, d);
    if d.k == VJMP {
      hide Seg;
      assert Body(Negated(fs, d).0, d) == Body(fs, d);
    } else {
      Discharge2AnyRegShape(fs0, fs, d);
      hide Shape, Seg, Discharge2AnyReg, DischargeJpc;
      var (fs1, d1) := Discharge2AnyReg(fs, d);
      FreedSeg(fs0, fs1, d1);
      var fs2 := FreeExp(fs1, d1);
      LandSeg(fs0, fs2, d.t, d.f);
      DischargedJpc(fs2);
      ShapeRelocatable(fs0, DischargeJpc(fs2), NOT(0, d1.info), d.t, d.f);
    }
  }

  lemma FreedSeg(fs0: State, fs: State, d: Desc)
    requires Shape(fs0, fs, d) && d.k == VNONRELOC && (d.info >= fs.nactvar ==> fs.freereg > fs.nactvar)
    ensures var fs1 := FreeExp(fs, d); Seg(fs0, fs1, d.t, d.f) && fs1.code == fs.code && fs1.jpc == fs.jpc
  {
    RegistersOk(fs0, fs, d);
    hide Seg;
    assert Body(fs, d) == fs;
    OtherFreeregSeg(fs0, fs, d.t, d.f, FreeExp(fs, d).freereg);
  }

  lemma ShapeRelocatable(fs0: State, fs: State, i: Instr, t: seq<nat>, f: seq<nat>)
    requires Seg(fs0, fs, t, f) && fs.jpc == [] && Relocatable(i)
    ensures Shape(fs0, Append(fs, i), Desc(VRELOCABLE, Pc(fs), t, f))
  {
    hide Extended, Ready, Lists, Tested;
    assert Body(Append(fs, i), Desc(VRELOCABLE, Pc(fs), t, f)) == fs;
  }

  /** The value is that of the negated operand; the jumps still are those of the operand. */
  ghost predicate MeansNot(fs0: State, fs: State, d: Desc, env: Env, n: nat, regs: Regs, v: Value)
    requires TailLen(d) <= Pc(fs)
  {
    match Flow(fs0, Body(fs, d), Both(d.t, d.f), env, regs)
    case Stuck => false
    case Fall(r) => Agree(r, regs, n) && ValueOf(fs, d, env, r) == Bool(!Truthy(v))
    case Exit(j, r, tested) => Leaves(fs.code, d.t, d.f, n, regs, v, Exit(j, r, tested))
  }

  lemma NegatedMeans(fs0: State, fs: State, d: Desc, env: Env, n: nat, regs: Regs, v: Value)
    requires Shape(fs0, fs, d) && Discharged(d) && Owned(fs, d) && n <= fs.freereg && Means(fs0, fs, d, env, n, regs, v)
    ensures var (fs1, d1) := Negated(fs, d); TailLen(d1) <= Pc(fs1) && MeansNot(fs0, fs1, d1, env, n, regs, v)
  {
    if d.k == VJMP {
      InvertedMeans(fs0, fs, d, env, n, regs, v);
    } else {
      RegistersOk(fs0, fs, d);
      Discharge2AnyRegShape(fs0, fs, d);
      Discharge2AnyRegMeans(fs0, fs, d, env, n, regs, v);
      hide Shape, Seg, Discharge2AnyReg, Means, MeansNot;
      var (fs1, d1) := Discharge2AnyReg(fs, d);
      FreedSeg(fs0, fs1, d1);
      RegisterMeansNot(fs0, fs1, d1, FreeExp(fs1, d1), env, n, regs, v);
    }
  }

  lemma RegisterMeansNot(fs0: State, fs: State, d: Desc, fs1: State, env: Env, n: nat, regs: Regs, v: Value)
    requires TailLen(d) <= Pc(fs) && d.k == VNONRELOC && Means(fs0, fs, d, env, n, regs, v)
    requires Seg(fs0, fs1, d.t, d.f) && fs1.code == fs.code && fs1.jpc == fs.jpc
    ensures var (fs2, d2) := (Emit(fs1, NOT(0, d.info)), Desc(VRELOCABLE, Pc(fs1), d.t, d.f));
      TailLen(d2) <= Pc(fs2) && MeansNot(fs0, fs2, d2, env, n, regs, v)
  {
    hide Seg, Out, Patch, Leaves, Agree;
    var fs2, d2 := Emit(fs1, NOT(0, d.info)), Desc(VRELOCABLE, Pc(fs1), d.t, d.f);
    DischargedJpc(fs1);
    LandFlow(fs0, fs1, d.t, d.f, env, regs);
    LandTests(fs0, fs1, d.t, d.f);
    JumpsInside(fs0, fs1, d.t, d.f);
    assert Body(fs, d) == fs && Body(fs2, d2) == DischargeJpc(fs1);
    match Flow(fs0, fs, Both(d.t, d.f), env, regs) {
      case Fall(r) =>
      case Exit(j, r, tested) => LeavesKept(fs.code, fs2.code, d.t, d.f, n, regs, v, Exit(j, r, tested));
    }
  }

  lemma InvertedMeans(fs0: State, fs: State, d: Desc, env: Env, n: nat, regs: Regs, v: Value)
    requires Shape(fs0, fs, d) && d.k == VJMP && Means(fs0, fs, d, env, n, regs, v)
    ensures MeansNot(fs0, InvertJump(fs, d.info), d, env, n, regs, v)
  {
    var fs1 := InvertJump(fs, d.info);
    JumpsInside(fs0, Body(fs, d), d.t, d.f);
    hide Seg, Flow, Agree, Leaves;
    assert Body(fs1, d) == Body(fs, d);
    match Flow(fs0, Body(fs, d), Both(d.t, d.f), env, regs) {
      case Fall(r) =>
      case Exit(j, r, tested) => LeavesKept(fs.code, fs1.code, d.t, d.f, n, regs, v, Exit(j, r, tested));
    }
  }

  lemma RemovedTail(code: Code, tail: Code, list: seq<nat>)
    requires forall j :: j in list ==> j < |code|
    ensures RemoveValues(code + tail, list) == RemoveValues(code, list) + tail
  {}

  lemma RemovedBody(fs: State, d: Desc)
    requires TailLen(d) <= Pc(fs) && (d.k == VJMP || d.k == VRELOCABLE)
    requires forall j :: j in d.t || j in d.f ==> j < Pc(Body(fs, d))
    ensures var fs1, d1 := RemovedBoth(fs, d.t, d.f), d.(t := d.f, f := d.t);
      && TailLen(d1) <= Pc(fs1) && Body(fs1, d1) == RemovedBoth(Body(fs, d), d.t, d.f)
      && fs1.code[Pc(fs) - TailLen(d)..] == fs.code[Pc(fs) - TailLen(d)..] && Pc(fs1) == Pc(fs)
      && fs1 == fs.(code := fs1.code)
  {
    var body, tail := Body(fs, d).code, fs.code[Pc(fs) - TailLen(d)..];
    assert fs.code == body + tail;
    RemovedTail(body, tail, d.t);
    RemovedTail(RemoveValues(body, d.t), tail, d.f);
    hide RemoveValues;
    var fs1 := RemovedBoth(fs, d.t, d.f);
    assert fs1.code == RemovedBoth(Body(fs, d), d.t, d.f).code + tail;
    assert fs1.code[..|body|] == RemovedBoth(Body(fs, d), d.t, d.f).code;
  }

  lemma SameTail(fs: State, fs1: State, d: Desc, d1: Desc)
    requires TailLen(d) <= Pc(fs) && (d.k == VJMP || d.k == VRELOCABLE) && d1.k == d.k && d1.info == d.info
    requires fs1 == fs.(code := fs1.code) && Pc(fs1) == Pc(fs)
    requires fs1.code[Pc(fs) - TailLen(d)..] == fs.code[Pc(fs) - TailLen(d)..]
    ensures KindOk(fs, d) ==> KindOk(fs1, d1)
    ensures forall env, r :: ValueOf(fs1, d1, env, r) == ValueOf(fs, d, env, r)
  {
    hide Computed, Accepts;
    var p := Pc(fs) - TailLen(d);
    assert forall i :: p <= i < Pc(fs) ==> fs.code[i] == fs.code[p..][i - p] && fs1.code[i] == fs1.code[p..][i - p];
  }

  lemma CodeNotShape(fs0: State, fs: State, d: Desc)
    requires Shape(fs0, fs, d) && Owned(fs, d)
    ensures var (fs1, d1) := CodeNot(fs, d);
      Shape(fs0, fs1, d1) && (d1.k == VJMP || d1.k == VRELOCABLE) && fs1.freereg == fs.freereg && fs1.nactvar == fs.nactvar
  {
    hide Seg, DischargeVars, Negated, RemoveValues, KindOk;
    var (fs1, d1) := DischargeVars(fs, d);
    DischargeVarsShape(fs0, fs, d);
    DischargedOwned(fs0, fs, d);
    NegatedShape(fs0, fs1, d1);
    var (fs2, d2) := Negated(fs1, d1);
    NegatedNot(fs0, fs2, d2);
  }

  lemma NegatedNot(fs0: State, fs: State, d: Desc)
    requires Shape(fs0, fs, d) && (d.k == VJMP || d.k == VRELOCABLE)
    ensures Shape(fs0, RemovedBoth(fs, d.t, d.f), d.(t := d.f, f := d.t))
  {
    hide Seg, RemovedBoth, KindOk;
    var fs1, d1 := RemovedBoth(fs, d.t, d.f), d.(t := d.f, f := d.t);
    JumpsInside(fs0, Body(fs, d), d.t, d.f);
    RemovedBody(fs, d);
    SameTail(fs, fs1, d, d1);
    RemovedBothSeg(fs0, Body(fs, d), d.t, d.f);
  }

  lemma NegatedNotMeans(fs0: State, fs: State, d: Desc, env: Env, n: nat, regs: Regs, v: Value)
    requires Shape(fs0, fs, d) && (d.k == VJMP || d.k == VRELOCABLE) && MeansNot(fs0, fs, d, env, n, regs, v)
    ensures var fs1, d1 := RemovedBoth(fs, d.t, d.f), d.(t := d.f, f := d.t);
      TailLen(d1) <= Pc(fs1) && Means(fs0, fs1, d1, env, n, regs, Bool(!Truthy(v)))
  {
    hide Seg, RemovedBoth, KindOk, Flow, Agree;
    var fs1, d1 := RemovedBoth(fs, d.t, d.f), d.(t := d.f, f := d.t);
    JumpsInside(fs0, Body(fs, d), d.t, d.f);
    RemovedBody(fs, d);
    SameTail(fs, fs1, d, d1);
    RemovedBothSeg(fs0, Body(fs, d), d.t, d.f);
    RemovedBothFlow(fs0, Body(fs, d), d.t, d.f, env, regs);
    assert forall j :: j in d.t || j in d.f ==> fs1.code[j - 1] == Body(fs1, d1).code[j - 1];
    hide ValueOf;
  }

  lemma CodeNotMeans(fs0: State, fs: State, d: Desc, env: Env, n: nat, regs: Regs, v: Value)
    requires Shape(fs0, fs, d) && Owned(fs, d) && n <= fs.freereg && Means(fs0, fs, d, env, n, regs, v)
    ensures var (fs1, d1) := CodeNot(fs, d);
      TailLen(d1) <= Pc(fs1) && Means(fs0, fs1, d1, env, n, regs, Bool(!Truthy(v)))
  {
    hide Seg, DischargeVars, Negated, RemoveValues, KindOk, Means, MeansNot;
    var (fs1, d1) := DischargeVars(fs, d);
    DischargeVarsShape(fs0, fs, d);
    DischargeVarsMeans(fs0, fs, d, env, n, regs, v);
    DischargedOwned(fs0, fs, d);
    NegatedShape(fs0, fs1, d1);
    NegatedMeans(fs0, fs1, d1, env, n, regs, v);
    var (fs2, d2) := Negated(fs1, d1);
    NegatedNotMeans(fs0, fs2, d2, env, n, regs, v);
  }

  lemma DischargedOwned(fs0: State, fs: State, d: Desc)
    requires Shape(fs0, fs, d) && Owned(fs, d)
    ensures var (fs1, d1) := DischargeVars(fs, d); Owned(fs1, d1)
  {}
}
