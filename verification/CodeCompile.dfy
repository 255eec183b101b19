/** The code generated for an expression computes the expression. */
module CodeCompile {
  import opened LuaCode
  import opened CodeGen
  import opened CodeRuns
  import opened CodeShape
  import opened CodeSteps
  import opened CodeExprs
  import opened CodeConds
  import opened CodeValues

  // ----- an operand after a condition: `and` and `or` ------------------------------------------------

  /** The jumps of the left operand join those of the right one. */
  function Joined(fs: State, d: Desc, list: seq<nat>, cond: bool): (State, Desc) {
    if cond then (Concat(fs, d.t, list), d.(t := d.t + list)) else (Concat(fs, d.f, list), d.(f := d.f + list))
  }

  lemma JoinedBody(fs: State, d: Desc, list: seq<nat>, cond: bool)
    requires TailLen(d) <= Pc(fs) && (forall j :: j in d.t || j in d.f ==> j < Pc(Body(fs, d)))
    ensures var (fs1, d1) := Joined(fs, d, list, cond);
      && Pc(fs1) == Pc(fs) && fs1 == fs.(code := fs1.code)
      && Body(fs1, d1) == Concat(Body(fs, d), if cond then d.t else d.f, list)
      && fs1.code[Pc(fs) - TailLen(d)..] == fs.code[Pc(fs) - TailLen(d)..]
  {
    var (fs1, d1) := Joined(fs, d, list, cond);
    var l := if cond then d.t else d.f;
    if l != [] {
      assert l[|l| - 1] in l;
    }
    var p := Pc(fs) - TailLen(d);
    assert fs1.code[..p] == ConcatCode(fs.code[..p], l, list);
  }

  lemma JoinedShape(fs0: State, fs1: State, fs: State, d: Desc, list: seq<nat>, cond: bool)
    requires Seg(fs0, fs1, list, []) && Shape(fs1, fs, d)
    ensures var (fs2, d2) := Joined(fs, d, list, cond); Shape(fs0, fs2, d2)
  {
    var (fs2, d2) := Joined(fs, d, list, cond);
    var body := Body(fs, d);
    JumpsInside(fs1, body, d.t, d.f);
    hide Seg, IsList, Tested, KindOk, Joined;
    JoinedBody(fs, d, list, cond);
    JoinedTail(fs, d, fs2, d2, list, cond);
    TransSeg(fs0, fs1, body, list, [], d.t, d.f);
    if cond {
      JoinSeg(fs0, body, d.t, d.f, list);
    } else {
      Swap(fs0, body, d.t, d.f);
      JoinSeg(fs0, body, d.f, d.t, list);
      Swap(fs0, Concat(body, d.f, list), d.f + list, d.t);
    }
    hide Concat;
    JoinedDesc(fs, d, list, cond);
  }

  lemma JoinedDesc(fs: State, d: Desc, list: seq<nat>, cond: bool)
    ensures var d1 := Joined(fs, d, list, cond).1;
      && d1.k == d.k && d1.info == d.info
      && d1.t == (if cond then d.t + list else d.t) && d1.f == (if cond then d.f else d.f + list)
  {}

  lemma JoinedTail(fs: State, d: Desc, fs1: State, d1: Desc, list: seq<nat>, cond: bool)
    requires (fs1, d1) == Joined(fs, d, list, cond) && TailLen(d) <= Pc(fs) && Pc(fs1) == Pc(fs)
    requires fs1 == fs.(code := fs1.code) && fs1.code[Pc(fs) - TailLen(d)..] == fs.code[Pc(fs) - TailLen(d)..]
    ensures TailLen(d1) == TailLen(d) && (KindOk(fs, d) ==> KindOk(fs1, d1))
    ensures forall env, r :: ValueOf(fs1, d1, env, r) == ValueOf(fs, d, env, r)
  {
    JoinedDesc(fs, d, list, cond);
    hide Joined;
    if d.k == VJMP || d.k == VRELOCABLE {
      SameTail(fs, fs1, d, d1);
    }
  }

  /** Jumps of earlier code keep their tests. */
  lemma EarlierTests(fs0: State, fs1: State, fs2: State, t: seq<nat>, f: seq<nat>)
    requires Seg(fs0, fs1, t, f) && Extended(fs1.code, fs1.jpc, fs2.code, fs2.jpc)
    ensures forall j :: j in t || j in f ==> 1 <= j < Pc(fs1) <= Pc(fs2) && fs2.code[j - 1] == fs1.code[j - 1]
  {
    JumpsInside(fs0, fs1, t, f);
    if fs2.code != fs1.code || fs2.jpc != fs1.jpc {
      LandTests(fs0, fs1, t, f);
      DischargedJpc(fs1);
      hide Patch, Seg;
      forall j | j in t || j in f ensures fs2.code[j - 1] == fs1.code[j - 1] {
        assert fs2.code[j - 1] == fs2.code[..Pc(fs1)][j - 1];
      }
    }
  }

  lemma JoinedFlow(fs0: State, fs1: State, body: State, list: seq<nat>, t: seq<nat>, f: seq<nat>, cond: bool, env: Env,
                   regs: Regs)
    requires Seg(fs0, fs1, list, []) && Seg(fs1, body, t, f) && !Flow(fs0, fs1, Elements(list), env, regs).Stuck?
    ensures Flow(fs0, Concat(body, if cond then t else f, list), if cond then Both(t + list, f) else Both(t, f + list), env, regs) ==
      match Flow(fs0, fs1, Elements(list), env, regs)
      case Fall(r) => Flow(fs1, body, Both(t, f), env, r)
      case o => o
  {
    ListOf(fs1, body, t, f);
    Swap(fs1, body, t, f);
    ListOf(fs1, body, f, t);
    JumpsInside(fs1, body, t, f);
    assert Extended(fs1.code, fs1.jpc, body.code, body.jpc);
    hide Seg, Extended, IsList, Out, Concat;
    var exits := Elements(list) + Both(t, f);
    assert Both(list, []) == Elements(list) && exits == if cond then Both(t + list, f) else Both(t, f + list);
    TransFlow(fs0, fs1, body, list, [], Both(t, f), env, regs);
    JoinFlow(fs0, body, if cond then t else f, list, exits, env, regs);
  }

  /** Jumps out of the right operand, seen from the whole expression. */
  lemma LaterLeaves(code: Code, code1: Code, t: seq<nat>, f: seq<nat>, t1: seq<nat>, f1: seq<nat>, n: nat, n1: nat,
                    r: Regs, regs: Regs, v: Value, o: Outcome)
    requires o.Exit? && Leaves(code, t, f, n1, r, v, o) && Agree(r, regs, n) && n <= n1
    requires forall j :: j in t || j in f ==>
      && 1 <= j < |code1| && j < |code| && code1[j - 1] == code[j - 1]
      && (j in t ==> j in t1 && j !in f1) && (j in f ==> j in f1 && j !in t1)
    ensures Leaves(code1, t1, f1, n, regs, v, o)
  {}

  /** Jumps out of the left operand. */
  lemma EarlierLeaves(code: Code, code1: Code, list: seq<nat>, cond: bool, t1: seq<nat>, f1: seq<nat>, n: nat,
                      regs: Regs, v: Value, o: Outcome)
    requires o.Exit? && o.tested && o.at in list && Agree(o.regs, regs, n) && Truthy(v) == cond
    requires JumpValue(code, o.at, o.regs, v, cond)
    requires forall j :: j in list ==>
      && 1 <= j < |code1| && j < |code| && code1[j - 1] == code[j - 1]
      && if cond then j in t1 && j !in f1 else j in f1 && j !in t1
    ensures Leaves(code1, t1, f1, n, regs, v, o)
  {
    hide Agree;
  }

  lemma TestsBefore(fs0: State, fs: State, t: seq<nat>, f: seq<nat>)
    requires Seg(fs0, fs, t, f)
    ensures forall j :: j in t || j in f ==> Pc(fs0) < j < Pc(fs) && IsTest(fs.code[j - 1])
  {
    hide Extended, Ready, IsList;
  }

  lemma JoinedTests(fs1: State, fs: State, d: Desc, list: seq<nat>, cond: bool)
    requires Shape(fs1, fs, d)
    ensures var (fs2, d2) := Joined(fs, d, list, cond);
      Pc(fs2) == Pc(fs) && forall i :: 0 <= i < Pc(Body(fs, d)) && IsTest(fs.code[i]) ==> fs2.code[i] == fs.code[i]
  {
    var body, l := Body(fs, d), if cond then d.t else d.f;
    JumpsInside(fs1, body, d.t, d.f);
    ListOf(fs1, body, d.t, d.f);
    Swap(fs1, body, d.t, d.f);
    ListOf(fs1, body, d.f, d.t);
    hide Seg, KindOk, IsList;
    JoinedBody(fs, d, list, cond);
    ConcatKeeps(body.code, l, list);
    var (fs2, d2) := Joined(fs, d, list, cond);
    hide Joined, Concat;
    forall i | 0 <= i < Pc(body) && IsTest(fs.code[i]) ensures fs2.code[i] == fs.code[i] {
      assert Body(fs2, d2).code[i] == fs2.code[i];
    }
  }

  lemma JoinedCode(fs0: State, fs1: State, fs: State, d: Desc, list: seq<nat>, cond: bool)
    requires Seg(fs0, fs1, list, []) && Shape(fs1, fs, d)
    ensures var fs2 := Joined(fs, d, list, cond).0;
      && (forall j :: j in d.t || j in d.f || j in list ==> 1 <= j < Pc(fs2) && j < Pc(fs) && fs2.code[j - 1] == fs.code[j - 1])
      && (forall j :: j in list ==> j < Pc(fs1) && j !in d.t && j !in d.f && fs.code[j - 1] == fs1.code[j - 1])
  {
    hide Seg, KindOk, Extended, Shape, Joined, Body;
    BodyParts(fs1, fs, d);
    var body := Body(fs, d);
    TestsBefore(fs1, body, d.t, d.f);
    TestsBefore(fs0, fs1, list, []);
    EarlierTests(fs0, fs1, body, list, []);
    JoinedTests(fs1, fs, d, list, cond);
  }

  lemma BodyParts(fs0: State, fs: State, d: Desc)
    requires Shape(fs0, fs, d)
    ensures TailLen(d) <= Pc(fs) && Seg(fs0, Body(fs, d), d.t, d.f) && Pc(Body(fs, d)) + TailLen(d) == Pc(fs)
    ensures forall i :: 0 <= i < Pc(Body(fs, d)) ==> Body(fs, d).code[i] == fs.code[i]
    ensures Extended(fs0.code, fs0.jpc, Body(fs, d).code, Body(fs, d).jpc) && forall j :: j in d.t ==> j !in d.f
  {
    hide Extended, Ready, IsList, Tested;
  }

  lemma MeansParts(fs0: State, fs: State, d: Desc, env: Env, n: nat, regs: Regs, v: Value, o: Outcome)
    requires TailLen(d) <= Pc(fs) && Means(fs0, fs, d, env, n, regs, v)
    requires o == Flow(fs0, Body(fs, d), Both(d.t, d.f), env, regs)
    ensures !o.Stuck? && (o.Fall? ==> Agree(o.regs, regs, n) && ValueOf(fs, d, env, o.regs) == v)
    ensures o.Exit? ==> Leaves(fs.code, d.t, d.f, n, regs, v, o)
  {
    hide Flow, Leaves, ValueOf, Body, Agree;
  }

  /** A run through both operands. */
  lemma JoinedRun(fs0: State, fs1: State, fs: State, d: Desc, list: seq<nat>, cond: bool, env: Env, regs: Regs)
    requires Seg(fs0, fs1, list, []) && Shape(fs1, fs, d) && !Flow(fs0, fs1, Elements(list), env, regs).Stuck?
    ensures var (fs2, d2) := Joined(fs, d, list, cond);
      && TailLen(d) <= Pc(fs) && TailLen(d2) <= Pc(fs2)
      && (forall r :: ValueOf(fs2, d2, env, r) == ValueOf(fs, d, env, r))
      && Flow(fs0, Body(fs2, d2), Both(d2.t, d2.f), env, regs) ==
        match Flow(fs0, fs1, Elements(list), env, regs)
        case Fall(r) => Flow(fs1, Body(fs, d), Both(d.t, d.f), env, r)
        case o => o
  {
    hide Seg, KindOk, Flow, Joined, Concat, ValueOf, Shape, Body, Both, Elements, TailLen;
    BodyParts(fs1, fs, d);
    var (fs2, d2) := Joined(fs, d, list, cond);
    JumpsInside(fs1, Body(fs, d), d.t, d.f);
    JoinedDesc(fs, d, list, cond);
    JoinedBody(fs, d, list, cond);
    JoinedTail(fs, d, fs2, d2, list, cond);
    JoinedFlow(fs0, fs1, Body(fs, d), list, d.t, d.f, cond, env, regs);
  }

  /** Control left through a jump of the left operand. */
  lemma LeftLeaves(fs0: State, fs1: State, fs: State, d: Desc, list: seq<nat>, cond: bool, n: nat, regs: Regs, v: Value,
                   o: Outcome)
    requires Seg(fs0, fs1, list, []) && Shape(fs1, fs, d) && o.Exit?
    requires o.tested && o.at in list && Agree(o.regs, regs, n) && Truthy(v) == cond
    requires JumpValue(fs1.code, o.at, o.regs, v, cond)
    ensures var (fs2, d2) := Joined(fs, d, list, cond); Leaves(fs2.code, d2.t, d2.f, n, regs, v, o)
  {
    hide Seg, KindOk, Joined, Leaves, JumpValue, Shape, Body, Agree;
    var (fs2, d2) := Joined(fs, d, list, cond);
    BodyParts(fs1, fs, d);
    JumpsInside(fs1, Body(fs, d), d.t, d.f);
    JoinedDesc(fs, d, list, cond);
    JoinedCode(fs0, fs1, fs, d, list, cond);
    EarlierLeaves(fs1.code, fs2.code, list, cond, d2.t, d2.f, n, regs, v, o);
  }

  /** Control left through a jump of the right operand. */
  lemma RightLeaves(fs0: State, fs1: State, fs: State, d: Desc, list: seq<nat>, cond: bool, n: nat, n1: nat, r: Regs,
                    regs: Regs, v: Value, o: Outcome)
    requires Seg(fs0, fs1, list, []) && Shape(fs1, fs, d) && o.Exit? && n <= n1
    requires Leaves(fs.code, d.t, d.f, n1, r, v, o) && Agree(r, regs, n)
    ensures var (fs2, d2) := Joined(fs, d, list, cond); Leaves(fs2.code, d2.t, d2.f, n, regs, v, o)
  {
    hide Seg, KindOk, Joined, Leaves, Shape, Body, Agree;
    var (fs2, d2) := Joined(fs, d, list, cond);
    BodyParts(fs1, fs, d);
    JumpsInside(fs1, Body(fs, d), d.t, d.f);
    JoinedDesc(fs, d, list, cond);
    JoinedCode(fs0, fs1, fs, d, list, cond);
    LaterLeaves(fs.code, fs2.code, d.t, d.f, d2.t, d2.f, n, n1, r, regs, v, o);
  }

  lemma JoinedMeans(fs0: State, fs1: State, fs: State, d: Desc, list: seq<nat>, cond: bool, env: Env, n: nat, n1: nat,
                    regs: Regs, v: Value, w: Value)
    requires Seg(fs0, fs1, list, []) && Shape(fs1, fs, d) && Branches(fs0, fs1, list, cond, env, n, regs, v) && n <= n1
    requires Truthy(v) != cond ==> forall r :: Agree(r, regs, n) ==> Means(fs1, fs, d, env, n1, r, w)
    ensures var (fs2, d2) := Joined(fs, d, list, cond);
      TailLen(d2) <= Pc(fs2) && Means(fs0, fs2, d2, env, n, regs, if Truthy(v) == cond then v else w)
  {
    hide Seg, Flow, Joined, Leaves, ValueOf, JumpValue, Shape, Body, Both, Elements, TailLen, Truthy;
    JoinedRun(fs0, fs1, fs, d, list, cond, env, regs);
    var o1 := Flow(fs0, fs1, Elements(list), env, regs);
    if o1.Exit? {
      LeftLeaves(fs0, fs1, fs, d, list, cond, n, regs, v, o1);
    } else {
      var o := Flow(fs1, Body(fs, d), Both(d.t, d.f), env, o1.regs);
      MeansParts(fs1, fs, d, env, n1, o1.regs, w, o);
      if o.Exit? {
        RightLeaves(fs0, fs1, fs, d, list, cond, n, n1, o1.regs, regs, w, o);
      }
    }
  }

  // ----- values in registers ---------------------------------------------------------------------------

  lemma DischargedTwice(fs: State, d: Desc)
    ensures var (fs1, d1) := DischargeVars(fs, d); DischargeVars(fs1, d1) == (fs1, d1)
  {}

  lemma Exp2RegIs(fs: State, d: Desc, reg: nat)
    ensures var (fs1, d1) := DischargeVars(fs, d); Exp2Reg(fs, d, reg) == Exp2Reg(fs1, d1, reg)
  {
    DischargedTwice(fs, d);
    hide DischargeVars, Finish, Concat;
  }

  lemma Exp2RegShape(fs0: State, fs: State, d: Desc, reg: nat)
    requires Shape(fs0, fs, d)
    ensures var (fs1, d1) := Exp2Reg(fs, d, reg);
      && Seg(fs0, fs1, [], []) && d1 == Desc(VNONRELOC, reg, [], []) && fs1.freereg == fs.freereg
      && fs1.nactvar == fs.nactvar
  {
    hide Seg, DischargeVars, LoadValue, Finish;
    var (fs1, d1) := DischargeVars(fs, d);
    Exp2RegIs(fs, d, reg);
    DischargeVarsShape(fs0, fs, d);
    LoadValueShape(fs0, fs1, d1, reg);
    var (fs2, d2) := LoadValue(fs1, d1, reg);
    FinishShape(fs0, fs2, d2, reg);
  }

  /** `exp2reg` leaves the value in its register and no other register below `n` changed. */
  lemma Exp2RegMeans(fs0: State, fs: State, d: Desc, reg: nat, env: Env, n: nat, regs: Regs, v: Value)
    requires Shape(fs0, fs, d) && Means(fs0, fs, d, env, n, regs, v)
    ensures Stored(fs0, Exp2Reg(fs, d, reg).0, reg, env, n, regs, v)
  {
    hide Seg, DischargeVars, LoadValue, Finish, Means, Stored, LoadsOrFalse, NeedValue;
    var (fs1, d1) := DischargeVars(fs, d);
    Exp2RegIs(fs, d, reg);
    DischargeVarsShape(fs0, fs, d);
    DischargeVarsMeans(fs0, fs, d, env, n, regs, v);
    LoadValueShape(fs0, fs1, d1, reg);
    LoadValueMeans(fs0, fs1, d1, reg, env, n, regs, v);
    if d1.k == VJMP {
      ComparisonNeedsValue(fs0, fs1, d1, reg);
    }
    var (fs2, d2) := LoadValue(fs1, d1, reg);
    hide Shape;
    FinishMeans(fs0, fs2, d2, reg, env, n, regs, v);
  }

  /** The operand of an instruction holds the value, and the registers below `n` are as they were. */
  ghost predicate Held(fs0: State, fs: State, o: RK, env: Env, n: nat, regs: Regs, v: Value) {
    match Flow(fs0, fs, {}, env, regs)
    case Fall(r) => Agree(r, regs, n) && Operand(env, r, o) == v
    case _ => false
  }

  lemma StoredHeld(fs0: State, fs: State, reg: nat, env: Env, n: nat, regs: Regs, v: Value)
    requires Stored(fs0, fs, reg, env, n, regs, v) && n <= reg
    ensures Held(fs0, fs, Reg(reg), env, n, regs, v)
  {
    hide Flow;
  }

  /** An operand in a register: that of a local, or the next one after those in use. */
  ghost predicate InRegister(fs: State, fs1: State, d1: Desc) {
    && d1 == Desc(VNONRELOC, d1.info, [], []) && fs1.nactvar == fs.nactvar
    && if d1.info < fs.nactvar then fs1.freereg == fs.freereg else d1.info == fs.freereg && fs1.freereg == fs.freereg + 1
  }

  lemma ReservedOk(fs0: State, fs: State, d: Desc)
    requires Shape(fs0, fs, d) && Discharged(d) && Owned(fs, d)
    ensures Reserve(FreeExp(fs, d)) == Reserve(fs) && Shape(fs0, Reserve(fs), d) && fs.nactvar <= fs.freereg
  {
    hide Seg, KindOk;
    RegistersOk(fs0, fs, d);
    assert d.k == VNONRELOC ==> d.info < fs.freereg;
    OtherFreereg(fs0, fs, d, fs.freereg + 1);
  }

  lemma Exp2NextRegShape(fs0: State, fs: State, d: Desc)
    requires Shape(fs0, fs, d) && Discharged(d) && Owned(fs, d)
    ensures var (fs1, d1) := Exp2NextReg(fs, d);
      Seg(fs0, fs1, [], []) && InRegister(fs, fs1, d1) && d1.info == fs.freereg
  {
    hide Seg, Exp2Reg;
    assert DischargeVars(fs, d) == (fs, d);
    ReservedOk(fs0, fs, d);
    Exp2RegShape(fs0, Reserve(fs), d, fs.freereg);
    hide Shape;
  }

  lemma Exp2NextRegHeld(fs0: State, fs: State, d: Desc, env: Env, n: nat, regs: Regs, v: Value)
    requires Shape(fs0, fs, d) && Discharged(d) && Owned(fs, d) && n <= fs.freereg && Means(fs0, fs, d, env, n, regs, v)
    ensures var (fs1, d1) := Exp2NextReg(fs, d); Held(fs0, fs1, Reg(fs.freereg), env, n, regs, v)
  {
    hide Seg, Exp2Reg, Means, Stored, Held;
    assert DischargeVars(fs, d) == (fs, d);
    ReservedOk(fs0, fs, d);
    OtherFreeregMeans(fs0, fs, d, fs.freereg + 1, env, n, regs, v);
    hide Shape;
    Exp2RegMeans(fs0, Reserve(fs), d, fs.freereg, env, n, regs, v);
    StoredHeld(fs0, Exp2Reg(Reserve(fs), d, fs.freereg).0, fs.freereg, env, n, regs, v);
  }

  lemma Exp2AnyRegIs(fs: State, d: Desc)
    requires Owned(fs, DischargeVars(fs, d).1) && DischargeVars(fs, d).0.nactvar == fs.nactvar
    ensures var (fs1, d1) := DischargeVars(fs, d);
      Exp2AnyReg(fs, d) == if d1.k == VNONRELOC && !HasJumps(d1) then (fs1, d1) else Exp2NextReg(fs1, d1)
  {
    hide DischargeVars, HasJumps, Exp2NextReg, Exp2Reg;
  }

  lemma NoJumps(fs0: State, fs: State, d: Desc)
    requires Shape(fs0, fs, d) && !HasJumps(d)
    ensures d.t == [] && d.f == []
  {
    assert Disjoint(d.t, d.f);
    hide Seg;
    HasJumpsIff(d);
  }

  lemma Exp2AnyRegShape(fs0: State, fs: State, d: Desc)
    requires Shape(fs0, fs, d) && Owned(fs, d)
    ensures var (fs1, d1) := Exp2AnyReg(fs, d); Seg(fs0, fs1, [], []) && InRegister(fs, fs1, d1)
  {
    hide Seg, DischargeVars, HasJumps, Exp2NextReg, Exp2AnyReg, KindOk;
    var (fs1, d1) := DischargeVars(fs, d);
    DischargeVarsShape(fs0, fs, d);
    DischargedOwned(fs0, fs, d);
    Exp2AnyRegIs(fs, d);
    if d1.k == VNONRELOC && !HasJumps(d1) {
      NoJumps(fs0, fs1, d1);
      assert Body(fs1, d1) == fs1;
    } else {
      Exp2NextRegShape(fs0, fs1, d1);
    }
  }

  lemma Exp2AnyRegHeld(fs0: State, fs: State, d: Desc, env: Env, n: nat, regs: Regs, v: Value)
    requires Shape(fs0, fs, d) && Owned(fs, d) && n <= fs.freereg && Means(fs0, fs, d, env, n, regs, v)
    ensures var (fs1, d1) := Exp2AnyReg(fs, d); Held(fs0, fs1, Reg(d1.info), env, n, regs, v)
  {
    hide Seg, DischargeVars, HasJumps, Exp2NextReg, Exp2AnyReg, KindOk, Means, Held;
    var (fs1, d1) := DischargeVars(fs, d);
    DischargeVarsShape(fs0, fs, d);
    DischargeVarsMeans(fs0, fs, d, env, n, regs, v);
    DischargedOwned(fs0, fs, d);
    Exp2AnyRegIs(fs, d);
    if d1.k == VNONRELOC && !HasJumps(d1) {
      NoJumps(fs0, fs1, d1);
      RegisterHeld(fs0, fs1, d1, env, n, regs, v);
    } else {
      Exp2NextRegShape(fs0, fs1, d1);
      Exp2NextRegHeld(fs0, fs1, d1, env, n, regs, v);
    }
  }

  lemma RegisterHeld(fs0: State, fs: State, d: Desc, env: Env, n: nat, regs: Regs, v: Value)
    requires d.k == VNONRELOC && d.t == [] && d.f == [] && Means(fs0, fs, d, env, n, regs, v)
    ensures Held(fs0, fs, Reg(d.info), env, n, regs, v)
  {
    hide Out;
    assert Body(fs, d) == fs && Both([], []) == {};
  }

  /** An operand of an instruction: a register, or a constant with a small index. */
  ghost predicate IsOperand(fs: State, fs1: State, d1: Desc, o: RK) {
    || (d1 == Desc(VK, d1.info, [], []) && d1.info <= MAXINDEXRK && o == Const(d1.info)
        && fs1.freereg == fs.freereg && fs1.nactvar == fs.nactvar)
    || (InRegister(fs, fs1, d1) && o == Reg(d1.info))
  }

  lemma Exp2RKIs(fs: State, d: Desc)
    requires Owned(fs, DischargeVars(fs, d).1) && DischargeVars(fs, d).0.nactvar == fs.nactvar
    ensures var (fs1, d1) := DischargeVars(fs, d);
      Exp2RK(fs, d) == if !HasJumps(d) && d1.k == VK && d1.info <= MAXINDEXRK then (fs1, d1, Const(d1.info))
                       else (Exp2AnyReg(fs, d).0, Exp2AnyReg(fs, d).1, Reg(Exp2AnyReg(fs, d).1.info))
  {
    var (fs1, d1) := DischargeVars(fs, d);
    DischargedTwice(fs, d);
    if HasJumps(d) {
      var (fs2, d2) := Exp2AnyReg(fs, d);
      Exp2AnyRegIs(fs, d);
      assert d2.k == VNONRELOC && d2.t == [] && d2.f == [] by {
        assert HasJumps(d1);
        hide Exp2Reg, Exp2AnyReg, DischargeVars;
        NextRegDesc(fs1, d1);
      }
      hide Exp2AnyReg;
      SameOperand(fs2, d2);
    } else if !(d1.k == VK && d1.info <= MAXINDEXRK) {
      Exp2AnyRegIs(fs, d);
      Exp2AnyRegIs(fs1, d1);
      hide Exp2AnyReg, DischargeVars;
    }
  }

  lemma NextRegDesc(fs: State, d: Desc)
    ensures var d1 := Exp2NextReg(fs, d).1; d1.k == VNONRELOC && d1.t == [] && d1.f == []
  {
    hide LoadValue, Finish, DischargeVars;
  }

  /** A register already there is used as it is. */
  lemma SameOperand(fs: State, d: Desc)
    requires d.t == [] && d.f == []
    ensures d.k == VNONRELOC ==> Exp2AnyReg(fs, d) == (fs, d) && Exp2RK(fs, d) == (fs, d, Reg(d.info))
    ensures d.k == VK && d.info <= MAXINDEXRK ==> Exp2RK(fs, d) == (fs, d, Const(d.info))
  {
    hide Exp2NextReg, Exp2Reg;
  }

  lemma Exp2RKShape(fs0: State, fs: State, d: Desc)
    requires Shape(fs0, fs, d) && Owned(fs, d)
    ensures var (fs1, d1, o) := Exp2RK(fs, d); Seg(fs0, fs1, [], []) && IsOperand(fs, fs1, d1, o)
  {
    hide Seg, DischargeVars, HasJumps, Exp2AnyReg, Exp2RK, KindOk;
    var (fs1, d1) := DischargeVars(fs, d);
    DischargeVarsShape(fs0, fs, d);
    DischargedOwned(fs0, fs, d);
    Exp2RKIs(fs, d);
    if !HasJumps(d) && d1.k == VK && d1.info <= MAXINDEXRK {
      NoJumps(fs0, fs, d);
      assert Body(fs1, d1) == fs1;
    } else {
      Exp2AnyRegShape(fs0, fs, d);
    }
  }

  lemma Exp2RKHeld(fs0: State, fs: State, d: Desc, env: Env, n: nat, regs: Regs, v: Value)
    requires Shape(fs0, fs, d) && Owned(fs, d) && n <= fs.freereg && Means(fs0, fs, d, env, n, regs, v)
    ensures var (fs1, d1, o) := Exp2RK(fs, d); Held(fs0, fs1, o, env, n, regs, v)
  {
    hide Seg, DischargeVars, HasJumps, Exp2AnyReg, Exp2RK, KindOk, Held, Means;
    var (fs1, d1) := DischargeVars(fs, d);
    DischargeVarsShape(fs0, fs, d);
    DischargeVarsMeans(fs0, fs, d, env, n, regs, v);
    DischargedOwned(fs0, fs, d);
    Exp2RKIs(fs, d);
    if !HasJumps(d) && d1.k == VK && d1.info <= MAXINDEXRK {
      NoJumps(fs0, fs, d);
      ConstantHeld(fs0, fs1, d1, env, n, regs, v);
    } else {
      Exp2AnyRegHeld(fs0, fs, d, env, n, regs, v);
    }
  }

  lemma ConstantHeld(fs0: State, fs: State, d: Desc, env: Env, n: nat, regs: Regs, v: Value)
    requires d.k == VK && d.t == [] && d.f == [] && Means(fs0, fs, d, env, n, regs, v)
    ensures Held(fs0, fs, Const(d.info), env, n, regs, v)
  {
    hide Out;
    assert Body(fs, d) == fs && Both([], []) == {};
  }

  // ----- comparisons -----------------------------------------------------------------------------------

  function CompareInstr(op: BinCmp, o1: RK, o2: RK): Instr {
    var (code, accept, swap) := Coded(op);
    CMP(code, accept, if swap then o2 else o1, if swap then o1 else o2)
  }

  /** The instruction accepts exactly when the comparison holds. */
  lemma CompareAccepts(op: BinCmp, o1: RK, o2: RK, env: Env, r: Regs)
    ensures Accepts(env, r, CompareInstr(op, o1, o2)) == Holds(env, op, Operand(env, r, o1), Operand(env, r, o2))
  {}

  lemma CodeCompIs(fs0: State, fs1: State, fs: State, op: BinCmp, d1: Desc, o1: RK, d2: Desc)
    requires IsOperand(fs0, fs1, d1, o1) && fs.freereg == fs1.freereg && fs.nactvar == fs1.nactvar <= fs0.freereg
    requires var (fs2, e2, o2) := Exp2RK(fs, d2); IsOperand(fs, fs2, e2, o2)
    ensures var (fs2, e2, o2) := Exp2RK(fs, d2);
      var base := DischargeJpc(fs2.(freereg := fs0.freereg));
      CodeComp(fs, op, d1, d2) == (WithTest(base, CompareInstr(op, o1, o2)), Desc(VJMP, Pc(fs2) + 1, [], []))
  {
    hide DischargeJpc, CondJump, FreeExp, WithTest, Exp2RK;
    SameOperand(fs, d1);
    var (fs2, e2, o2) := Exp2RK(fs, d2);
    OperandsFreed(fs0, fs1, fs, fs2, d1, o1, e2, o2);
    CondJumpIs(fs2.(freereg := fs0.freereg), CompareInstr(op, o1, o2));
  }

  /** Both operands give their registers back. */
  lemma OperandsFreed(fs0: State, fs1: State, fs: State, fs2: State, d1: Desc, o1: RK, d2: Desc, o2: RK)
    requires IsOperand(fs0, fs1, d1, o1) && fs.freereg == fs1.freereg && fs.nactvar == fs1.nactvar <= fs0.freereg
    requires IsOperand(fs, fs2, d2, o2)
    ensures FreeExp(FreeExp(fs2, d2), d1) == fs2.(freereg := fs0.freereg)
  {}

  /** Code that leaves the operands of a comparison ready, followed by the comparison. */
  lemma ComparedShape(fs0: State, fs1: State, fs2: State, test: Instr, freereg: nat)
    requires Seg(fs0, fs1, [], []) && Seg(fs1, fs2, [], []) && test.CMP? && fs2.nactvar <= freereg
    ensures var base := DischargeJpc(fs2.(freereg := freereg));
      Shape(fs0, WithTest(base, test), Desc(VJMP, Pc(fs2) + 1, [], []))
  {
    hide Seg, DischargeJpc;
    var fs3 := fs2.(freereg := freereg);
    var base, d := DischargeJpc(fs3), Desc(VJMP, Pc(fs2) + 1, [], []);
    TransSeg(fs0, fs1, fs2, [], [], [], []);
    OtherFreeregSeg(fs0, fs2, [], [], freereg);
    LandSeg(fs0, fs3, [], []);
    DischargedJpc(fs3);
    assert Body(WithTest(base, test), d) == base;
  }

  lemma ComparedFlow(fs0: State, fs1: State, fs2: State, freereg: nat, env: Env, regs: Regs)
    requires Seg(fs0, fs1, [], []) && Seg(fs1, fs2, [], []) && fs2.nactvar <= freereg
    requires Flow(fs0, fs1, {}, env, regs).Fall?
    ensures Flow(fs0, DischargeJpc(fs2.(freereg := freereg)), {}, env, regs) == Flow(fs1, fs2, {}, env, Flow(fs0, fs1, {}, env, regs).regs)
  {
    var fs3 := fs2.(freereg := freereg);
    assert Extended(fs1.code, fs1.jpc, fs2.code, fs2.jpc);
    hide Seg, DischargeJpc, Out, Extended;
    assert Both([], []) == {};
    TransSeg(fs0, fs1, fs2, [], [], [], []);
    OtherFreeregSeg(fs0, fs2, [], [], freereg);
    LandFlow(fs0, fs3, [], [], env, regs);
    TransFlow(fs0, fs1, fs2, [], [], {}, env, regs);
    assert Both([], []) + {} == {};
  }

  lemma ComparedMeans(fs0: State, fs1: State, fs2: State, op: BinCmp, o1: RK, o2: RK, freereg: nat, env: Env, n: nat,
                      regs: Regs, v: Value, w: Value)
    requires Seg(fs0, fs1, [], []) && Seg(fs1, fs2, [], []) && fs2.nactvar <= freereg
    requires n <= fs1.freereg && (o1.Reg? ==> o1.r < fs1.freereg)
    requires Held(fs0, fs1, o1, env, n, regs, v)
    requires forall r :: Agree(r, regs, n) ==> Held(fs1, fs2, o2, env, fs1.freereg, r, w)
    ensures var base := DischargeJpc(fs2.(freereg := freereg));
      Means(fs0, WithTest(base, CompareInstr(op, o1, o2)), Desc(VJMP, Pc(fs2) + 1, [], []), env, n, regs, Bool(Holds(env, op, v, w)))
  {
    var base, d := DischargeJpc(fs2.(freereg := freereg)), Desc(VJMP, Pc(fs2) + 1, [], []);
    ComparedFlow(fs0, fs1, fs2, freereg, env, regs);
    hide Seg, DischargeJpc, Flow;
    var r1 := Flow(fs0, fs1, {}, env, regs).regs;
    assert Held(fs1, fs2, o2, env, fs1.freereg, r1, w);
    var r2 := Flow(fs1, fs2, {}, env, r1).regs;
    assert Operand(env, r2, o1) == Operand(env, r1, o1);
    CompareAccepts(op, o1, o2, env, r2);
    DischargedJpc(fs2.(freereg := freereg));
    hide Holds, Accepts, CompareInstr, Operand;
    assert Body(WithTest(base, CompareInstr(op, o1, o2)), d) == base && Both([], []) == {};
  }

  // ----- whole expressions -------------------------------------------------------------------------------

  lemma FromSeg(fs0: State, fs: State, t: seq<nat>, f: seq<nat>)
    requires Seg(fs0, fs, t, f)
    ensures Ready(fs)
  {}

  /** Every expression leaves the lists, the code and the registers in order. */
  lemma {:induction false} CompileShape(fs0: State, e: Expr)
    requires Ready(fs0) && WellFormed(e, fs0.nactvar)
    ensures var (fs1, d1) := Compile(fs0, e);
      && Shape(fs0, fs1, d1) && Owned(fs1, d1) && fs1.freereg == fs0.freereg && fs1.nactvar == fs0.nactvar
    decreases e, 0
  {
    hide Seg, KindOk, GoIfTrue, GoIfFalse, CodeNot, CodeComp, Exp2RK, DischargeVars, Ready;
    match e
    case Not(a) =>
      CompileShape(fs0, a);
      var (fs1, d1) := Compile(fs0, a);
      CodeNotShape(fs0, fs1, d1);
    case And(a, b) =>
      CompileShape(fs0, a);
      var (fs1, d1) := Compile(fs0, a);
      GoIfTrueShape(fs0, fs1, d1);
      var (fs2, d2) := GoIfTrue(fs1, d1);
      RightOperandShape(fs0, fs2, d2.f, b, false);
    case Or(a, b) =>
      CompileShape(fs0, a);
      var (fs1, d1) := Compile(fs0, a);
      GoIfFalseShape(fs0, fs1, d1);
      var (fs2, d2) := GoIfFalse(fs1, d1);
      RightOperandShape(fs0, fs2, d2.t, b, true);
    case Compare(op, a, b) =>
      CompileShape(fs0, a);
      var (fs1, d1) := Compile(fs0, a);
      Exp2RKShape(fs0, fs1, d1);
      RegistersOk(fs0, fs1, d1);
      var (fs2, d2, o1) := Exp2RK(fs1, d1);
      ComparisonShape(fs0, fs1, fs2, d2, o1, op, b);
    case _ =>
      LeafShape(fs0, e);
  }

  lemma LeafShape(fs0: State, e: Expr)
    requires Ready(fs0) && WellFormed(e, fs0.nactvar) && (e.Local? || e.Upvalue? || e.Global? || e.Constant?)
    ensures var (fs1, d1) := Compile(fs0, e); Shape(fs0, fs1, d1) && Owned(fs1, d1) && fs1 == fs0
  {
    EmptySeg(fs0);
    hide Seg;
    var (fs1, d1) := Compile(fs0, e);
    assert Body(fs1, d1) == fs0;
  }

  lemma {:induction false} RightOperandShape(fs0: State, fs2: State, list: seq<nat>, b: Expr, cond: bool)
    requires if cond then Seg(fs0, fs2, list, []) else Seg(fs0, fs2, [], list)
    requires WellFormed(b, fs2.nactvar)
    ensures var (fs3, d3) := Compile(fs2, b);
      var (fs4, d4) := DischargeVars(fs3, d3);
      var (fs5, d5) := Joined(fs4, d4, list, cond);
      Shape(fs0, fs5, d5) && Owned(fs5, d5) && fs5.freereg == fs2.freereg && fs5.nactvar == fs2.nactvar
    decreases b, 1
  {
    hide Seg, KindOk, DischargeVars, Ready, Compile;
    if !cond { Swap(fs0, fs2, [], list); }
    FromSeg(fs0, fs2, list, []);
    CompileShape(fs2, b);
    var (fs3, d3) := Compile(fs2, b);
    DischargeVarsShape(fs2, fs3, d3);
    DischargedOwned(fs2, fs3, d3);
    var (fs4, d4) := DischargeVars(fs3, d3);
    JoinedShape(fs0, fs2, fs4, d4, list, cond);
    hide Shape;
  }

  lemma {:induction false} ComparisonShape(fs0: State, fs1: State, fs2: State, d2: Desc, o1: RK, op: BinCmp, b: Expr)
    requires Seg(fs0, fs2, [], []) && IsOperand(fs1, fs2, d2, o1) && fs1.freereg == fs0.freereg
    requires fs1.nactvar == fs0.nactvar <= fs0.freereg
    requires WellFormed(b, fs2.nactvar)
    ensures var (fs3, d3) := Compile(fs2, b);
      var (fs5, d5) := CodeComp(fs3, op, d2, d3);
      Shape(fs0, fs5, d5) && Owned(fs5, d5) && fs5.freereg == fs0.freereg && fs5.nactvar == fs0.nactvar
    decreases b, 1
  {
    hide Seg, KindOk, Ready, Compile, Exp2RK, CodeComp, DischargeJpc;
    FromSeg(fs0, fs2, [], []);
    CompileShape(fs2, b);
    var (fs3, d3) := Compile(fs2, b);
    Exp2RKShape(fs2, fs3, d3);
    var (fs4, e4, o2) := Exp2RK(fs3, d3);
    CodeCompIs(fs1, fs2, fs3, op, d2, o1, d3);
    ComparedShape(fs0, fs2, fs4, CompareInstr(op, o1, o2), fs0.freereg);
    DischargedJpc(fs4.(freereg := fs0.freereg));
    hide Shape, CompareInstr;
  }

  /** Every expression is computed by its code. */
  lemma {:induction false} CompileMeans(fs0: State, e: Expr, env: Env, n: nat, regs: Regs)
    requires Ready(fs0) && WellFormed(e, fs0.nactvar) && ConstsTrue(env) && fs0.nactvar <= n <= fs0.freereg
    ensures var (fs1, d1) := Compile(fs0, e);
      TailLen(d1) <= Pc(fs1) && Means(fs0, fs1, d1, env, n, regs, Eval(env, regs, e))
    decreases e, 0
  {
    hide Seg, KindOk, GoIfTrue, GoIfFalse, CodeNot, CodeComp, Exp2RK, DischargeVars, Ready, Means, Branches,
      ConstsTrue, Held;
    CompileShape(fs0, e);
    match e
    case Not(a) =>
      CompileShape(fs0, a);
      CompileMeans(fs0, a, env, n, regs);
      var (fs1, d1) := Compile(fs0, a);
      CodeNotMeans(fs0, fs1, d1, env, n, regs, Eval(env, regs, a));
    case And(a, b) =>
      CompileShape(fs0, a);
      CompileMeans(fs0, a, env, n, regs);
      var (fs1, d1) := Compile(fs0, a);
      GoIfTrueShape(fs0, fs1, d1);
      GoIfTrueMeans(fs0, fs1, d1, env, n, regs, Eval(env, regs, a));
      var (fs2, d2) := GoIfTrue(fs1, d1);
      RightOperandMeans(fs0, fs2, d2.f, b, false, env, n, regs, Eval(env, regs, a));
    case Or(a, b) =>
      CompileShape(fs0, a);
      CompileMeans(fs0, a, env, n, regs);
      var (fs1, d1) := Compile(fs0, a);
      GoIfFalseShape(fs0, fs1, d1);
      GoIfFalseMeans(fs0, fs1, d1, env, n, regs, Eval(env, regs, a));
      var (fs2, d2) := GoIfFalse(fs1, d1);
      RightOperandMeans(fs0, fs2, d2.t, b, true, env, n, regs, Eval(env, regs, a));
    case Compare(op, a, b) =>
      CompileShape(fs0, a);
      CompileMeans(fs0, a, env, n, regs);
      var (fs1, d1) := Compile(fs0, a);
      Exp2RKShape(fs0, fs1, d1);
      Exp2RKHeld(fs0, fs1, d1, env, n, regs, Eval(env, regs, a));
      RegistersOk(fs0, fs1, d1);
      var (fs2, d2, o1) := Exp2RK(fs1, d1);
      ComparisonMeansAll(fs0, fs1, fs2, d2, o1, op, b, env, n, regs, Eval(env, regs, a));
    case _ =>
      LeafMeans(fs0, e, env, n, regs);
  }

  lemma LeafMeans(fs0: State, e: Expr, env: Env, n: nat, regs: Regs)
    requires Ready(fs0) && WellFormed(e, fs0.nactvar) && (e.Local? || e.Upvalue? || e.Global? || e.Constant?)
    ensures var (fs1, d1) := Compile(fs0, e);
      TailLen(d1) <= Pc(fs1) && Means(fs0, fs1, d1, env, n, regs, Eval(env, regs, e))
  {
    hide IsList, Jumps;
    var (fs1, d1) := Compile(fs0, e);
    assert Body(fs1, d1) == fs0;
    assert Flow(fs0, fs0, Both([], []), env, regs) == Fall(regs);
  }

  lemma {:induction false} RightOperandMeans(fs0: State, fs2: State, list: seq<nat>, b: Expr, cond: bool, env: Env,
                                             n: nat, regs: Regs, v: Value)
    requires if cond then Seg(fs0, fs2, list, []) else Seg(fs0, fs2, [], list)
    requires WellFormed(b, fs2.nactvar) && ConstsTrue(env) && fs2.nactvar <= n <= fs2.freereg
    requires Branches(fs0, fs2, list, cond, env, n, regs, v)
    ensures var (fs3, d3) := Compile(fs2, b);
      var (fs4, d4) := DischargeVars(fs3, d3);
      var (fs5, d5) := Joined(fs4, d4, list, cond);
      TailLen(d5) <= Pc(fs5) && Means(fs0, fs5, d5, env, n, regs, if Truthy(v) == cond then v else Eval(env, regs, b))
    decreases b, 1
  {
    hide Seg, KindOk, DischargeVars, Ready, Compile, Means, Branches, ConstsTrue;
    if !cond { Swap(fs0, fs2, [], list); }
    FromSeg(fs0, fs2, list, []);
    CompileShape(fs2, b);
    var (fs3, d3) := Compile(fs2, b);
    DischargeVarsShape(fs2, fs3, d3);
    var (fs4, d4) := DischargeVars(fs3, d3);
    forall r | Agree(r, regs, n) ensures Means(fs2, fs4, d4, env, n, r, Eval(env, regs, b)) {
      CompileMeans(fs2, b, env, n, r);
      WellFormedMore(b, fs2.nactvar, n);
      EvalAgree(env, r, regs, b, n);
      DischargeVarsMeans(fs2, fs3, d3, env, n, r, Eval(env, regs, b));
    }
    JoinedMeans(fs0, fs2, fs4, d4, list, cond, env, n, n, regs, v, Eval(env, regs, b));
  }

  lemma {:induction false} WellFormedMore(e: Expr, k: nat, n: nat)
    requires WellFormed(e, k) && k <= n
    ensures WellFormed(e, n)
  {
    match e
    case Not(a) => WellFormedMore(a, k, n);
    case And(a, b) => WellFormedMore(a, k, n); WellFormedMore(b, k, n);
    case Or(a, b) => WellFormedMore(a, k, n); WellFormedMore(b, k, n);
    case Compare(_, a, b) => WellFormedMore(a, k, n); WellFormedMore(b, k, n);
    case _ =>
  }

  lemma {:induction false} ComparisonMeansAll(fs0: State, fs1: State, fs2: State, d2: Desc, o1: RK, op: BinCmp, b: Expr,
                                              env: Env, n: nat, regs: Regs, v: Value)
    requires Seg(fs0, fs2, [], []) && IsOperand(fs1, fs2, d2, o1) && fs1.freereg == fs0.freereg
    requires fs1.nactvar == fs0.nactvar <= n <= fs0.freereg
    requires WellFormed(b, fs2.nactvar) && ConstsTrue(env) && Held(fs0, fs2, o1, env, n, regs, v)
    ensures var (fs3, d3) := Compile(fs2, b);
      var (fs5, d5) := CodeComp(fs3, op, d2, d3);
      TailLen(d5) <= Pc(fs5) && Means(fs0, fs5, d5, env, n, regs, Bool(Holds(env, op, v, Eval(env, regs, b))))
    decreases b, 1
  {
    hide Seg, KindOk, Ready, Compile, Exp2RK, CodeComp, DischargeJpc, Held, Means, ConstsTrue, CompareInstr;
    FromSeg(fs0, fs2, [], []);
    CompileShape(fs2, b);
    var (fs3, d3) := Compile(fs2, b);
    Exp2RKShape(fs2, fs3, d3);
    var (fs4, e4, o2) := Exp2RK(fs3, d3);
    CodeCompIs(fs1, fs2, fs3, op, d2, o1, d3);
    WellFormedMore(b, fs2.nactvar, n);
    forall r | Agree(r, regs, n) ensures Held(fs2, fs4, o2, env, fs2.freereg, r, Eval(env, regs, b)) {
      CompileMeans(fs2, b, env, fs2.freereg, r);
      EvalAgree(env, r, regs, b, n);
      Exp2RKHeld(fs2, fs3, d3, env, fs2.freereg, r, Eval(env, regs, b));
    }
    ComparedMeans(fs0, fs2, fs4, op, o1, o2, fs0.freereg, env, n, regs, v, Eval(env, regs, b));
  }

  // ----- what the machine does with the code --------------------------------------------------------------

  /** The machine gets from the start of the new code to `pc`, with registers `r`. */
  ghost predicate Reaches(fs0: State, fs: State, env: Env, regs: Regs, pc: nat, r: Regs) {
    exists n: nat :: Steps(DischargeJpc(fs).code, env, Pc(fs0), regs, n) == (pc, r)
  }

  lemma FlowIsMachine(fs0: State, fs: State, list: seq<nat>, env: Env, regs: Regs)
    requires Seg(fs0, fs, list, []) && !Flow(fs0, fs, Elements(list), env, regs).Stuck?
    ensures match Flow(fs0, fs, Elements(list), env, regs)
      case Fall(r) => Reaches(fs0, fs, env, regs, Pc(fs), r)
      case Exit(j, r, _) => Reaches(fs0, fs, env, regs, j, r)
      case Stuck => true
  {
    assert Both(list, []) == Elements(list) && Elements(list) + Elements([]) == Elements(list);
    LandFlow(fs0, fs, list, [], env, regs);
    DischargedJpc(fs);
    hide Seg, Run, DischargeJpc;
    RunIsMachine(DischargeJpc(fs).code, env, Elements(list), Pc(fs0), regs);
  }

  /** Code generated earlier is unchanged, but for its jumps to the start of the new code. */
  ghost predicate Preserved(fs0: State, fs: State) {
    (fs.code == fs0.code && fs.jpc == fs0.jpc) || (Pc(fs) >= Pc(fs0) && fs.code[..Pc(fs0)] == DischargeJpc(fs0).code)
  }

  /** Running the new code puts the value of the expression in the register. */
  ghost predicate Assigns(fs0: State, fs: State, e: Expr, reg: nat, env: Env, regs: Regs) {
    exists r :: Reaches(fs0, fs, env, regs, Pc(fs), r) && Get(r, reg) == Eval(env, regs, e) && AgreeBut(r, regs, fs0.freereg, reg)
  }

  /** Running the new code goes on at its end if the expression is true, and at a jump of the list if it
    * is false. */
  ghost predicate GoesOnIf(fs0: State, fs: State, f: seq<nat>, e: Expr, env: Env, regs: Regs) {
    if Truthy(Eval(env, regs, e)) then exists r :: Reaches(fs0, fs, env, regs, Pc(fs), r) && Agree(r, regs, fs0.freereg)
    else exists j, r :: j in f && Reaches(fs0, fs, env, regs, j, r) && Agree(r, regs, fs0.freereg)
  }

  /** The value of an expression is put in a register, which may be that of a local: no other register
    * in use is changed. */
  lemma ExpressionToRegister(fs0: State, e: Expr, reg: nat, env: Env, regs: Regs)
    requires Ready(fs0) && WellFormed(e, fs0.nactvar) && ConstsTrue(env)
    ensures var (fs1, d1) := Compile(fs0, e);
      var fs := Exp2Reg(fs1, d1, reg).0;
      Ready(fs) && fs.freereg == fs0.freereg && Preserved(fs0, fs) && Assigns(fs0, fs, e, reg, env, regs)
  {
    hide Seg, KindOk, Compile, Exp2Reg, Means, Reaches, ConstsTrue;
    CompileShape(fs0, e);
    CompileMeans(fs0, e, env, fs0.freereg, regs);
    var (fs1, d1) := Compile(fs0, e);
    Exp2RegShape(fs0, fs1, d1, reg);
    Exp2RegMeans(fs0, fs1, d1, reg, env, fs0.freereg, regs, Eval(env, regs, e));
    var fs := Exp2Reg(fs1, d1, reg).0;
    FromSeg(fs0, fs, [], []);
    SegPreserved(fs0, fs, [], []);
    assert Elements([]) == {};
    FlowIsMachine(fs0, fs, [], env, regs);
    hide Shape, Flow, Ready, Preserved, AgreeBut;
  }

  lemma SegPreserved(fs0: State, fs: State, t: seq<nat>, f: seq<nat>)
    requires Seg(fs0, fs, t, f)
    ensures Preserved(fs0, fs)
  {}

  /** The value of an expression is put in the next free register. */
  lemma ExpressionToNextRegister(fs0: State, e: Expr, env: Env, regs: Regs)
    requires Ready(fs0) && WellFormed(e, fs0.nactvar) && ConstsTrue(env)
    ensures var (fs1, d1) := Compile(fs0, e);
      var (fs, d) := Exp2NextReg(fs1, d1);
      && Ready(fs) && fs.freereg == fs0.freereg + 1 && d == Desc(VNONRELOC, fs0.freereg, [], [])
      && exists r :: Reaches(fs0, fs, env, regs, Pc(fs), r) && Get(r, fs0.freereg) == Eval(env, regs, e) && Agree(r, regs, fs0.freereg)
  {
    hide Seg, KindOk, Compile, Exp2NextReg, Means, Reaches, ConstsTrue, DischargeVars;
    CompileShape(fs0, e);
    CompileMeans(fs0, e, env, fs0.freereg, regs);
    var (fs1, d1) := Compile(fs0, e);
    var (fs2, d2) := DischargeVars(fs1, d1);
    DischargeVarsShape(fs0, fs1, d1);
    DischargeVarsMeans(fs0, fs1, d1, env, fs0.freereg, regs, Eval(env, regs, e));
    DischargedOwned(fs0, fs1, d1);
    NextRegIs(fs1, d1);
    Exp2NextRegShape(fs0, fs2, d2);
    Exp2NextRegHeld(fs0, fs2, d2, env, fs0.freereg, regs, Eval(env, regs, e));
    var fs := Exp2NextReg(fs1, d1).0;
    FromSeg(fs0, fs, [], []);
    assert Elements([]) == {};
    FlowIsMachine(fs0, fs, [], env, regs);
    hide Shape, Flow, Ready, Agree;
  }

  lemma NextRegIs(fs: State, d: Desc)
    ensures var (fs1, d1) := DischargeVars(fs, d); Exp2NextReg(fs1, d1) == Exp2NextReg(fs, d)
  {
    DischargedTwice(fs, d);
    hide DischargeVars, Exp2Reg;
  }

  /** The condition of a statement: `luaK_goiftrue` makes control go on exactly when the expression is
    * true, and get to a jump of the `f` list exactly when it is false. */
  lemma Condition(fs0: State, e: Expr, env: Env, regs: Regs)
    requires Ready(fs0) && WellFormed(e, fs0.nactvar) && ConstsTrue(env)
    ensures var (fs1, d1) := Compile(fs0, e);
      var (fs, d) := GoIfTrue(fs1, d1);
      Ready(fs) && fs.freereg == fs0.freereg && d.t == [] && IsList(fs.code, d.f) && GoesOnIf(fs0, fs, d.f, e, env, regs)
  {
    hide Seg, KindOk, Compile, GoIfTrue, Means, Reaches, ConstsTrue, IsList;
    CompileShape(fs0, e);
    CompileMeans(fs0, e, env, fs0.freereg, regs);
    var (fs1, d1) := Compile(fs0, e);
    GoIfTrueShape(fs0, fs1, d1);
    RegistersOk(fs0, fs1, d1);
    GoIfTrueMeans(fs0, fs1, d1, env, fs0.freereg, regs, Eval(env, regs, e));
    var (fs, d) := GoIfTrue(fs1, d1);
    FromSeg(fs0, fs, [], d.f);
    Swap(fs0, fs, [], d.f);
    ListOf(fs0, fs, d.f, []);
    FlowIsMachine(fs0, fs, d.f, env, regs);
    hide Shape, Flow, Ready, Agree, JumpValue;
  }
}
