/** What the code for an operand means, and what each operation of the code generator does to it. */
module CodeExprs {
  import opened LuaCode
  import opened CodeGen
  import opened CodeRuns
  import opened CodeShape
  import opened CodeSteps

  /** Instructions at the end of the code that belong to the operand and can still be changed: the one
    * whose register is open, or the comparison and its jump. */
  function TailLen(d: Desc): nat { if d.k == VRELOCABLE then 1 else if d.k == VJMP then 2 else 0 }

  /** The code before those. */
  function Body(fs: State, d: Desc): State
    requires TailLen(d) <= Pc(fs)
  {
    fs.(code := fs.code[..Pc(fs) - TailLen(d)])
  }

  ghost predicate KindOk(fs: State, d: Desc)
    requires TailLen(d) <= Pc(fs)
  {
    match d.k
    case VRELOCABLE => d.info == Pc(fs) - 1 && Relocatable(fs.code[d.info]) && fs.jpc == []
    case VJMP => d.info == Pc(fs) - 1 && fs.code[d.info] == JMP(-1) && fs.code[d.info - 1].CMP? && fs.jpc == []
    case VLOCAL => d.info < fs.nactvar
    case VNONRELOC => d.info < fs.freereg
    case _ => true
  }

  /** An operand whose code was added after `fs0`. */
  ghost predicate Shape(fs0: State, fs: State, d: Desc) {
    TailLen(d) <= Pc(fs) && KindOk(fs, d) && Seg(fs0, Body(fs, d), d.t, d.f)
  }

  /** Operands after `luaK_dischargevars`. */
  predicate Discharged(d: Desc) { d.k == VK || d.k == VJMP || d.k == VRELOCABLE || d.k == VNONRELOC }

  /** The value an operand denotes when control gets to its end with these registers. */
  function ValueOf(fs: State, d: Desc, env: Env, r: Regs): Value
    requires TailLen(d) <= Pc(fs)
  {
    match d.k
    case VK => env.consts(d.info)
    case VLOCAL => Get(r, d.info)
    case VNONRELOC => Get(r, d.info)
    case VUPVAL => env.upvals(d.info)
    case VGLOBAL => env.globals(d.info)
    case VRELOCABLE =>
      var i := fs.code[Pc(fs) - 1];
      if Relocatable(i) then Computed(env, r, i) else Nil
    case VJMP =>
      var i := fs.code[Pc(fs) - 2];
      if IsTest(i) then Bool(Accepts(env, r, i)) else Nil
  }

  /** The value that a jump out of an expression carries: that of the register its TESTSET tested, or
    * else the boolean that the jump stands for. */
  ghost predicate JumpValue(code: Code, j: nat, r: Regs, v: Value, b: bool) {
    j < |code| && if HasValue(code, j) then Get(r, code[j - 1].b) == v else v == Bool(b)
  }

  /** Control left through a jump: through `t` when the value is true, through `f` when it is false. */
  ghost predicate Leaves(code: Code, t: seq<nat>, f: seq<nat>, n: nat, regs: Regs, v: Value, o: Outcome)
    requires o.Exit?
  {
    && o.tested && Agree(o.regs, regs, n)
    && (o.at in t || o.at in f)
    && (o.at in t ==> Truthy(v) && JumpValue(code, o.at, o.regs, v, true))
    && (o.at in f ==> !Truthy(v) && JumpValue(code, o.at, o.regs, v, false))
  }

  /** The code computes `v` from `regs`, leaving the registers below `n` alone. */
  ghost predicate Means(fs0: State, fs: State, d: Desc, env: Env, n: nat, regs: Regs, v: Value)
    requires TailLen(d) <= Pc(fs)
  {
    match Flow(fs0, Body(fs, d), Both(d.t, d.f), env, regs)
    case Stuck => false
    case Fall(r) => Agree(r, regs, n) && ValueOf(fs, d, env, r) == v
    case Exit(j, r, tested) => Leaves(fs.code, d.t, d.f, n, regs, v, Exit(j, r, tested))
  }

  ghost predicate AgreeBut(r: Regs, regs: Regs, n: nat, reg: nat) {
    forall i :: 0 <= i < n && i != reg ==> Get(r, i) == Get(regs, i)
  }

  /** As `Means`, with the value in a register on the way that falls through. */
  ghost predicate Loads(fs0: State, fs: State, t: seq<nat>, f: seq<nat>, reg: nat, env: Env, n: nat, regs: Regs,
                        v: Value) {
    match Flow(fs0, fs, Both(t, f), env, regs)
    case Stuck => false
    case Fall(r) => AgreeBut(r, regs, n, reg) && Get(r, reg) == v
    case Exit(j, r, tested) => Leaves(fs.code, t, f, n, regs, v, Exit(j, r, tested))
  }

  // ----- discharging -----------------------------------------------------------------------------

  lemma RegistersOk(fs0: State, fs: State, d: Desc)
    requires Shape(fs0, fs, d)
    ensures TailLen(d) <= Pc(fs) && fs.nactvar <= fs.freereg
  {
    hide Extended, IsList, Tested, Jumps;
  }

  lemma DischargeVarsShape(fs0: State, fs: State, d: Desc)
    requires Shape(fs0, fs, d)
    ensures var (fs1, d1) := DischargeVars(fs, d);
      && Shape(fs0, fs1, d1) && Discharged(d1) && d1.t == d.t && d1.f == d.f
      && fs1.freereg == fs.freereg && fs1.nactvar == fs.nactvar
  {
    hide Seg, DischargeJpc;
    var (fs1, d1) := DischargeVars(fs, d);
    DischargedJpc(fs);
    RegistersOk(fs0, fs, d);
    if d.k == VUPVAL || d.k == VGLOBAL {
      assert Body(fs, d) == fs;
      LandSeg(fs0, fs, d.t, d.f);
      assert Body(fs1, d1) == DischargeJpc(fs);
    } else {
      assert Body(fs1, d1) == Body(fs, d);
    }
  }

  lemma DischargeVarsMeans(fs0: State, fs: State, d: Desc, env: Env, n: nat, regs: Regs, v: Value)
    requires Shape(fs0, fs, d) && Means(fs0, fs, d, env, n, regs, v)
    ensures var (fs1, d1) := DischargeVars(fs, d); TailLen(d1) <= Pc(fs1) && Means(fs0, fs1, d1, env, n, regs, v)
  {
    hide Seg, Flow, Leaves, DischargeJpc;
    var (fs1, d1) := DischargeVars(fs, d);
    DischargedJpc(fs);
    if d.k == VUPVAL || d.k == VGLOBAL {
      var i := if d.k == VUPVAL then GETUPVAL(0, d.info) else GETGLOBAL(0, d.info);
      assert Body(fs, d) == fs;
      assert Yields(fs0, fs, d.t, d.f, i, env, n, regs, v);
      hide Yields;
      LandYields(fs0, fs, d.t, d.f, i, env, n, regs, v);
      YieldsMeans(fs0, DischargeJpc(fs), d.t, d.f, i, env, n, regs, v);
    } else {
      assert Body(fs1, d1) == Body(fs, d);
    }
  }

  /** An instruction whose register is open. */
  lemma YieldsMeans(fs0: State, fs: State, t: seq<nat>, f: seq<nat>, i: Instr, env: Env, n: nat, regs: Regs, v: Value)
    requires Seg(fs0, fs, t, f) && fs.jpc == [] && Relocatable(i) && Yields(fs0, fs, t, f, i, env, n, regs, v)
    ensures Means(fs0, Append(fs, i), Desc(VRELOCABLE, Pc(fs), t, f), env, n, regs, v)
  {
    hide Flow, Seg, Leaves, Computed;
    var fs1, d := Append(fs, i), Desc(VRELOCABLE, Pc(fs), t, f);
    assert Body(fs1, d) == fs;
    JumpsInside(fs0, fs, t, f);
    match Flow(fs0, fs, Both(t, f), env, regs) {
      case Fall(r) =>
      case Exit(j, r, tested) => LeavesKept(fs.code, fs1.code, t, f, n, regs, v, Exit(j, r, tested));
    }
  }

  lemma JumpsInside(fs0: State, fs: State, t: seq<nat>, f: seq<nat>)
    requires Seg(fs0, fs, t, f)
    ensures forall j :: j in t || j in f ==> Pc(fs0) < j < Pc(fs)
  {
    hide Extended, Ready, IsList;
  }

  /** The value a jump carries depends on its test only. */
  lemma LeavesKept(code: Code, code1: Code, t: seq<nat>, f: seq<nat>, n: nat, regs: Regs, v: Value, o: Outcome)
    requires o.Exit? && Leaves(code, t, f, n, regs, v, o)
    requires forall j :: j in t || j in f ==> 1 <= j < |code1| && j < |code| && code1[j - 1] == code[j - 1]
    ensures Leaves(code1, t, f, n, regs, v, o)
  {
    hide Agree;
  }

  /** Jumps to here are patched without touching the tests of other jumps. */
  lemma LandTests(fs0: State, fs: State, t: seq<nat>, f: seq<nat>)
    requires Seg(fs0, fs, t, f)
    ensures forall j :: j in t || j in f ==> j >= 1 && DischargeJpc(fs).code[j - 1] == fs.code[j - 1]
  {
    hide Patch, IsList;
    forall j | j in t || j in f ensures DischargeJpc(fs).code[j - 1] == fs.code[j - 1] { PatchHere(fs, j - 1); }
  }

  predicate Computes(i: Instr) {
    i.MOVE? || i.LOADK? || (i.LOADBOOL? && !i.skip) || i.GETUPVAL? || i.GETGLOBAL? || i.NOT?
  }

  /** The value is what the instruction `i`, put here, would compute. */
  ghost predicate Yields(fs0: State, fs: State, t: seq<nat>, f: seq<nat>, i: Instr, env: Env, n: nat, regs: Regs,
                         v: Value)
    requires Computes(i)
  {
    match Flow(fs0, fs, Both(t, f), env, regs)
    case Stuck => false
    case Fall(r) => Agree(r, regs, n) && Computed(env, r, i) == v
    case Exit(j, r, tested) => Leaves(fs.code, t, f, n, regs, v, Exit(j, r, tested))
  }

  lemma AppendLoads(fs0: State, fs: State, t: seq<nat>, f: seq<nat>, i: Instr, env: Env, n: nat, regs: Regs, v: Value)
    requires Seg(fs0, fs, t, f) && fs.jpc == [] && Computes(i) && Yields(fs0, fs, t, f, i, env, n, regs, v)
    ensures Seg(fs0, Append(fs, i), t, f) && Loads(fs0, Append(fs, i), t, f, i.a, env, n, regs, v)
  {
    hide Seg, Flow, Leaves, Computed;
    AppendSeg(fs0, fs, t, f, i);
    AppendFlow(fs0, fs, t, f, i, env, regs);
    JumpsInside(fs0, fs, t, f);
    match Flow(fs0, fs, Both(t, f), env, regs) {
      case Fall(r) => assert Written(env, r, i) == r[i.a := Computed(env, r, i)];
      case Exit(j, r, tested) => LeavesKept(fs.code, Append(fs, i).code, t, f, n, regs, v, Exit(j, r, tested));
    }
  }

  lemma LandYields(fs0: State, fs: State, t: seq<nat>, f: seq<nat>, i: Instr, env: Env, n: nat, regs: Regs, v: Value)
    requires Seg(fs0, fs, t, f) && Computes(i) && Yields(fs0, fs, t, f, i, env, n, regs, v)
    ensures Seg(fs0, DischargeJpc(fs), t, f) && Yields(fs0, DischargeJpc(fs), t, f, i, env, n, regs, v)
  {
    hide Seg, Flow, Leaves, Patch;
    LandSeg(fs0, fs, t, f);
    LandFlow(fs0, fs, t, f, env, regs);
    LandTests(fs0, fs, t, f);
    JumpsInside(fs0, fs, t, f);
    match Flow(fs0, fs, Both(t, f), env, regs) {
      case Fall(r) =>
      case Exit(j, r, tested) => LeavesKept(fs.code, DischargeJpc(fs).code, t, f, n, regs, v, Exit(j, r, tested));
    }
  }

  lemma EmitLoads(fs0: State, fs: State, t: seq<nat>, f: seq<nat>, i: Instr, env: Env, n: nat, regs: Regs, v: Value)
    requires Seg(fs0, fs, t, f) && Computes(i) && Yields(fs0, fs, t, f, i, env, n, regs, v)
    ensures Seg(fs0, Emit(fs, i), t, f) && Loads(fs0, Emit(fs, i), t, f, i.a, env, n, regs, v)
  {
    hide Seg, Yields, Loads;
    assert DischargeJpc(fs).jpc == [];
    hide DischargeJpc;
    LandYields(fs0, fs, t, f, i, env, n, regs, v);
    AppendLoads(fs0, DischargeJpc(fs), t, f, i, env, n, regs, v);
  }

  /** `discharge2reg`, for operands that are not pending comparisons. */
  lemma Discharge2RegShape(fs0: State, fs: State, d: Desc, reg: nat)
    requires Shape(fs0, fs, d) && Discharged(d) && d.k != VJMP
    ensures var (fs1, d1) := Discharge2Reg(fs, d, reg);
      && d1 == Desc(VNONRELOC, reg, d.t, d.f) && Seg(fs0, fs1, d.t, d.f)
      && fs1.freereg == fs.freereg && fs1.nactvar == fs.nactvar
  {
    hide Seg, DischargeJpc;
    var (fs1, d1) := Discharge2Reg(fs, d, reg);
    DischargedJpc(fs);
    match d.k {
      case VK => assert Body(fs, d) == fs; EmitSeg(fs0, fs, d.t, d.f, LOADK(reg, d.info));
      case VRELOCABLE =>
        var i := SetA(fs.code[d.info], reg);
        assert fs1 == Append(Body(fs, d), i);
        AppendSeg(fs0, Body(fs, d), d.t, d.f, i);
      case VNONRELOC =>
        assert Body(fs, d) == fs;
        EmitSeg(fs0, fs, d.t, d.f, MOVE(reg, d.info));
    }
  }

  /** Any instruction that computes the value of the operand will do. */
  lemma MeansYields(fs0: State, fs: State, d: Desc, i: Instr, env: Env, n: nat, regs: Regs, v: Value)
    requires Shape(fs0, fs, d) && Means(fs0, fs, d, env, n, regs, v) && Computes(i)
    requires forall r :: Computed(env, r, i) == ValueOf(fs, d, env, r)
    ensures Yields(fs0, Body(fs, d), d.t, d.f, i, env, n, regs, v)
  {
    hide Seg, Agree, KindOk;
    JumpsInside(fs0, Body(fs, d), d.t, d.f);
    var o := Flow(fs0, Body(fs, d), Both(d.t, d.f), env, regs);
    hide Flow, Shape, Computed, ValueOf;
    if o.Exit? {
      LeavesKept(fs.code, Body(fs, d).code, d.t, d.f, n, regs, v, o);
      hide Leaves;
    } else {
      hide Leaves;
    }
  }

  lemma Discharge2RegLoads(fs0: State, fs: State, d: Desc, reg: nat, env: Env, n: nat, regs: Regs, v: Value)
    requires Shape(fs0, fs, d) && Discharged(d) && d.k != VJMP && Means(fs0, fs, d, env, n, regs, v)
    ensures var (fs1, d1) := Discharge2Reg(fs, d, reg); Loads(fs0, fs1, d.t, d.f, reg, env, n, regs, v)
  {
    hide Seg, Means, Yields, Loads, DischargeJpc;
    var (fs1, d1) := Discharge2Reg(fs, d, reg);
    match d.k {
      case VK =>
        assert Body(fs, d) == fs;
        MeansYields(fs0, fs, d, LOADK(reg, d.info), env, n, regs, v);
        EmitLoads(fs0, fs, d.t, d.f, LOADK(reg, d.info), env, n, regs, v);
      case VRELOCABLE =>
        var i := SetA(fs.code[d.info], reg);
        assert fs1 == Append(Body(fs, d), i);
        MeansYields(fs0, fs, d, i, env, n, regs, v);
        AppendLoads(fs0, Body(fs, d), d.t, d.f, i, env, n, regs, v);
      case VNONRELOC =>
        assert Body(fs, d) == fs;
        if reg != d.info {
          MeansYields(fs0, fs, d, MOVE(reg, d.info), env, n, regs, v);
          EmitLoads(fs0, fs, d.t, d.f, MOVE(reg, d.info), env, n, regs, v);
        } else {
          RegisterLoads(fs0, fs, d, env, n, regs, v);
        }
    }
  }

  lemma RegisterLoads(fs0: State, fs: State, d: Desc, env: Env, n: nat, regs: Regs, v: Value)
    requires d.k == VNONRELOC && Means(fs0, fs, d, env, n, regs, v)
    ensures Loads(fs0, fs, d.t, d.f, d.info, env, n, regs, v)
  {
    hide Flow, Leaves;
    assert Body(fs, d) == fs;
  }

  lemma OtherFreeregSeg(fs0: State, fs: State, t: seq<nat>, f: seq<nat>, freereg: nat)
    requires Seg(fs0, fs, t, f) && fs.nactvar <= freereg
    ensures Seg(fs0, fs.(freereg := freereg), t, f)
  {
    hide Extended, IsList, Tested;
  }

  lemma OtherFreereg(fs0: State, fs: State, d: Desc, freereg: nat)
    requires Shape(fs0, fs, d) && fs.nactvar <= freereg && (d.k == VNONRELOC ==> d.info < freereg)
    ensures Shape(fs0, fs.(freereg := freereg), d)
  {
    hide Extended, IsList, Tested;
    assert Body(fs.(freereg := freereg), d) == Body(fs, d).(freereg := freereg);
  }

  lemma OtherFreeregMeans(fs0: State, fs: State, d: Desc, freereg: nat, env: Env, n: nat, regs: Regs, v: Value)
    requires TailLen(d) <= Pc(fs) && Means(fs0, fs, d, env, n, regs, v)
    ensures Means(fs0, fs.(freereg := freereg), d, env, n, regs, v)
  {
    hide Out, Leaves, Agree, Computed, Accepts;
    assert Body(fs.(freereg := freereg), d) == Body(fs, d).(freereg := freereg);
  }

  lemma LoadsMeans(fs0: State, fs: State, d: Desc, env: Env, n: nat, regs: Regs, v: Value)
    requires d.k == VNONRELOC && n <= d.info && Loads(fs0, fs, d.t, d.f, d.info, env, n, regs, v)
    ensures Means(fs0, fs, d, env, n, regs, v)
  {
    hide Flow, Leaves;
    assert Body(fs, d) == fs;
  }

  lemma ShapeInRegister(fs0: State, fs: State, d: Desc)
    requires Seg(fs0, fs, d.t, d.f) && d.k == VNONRELOC && d.info < fs.freereg
    ensures Shape(fs0, fs, d)
  {
    hide Extended, Ready, Lists, Tested;
    assert Body(fs, d) == fs;
  }

  lemma ReservedShape(fs0: State, fs: State, d: Desc, reg: nat)
    requires Shape(fs0, fs, d) && Discharged(d) && d.k != VJMP && reg < fs.freereg
    ensures Discharge2Reg(fs, d, reg).1 == Desc(VNONRELOC, reg, d.t, d.f)
    ensures Discharge2Reg(fs, d, reg).0.freereg == fs.freereg && Discharge2Reg(fs, d, reg).0.nactvar == fs.nactvar
    ensures Shape(fs0, Discharge2Reg(fs, d, reg).0, Desc(VNONRELOC, reg, d.t, d.f))
  {
    Discharge2RegShape(fs0, fs, d, reg);
    hide Shape, Seg, Discharge2Reg;
    ShapeInRegister(fs0, Discharge2Reg(fs, d, reg).0, Desc(VNONRELOC, reg, d.t, d.f));
  }

  lemma NextRegShape(fs0: State, fs: State, d: Desc)
    requires Shape(fs0, fs, d) && Discharged(d) && d.k != VJMP && d.k != VNONRELOC
    ensures Discharge2AnyReg(fs, d).1 == Desc(VNONRELOC, fs.freereg, d.t, d.f)
    ensures Discharge2AnyReg(fs, d).0.freereg == fs.freereg + 1 && Discharge2AnyReg(fs, d).0.nactvar == fs.nactvar
    ensures Shape(fs0, Discharge2AnyReg(fs, d).0, Desc(VNONRELOC, fs.freereg, d.t, d.f))
  {
    hide Seg, KindOk, Body, Discharge2Reg;
    RegistersOk(fs0, fs, d);
    OtherFreereg(fs0, fs, d, fs.freereg + 1);
    hide Shape;
    ReservedShape(fs0, Reserve(fs), d, fs.freereg);
  }

  /** `luaK_discharge2anyreg`: the next free register, unless the operand is in one. */
  lemma Discharge2AnyRegShape(fs0: State, fs: State, d: Desc)
    requires Shape(fs0, fs, d) && Discharged(d) && d.k != VJMP
    ensures var (fs1, d1) := Discharge2AnyReg(fs, d);
      && Shape(fs0, fs1, d1) && d1.k == VNONRELOC && d1.t == d.t && d1.f == d.f && fs1.nactvar == fs.nactvar
      && if d.k == VNONRELOC then fs1 == fs && d1 == d else fs1.freereg == fs.freereg + 1 && d1.info == fs.freereg
  {
    if d.k == VNONRELOC {
      assert Discharge2AnyReg(fs, d) == (fs, d);
      hide Shape, Discharge2AnyReg;
    } else {
      NextRegShape(fs0, fs, d);
      hide Shape, Discharge2AnyReg;
    }
  }

  lemma Discharge2AnyRegMeans(fs0: State, fs: State, d: Desc, env: Env, n: nat, regs: Regs, v: Value)
    requires Shape(fs0, fs, d) && Discharged(d) && d.k != VJMP && n <= fs.freereg && Means(fs0, fs, d, env, n, regs, v)
    ensures var (fs1, d1) := Discharge2AnyReg(fs, d);
      TailLen(d1) <= Pc(fs1) && Means(fs0, fs1, d1, env, n, regs, v)
  {
    hide Means, Loads, Seg, KindOk, Discharge2Reg;
    RegistersOk(fs0, fs, d);
    Discharge2AnyRegShape(fs0, fs, d);
    if d.k != VNONRELOC {
      OtherFreereg(fs0, fs, d, fs.freereg + 1);
      OtherFreeregMeans(fs0, fs, d, fs.freereg + 1, env, n, regs, v);
      hide Shape;
      Discharge2RegLoads(fs0, Reserve(fs), d, fs.freereg, env, n, regs, v);
      var (fs1, d1) := Discharge2AnyReg(fs, d);
      LoadsMeans(fs0, fs1, d1, env, n, regs, v);
    }
  }

  // ----- conditions ------------------------------------------------------------------------------

  /** A test that jumps exactly when the truth of the value is `cond`, with the value. */
  ghost predicate Decides(env: Env, r: Regs, test: Instr, v: Value, cond: bool)
    requires IsTest(test)
  {
    && (Accepts(env, r, test) <==> Truthy(v) == cond)
    && (Truthy(v) == cond ==> if test.TESTSET? then Get(r, test.b) == v else v == Bool(cond))
  }

  /** Code after which `test` decides on the value. */
  ghost predicate Undecided(fs0: State, fs: State, t: seq<nat>, f: seq<nat>, test: Instr, cond: bool, env: Env, n: nat,
                            regs: Regs, v: Value)
    requires IsTest(test)
  {
    match Flow(fs0, fs, Both(t, f), env, regs)
    case Stuck => false
    case Fall(r) => Agree(r, regs, n) && Decides(env, r, test, v, cond)
    case Exit(j, r, tested) => Leaves(fs.code, t, f, n, regs, v, Exit(j, r, tested))
  }

  lemma LandUndecided(fs0: State, fs: State, t: seq<nat>, f: seq<nat>, test: Instr, cond: bool, env: Env, n: nat,
                      regs: Regs, v: Value)
    requires Seg(fs0, fs, t, f) && IsTest(test) && Undecided(fs0, fs, t, f, test, cond, env, n, regs, v)
    ensures Seg(fs0, DischargeJpc(fs), t, f) && Undecided(fs0, DischargeJpc(fs), t, f, test, cond, env, n, regs, v)
  {
    hide Seg, Flow, Leaves, Patch;
    LandSeg(fs0, fs, t, f);
    LandFlow(fs0, fs, t, f, env, regs);
    LandTests(fs0, fs, t, f);
    JumpsInside(fs0, fs, t, f);
    match Flow(fs0, fs, Both(t, f), env, regs) {
      case Fall(r) =>
      case Exit(j, r, tested) => LeavesKept(fs.code, DischargeJpc(fs).code, t, f, n, regs, v, Exit(j, r, tested));
    }
  }

  /** `jumponcond` adds a test of the operand and its jump. */
  function TestOf(fs: State, d: Desc, cond: bool): (State, Instr) {
    if d.k == VRELOCABLE && d.info < Pc(fs) && fs.code[d.info].NOT? then (Body(fs, d), TEST(fs.code[d.info].b, !cond))
    else var (fs1, d1) := Discharge2AnyReg(fs, d); (FreeExp(fs1, d1), TESTSET(NoReg, d1.info, cond))
  }

  lemma JumpOnCondIs(fs: State, d: Desc, cond: bool)
    ensures var (base, test) := TestOf(fs, d, cond);
      JumpOnCond(fs, d, cond) == (WithTest(DischargeJpc(base), test), [Pc(base) + 1]) && PlainTest(test)
  {
    var (base, test) := TestOf(fs, d, cond);
    CondJumpIs(base, test);
  }

  lemma TestOfShape(fs0: State, fs: State, d: Desc, cond: bool)
    requires Shape(fs0, fs, d) && Discharged(d) && d.k != VJMP && (d.k == VNONRELOC ==> d.info < fs.nactvar)
    ensures var (base, test) := TestOf(fs, d, cond);
      && Seg(fs0, base, d.t, d.f) && base.freereg == fs.freereg && base.nactvar == fs.nactvar
  {
    hide Seg, Discharge2AnyReg;
    if !(d.k == VRELOCABLE && fs.code[d.info].NOT?) {
      var (fs1, d1) := Discharge2AnyReg(fs, d);
      Discharge2AnyRegShape(fs0, fs, d);
      RegistersOk(fs0, fs, d);
      var base := FreeExp(fs1, d1);
      assert base == Body(fs1, d1).(freereg := base.freereg);
      OtherFreeregSeg(fs0, Body(fs1, d1), d.t, d.f, base.freereg);
    }
  }

  lemma TestOfDecides(fs0: State, fs: State, d: Desc, cond: bool, env: Env, n: nat, regs: Regs, v: Value)
    requires Shape(fs0, fs, d) && Discharged(d) && d.k != VJMP && (d.k == VNONRELOC ==> d.info < fs.nactvar)
    requires n <= fs.freereg && Means(fs0, fs, d, env, n, regs, v)
    ensures var (base, test) := TestOf(fs, d, cond);
      IsTest(test) && Undecided(fs0, base, d.t, d.f, test, cond, env, n, regs, v)
  {
    hide Seg, Discharge2AnyReg, Means, Undecided;
    if d.k == VRELOCABLE && fs.code[d.info].NOT? {
      NotDecides(fs0, fs, d, cond, env, n, regs, v);
    } else {
      var (fs1, d1) := Discharge2AnyReg(fs, d);
      Discharge2AnyRegShape(fs0, fs, d);
      Discharge2AnyRegMeans(fs0, fs, d, env, n, regs, v);
      RegisterDecides(fs0, fs1, FreeExp(fs1, d1), d1, cond, env, n, regs, v);
    }
  }

  lemma RegisterDecides(fs0: State, fs: State, base: State, d: Desc, cond: bool, env: Env, n: nat, regs: Regs, v: Value)
    requires d.k == VNONRELOC && Means(fs0, fs, d, env, n, regs, v) && base.code == fs.code && base.jpc == fs.jpc
    ensures Undecided(fs0, base, d.t, d.f, TESTSET(NoReg, d.info, cond), cond, env, n, regs, v)
  {
    hide Out, Leaves;
    assert Body(fs, d) == fs;
  }

  lemma NotDecides(fs0: State, fs: State, d: Desc, cond: bool, env: Env, n: nat, regs: Regs, v: Value)
    requires Shape(fs0, fs, d) && d.k == VRELOCABLE && fs.code[d.info].NOT? && Means(fs0, fs, d, env, n, regs, v)
    ensures Undecided(fs0, Body(fs, d), d.t, d.f, TEST(fs.code[d.info].b, !cond), cond, env, n, regs, v)
  {
    hide Out, Seg, Agree;
    JumpsInside(fs0, Body(fs, d), d.t, d.f);
    var o := Flow(fs0, Body(fs, d), Both(d.t, d.f), env, regs);
    hide Flow, Shape;
    if o.Exit? {
      LeavesKept(fs.code, Body(fs, d).code, d.t, d.f, n, regs, v, o);
      hide Leaves;
    } else {
      hide Leaves;
    }
  }

  /** Where control is after a condition: it goes on when the truth of the value is not `cond`, and is
    * at a jump of the list, with the value, when it is. */
  ghost predicate Branches(fs0: State, fs: State, list: seq<nat>, cond: bool, env: Env, n: nat, regs: Regs, v: Value) {
    match Flow(fs0, fs, Elements(list), env, regs)
    case Stuck => false
    case Fall(r) => Agree(r, regs, n) && Truthy(v) != cond
    case Exit(j, r, tested) =>
      tested && j in list && Agree(r, regs, n) && Truthy(v) == cond && JumpValue(fs.code, j, r, v, cond)
  }

  /** The code for a condition, once its test is in place: `go` collects the jumps that leave, and `stay`
    * leads to here. */
  function Branched(fs: State, go: seq<nat>, stay: seq<nat>, x: seq<nat>): State {
    PatchToHere(Concat(fs, go, x), stay)
  }

  lemma BranchedShape(fs0: State, base: State, go: seq<nat>, stay: seq<nat>, test: Instr)
    requires Seg(fs0, base, go, stay) && base.jpc == [] && PlainTest(test)
    ensures var x := [Pc(base) + 1]; Seg(fs0, Branched(WithTest(base, test), go, stay, x), go + x, [])
  {
    hide Seg, IsList, Tested;
    var fs1, x := WithTest(base, test), [Pc(base) + 1];
    WithTestSeg(fs0, base, go, stay, test);
    JoinSeg(fs0, fs1, go, stay, x);
    Swap(fs0, Concat(fs1, go, x), go + x, stay);
    HereSeg(fs0, Concat(fs1, go, x), stay, go + x);
    Swap(fs0, Branched(fs1, go, stay, x), [], go + x);
  }

  lemma BranchedFlow(fs0: State, base: State, go: seq<nat>, stay: seq<nat>, test: Instr, env: Env, regs: Regs)
    requires Seg(fs0, base, go, stay) && base.jpc == [] && PlainTest(test)
    requires !Flow(fs0, base, Both(go, stay), env, regs).Stuck?
    ensures Flow(fs0, Branched(WithTest(base, test), go, stay, [Pc(base) + 1]), Elements(go + [Pc(base) + 1]), env, regs) ==
      match Flow(fs0, base, Both(go, stay), env, regs)
      case Fall(r) => (if Accepts(env, r, test) then Exit(Pc(base) + 1, r, true) else Fall(r))
      case Exit(i, r, tested) => if i in stay then Fall(r) else Exit(i, r, tested)
  {
    var fs1, j := WithTest(base, test), Pc(base) + 1;
    var fs2, x := Concat(fs1, go, [j]), [j];
    WithTestSeg(fs0, base, go, stay, test);
    JoinSeg(fs0, fs1, go, stay, x);
    Swap(fs0, fs2, go + x, stay);
    assert IsList(fs1.code, go);
    JumpsInside(fs0, base, go, stay);
    hide Seg, IsList, Tested, Accepts, Out;
    assert Both(stay, go + x) == Both(go, stay) + {j};
    WithTestFlow(fs0, base, go, stay, test, env, regs);
    JoinFlow(fs0, fs1, go, x, Both(go, stay) + {j}, env, regs);
    HereFlow(fs0, fs2, stay, go + x, env, regs);
  }
}
