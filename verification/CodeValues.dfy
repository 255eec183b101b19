/** `exp2reg`: the value of an expression, whichever way control leaves it, ends up in one register. */
module CodeValues {
  import opened LuaCode
  import opened CodeGen
  import opened CodeRuns
  import opened CodeShape
  import opened CodeSteps
  import opened CodeExprs
  import opened CodeConds

  // ----- patching the jumps of an expression to its end --------------------------------------------

  /** The load of a boolean at `p`, from where control gets to the end of the code. */
  ghost predicate LoadsBool(fs: State, p: nat, reg: nat, b: bool) {
    && p < Pc(fs) && p !in fs.jpc && p + 1 !in fs.jpc
    && ((fs.code[p] == LOADBOOL(reg, b, true) && p + 2 == Pc(fs)) || (fs.code[p] == LOADBOOL(reg, b, false) && p + 1 == Pc(fs)))
  }

  /** Where the jumps of a list that carry no value can be sent. */
  ghost predicate Default(fs: State, list: seq<nat>, p: nat, reg: nat, b: bool) {
    || (forall j :: j in list && j < Pc(fs) ==> HasValue(fs.code, j))
    || (LoadsBool(fs, p, reg, b) && forall j :: j in list ==> j < p)
  }

  lemma PatchedToAt(fs: State, list: seq<nat>, reg: nat, p: nat, i: nat)
    requires i < Pc(fs)
    ensures PatchedTo(fs, list, reg, p).code[i] == Patched(fs.code, list, Pc(fs), To(reg), p, i)
  {}

  lemma PatchedToExtended(fs0: State, fs: State, list: seq<nat>, reg: nat, p: nat)
    requires Extended(fs0.code, fs0.jpc, fs.code, fs.jpc) && Tested(fs.code, Pc(fs0), list)
    ensures Extended(fs0.code, fs0.jpc, PatchedTo(fs, list, reg, p).code, fs.jpc)
  {
    if list == [] {
      PatchNone(fs.code, Pc(fs), To(reg), p);
    } else {
      assert list[0] in list;
      assert Pc(fs) > Pc(fs0);
      hide Patch;
      var code1 := PatchedTo(fs, list, reg, p).code;
      assert |code1| == Pc(fs);
      forall i | 0 <= i < Pc(fs0) ensures code1[i] == fs.code[i] { PatchedToAt(fs, list, reg, p, i); }
      assert code1[..Pc(fs0)] == fs.code[..Pc(fs0)];
    }
  }

  lemma PatchedToReady(fs: State, start: nat, list: seq<nat>, reg: nat, p: nat)
    requires Ready(fs) && Tested(fs.code, start, list) && Disjoint(fs.jpc, list)
    ensures Ready(PatchedTo(fs, list, reg, p)) && IsList(PatchedTo(fs, list, reg, p).code, fs.jpc)
  {
    hide Patch;
    var code1 := PatchedTo(fs, list, reg, p).code;
    assert |code1| == Pc(fs);
    forall i | 0 <= i < Pc(fs)
      ensures code1[i] == Patched(fs.code, list, Pc(fs), To(reg), p, i)
    {
      PatchedToAt(fs, list, reg, p, i);
    }
  }

  lemma PatchedToOther(fs: State, start: nat, list: seq<nat>, reg: nat, p: nat, other: seq<nat>)
    requires IsList(fs.code, other) && Tested(fs.code, start, other) && Tested(fs.code, start, list)
    requires Disjoint(list, other)
    ensures IsList(PatchedTo(fs, list, reg, p).code, other) && Tested(PatchedTo(fs, list, reg, p).code, start, other)
    ensures forall j :: j in other ==> PatchedTo(fs, list, reg, p).code[j - 1] == fs.code[j - 1]
  {
    hide Patch;
    var code1 := PatchedTo(fs, list, reg, p).code;
    assert |code1| == Pc(fs);
    forall j | j in other ensures code1[j] == fs.code[j] && code1[j - 1] == fs.code[j - 1] {
      PatchedToAt(fs, list, reg, p, j);
      PatchedToAt(fs, list, reg, p, j - 1);
    }
    hide Patched;
    KeptList(fs.code, code1, start, other);
  }

  lemma PatchedToSeg(fs0: State, fs: State, list: seq<nat>, other: seq<nat>, reg: nat, p: nat)
    requires Seg(fs0, fs, list, other)
    ensures Seg(fs0, PatchedTo(fs, list, reg, p), [], other)
    ensures forall j :: j in other ==> j >= 1 && j < Pc(fs) && PatchedTo(fs, list, reg, p).code[j - 1] == fs.code[j - 1]
  {
    assert IsList(PatchedTo(fs, list, reg, p).code, []) && Tested(PatchedTo(fs, list, reg, p).code, Pc(fs0), []);
    JumpsInside(fs0, fs, list, other);
    hide Extended, Ready, IsList, Tested, Patch;
    PatchedToExtended(fs0, fs, list, reg, p);
    PatchedToReady(fs, Pc(fs0), list, reg, p);
    PatchedToOther(fs, Pc(fs0), list, reg, p, other);
  }

  /** What is in the registers at the end when control left through the jump at `j`. */
  function Delivered(fs: State, j: nat, reg: nat, b: bool, r: Regs): Regs {
    if j < Pc(fs) && HasValue(fs.code, j) then Filled(fs.code, j, To(reg), r) else r[reg := Bool(b)]
  }

  lemma DefaultRun(fs: State, code1: Code, p: nat, reg: nat, b: bool, env: Env, pending: set<nat>, r: Regs)
    requires LoadsBool(fs, p, reg, b) && |code1| == Pc(fs) && code1[p..] == fs.code[p..]
    requires p !in pending && p + 1 !in pending
    ensures Run(code1, env, pending, p, r) == Fall(r[reg := Bool(b)])
  {
    assert code1[p] == code1[p..][0] && fs.code[p] == fs.code[p..][0];
    assert Run(code1, env, pending, |code1|, r[reg := Bool(b)]) == Fall(r[reg := Bool(b)]);
  }

  lemma PatchedToTail(fs: State, list: seq<nat>, reg: nat, q: nat, p: nat)
    requires p <= Pc(fs) && forall j :: j in list ==> j < p
    ensures PatchedTo(fs, list, reg, q).code[p..] == fs.code[p..]
  {
    hide Patch;
    var code1 := PatchedTo(fs, list, reg, q).code;
    assert |code1| == Pc(fs);
    forall i | p <= i < Pc(fs) ensures code1[i] == fs.code[i] { PatchedToAt(fs, list, reg, q, i); }
  }

  /** Control that left through the list now gets to the end, with the value in the register. */
  lemma PatchedToFlow(fs0: State, fs: State, list: seq<nat>, other: seq<nat>, reg: nat, p: nat, b: bool, env: Env,
                      regs: Regs)
    requires Seg(fs0, fs, list, other) && Default(fs, list, p, reg, b)
    requires LoadsBool(fs, p, reg, b) ==> forall j :: j in other ==> j < p
    requires Flow(fs0, fs, Both(list, other), env, regs).Exit? ==> Flow(fs0, fs, Both(list, other), env, regs).tested
    ensures Flow(fs0, PatchedTo(fs, list, reg, p), Elements(other), env, regs) ==
      match Flow(fs0, fs, Both(list, other), env, regs)
      case Exit(j, r, tested) => if j in list then Fall(Delivered(fs, j, reg, b, r)) else Exit(j, r, tested)
      case o => o
  {
    JumpsInside(fs0, fs, list, other);
    var code1, pending, rest := PatchedTo(fs, list, reg, p).code, Both(list, other) + Elements(fs.jpc), Elements(other) + Elements(fs.jpc);
    assert pending - Elements(list) == rest;
    assert Jumps(fs.code, list);
    hide Run, Patch, Seg;
    PatchRun(fs.code, env, pending, list, Pc(fs), To(reg), p, Pc(fs0), regs);
    var o := Run(fs.code, env, pending, Pc(fs0), regs);
    if o.Exit? && o.at in list {
      if HasValue(fs.code, o.at) {
        EndRun(code1, env, rest, Filled(fs.code, o.at, To(reg), o.regs));
      } else {
        PatchedToTail(fs, list, reg, p, p);
        DefaultRun(fs, code1, p, reg, b, env, rest, Filled(fs.code, o.at, To(reg), o.regs));
      }
    }
  }

  lemma EndRun(code: Code, env: Env, pending: set<nat>, r: Regs)
    ensures Run(code, env, pending, |code|, r) == Fall(r)
  {}

  // ----- the value on the way that falls through -----------------------------------------------------

  /** As `Loads`; a pending comparison has been turned into a jump, which was not taken. */
  ghost predicate LoadsOrFalse(fs0: State, fs: State, t: seq<nat>, f: seq<nat>, reg: nat, jmp: bool, env: Env, n: nat,
                               regs: Regs, v: Value) {
    LoadsBy(fs.code, Flow(fs0, fs, Both(t, f), env, regs), t, f, reg, jmp, n, regs, v)
  }

  ghost predicate LoadsBy(code: Code, o: Outcome, t: seq<nat>, f: seq<nat>, reg: nat, jmp: bool, n: nat, regs: Regs,
                          v: Value) {
    match o
    case Stuck => false
    case Fall(r) => if jmp then Agree(r, regs, n) && v == Bool(false) else AgreeBut(r, regs, n, reg) && Get(r, reg) == v
    case Exit(j, r, tested) => Leaves(code, t, f, n, regs, v, o)
  }

  lemma LoadValueShape(fs0: State, fs: State, d: Desc, reg: nat)
    requires Shape(fs0, fs, d) && Discharged(d)
    ensures var (fs1, d1) := LoadValue(fs, d, reg);
      && Seg(fs0, fs1, d1.t, d1.f) && d1.f == d.f && d1.t == (if d.k == VJMP then d.t + [d.info] else d.t)
      && (d1.k == VJMP <==> d.k == VJMP) && (d.k == VJMP ==> fs1.jpc == []) && fs1.freereg == fs.freereg
      && fs1.nactvar == fs.nactvar
  {
    if d.k == VJMP {
      ComparisonInPlace(fs0, fs, d, true);
      var base := Body(fs, d);
      hide Seg;
      WithTestSeg(fs0, base, d.t, d.f, fs.code[Pc(fs) - 2]);
      JoinSeg(fs0, fs, d.t, d.f, [d.info]);
    } else {
      hide Seg;
      Discharge2RegShape(fs0, fs, d, reg);
    }
  }

  /** The jump of a comparison carries no value. */
  lemma ComparisonNeedsValue(fs0: State, fs: State, d: Desc, reg: nat)
    requires Shape(fs0, fs, d) && d.k == VJMP
    ensures var (fs1, d1) := LoadValue(fs, d, reg); NeedValue(fs1.code, d1.t)
  {
    var base, test := Body(fs, d), fs.code[Pc(fs) - 2];
    ComparisonInPlace(fs0, fs, d, true);
    ConcatTests(fs0, base, d.t, d.f, test);
    hide Seg;
    assert d.info in d.t + [d.info] && !HasValue(Concat(fs, d.t, [d.info]).code, d.info);
  }

  lemma LoadValueMeans(fs0: State, fs: State, d: Desc, reg: nat, env: Env, n: nat, regs: Regs, v: Value)
    requires Shape(fs0, fs, d) && Discharged(d) && Means(fs0, fs, d, env, n, regs, v)
    ensures var (fs1, d1) := LoadValue(fs, d, reg);
      LoadsOrFalse(fs0, fs1, d1.t, d1.f, reg, d.k == VJMP, env, n, regs, v)
  {
    if d.k == VJMP {
      ComparisonLoads(fs0, fs, d, reg, env, n, regs, v);
    } else {
      hide Seg, Means, Flow, AgreeBut, Leaves;
      Discharge2RegShape(fs0, fs, d, reg);
      Discharge2RegLoads(fs0, fs, d, reg, env, n, regs, v);
      hide Discharge2Reg, Shape;
    }
  }

  lemma ComparisonFlow(fs0: State, base: State, t: seq<nat>, f: seq<nat>, test: Instr, env: Env, regs: Regs)
    requires Seg(fs0, base, t, f) && base.jpc == [] && PlainTest(test)
    requires !Flow(fs0, base, Both(t, f), env, regs).Stuck?
    ensures Flow(fs0, Concat(WithTest(base, test), t, [Pc(base) + 1]), Both(t + [Pc(base) + 1], f), env, regs) ==
      match Flow(fs0, base, Both(t, f), env, regs)
      case Fall(r) => (if Accepts(env, r, test) then Exit(Pc(base) + 1, r, true) else Fall(r))
      case o => o
  {
    var x := [Pc(base) + 1];
    hide Seg, IsList, Out, Accepts;
    WithTestSeg(fs0, base, t, f, test);
    ListOf(fs0, WithTest(base, test), t, f);
    assert Both(t + x, f) == Both(t, f) + {Pc(base) + 1};
    WithTestFlow(fs0, base, t, f, test, env, regs);
    JoinFlow(fs0, WithTest(base, test), t, x, Both(t, f) + {Pc(base) + 1}, env, regs);
  }

  lemma ComparisonMeans(fs0: State, fs: State, d: Desc, env: Env, n: nat, regs: Regs, v: Value)
    requires TailLen(d) <= Pc(fs) && d.k == VJMP && fs.code[Pc(fs) - 2].CMP? && Means(fs0, fs, d, env, n, regs, v)
    ensures var o := Flow(fs0, Body(fs, d), Both(d.t, d.f), env, regs);
      && !o.Stuck? && (o.Fall? ==> Agree(o.regs, regs, n) && v == Bool(Accepts(env, o.regs, fs.code[Pc(fs) - 2])))
      && (o.Exit? ==> Leaves(fs.code, d.t, d.f, n, regs, v, o))
  {
    hide Flow, Leaves, Agree, Accepts;
  }

  /** A pending comparison is a test behind the code of the lists. */
  lemma ComparisonParts(fs0: State, fs: State, d: Desc)
    requires Shape(fs0, fs, d) && d.k == VJMP
    ensures TailLen(d) <= Pc(fs) && Pc(fs) >= 2 && fs.code[Pc(fs) - 2].CMP? && PlainTest(fs.code[Pc(fs) - 2])
    ensures Seg(fs0, Body(fs, d), d.t, d.f) && Body(fs, d).jpc == []
    ensures WithTest(Body(fs, d), fs.code[Pc(fs) - 2]) == fs && Pc(Body(fs, d)) + 2 == Pc(fs) && d.info == Pc(fs) - 1
  {
    ComparisonInPlace(fs0, fs, d, true);
    hide Seg;
  }

  lemma ComparisonLoads(fs0: State, fs: State, d: Desc, reg: nat, env: Env, n: nat, regs: Regs, v: Value)
    requires Shape(fs0, fs, d) && d.k == VJMP && Means(fs0, fs, d, env, n, regs, v)
    ensures LoadsOrFalse(fs0, Concat(fs, d.t, [d.info]), d.t + [d.info], d.f, reg, true, env, n, regs, v)
  {
    hide Shape, Body, Seg, Agree, Means, Flow, Leaves, Accepts, LoadsBy, TailLen, Decided;
    ComparisonParts(fs0, fs, d);
    var base, test := Body(fs, d), fs.code[Pc(fs) - 2];
    ConcatTests(fs0, base, d.t, d.f, test);
    ComparisonMeans(fs0, fs, d, env, n, regs, v);
    ComparisonFlow(fs0, base, d.t, d.f, test, env, regs);
    ComparisonOut(fs.code, Concat(fs, d.t, [d.info]).code, Flow(fs0, base, Both(d.t, d.f), env, regs), test, d.t, d.f,
                  reg, env, n, regs, v);
  }

  lemma ComparisonOut(code: Code, code1: Code, o: Outcome, test: Instr, t: seq<nat>, f: seq<nat>, reg: nat, env: Env,
                      n: nat, regs: Regs, v: Value)
    requires test.CMP? && !o.Stuck? && (o.Fall? ==> Agree(o.regs, regs, n) && v == Bool(Accepts(env, o.regs, test)))
    requires o.Exit? ==> Leaves(code, t, f, n, regs, v, o)
    requires |code1| == |code| >= 2 && code1[|code| - 2] == test
    requires forall j :: j in t || j in f ==> 1 <= j < |code| - 1 && code1[j - 1] == code[j - 1]
    ensures var j := |code| - 1;
      LoadsBy(code1, if o.Fall? then if Accepts(env, o.regs, test) then Exit(j, o.regs, true) else Fall(o.regs) else o,
              t + [j], f, reg, true, n, regs, v)
  {
    var j := |code| - 1;
    if o.Exit? {
      hide JumpValue;
      LeavesGrown(code, code1, t, f, [j], n, regs, v, o);
    } else {
      assert j in t + [j];
      hide Agree, AgreeBut;
    }
  }

  lemma LeavesGrown(code: Code, code1: Code, t: seq<nat>, f: seq<nat>, x: seq<nat>, n: nat, regs: Regs, v: Value,
                    o: Outcome)
    requires o.Exit? && Leaves(code, t, f, n, regs, v, o)
    requires forall j :: j in t || j in f ==> 1 <= j < |code1| && j < |code| && code1[j - 1] == code[j - 1] && j !in x
    ensures Leaves(code1, t + x, f, n, regs, v, o)
  {
    hide Agree;
  }

  lemma ListOf(fs0: State, fs: State, t: seq<nat>, f: seq<nat>)
    requires Seg(fs0, fs, t, f)
    ensures IsList(fs.code, t)
  {}

  lemma ConcatTests(fs0: State, base: State, t: seq<nat>, f: seq<nat>, test: Instr)
    requires Seg(fs0, base, t, f) && base.jpc == [] && PlainTest(test)
    ensures var code, code1 := WithTest(base, test).code, Concat(WithTest(base, test), t, [Pc(base) + 1]).code;
      |code1| == |code| && forall i :: 0 <= i < |code| && !code[i].JMP? ==> code1[i] == code[i]
    ensures forall j :: j in t || j in f ==> 1 <= j < Pc(base) && !WithTest(base, test).code[j - 1].JMP?
  {
    JumpsInside(fs0, base, t, f);
    WithTestSeg(fs0, base, t, f, test);
    ConcatKeeps(WithTest(base, test).code, t, [Pc(base) + 1]);
    hide Extended, Ready;
  }

  // ----- the loads of booleans -----------------------------------------------------------------------

  function BothBools(reg: nat): Code { [LOADBOOL(reg, false, true), LOADBOOL(reg, true, false)] }

  /** The code of `LoadBools`: a jump over the loads, in front of the jumps pending to here, unless a
    * comparison that does not jump falls into them. */
  function WithBools(fs: State, jmp: bool, reg: nat): State {
    if jmp then fs.(code := fs.code + BothBools(reg))
    else
      var list := [Pc(fs)] + fs.jpc;
      fs.(code := fs.code + [JMP(Link(list, 0))] + BothBools(reg), jpc := list)
  }

  lemma LoadBoolsIs(fs: State, d: Desc, reg: nat)
    requires d.k == VJMP ==> fs.jpc == []
    ensures var jmp := d.k == VJMP;
      LoadBools(fs, d, reg) == (WithBools(fs, jmp, reg), if jmp then Pc(fs) else Pc(fs) + 1, if jmp then Pc(fs) + 1 else Pc(fs) + 2)
  {
    var jmp := d.k == VJMP;
    var (fs1, fj) := if jmp then (fs, []) else Jump(fs);
    var fs2 := Emit(fs1, LOADBOOL(reg, false, true));
    assert fs1.jpc == [];
    PatchNone(fs1.code, Pc(fs1), NoReg, Pc(fs1));
    PatchNone(fs2.code, Pc(fs2), NoReg, Pc(fs2));
    hide Patch;
    var fs3 := Emit(fs2, LOADBOOL(reg, true, false));
    assert fs3.code == fs1.code + BothBools(reg) && fs3.jpc == [];
    assert [] + fj == fj;
    if jmp {
      assert PatchToHere(fs3, fj) == fs3;
    } else {
      assert fs1.code == fs.code + [JMP(Link([Pc(fs)] + fs.jpc, 0))];
    }
  }

  lemma WithBoolsExtended(fs0: State, fs: State, jmp: bool, reg: nat, t: seq<nat>, f: seq<nat>)
    requires Seg(fs0, fs, t, f) && (t != [] || f != [])
    ensures Extended(fs0.code, fs0.jpc, WithBools(fs, jmp, reg).code, WithBools(fs, jmp, reg).jpc)
  {
    assert t != [] ==> t[0] in t;
    assert f != [] ==> f[0] in f;
    hide Ready, IsList;
    assert Pc(fs) > Pc(fs0);
    assert WithBools(fs, jmp, reg).code[..Pc(fs0)] == fs.code[..Pc(fs0)];
  }

  lemma NoDupCons(p: nat, s: seq<nat>)
    requires NoDup(s) && forall j :: j in s ==> j < p
    ensures NoDup([p] + s)
  {
    var list := [p] + s;
    forall i, j | 0 <= i < j < |list| ensures list[i] != list[j] {
      assert list[j] == s[j - 1] && s[j - 1] in s;
      if i > 0 { assert list[i] == s[i - 1]; }
    }
  }

  lemma HeldLink(fs: State, reg: nat, i: nat)
    requires IsList(fs.code, fs.jpc) && i < |fs.jpc|
    ensures var list, code1 := [Pc(fs)] + fs.jpc, WithBools(fs, false, reg).code;
      list[i + 1] < Pc(fs) && code1[list[i + 1]] == JMP(Link(list, i + 1))
  {
    var list, code1 := [Pc(fs)] + fs.jpc, WithBools(fs, false, reg).code;
    assert fs.code[fs.jpc[i]] == JMP(Link(fs.jpc, i));
    hide IsList;
    assert list[i + 1] == fs.jpc[i] && Link(list, i + 1) == Link(fs.jpc, i);
    assert code1[..Pc(fs)] == fs.code && code1[fs.jpc[i]] == code1[..Pc(fs)][fs.jpc[i]];
  }

  lemma HeldList(fs: State, reg: nat)
    requires IsList(fs.code, fs.jpc)
    ensures IsList(WithBools(fs, false, reg).code, [Pc(fs)] + fs.jpc)
  {
    var list, code1 := [Pc(fs)] + fs.jpc, WithBools(fs, false, reg).code;
    assert code1[Pc(fs)] == JMP(Link(list, 0)) && Pc(fs) < |code1|;
    assert forall j :: j in fs.jpc ==> j < Pc(fs);
    NoDupCons(Pc(fs), fs.jpc);
    WithBoolsJpc(fs, false, reg);
    hide WithBools, Link, NoDup;
    forall i | 0 <= i < |list| ensures list[i] < |code1| && code1[list[i]] == JMP(Link(list, i)) {
      if i > 0 { HeldLink(fs, reg, i - 1); }
    }
  }

  lemma HeldJumps(fs: State, jmp: bool, reg: nat)
    requires Jumps(fs.code, fs.jpc) && NoTestLast(fs.code) && (jmp ==> fs.jpc == [])
    ensures Jumps(WithBools(fs, jmp, reg).code, WithBools(fs, jmp, reg).jpc) && NoTestLast(WithBools(fs, jmp, reg).code)
  {}

  lemma WithBoolsReady(fs: State, jmp: bool, reg: nat)
    requires Ready(fs) && (jmp ==> fs.jpc == [])
    ensures Ready(WithBools(fs, jmp, reg))
  {
    HeldJumps(fs, jmp, reg);
    WithBoolsJpc(fs, jmp, reg);
    if jmp {
      assert IsList(WithBools(fs, jmp, reg).code, []);
      hide IsList, Jumps, NoTestLast, WithBools;
    } else {
      HeldList(fs, reg);
      hide IsList, Jumps, NoTestLast, WithBools;
    }
  }

  lemma WithBoolsSeg(fs0: State, fs: State, t: seq<nat>, f: seq<nat>, jmp: bool, reg: nat)
    requires Seg(fs0, fs, t, f) && (t != [] || f != []) && (jmp ==> fs.jpc == [])
    ensures Seg(fs0, WithBools(fs, jmp, reg), t, f)
  {
    WithBoolsExtended(fs0, fs, jmp, reg, t, f);
    WithBoolsReady(fs, jmp, reg);
    JumpsInside(fs0, fs, t, f);
    var fs1 := WithBools(fs, jmp, reg);
    var more := fs1.code[Pc(fs)..];
    assert fs1.code == fs.code + more;
    WithBoolsJpc(fs, jmp, reg);
    hide Extended, WithBools, Ready;
    GrowList(fs.code, more, Pc(fs0), t);
    GrowList(fs.code, more, Pc(fs0), f);
    WithBoolsLists(fs0, fs, t, f, jmp, reg);
    hide IsList, Tested;
  }

  lemma WithBoolsLists(fs0: State, fs: State, t: seq<nat>, f: seq<nat>, jmp: bool, reg: nat)
    requires Seg(fs0, fs, t, f) && (jmp ==> fs.jpc == [])
    ensures var fs1 := WithBools(fs, jmp, reg);
      IsList(fs1.code, fs1.jpc) && Disjoint(fs1.jpc, t) && Disjoint(fs1.jpc, f)
  {
    WithBoolsJpc(fs, jmp, reg);
    JumpsInside(fs0, fs, t, f);
    WithBoolsReady(fs, jmp, reg);
    hide WithBools, Extended, IsList, Tested;
  }

  lemma WithBoolsLoads(fs: State, jmp: bool, reg: nat)
    requires (jmp ==> fs.jpc == []) && (forall j :: j in fs.jpc ==> j < Pc(fs))
    ensures var fs1, pf := WithBools(fs, jmp, reg), if jmp then Pc(fs) else Pc(fs) + 1;
      LoadsBool(fs1, pf, reg, false) && LoadsBool(fs1, pf + 1, reg, true) && fs1.code[..Pc(fs)] == fs.code
  {}

  lemma WithBoolsRun(fs: State, t: set<nat>, jmp: bool, reg: nat, env: Env, pc: nat, regs: Regs)
    requires NoTestLast(fs.code) && (jmp ==> fs.jpc == []) && (forall j :: j in t || j in fs.jpc ==> j < Pc(fs))
    requires pc <= Pc(fs)
    requires !Run(fs.code, env, t + Elements(fs.jpc), pc, regs).Stuck?
    ensures Run(WithBools(fs, jmp, reg).code, env, t + Elements(WithBools(fs, jmp, reg).jpc), pc, regs) ==
      match Run(fs.code, env, t + Elements(fs.jpc), pc, regs)
      case Fall(r) => (if jmp then Fall(r[reg := Bool(false)]) else Exit(Pc(fs), r, false))
      case o => o
  {
    var fs1 := WithBools(fs, jmp, reg);
    var p, p1 := t + Elements(fs.jpc), t + Elements(fs1.jpc);
    WithBoolsLoads(fs, jmp, reg);
    WithBoolsJpc(fs, jmp, reg);
    hide Run, WithBools, LoadsBool;
    RunExtend(fs.code, fs1.code, env, p, p1, pc, regs);
    var o := Run(fs.code, env, p, pc, regs);
    if o.Fall? { BoolsRun(fs, jmp, reg, env, p1, o.regs); }
  }

  lemma WithBoolsFlow(fs0: State, fs: State, t: seq<nat>, f: seq<nat>, jmp: bool, reg: nat, env: Env, regs: Regs)
    requires Seg(fs0, fs, t, f) && (jmp ==> fs.jpc == []) && !Flow(fs0, fs, Both(t, f), env, regs).Stuck?
    ensures Flow(fs0, WithBools(fs, jmp, reg), Both(t, f), env, regs) ==
      match Flow(fs0, fs, Both(t, f), env, regs)
      case Fall(r) => Fall(if jmp then r[reg := Bool(false)] else r)
      case o => o
  {
    hide Seg, Run, WithBools, NoTestLast;
    JumpsInside(fs0, fs, t, f);
    JpcInside(fs0, fs, t, f);
    WithBoolsRun(fs, Both(t, f), jmp, reg, env, Pc(fs0), regs);
    WithBoolsJpc(fs, jmp, reg);
    var o := Run(fs.code, env, Both(t, f) + Elements(fs.jpc), Pc(fs0), regs);
    if o.Exit? { ExitsArePending(fs.code, env, Both(t, f) + Elements(fs.jpc), Pc(fs0), regs); }
  }

  lemma WithBoolsJpc(fs: State, jmp: bool, reg: nat)
    ensures WithBools(fs, jmp, reg).jpc == if jmp then fs.jpc else [Pc(fs)] + fs.jpc
    ensures Pc(WithBools(fs, jmp, reg)) >= Pc(fs)
    ensures WithBools(fs, jmp, reg).freereg == fs.freereg && WithBools(fs, jmp, reg).nactvar == fs.nactvar
  {}

  lemma BoolsRun(fs: State, jmp: bool, reg: nat, env: Env, pending: set<nat>, r: Regs)
    requires if jmp then Pc(fs) !in pending && Pc(fs) + 1 !in pending else Pc(fs) in pending
    ensures Run(WithBools(fs, jmp, reg).code, env, pending, Pc(fs), r)
      == if jmp then Fall(r[reg := Bool(false)]) else Exit(Pc(fs), r, false)
  {
    if jmp {
      var code := WithBools(fs, jmp, reg).code;
      assert code[Pc(fs)] == LOADBOOL(reg, false, true);
      assert Run(code, env, pending, |code|, r[reg := Bool(false)]) == Fall(r[reg := Bool(false)]);
    }
  }

  // ----- exp2reg ---------------------------------------------------------------------------------------

  /** Running the code leaves `v` in the register, and the other registers below `n` alone. */
  ghost predicate Stored(fs0: State, fs: State, reg: nat, env: Env, n: nat, regs: Regs, v: Value) {
    match Flow(fs0, fs, {}, env, regs)
    case Fall(r) => AgreeBut(r, regs, n, reg) && Get(r, reg) == v
    case _ => false
  }

  lemma HasJumpsIff(d: Desc)
    requires Disjoint(d.t, d.f)
    ensures HasJumps(d) <==> d.t != [] || d.f != []
  {
    if d.t != [] && d.f != [] {
      assert d.t[0] in d.t && d.f[0] in d.f;
    }
  }

  /** The state before the jumps are patched: booleans have been loaded if a jump needs one. */
  function Booled(fs: State, d: Desc, reg: nat): (State, nat, nat) {
    if NeedValue(fs.code, d.t) || NeedValue(fs.code, d.f) then LoadBools(fs, d, reg) else (fs, 0, 0)
  }

  lemma BooledSeg(fs0: State, fs: State, d: Desc, reg: nat)
    requires Seg(fs0, fs, d.t, d.f) && (d.k == VJMP ==> fs.jpc == []) && (d.t != [] || d.f != [])
    ensures Seg(fs0, Booled(fs, d, reg).0, d.t, d.f)
    ensures Booled(fs, d, reg).0.freereg == fs.freereg && Booled(fs, d, reg).0.nactvar == fs.nactvar
  {
    hide Seg, NeedValue;
    LoadBoolsIs(fs, d, reg);
    WithBoolsSeg(fs0, fs, d.t, d.f, d.k == VJMP, reg);
    WithBoolsJpc(fs, d.k == VJMP, reg);
    hide WithBools, LoadBools;
  }

  /** The lists and where their jumps without a value can go. */
  ghost predicate Defaults(fs: State, t: seq<nat>, f: seq<nat>, reg: nat, pf: nat, pt: nat) {
    && Default(fs, f, pf, reg, false) && Default(fs, t, pt, reg, true)
    && (LoadsBool(fs, pf, reg, false) || LoadsBool(fs, pt, reg, true) ==>
      forall j :: j in t || j in f ==> j < pf && j < pt)
  }

  lemma WithBoolsDefaults(fs0: State, fs: State, t: seq<nat>, f: seq<nat>, jmp: bool, reg: nat)
    requires Seg(fs0, fs, t, f) && (jmp ==> fs.jpc == [])
    ensures var pf := if jmp then Pc(fs) else Pc(fs) + 1; Defaults(WithBools(fs, jmp, reg), t, f, reg, pf, pf + 1)
  {
    JumpsInside(fs0, fs, t, f);
    JpcInside(fs0, fs, t, f);
    hide Seg;
    WithBoolsLoads(fs, jmp, reg);
    hide LoadsBool, WithBools, HasValue;
  }

  lemma BooledDefaults(fs0: State, fs: State, d: Desc, reg: nat)
    requires Seg(fs0, fs, d.t, d.f) && (d.k == VJMP ==> fs.jpc == []) && (d.t != [] || d.f != [])
    ensures var (fs1, pf, pt) := Booled(fs, d, reg); Defaults(fs1, d.t, d.f, reg, pf, pt)
  {
    hide Seg, LoadBools, Defaults, NeedValue, WithBools, LoadsBool, HasValue;
    if NeedValue(fs.code, d.t) || NeedValue(fs.code, d.f) {
      LoadBoolsIs(fs, d, reg);
      WithBoolsDefaults(fs0, fs, d.t, d.f, d.k == VJMP, reg);
    } else {
      StartDefaults(fs0, fs, d, reg);
    }
  }

  lemma StartDefaults(fs0: State, fs: State, d: Desc, reg: nat)
    requires Seg(fs0, fs, d.t, d.f) && !NeedValue(fs.code, d.t) && !NeedValue(fs.code, d.f) && (d.t != [] || d.f != [])
    ensures var (fs1, pf, pt) := Booled(fs, d, reg); Defaults(fs1, d.t, d.f, reg, pf, pt)
  {
    hide Seg, LoadsBool, HasValue, LoadBools;
    NoBoolsAtStart(fs0, fs, d.t, d.f, reg);
  }

  lemma JpcInside(fs0: State, fs: State, t: seq<nat>, f: seq<nat>)
    requires Seg(fs0, fs, t, f)
    ensures (forall j :: j in fs.jpc ==> j < Pc(fs)) && Pc(fs0) <= Pc(fs) && NoTestLast(fs.code)
  {}

  lemma NoBoolsAtStart(fs0: State, fs: State, t: seq<nat>, f: seq<nat>, reg: nat)
    requires Seg(fs0, fs, t, f) && (t != [] || f != [])
    ensures !LoadsBool(fs, 0, reg, false) && !LoadsBool(fs, 0, reg, true)
  {
    hide Extended, Ready, IsList;
    var j := if t != [] then t[0] else f[0];
    assert j in t || j in f;
    assert IsTest(fs.code[j - 1]) && 0 < j < Pc(fs);
  }

  lemma BooledMeans(fs0: State, fs: State, d: Desc, reg: nat, env: Env, n: nat, regs: Regs, v: Value)
    requires Seg(fs0, fs, d.t, d.f) && (d.k == VJMP ==> fs.jpc == [] && NeedValue(fs.code, d.t))
    requires LoadsOrFalse(fs0, fs, d.t, d.f, reg, d.k == VJMP, env, n, regs, v)
    ensures LoadsOrFalse(fs0, Booled(fs, d, reg).0, d.t, d.f, reg, false, env, n, regs, v)
  {
    hide Seg, NeedValue, LoadBools, Flow;
    if NeedValue(fs.code, d.t) || NeedValue(fs.code, d.f) {
      JumpsInside(fs0, fs, d.t, d.f);
      LoadBoolsIs(fs, d, reg);
      WithBoolsFlow(fs0, fs, d.t, d.f, d.k == VJMP, reg, env, regs);
      WithBoolsPrefix(fs, d.k == VJMP, reg);
      var o := Flow(fs0, fs, Both(d.t, d.f), env, regs);
      if o.Exit? {
        hide WithBools;
        LeavesKept(fs.code, WithBools(fs, d.k == VJMP, reg).code, d.t, d.f, n, regs, v, o);
        hide Leaves;
      } else {
        hide WithBools;
      }
    }
  }

  lemma WithBoolsPrefix(fs: State, jmp: bool, reg: nat)
    ensures forall i :: 0 <= i < Pc(fs) ==>
      i < Pc(WithBools(fs, jmp, reg)) && WithBools(fs, jmp, reg).code[i] == fs.code[i]
  {}

  /** Leaving through a jump delivers the value to the register. */
  lemma DeliversValue(fs: State, t: seq<nat>, f: seq<nat>, reg: nat, n: nat, regs: Regs, v: Value, o: Outcome, b: bool)
    requires o.Exit? && Leaves(fs.code, t, f, n, regs, v, o) && (if b then o.at in t else o.at in f)
    ensures AgreeBut(Delivered(fs, o.at, reg, b, o.regs), regs, n, reg)
    ensures Get(Delivered(fs, o.at, reg, b, o.regs), reg) == v
  {}

  lemma PatchedToDefault(fs0: State, fs: State, list: seq<nat>, other: seq<nat>, reg: nat, p: nat, b: bool, q: nat,
                         c: bool)
    requires Seg(fs0, fs, list, other) && Default(fs, list, p, reg, b) && Default(fs, other, q, reg, c)
    requires forall j :: j in other ==> j < Pc(fs) && PatchedTo(fs, list, reg, p).code[j - 1] == fs.code[j - 1]
    requires LoadsBool(fs, q, reg, c) ==> forall j :: j in list ==> j < q
    ensures Default(PatchedTo(fs, list, reg, p), other, q, reg, c)
  {
    hide Seg, Patch, Patched;
    JumpsInside(fs0, fs, list, other);
    assert Pc(PatchedTo(fs, list, reg, p)) == Pc(fs);
    if LoadsBool(fs, q, reg, c) {
      PatchedToTail(fs, list, reg, p, q);
      assert fs.code[q] == fs.code[q..][0];
      assert PatchedTo(fs, list, reg, p).code[q] == PatchedTo(fs, list, reg, p).code[q..][0];
    }
  }

  /** Both lists of an expression are patched to its end. */
  function PatchedBoth(fs: State, t: seq<nat>, f: seq<nat>, reg: nat, pf: nat, pt: nat): State {
    PatchedTo(PatchedTo(fs, f, reg, pf), t, reg, pt)
  }

  lemma PatchedBothSeg(fs0: State, fs: State, t: seq<nat>, f: seq<nat>, reg: nat, pf: nat, pt: nat)
    requires Seg(fs0, fs, t, f)
    ensures Seg(fs0, PatchedBoth(fs, t, f, reg, pf, pt), [], [])
  {
    hide Seg, PatchedTo;
    Swap(fs0, fs, t, f);
    PatchedToSeg(fs0, fs, f, t, reg, pf);
    Swap(fs0, PatchedTo(fs, f, reg, pf), [], t);
    PatchedToSeg(fs0, PatchedTo(fs, f, reg, pf), t, [], reg, pt);
  }

  lemma PatchedBothFlow(fs0: State, fs: State, t: seq<nat>, f: seq<nat>, reg: nat, pf: nat, pt: nat, env: Env,
                        regs: Regs)
    requires Seg(fs0, fs, t, f) && Defaults(fs, t, f, reg, pf, pt)
    requires Flow(fs0, fs, Both(t, f), env, regs).Exit? ==> Flow(fs0, fs, Both(t, f), env, regs).tested
    ensures Flow(fs0, PatchedBoth(fs, t, f, reg, pf, pt), {}, env, regs) ==
      match Flow(fs0, fs, Both(t, f), env, regs)
      case Exit(j, r, tested) =>
        if j in f then Fall(Delivered(fs, j, reg, false, r))
        else if j in t then Fall(Delivered(fs, j, reg, true, r))
        else Exit(j, r, tested)
      case o => o
  {
    hide Seg, Patch, Flow, LoadsBool;
    var fs1 := PatchedTo(fs, f, reg, pf);
    assert Both(f, t) == Both(t, f) && Both(t, []) == Elements(t) && Elements([]) == {};
    Swap(fs0, fs, t, f);
    PatchedToSeg(fs0, fs, f, t, reg, pf);
    Swap(fs0, fs1, [], t);
    assert Pc(fs1) == Pc(fs);
    hide PatchedTo;
    PatchedToDefault(fs0, fs, f, t, reg, pf, false, pt, true);
    PatchedToFlow(fs0, fs, f, t, reg, pf, false, env, regs);
    PatchedToFlow(fs0, fs1, t, [], reg, pt, true, env, regs);
  }

  lemma FinishShape(fs0: State, fs: State, d: Desc, reg: nat)
    requires Seg(fs0, fs, d.t, d.f) && (d.k == VJMP ==> fs.jpc == [])
    ensures Seg(fs0, Finish(fs, d, reg), [], [])
    ensures Finish(fs, d, reg).freereg == fs.freereg && Finish(fs, d, reg).nactvar == fs.nactvar
  {
    HasJumpsIff(d);
    hide Seg, HasJumps;
    if HasJumps(d) {
      BooledSeg(fs0, fs, d, reg);
      var (fs1, pf, pt) := Booled(fs, d, reg);
      PatchedBothSeg(fs0, fs1, d.t, d.f, reg, pf, pt);
      assert Finish(fs, d, reg) == PatchedBoth(fs1, d.t, d.f, reg, pf, pt);
    }
  }

  lemma FinishMeans(fs0: State, fs: State, d: Desc, reg: nat, env: Env, n: nat, regs: Regs, v: Value)
    requires Seg(fs0, fs, d.t, d.f) && (d.k == VJMP ==> fs.jpc == [] && NeedValue(fs.code, d.t))
    requires LoadsOrFalse(fs0, fs, d.t, d.f, reg, d.k == VJMP, env, n, regs, v)
    ensures Stored(fs0, Finish(fs, d, reg), reg, env, n, regs, v)
  {
    HasJumpsIff(d);
    if HasJumps(d) {
      hide Seg, HasJumps, LoadsOrFalse, Stored, NeedValue, Defaults;
      BooledSeg(fs0, fs, d, reg);
      BooledDefaults(fs0, fs, d, reg);
      BooledMeans(fs0, fs, d, reg, env, n, regs, v);
      var (fs1, pf, pt) := Booled(fs, d, reg);
      assert Finish(fs, d, reg) == PatchedBoth(fs1, d.t, d.f, reg, pf, pt);
      hide Booled, Finish, PatchedBoth;
      PatchedBothMeans(fs0, fs1, d.t, d.f, reg, pf, pt, env, n, regs, v);
    } else {
      hide Seg, Flow, HasJumps, AgreeBut;
      assert d.t == [] && d.f == [] && Both([], []) == {};
    }
  }

  lemma PatchedBothMeans(fs0: State, fs: State, t: seq<nat>, f: seq<nat>, reg: nat, pf: nat, pt: nat, env: Env, n: nat,
                         regs: Regs, v: Value)
    requires Seg(fs0, fs, t, f) && Defaults(fs, t, f, reg, pf, pt)
    requires LoadsOrFalse(fs0, fs, t, f, reg, false, env, n, regs, v)
    ensures Stored(fs0, PatchedBoth(fs, t, f, reg, pf, pt), reg, env, n, regs, v)
  {
    var o := Flow(fs0, fs, Both(t, f), env, regs);
    hide Seg, Flow, PatchedBoth, AgreeBut, Delivered, Defaults;
    PatchedBothFlow(fs0, fs, t, f, reg, pf, pt, env, regs);
    if o.Exit? {
      DeliversValue(fs, t, f, reg, n, regs, v, o, o.at !in f);
    }
  }
}
