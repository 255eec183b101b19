/** What the steps of the code generator do to the runs of the code. */
module CodeSteps {
  import opened LuaCode
  import opened CodeGen
  import opened CodeRuns
  import opened CodeShape

  function Both(t: seq<nat>, f: seq<nat>): set<nat> { Elements(t) + Elements(f) }

  /** A run of the code added since `fs0`, to its end or to one of `exits`. */
  function Flow(fs0: State, fs: State, exits: set<nat>, env: Env, regs: Regs): Outcome {
    Out(fs.code, fs.jpc, exits, env, Pc(fs0), regs)
  }

  lemma LandFlow(fs0: State, fs: State, t: seq<nat>, f: seq<nat>, env: Env, regs: Regs)
    requires Seg(fs0, fs, t, f)
    ensures Flow(fs0, DischargeJpc(fs), Both(t, f), env, regs) == Flow(fs0, fs, Both(t, f), env, regs)
  {
    hide Run, Patch;
    LandRun(fs.code, env, Both(t, f), fs.jpc, Pc(fs0), regs);
    assert Both(t, f) + Elements([]) == Both(t, f);
  }

  /** Where the code of `fs1` ended, control goes on in the code added to it. */
  lemma TransFlow(fs0: State, fs1: State, fs2: State, t: seq<nat>, f: seq<nat>, exits: set<nat>, env: Env, regs: Regs)
    requires Seg(fs0, fs1, t, f) && Extended(fs1.code, fs1.jpc, fs2.code, fs2.jpc)
    requires forall j :: j in exits ==> Pc(fs1) <= j < Pc(fs2)
    requires !Flow(fs0, fs1, Both(t, f), env, regs).Stuck?
    ensures Flow(fs0, fs2, Both(t, f) + exits, env, regs) ==
      match Flow(fs0, fs1, Both(t, f), env, regs)
      case Fall(r) => Flow(fs1, fs2, exits, env, r)
      case o => o
  {
    hide Run, Patch, IsList;
    Continue(fs1.code, fs1.jpc, Both(t, f), fs2.code, fs2.jpc, exits, env, Pc(fs0), regs);
  }

  /** A plain instruction runs and falls through. */
  predicate Plain(i: Instr) { !IsTest(i) && !i.JMP? && !(i.LOADBOOL? && i.skip) }

  lemma AppendFlow(fs0: State, fs: State, t: seq<nat>, f: seq<nat>, i: Instr, env: Env, regs: Regs)
    requires Seg(fs0, fs, t, f) && fs.jpc == [] && Plain(i)
    requires !Flow(fs0, fs, Both(t, f), env, regs).Stuck?
    ensures Flow(fs0, Append(fs, i), Both(t, f), env, regs) ==
      match Flow(fs0, fs, Both(t, f), env, regs)
      case Fall(r) => Fall(Written(env, r, i))
      case o => o
  {
    AppendStep(fs, i, env);
    hide Run, Seg;
    assert Extended(fs.code, [], Append(fs, i).code, []) by { AppendExtended(fs, fs, i); }
    TransFlow(fs0, fs, Append(fs, i), t, f, {}, env, regs);
    assert Both(t, f) + {} == Both(t, f);
  }

  lemma AppendStep(fs: State, i: Instr, env: Env)
    requires Plain(i) && fs.jpc == []
    ensures forall r :: Flow(fs, Append(fs, i), {}, env, r) == Fall(Written(env, r, i))
  {
    var code := Append(fs, i).code;
    assert code[Pc(fs)] == i && {} + Elements([]) == {};
    forall r ensures Run(code, env, {}, Pc(fs), r) == Fall(Written(env, r, i)) {
      assert Run(code, env, {}, Pc(fs) + 1, Written(env, r, i)) == Fall(Written(env, r, i));
    }
  }

  /** A test either takes its jump or falls through. */
  lemma WithTestFlow(fs0: State, fs: State, t: seq<nat>, f: seq<nat>, test: Instr, env: Env, regs: Regs)
    requires Seg(fs0, fs, t, f) && fs.jpc == [] && PlainTest(test)
    requires !Flow(fs0, fs, Both(t, f), env, regs).Stuck?
    ensures Flow(fs0, WithTest(fs, test), Both(t, f) + {Pc(fs) + 1}, env, regs) ==
      match Flow(fs0, fs, Both(t, f), env, regs)
      case Fall(r) => if Accepts(env, r, test) then Exit(Pc(fs) + 1, r, true) else Fall(r)
      case o => o
  {
    WithTestStep(fs, test, env);
    hide Run, Seg;
    assert Extended(fs.code, [], Append(fs, test).code, []) by { AppendExtended(fs, fs, test); }
    assert Extended(fs.code, [], WithTest(fs, test).code, []) by { AppendExtended(fs, Append(fs, test), JMP(-1)); }
    TransFlow(fs0, fs, WithTest(fs, test), t, f, {Pc(fs) + 1}, env, regs);
  }

  lemma WithTestStep(fs: State, test: Instr, env: Env)
    requires PlainTest(test) && fs.jpc == []
    ensures forall r ::
      Flow(fs, WithTest(fs, test), {Pc(fs) + 1}, env, r) ==
        if Accepts(env, r, test) then Exit(Pc(fs) + 1, r, true) else Fall(r)
  {
    var code, j := WithTest(fs, test).code, Pc(fs) + 1;
    assert code[j - 1] == test && code[j] == JMP(-1) && {j} + Elements([]) == {j} && |code| == j + 1;
    forall r ensures Run(code, env, {j}, j - 1, r) == if Accepts(env, r, test) then Exit(j, r, true) else Fall(r) {
      assert Run(code, env, {j}, j + 1, r) == Fall(r);
    }
  }

  /** Linking lists together leaves the runs as they are. */
  lemma JoinFlow(fs0: State, fs: State, l: seq<nat>, x: seq<nat>, exits: set<nat>, env: Env, regs: Regs)
    requires IsList(fs.code, l) && forall j :: j in l ==> j in exits || j in fs.jpc
    ensures Flow(fs0, Concat(fs, l, x), exits, env, regs) == Flow(fs0, fs, exits, env, regs)
  {
    hide Run;
    ConcatKeeps(fs.code, l, x);
    PendingRun(fs.code, Concat(fs, l, x).code, env, exits + Elements(fs.jpc), Pc(fs0), regs);
  }

  /** Leaving through a jump to here is falling through. */
  lemma HereFlow(fs0: State, fs: State, t: seq<nat>, f: seq<nat>, env: Env, regs: Regs)
    requires Seg(fs0, fs, t, f)
    ensures Flow(fs0, PatchToHere(fs, t), Elements(f), env, regs) == Land(t, Flow(fs0, fs, Both(t, f), env, regs))
  {
    hide Run;
    ConcatKeeps(fs.code, fs.jpc, t);
    var pending := Both(t, f) + Elements(fs.jpc);
    assert Elements(f) + Elements(fs.jpc + t) == pending;
    PendingRun(fs.code, PatchToHere(fs, t).code, env, pending, Pc(fs0), regs);
  }
}
