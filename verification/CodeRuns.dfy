/** How runs of code with pending jumps change when code is added and lists of jumps are patched. */
module CodeRuns {
  import opened LuaCode
  import opened CodeGen

  function Elements(list: seq<nat>): set<nat> { set j | j in list }

  /** Reaching a jump that is pending to the end of the code counts as falling through. */
  function Land(jpc: seq<nat>, o: Outcome): Outcome {
    if o.Exit? && o.at in jpc then Fall(o.regs) else o
  }

  /** A run of code whose last jumps to here, `jpc`, are still pending, to one of the jumps `exits`. */
  function Out(code: Code, jpc: seq<nat>, exits: set<nat>, env: Env, pc: nat, regs: Regs): Outcome {
    Land(jpc, Run(code, env, exits + Elements(jpc), pc, regs))
  }

  /** Every member of the list is a jump, and a TESTSET before it has no register yet. */
  ghost predicate Jumps(code: Code, list: seq<nat>) {
    forall j :: j in list ==>
      && j < |code| && code[j].JMP?
      && (j >= 1 && code[j - 1].TESTSET? ==> code[j - 1].to == NoReg)
  }

  /** Registers once control has left through the jump at `j`, its TESTSET having been resolved. */
  function Filled(code: Code, j: nat, reg: Target, regs: Regs): Regs
    requires j < |code|
  {
    if HasValue(code, j) && reg.To? && reg.r != code[j - 1].b then regs[reg.r := Get(regs, code[j - 1].b)] else regs
  }

  /** Code in which jumps of the list have been given new offsets, and their tests resolved. */
  ghost predicate Rewired(code: Code, code1: Code, list: seq<nat>, reg: Target) {
    && |code1| == |code|
    && forall i :: 0 <= i < |code| ==>
      if i in list then code1[i].JMP? else code1[i] == (if i + 1 in list then Resolve(code[i], reg) else code[i])
  }

  function Refill(code: Code, list: seq<nat>, reg: Target, o: Outcome): Outcome {
    if o.Exit? && o.tested && o.at in list && o.at < |code| then o.(regs := Filled(code, o.at, reg, o.regs)) else o
  }

  /** As long as the jumps are pending, only the value that a resolved test fills in is new. */
  lemma {:induction false} RewiredRun(code: Code, code1: Code, env: Env, pending: set<nat>, list: seq<nat>, reg: Target,
                                      pc: nat, regs: Regs)
    requires Rewired(code, code1, list, reg) && Jumps(code, list) && (forall j :: j in list ==> j in pending)
    ensures Run(code1, env, pending, pc, regs) == Refill(code, list, reg, Run(code, env, pending, pc, regs))
    decreases |code| - pc
  {
    if pc < |code| && pc !in pending {
      assert pc !in list;
      var i := code[pc];
      if IsTest(i) && pc + 1 in pending && Accepts(env, regs, i) {
        if pc + 1 in list {
          assert code1[pc] == Resolve(i, reg);
        }
      } else {
        var next := Successor(env, regs, i, pc);
        if pc + 1 in list {
          assert code1[pc] == Resolve(i, reg);
        }
        assert Successor(env, regs, code1[pc], pc) == next && Written(env, regs, code1[pc]) == Written(env, regs, i);
        if next > pc {
          RewiredRun(code, code1, env, pending, list, reg, next, Written(env, regs, i));
        }
      }
    }
  }

  /** Jumps that no longer are pending lead to where they say. */
  ghost predicate Forward(code: Code, list: seq<nat>) {
    forall j :: j in list ==> j < |code| && code[j].JMP? && code[j].sbx >= 0
  }

  function Released(code: Code, list: seq<nat>, env: Env, rest: set<nat>, o: Outcome): Outcome {
    if o.Exit? && o.at in list && o.at < |code| && code[o.at].JMP? && code[o.at].sbx >= 0 then
      Run(code, env, rest, o.at + 1 + code[o.at].sbx, o.regs)
    else o
  }

  lemma {:induction false} ReleaseRun(code: Code, env: Env, pending: set<nat>, list: seq<nat>, pc: nat, regs: Regs)
    requires Forward(code, list) && (forall j :: j in list ==> j in pending)
    ensures Run(code, env, pending - Elements(list), pc, regs)
      == Released(code, list, env, pending - Elements(list), Run(code, env, pending, pc, regs))
    decreases |code| - pc
  {
    var rest := pending - Elements(list);
    if pc < |code| && pc !in pending {
      var i := code[pc];
      if IsTest(i) && pc + 1 in pending && Accepts(env, regs, i) {
      } else {
        var next := Successor(env, regs, i, pc);
        if next > pc {
          ReleaseRun(code, env, pending, list, next, Written(env, regs, i));
        }
      }
    }
  }

  lemma PatchRewires(code: Code, list: seq<nat>, vtarget: nat, reg: Target, dtarget: nat)
    requires Jumps(code, list)
    requires forall j :: j in list ==> if HasValue(code, j) then j < vtarget else j < dtarget
    ensures var code1 := Patch(code, list, vtarget, reg, dtarget);
      && Rewired(code, code1, list, reg) && Forward(code1, list)
      && forall j :: j in list ==> code1[j] == JMP((if HasValue(code, j) then vtarget else dtarget) as int - (j as int + 1))
  {
    var code1 := Patch(code, list, vtarget, reg, dtarget);
    forall i | 0 <= i < |code| ensures code1[i] == Patched(code, list, vtarget, reg, dtarget, i) {}
  }

  /** Patching a list makes the runs that stopped at one of its jumps go on at its new target. */
  lemma PatchRun(code: Code, env: Env, pending: set<nat>, list: seq<nat>, vtarget: nat, reg: Target, dtarget: nat,
                 pc: nat, regs: Regs)
    requires Jumps(code, list) && (forall j :: j in list ==> j in pending)
    requires forall j :: j in list ==> if HasValue(code, j) then j < vtarget else j < dtarget
    ensures var code1, rest := Patch(code, list, vtarget, reg, dtarget), pending - Elements(list);
      Run(code1, env, rest, pc, regs) ==
      match Run(code, env, pending, pc, regs)
      case Exit(j, r, tested) =>
        if j in list then
          Run(code1, env, rest, if HasValue(code, j) then vtarget else dtarget, if tested then Filled(code, j, reg, r) else r)
        else Exit(j, r, tested)
      case o => o
  {
    hide Run, Patch;
    var code1 := Patch(code, list, vtarget, reg, dtarget);
    PatchRewires(code, list, vtarget, reg, dtarget);
    RewiredRun(code, code1, env, pending, list, reg, pc, regs);
    ReleaseRun(code1, env, pending, list, pc, regs);
  }

  /** What the pending jumps contain does not matter. */
  lemma {:induction false} PendingRun(code: Code, code1: Code, env: Env, pending: set<nat>, pc: nat, regs: Regs)
    requires |code1| == |code| && forall i :: 0 <= i < |code| ==> i in pending || code1[i] == code[i]
    ensures Run(code1, env, pending, pc, regs) == Run(code, env, pending, pc, regs)
    decreases |code| - pc
  {
    if pc < |code| && pc !in pending {
      if IsTest(code[pc]) && pc + 1 in pending && Accepts(env, regs, code[pc]) {
      } else {
        var next := Successor(env, regs, code[pc], pc);
        if next > pc {
          PendingRun(code, code1, env, pending, next, Written(env, regs, code[pc]));
        }
      }
    }
  }

  /** Pending jumps to here, patched to here. */
  lemma LandRun(code: Code, env: Env, exits: set<nat>, jpc: seq<nat>, pc: nat, regs: Regs)
    requires Jumps(code, jpc) && exits !! Elements(jpc)
    ensures Run(Patch(code, jpc, |code|, NoReg, |code|), env, exits, pc, regs) == Out(code, jpc, exits, env, pc, regs)
  {
    PatchRun(code, env, exits + Elements(jpc), jpc, |code|, NoReg, |code|, pc, regs);
    assert exits + Elements(jpc) - Elements(jpc) == exits;
  }

  /** Code that has been added to: either nothing was, or the jumps pending to its end have been
    * patched to go there. */
  ghost predicate Extended(code: Code, jpc: seq<nat>, code1: Code, jpc1: seq<nat>) {
    || (code1 == code && jpc1 == jpc)
    || (&& |code1| >= |code| && code1[..|code|] == Patch(code, jpc, |code|, NoReg, |code|)
        && forall j :: j in jpc1 ==> |code| <= j < |code1|)
  }

  ghost predicate NoTestLast(code: Code) { |code| > 0 ==> !IsTest(code[|code| - 1]) }

  /** Running on: where the shorter code fell through, the longer code goes on. */
  lemma Continue(code: Code, jpc: seq<nat>, exits: set<nat>, code1: Code, jpc1: seq<nat>, exits1: set<nat>,
                 env: Env, pc: nat, regs: Regs)
    requires Extended(code, jpc, code1, jpc1) && Jumps(code, jpc) && NoTestLast(code) && pc <= |code|
    requires exits !! Elements(jpc) && (forall j :: j in exits ==> j < |code|)
    requires forall j :: j in exits1 ==> |code| <= j < |code1|
    requires !Out(code, jpc, exits, env, pc, regs).Stuck?
    ensures Out(code1, jpc1, exits + exits1, env, pc, regs) ==
      match Out(code, jpc, exits, env, pc, regs)
      case Fall(r) => Out(code1, jpc1, exits1, env, |code|, r)
      case o => o
  {
    if code1 == code && jpc1 == jpc {
      assert exits1 == {};
      assert exits + exits1 == exits;
    } else {
      var code2 := Patch(code, jpc, |code|, NoReg, |code|);
      var all := exits + exits1 + Elements(jpc1);
      LandRun(code, env, exits, jpc, pc, regs);
      assert |code| > 0 ==> code2[|code| - 1] == Patched(code, jpc, |code|, NoReg, |code|, |code| - 1);
      RunExtend(code2, code1, env, exits, all, pc, regs);
      match Out(code, jpc, exits, env, pc, regs) {
        case Fall(r) =>
          RunFrame(code1, code1, env, all, exits1 + Elements(jpc1), |code|, |code|, r);
        case Exit(j, r, tested) =>
          ExitsArePending(code2, env, exits, pc, regs);
      }
    }
  }

  /** A run stops only at pending jumps. */
  lemma {:induction false} ExitsArePending(code: Code, env: Env, pending: set<nat>, pc: nat, regs: Regs)
    requires Run(code, env, pending, pc, regs).Exit?
    ensures Run(code, env, pending, pc, regs).at in pending
    decreases |code| - pc
  {
    if pc in pending {
    } else if IsTest(code[pc]) && pc + 1 in pending && Accepts(env, regs, code[pc]) {
    } else {
      ExitsArePending(code, env, pending, Successor(env, regs, code[pc], pc), Written(env, regs, code[pc]));
    }
  }
}
