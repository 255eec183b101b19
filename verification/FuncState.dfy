/** The code generator as it works in place: jump lists are threaded through the offsets of the jumps,
  * and an expression descriptor holds the heads of its lists. */
module CodeGenerator {
  import opened LuaCode
  import opened CodeGen
  import opened CodeRuns
  import opened CodeShape
  import opened CodeSteps
  import opened CodeExprs
  import opened CodeConds
  import opened CodeValues
  import opened CodeCompile

  const NO_JUMP := -1

  /** `expdesc`; `tlist` and `flist` are the lists that start at `t` and `f`. */
  class ExpDesc {
    var k: Kind
    var info: nat
    var t: int
    var f: int
    ghost var tlist: seq<nat>
    ghost var flist: seq<nat>

    constructor (k: Kind, info: nat)
      ensures Valid() && Value() == Desc(k, info, [], [])
    {
      this.k, this.info, this.t, this.f, this.tlist, this.flist := k, info, NO_JUMP, NO_JUMP, [], [];
    }

    ghost predicate Valid()
      reads this
    {
      t == Head(tlist) && f == Head(flist)
    }

    ghost function Value(): Desc
      reads this
    {
      Desc(k, info, tlist, flist)
    }
  }

  /** `FuncState`; `pc` is the length of `code`, and `pending` is the list that starts at `jpc`. */
  class FuncState {
    var code: Code
    var jpc: int
    var freereg: nat
    var nactvar: nat
    ghost var pending: seq<nat>

    constructor (nactvar: nat)
      ensures Valid() && Now() == State([], [], nactvar, nactvar) && Ready(Now())
    {
      this.code, this.jpc, this.freereg, this.nactvar, this.pending := [], NO_JUMP, nactvar, nactvar, [];
    }

    ghost predicate Valid()
      reads this
    {
      jpc == Head(pending)
    }

    ghost function Now(): State
      reads this
    {
      State(code, pending, freereg, nactvar)
    }

    // ----- jump lists ------------------------------------------------------------------------------

    /** `getjump`: the next jump of the list. */
    method GetJump(pc: nat, ghost list: seq<nat>, ghost i: nat) returns (next: int)
      requires i < |list| && pc == list[i] < |code| && code[pc] == JMP(Link(list, i))
      requires (i + 1 < |list| ==> list[i + 1] != list[i])
      ensures next == Head(list[i + 1..])
    {
      var offset := code[pc].sbx;
      assert offset == Link(list, i);
      if i + 1 < |list| {
        assert list[i + 1] != list[i] && list[i + 1..][0] == list[i + 1];
      }
      if offset == NO_JUMP {
        return NO_JUMP;
      }
      return pc + 1 + offset;
    }

    method FixJump(pc: nat, dest: nat)
      requires pc < |code|
      modifies this`code
      ensures code == old(code)[pc := JMP(dest as int - (pc as int + 1))]
    {
      code := code[pc := JMP(dest as int - (pc as int + 1))];
    }

    /** `luaK_concat`: the joined lists are one list. */
    method Concat(l1: int, l2: int, ghost list1: seq<nat>, ghost list2: seq<nat>) returns (l: int)
      requires IsList(code, list1) && IsList(code, list2) && Disjoint(list1, list2) && l1 == Head(list1)
      requires l2 == Head(list2)
      modifies this`code
      ensures code == ConcatCode(old(code), list1, list2) && IsList(code, list1 + list2) && l == Head(list1 + list2)
    {
      hide IsList, Disjoint, ConcatCode;
      ConcatList(code, list1, list2);
      ConcatIs(code, list1, list2);
      if l2 == NO_JUMP {
        return l1;
      }
      if l1 == NO_JUMP {
        return l2;
      }
      l := l1;
      var last: nat := l1;
      ghost var i := 0;
      ListAt(code, list1, i);
      var next := GetJump(last, list1, i);
      while next != NO_JUMP
        invariant code == old(code) && i < |list1| && last == list1[i] && next == Head(list1[i + 1..])
        decreases |list1| - i
      {
        i := i + 1;
        ListAt(code, list1, i);
        last := next;
        next := GetJump(last, list1, i);
      }
      ListAt(code, list1, i);
      assert i == |list1| - 1;
      FixJump(last, l2);
    }

    /** `getjumpcontrol`. */
    function JumpControl(pc: nat): (i: nat)
      requires pc < |code|
      reads this
      ensures i < |code|
    {
      if pc >= 1 && IsTest(code[pc - 1]) then pc - 1 else pc
    }

    /** `need_value`: some jump of the list carries no value. */
    method NeedsValue(l: int, ghost list: seq<nat>) returns (need: bool)
      requires IsList(code, list) && l == Head(list)
      ensures need == NeedValue(code, list)
    {
      var next := l;
      ghost var i := 0;
      assert list[0..] == list;
      while next != NO_JUMP
        invariant i <= |list| && next == Head(list[i..])
        invariant forall j :: 0 <= j < i ==> HasValue(code, list[j])
        decreases |list| - i
      {
        assert list[i..][0] == list[i] && list[i] in list;
        if !code[JumpControl(next)].TESTSET? {
          assert !HasValue(code, list[i]);
          return true;
        }
        next := GetJump(next, list, i);
        i := i + 1;
      }
      assert i == |list|;
      return false;
    }

    /** `patchtestreg`: a TESTSET gets its register, or becomes a TEST. */
    method PatchTestReg(node: nat, reg: Target) returns (patched: bool)
      requires node < |code| && code[node].JMP?
      modifies this`code
      ensures patched == HasValue(old(code), node)
      ensures code == TestResolved(old(code), node, reg)
    {
      var i := JumpControl(node);
      var instr := code[i];
      if !instr.TESTSET? {
        return false;
      }
      if reg.To? && reg.r != instr.b {
        code := code[i := TESTSET(reg, instr.b, instr.c)];
      } else {
        code := code[i := TEST(instr.b, instr.c)];
      }
      return true;
    }

    /** `removevalues`. */
    method RemoveValues(l: int, ghost list: seq<nat>)
      requires IsList(code, list) && l == Head(list)
      modifies this`code
      ensures code == CodeGen.RemoveValues(old(code), list)
    {
      hide CodeGen.RemoveValues, TestResolved, IsList;
      ghost var was := code;
      RemoveNone(was);
      var next := l;
      ghost var i := 0;
      assert list[..0] == [] && list[0..] == list;
      while next != NO_JUMP
        invariant i <= |list| && next == Head(list[i..])
        invariant code == CodeGen.RemoveValues(was, list[..i])
        decreases |list| - i
      {
        RemoveListStep(was, list, i);
        var node := next;
        next := GetJump(node, list, i);
        var _ := PatchTestReg(node, NoReg);
        i := i + 1;
      }
      assert list[..i] == list;
    }

    /** The body of the loop of `patchlistaux`. */
    method PatchJump(pc: nat, vtarget: nat, reg: Target, dtarget: nat)
      requires pc < |code| && code[pc].JMP?
      modifies this`code
      ensures code == PatchedJump(old(code), pc, vtarget, reg, dtarget)
    {
      hide Resolve;
      var patched := PatchTestReg(pc, reg);
      if patched {
        FixJump(pc, vtarget);
      } else {
        FixJump(pc, dtarget);
      }
    }

    /** `patchlistaux`: every jump of the list gets its target, every TESTSET before one its register, and
      * nothing else changes. */
    method PatchListAux(l: int, vtarget: nat, reg: Target, dtarget: nat, ghost list: seq<nat>)
      requires IsList(code, list) && l == Head(list)
      modifies this`code
      ensures code == Patch(old(code), list, vtarget, reg, dtarget)
    {
      hide Patch, PatchedJump, IsList;
      ghost var was := code;
      var pc := l;
      ghost var i := 0;
      assert list[..0] == [] && list[0..] == list;
      PatchNone(was, vtarget, reg, dtarget);
      while pc != NO_JUMP
        invariant i <= |list| && pc == Head(list[i..])
        invariant code == Patch(was, list[..i], vtarget, reg, dtarget)
        decreases |list| - i
      {
        PatchListStep(was, list, i, vtarget, reg, dtarget);
        var next := GetJump(pc, list, i);
        PatchJump(pc, vtarget, reg, dtarget);
        pc, i := next, i + 1;
      }
      assert list[..i] == list;
    }

    // ----- emitting ----------------------------------------------------------------------------------

    /** `dischargejpc`. */
    method DischargeJpc()
      requires Valid() && IsList(code, pending)
      modifies this`code, this`jpc, this`pending
      ensures Valid() && Now() == CodeGen.DischargeJpc(old(Now()))
    {
      hide Patch, IsList;
      PatchListAux(jpc, |code|, NoReg, |code|, pending);
      jpc, pending := NO_JUMP, [];
    }

    /** `luaK_code`. */
    method Emit(i: Instr) returns (pc: nat)
      requires Valid() && IsList(code, pending)
      modifies this`code, this`jpc, this`pending
      ensures Valid() && Now() == CodeGen.Emit(old(Now()), i) && pc == old(|code|)
    {
      hide Patch, IsList;
      DischargeJpc();
      code := code + [i];
      return |code| - 1;
    }

    /** `luaK_jump`. */
    method Jump() returns (j: int, ghost list: seq<nat>)
      requires Valid() && IsList(code, pending)
      modifies this`code, this`jpc, this`pending
      ensures Valid() && (Now(), list) == CodeGen.Jump(old(Now())) && j == Head(list) && IsList(code, list)
    {
      ghost var was := Now();
      var held, heldList := jpc, pending;
      jpc, pending := NO_JUMP, [];
      JumpLists(was);
      hide Patch, IsList;
      var pc := Emit(JMP(NO_JUMP));
      list := [pc] + heldList;
      j := Concat(pc, held, [pc], heldList);
    }

    method CondJump(i: Instr) returns (j: int, ghost list: seq<nat>)
      requires Valid() && IsList(code, pending)
      modifies this`code, this`jpc, this`pending
      ensures Valid() && (Now(), list) == CodeGen.CondJump(old(Now()), i) && j == Head(list) && IsList(code, list)
    {
      hide IsList, CodeGen.DischargeJpc, CodeGen.Jump;
      DischargedJpc(Now());
      EmptyList(CodeGen.Emit(Now(), i).code);
      var _ := Emit(i);
      j, list := Jump();
    }

    /** `luaK_patchtohere`. */
    method PatchToHere(l: int, ghost list: seq<nat>)
      requires Valid() && IsList(code, pending) && IsList(code, list) && Disjoint(pending, list) && l == Head(list)
      modifies this`code, this`jpc, this`pending
      ensures Valid() && Now() == CodeGen.PatchToHere(old(Now()), list) && IsList(code, pending)
    {
      hide IsList, Disjoint;
      jpc := Concat(jpc, l, pending, list);
      pending := pending + list;
    }

    // ----- registers ---------------------------------------------------------------------------------

    /** `freereg`: registers are freed in the order in which they were reserved. */
    method FreeReg(reg: nat)
      requires reg >= nactvar ==> reg + 1 == freereg
      modifies this`freereg
      ensures Now() == CodeGen.FreeReg(old(Now()), reg)
    {
      if reg >= nactvar {
        freereg := freereg - 1;
        assert reg == freereg;
      }
    }

    method FreeExp(e: ExpDesc)
      requires e.k == VNONRELOC && e.info >= nactvar ==> e.info + 1 == freereg
      modifies this`freereg
      ensures Now() == CodeGen.FreeExp(old(Now()), e.Value())
    {
      if e.k == VNONRELOC {
        FreeReg(e.info);
      }
    }

    /** `luaK_reserveregs` for one register. */
    method ReserveReg()
      modifies this`freereg
      ensures Now() == CodeGen.Reserve(old(Now()))
    {
      freereg := freereg + 1;
    }

    // ----- discharging -------------------------------------------------------------------------------

    /** `luaK_dischargevars`. */
    method DischargeVars(e: ExpDesc)
      requires Valid() && e.Valid() && IsList(code, pending)
      modifies this`code, this`jpc, this`pending, e`k, e`info
      ensures Valid() && e.Valid() && (Now(), e.Value()) == CodeGen.DischargeVars(old(Now()), old(e.Value()))
      ensures IsList(code, pending)
    {
      hide IsList, CodeGen.DischargeJpc;
      DischargedJpc(Now());
      match e.k {
        case VLOCAL => e.k := VNONRELOC;
        case VUPVAL =>
          var pc := Emit(GETUPVAL(0, e.info));
          e.k, e.info := VRELOCABLE, pc;
          EmptyList(code);
        case VGLOBAL =>
          var pc := Emit(GETGLOBAL(0, e.info));
          e.k, e.info := VRELOCABLE, pc;
          EmptyList(code);
        case _ =>
      }
    }

    /** `discharge2reg`. */
    method Discharge2Reg(e: ExpDesc, reg: nat)
      requires Valid() && e.Valid() && IsList(code, pending) && (e.k == VRELOCABLE ==> e.info < |code|)
      modifies this`code, this`jpc, this`pending, e`k, e`info
      ensures Valid() && e.Valid() && (Now(), e.Value()) == CodeGen.Discharge2Reg(old(Now()), old(e.Value()), reg)
    {
      hide IsList, CodeGen.DischargeJpc;
      DischargedJpc(Now());
      DischargeVars(e);
      match e.k {
        case VK => var _ := Emit(LOADK(reg, e.info));
        case VRELOCABLE => code := code[e.info := SetA(code[e.info], reg)];
        case VNONRELOC =>
          if reg != e.info {
            var _ := Emit(MOVE(reg, e.info));
          }
        case _ => return;
      }
      e.info, e.k := reg, VNONRELOC;
    }

    /** `discharge2anyreg`. */
    method Discharge2AnyReg(e: ExpDesc)
      requires Valid() && e.Valid() && IsList(code, pending) && (e.k == VRELOCABLE ==> e.info < |code|)
      modifies this`code, this`jpc, this`pending, this`freereg, e`k, e`info
      ensures Valid() && e.Valid() && (Now(), e.Value()) == CodeGen.Discharge2AnyReg(old(Now()), old(e.Value()))
    {
      hide IsList, CodeGen.Discharge2Reg;
      if e.k != VNONRELOC {
        ReserveReg();
        Discharge2Reg(e, freereg - 1);
      }
    }

    // ----- values ------------------------------------------------------------------------------------

    /** The first lines of `exp2reg`. */
    method LoadValue(e: ExpDesc, reg: nat, ghost fs0: State)
      requires Valid() && e.Valid() && Shape(fs0, Now(), e.Value())
      modifies this`code, this`jpc, this`pending, e`k, e`info, e`t, e`tlist
      ensures Valid() && e.Valid() && (Now(), e.Value()) == CodeGen.LoadValue(old(Now()), old(e.Value()), reg)
    {
      hide IsList, Disjoint, Shape, CodeGen.Discharge2Reg;
      ghost var fs, d := Now(), e.Value();
      ShapeLists(fs0, fs, d);
      if e.k == VJMP {
        JumpOfComparison(fs, d, reg);
        e.t := Concat(e.t, e.info, e.tlist, [e.info]);
        e.tlist := e.tlist + [e.info];
      } else {
        NoComparison(fs, d, reg);
        Discharge2Reg(e, reg);
      }
    }

    /** `code_label`. */
    method CodeLabel(a: nat, b: bool, jump: bool) returns (pc: nat)
      requires Valid() && IsList(code, pending)
      modifies this`code, this`jpc, this`pending
      ensures Valid() && Now() == CodeGen.Emit(old(Now()), LOADBOOL(a, b, jump)) && pc == old(|code|)
    {
      hide IsList;
      pc := Emit(LOADBOOL(a, b, jump));
    }

    /** The loads of booleans in `exp2reg`. */
    method LoadBools(e: ExpDesc, reg: nat) returns (pf: nat, pt: nat)
      requires Valid() && Ready(Now())
      modifies this`code, this`jpc, this`pending
      ensures Valid() && (Now(), pf, pt) == CodeGen.LoadBools(old(Now()), e.Value(), reg)
    {
      ghost var was := Now();
      var fj := NO_JUMP;
      ghost var fjList := [];
      EmptyList(code);
      if e.k != VJMP {
        fj, fjList := Jump();
      }
      ghost var fs1 := Now();
      ListStays(fs1, fjList, LOADBOOL(reg, false, true), LOADBOOL(reg, true, false));
      hide IsList, CodeGen.Jump, CodeGen.DischargeJpc;
      pf := CodeLabel(reg, false, true);
      pt := CodeLabel(reg, true, false);
      PatchToHere(fj, fjList);
    }

    /** The rest of `exp2reg`. */
    method Finish(e: ExpDesc, reg: nat, ghost fs0: State)
      requires Valid() && e.Valid() && Seg(fs0, Now(), e.tlist, e.flist) && (e.k == VJMP ==> pending == [])
      modifies this`code, this`jpc, this`pending
      ensures Valid() && Now() == CodeGen.Finish(old(Now()), e.Value(), reg)
    {
      hide IsList, CodeGen.LoadBools, CodeGen.PatchedTo, NeedValue, Seg;
      ghost var was, d := Now(), e.Value();
      SegLists(fs0, was, d.t, d.f);
      if e.t != e.f {
        HasJumpsIff(d);
        BooledSeg(fs0, was, d, reg);
        var pf, pt := 0, 0;
        var need := NeedsValue(e.t, e.tlist);
        if !need {
          need := NeedsValue(e.f, e.flist);
        }
        if need {
          pf, pt := LoadBools(e, reg);
        }
        ghost var now := Now();
        SegLists(fs0, now, d.t, d.f);
        Swap(fs0, now, d.t, d.f);
        PatchedToSeg(fs0, now, d.f, d.t, reg, pf);
        SegLists(fs0, CodeGen.PatchedTo(now, d.f, reg, pf), [], d.t);
        var end := |code|;
        PatchJumps(e.f, e.flist, end, reg, pf);
        PatchJumps(e.t, e.tlist, end, reg, pt);
      }
    }

    /** The jumps of a list are patched to the end of the code. */
    method PatchJumps(l: int, ghost list: seq<nat>, end: nat, reg: nat, p: nat)
      requires IsList(code, list) && l == Head(list) && end == |code|
      modifies this`code
      ensures Now() == CodeGen.PatchedTo(old(Now()), list, reg, p) && |code| == end
    {
      hide Patch, IsList;
      PatchListAux(l, end, To(reg), p, list);
    }

    /** `exp2reg`. */
    method Exp2Reg(e: ExpDesc, reg: nat, ghost fs0: State)
      requires Valid() && e.Valid() && Shape(fs0, Now(), e.Value())
      modifies this`code, this`jpc, this`pending, e
      ensures Valid() && e.Valid() && (Now(), e.Value()) == CodeGen.Exp2Reg(old(Now()), old(e.Value()), reg)
    {
      hide Shape, Seg, CodeGen.LoadValue, CodeGen.Finish;
      LoadValueSeg(fs0, Now(), e.Value(), reg);
      LoadValue(e, reg, fs0);
      Finish(e, reg, fs0);
      e.f, e.t, e.flist, e.tlist := NO_JUMP, NO_JUMP, [], [];
      e.info, e.k := reg, VNONRELOC;
    }

    /** `luaK_exp2nextreg`. */
    method Exp2NextReg(e: ExpDesc, ghost fs0: State)
      requires Valid() && e.Valid() && Shape(fs0, Now(), e.Value()) && Owned(Now(), e.Value())
      modifies this, e
      ensures Valid() && e.Valid() && (Now(), e.Value()) == CodeGen.Exp2NextReg(old(Now()), old(e.Value()))
    {
      hide Seg, KindOk, CodeGen.DischargeVars, CodeGen.Exp2Reg, IsList, Disjoint;
      ghost var was, d := Now(), e.Value();
      ShapeLists(fs0, was, d);
      DischargeVarsShape(fs0, was, d);
      DischargedOwned(fs0, was, d);
      DischargeVars(e);
      ReservedOk(fs0, Now(), e.Value());
      hide Shape;
      FreeExp(e);
      ReserveReg();
      Exp2Reg(e, freereg - 1, fs0);
    }

    /** `luaK_exp2anyreg`. */
    method Exp2AnyReg(e: ExpDesc, ghost fs0: State)
      requires Valid() && e.Valid() && Shape(fs0, Now(), e.Value()) && OnTop(Now(), e.Value())
      modifies this, e
      ensures Valid() && e.Valid() && (Now(), e.Value()) == CodeGen.Exp2AnyReg(old(Now()), old(e.Value()))
    {
      hide Seg, KindOk, CodeGen.DischargeVars, CodeGen.Exp2Reg, CodeGen.Exp2NextReg, IsList, Disjoint;
      ghost var was, d := Now(), e.Value();
      ShapeLists(fs0, was, d);
      DischargeVarsShape(fs0, was, d);
      DischargeVarsOnTop(fs0, was, d);
      DischargeVars(e);
      hide Shape;
      if e.k == VNONRELOC {
        if e.t == e.f {
          return;
        }
        if e.info >= nactvar {
          Exp2Reg(e, e.info, fs0);
          return;
        }
      }
      Exp2NextReg(e, fs0);
    }

    /** `luaK_exp2RK`. */
    method Exp2RK(e: ExpDesc, ghost fs0: State) returns (o: RK)
      requires Valid() && e.Valid() && Shape(fs0, Now(), e.Value()) && OnTop(Now(), e.Value())
      requires e.t != e.f ==> Owned(Now(), e.Value())
      modifies this, e
      ensures Valid() && e.Valid() && (Now(), e.Value(), o) == CodeGen.Exp2RK(old(Now()), old(e.Value()))
    {
      hide Seg, KindOk, CodeGen.DischargeVars, CodeGen.Exp2AnyReg, IsList, Disjoint;
      ghost var was, d := Now(), e.Value();
      ShapeLists(fs0, was, d);
      DischargeVarsShape(fs0, was, d);
      DischargeVarsOnTop(fs0, was, d);
      hide Shape;
      if e.t != e.f {
        RegisterDesc(fs0, was, d);
        Exp2AnyReg(e, fs0);
      } else {
        DischargeVars(e);
      }
      if e.k == VK && e.info <= MAXINDEXRK {
        return Const(e.info);
      }
      Exp2AnyReg(e, fs0);
      return Reg(e.info);
    }

    // ----- conditions --------------------------------------------------------------------------------

    /** `invertjump`. */
    method InvertJump(j: nat)
      requires 1 <= j < |code| && code[j - 1].CMP?
      modifies this`code
      ensures Now() == CodeGen.InvertJump(old(Now()), j)
    {
      var i := JumpControl(j);
      code := code[i := code[i].(accept := !code[i].accept)];
    }

    /** `jumponcond`. */
    method JumpOnCond(e: ExpDesc, cond: bool, ghost fs0: State) returns (j: int, ghost list: seq<nat>)
      requires Valid() && e.Valid() && Shape(fs0, Now(), e.Value()) && Discharged(e.Value()) && Owned(Now(), e.Value())
      requires e.k != VJMP
      modifies this, e`k, e`info
      ensures Valid() && e.Valid() && (Now(), list) == CodeGen.JumpOnCond(old(Now()), old(e.Value()), cond)
      ensures j == Head(list)
    {
      hide Seg, IsList, Disjoint, CodeGen.CondJump, CodeGen.Discharge2AnyReg;
      ghost var was, d := Now(), e.Value();
      ShapeLists(fs0, was, d);
      if e.k == VRELOCABLE {
        var i := code[e.info];
        if i.NOT? {
          code := code[..|code| - 1];
          EmptyList(code);
          j, list := CondJump(TEST(i.b, !cond));
          return;
        }
      }
      RegistersOk(fs0, was, d);
      Discharge2AnyRegShape(fs0, was, d);
      Discharge2AnyReg(e);
      ShapeLists(fs0, Now(), e.Value());
      hide Shape;
      FreeExp(e);
      j, list := CondJump(TESTSET(NoReg, e.info, cond));
    }

    /** `luaK_goiftrue`; the kind of a condition is not looked at again. */
    method GoIfTrue(e: ExpDesc, ghost fs0: State)
      requires Valid() && e.Valid() && Shape(fs0, Now(), e.Value()) && Owned(Now(), e.Value())
      modifies this, e
      ensures Valid() && e.Valid() && (Now(), e.tlist, e.flist) == ListsOf(CodeGen.GoIfTrue(old(Now()), old(e.Value())))
    {
      hide Seg, IsList, Disjoint, Shape, CodeGen.DischargeVars, CodeGen.JumpOnCond, CodeGen.InvertJump, CodeGen.Concat,
        CodeGen.PatchToHere;
      ghost var was, d := Now(), e.Value();
      ShapeLists(fs0, was, d);
      DischargeVarsShape(fs0, was, d);
      DischargedOwned(fs0, was, d);
      DischargeVars(e);
      ghost var fs1, d1 := Now(), e.Value();
      var pc := NO_JUMP;
      ghost var x := [];
      if e.k == VJMP {
        ComparisonAtEnd(fs0, fs1, d1);
        InvertJump(e.info);
        pc, x := e.info, [e.info];
      } else if e.k != VK {
        pc, x := JumpOnCond(e, false, fs0);
      }
      ConditionLists(fs0, fs1, d1, false);
      JoinF(e, pc, x);
      PatchToHere(e.t, e.tlist);
      e.t, e.tlist := NO_JUMP, [];
    }

    /** `luaK_goiffalse`. */
    method GoIfFalse(e: ExpDesc, ghost fs0: State)
      requires Valid() && e.Valid() && Shape(fs0, Now(), e.Value()) && Owned(Now(), e.Value())
      modifies this, e
      ensures Valid() && e.Valid()
      ensures (Now(), e.tlist, e.flist) == ListsOf(CodeGen.GoIfFalse(old(Now()), old(e.Value())))
    {
      hide Seg, IsList, Disjoint, Shape, CodeGen.DischargeVars, CodeGen.JumpOnCond, CodeGen.Concat, CodeGen.PatchToHere;
      ghost var was, d := Now(), e.Value();
      ShapeLists(fs0, was, d);
      DischargeVarsShape(fs0, was, d);
      DischargedOwned(fs0, was, d);
      DischargeVars(e);
      ghost var fs1, d1 := Now(), e.Value();
      var pc := NO_JUMP;
      ghost var x := [];
      if e.k == VJMP {
        pc, x := e.info, [e.info];
      } else {
        pc, x := JumpOnCond(e, true, fs0);
      }
      ConditionLists(fs0, fs1, d1, true);
      JoinT(e, pc, x);
      PatchToHere(e.f, e.flist);
      e.f, e.flist := NO_JUMP, [];
    }

    /** `luaK_concat` on the lists of an expression. */
    method JoinT(e: ExpDesc, l: int, ghost list: seq<nat>)
      requires e.Valid() && IsList(code, e.tlist) && IsList(code, list) && Disjoint(e.tlist, list) && l == Head(list)
      modifies this`code, e`t, e`tlist
      ensures e.Valid() && Now() == CodeGen.Concat(old(Now()), old(e.tlist), list) && e.tlist == old(e.tlist) + list
    {
      hide IsList, Disjoint;
      e.t := Concat(e.t, l, e.tlist, list);
      e.tlist := e.tlist + list;
    }

    method JoinF(e: ExpDesc, l: int, ghost list: seq<nat>)
      requires e.Valid() && IsList(code, e.flist) && IsList(code, list) && Disjoint(e.flist, list) && l == Head(list)
      modifies this`code, e`f, e`flist
      ensures e.Valid() && Now() == CodeGen.Concat(old(Now()), old(e.flist), list) && e.flist == old(e.flist) + list
    {
      hide IsList, Disjoint;
      e.f := Concat(e.f, l, e.flist, list);
      e.flist := e.flist + list;
    }

    /** `codenot`. */
    method CodeNot(e: ExpDesc, ghost fs0: State)
      requires Valid() && e.Valid() && Shape(fs0, Now(), e.Value()) && Owned(Now(), e.Value())
      modifies this, e
      ensures Valid() && e.Valid() && (Now(), e.Value()) == CodeGen.CodeNot(old(Now()), old(e.Value()))
    {
      hide Seg, IsList, Disjoint, Shape, CodeGen.DischargeVars, CodeGen.InvertJump, CodeGen.RemoveValues,
        CodeGen.Discharge2AnyReg, CodeGen.DischargeJpc;
      ghost var was, d := Now(), e.Value();
      ShapeLists(fs0, was, d);
      DischargeVarsShape(fs0, was, d);
      DischargedOwned(fs0, was, d);
      DischargeVars(e);
      ghost var fs1, d1 := Now(), e.Value();
      NegatedShape(fs0, fs1, d1);
      ShapeLists(fs0, fs1, d1);
      if e.k == VJMP {
        ComparisonAtEnd(fs0, fs1, d1);
        InvertJump(e.info);
      } else {
        RegistersOk(fs0, fs1, d1);
        Discharge2AnyRegShape(fs0, fs1, d1);
        Discharge2AnyReg(e);
        ShapeLists(fs0, Now(), e.Value());
        FreeExp(e);
        DischargedJpc(Now());
        var pc := Emit(NOT(0, e.info));
        e.info, e.k := pc, VRELOCABLE;
      }
      ghost var fs2, d2 := Now(), e.Value();
      ShapeLists(fs0, fs2, d2);
      RemovedKeepsList(code, d2.t, d2.f);
      e.f, e.t, e.flist, e.tlist := e.t, e.f, e.tlist, e.flist;
      RemoveValues(e.f, e.flist);
      RemoveValues(e.t, e.tlist);
    }

    // ----- comparisons -------------------------------------------------------------------------------

    /** The end of `codecomp`, with the opcode and the outcome that `luaK_posfix` passes for the operator. */
    method Comparison(op: BinCmp, x: RK, y: RK) returns (j: nat)
      requires Valid() && IsList(code, pending)
      modifies this`code, this`jpc, this`pending
      ensures Valid() && (Now(), [j]) == CodeGen.CondJump(old(Now()), CompareInstr(op, x, y))
    {
      hide IsList, CodeGen.DischargeJpc;
      var a, b, code, cond := x, y, EQ, true;
      match op {
        case Equal =>
        case NotEqual => cond := false;
        case Less => code := LT;
        case LessEqual => code := LE;
        case Greater => code, cond := LT, false;
        case GreaterEqual => code, cond := LE, false;
      }
      if !cond && code != EQ {
        a, b := b, a;
        cond := true;
      }
      CondJumpIs(Now(), CMP(code, cond, a, b));
      hide CodeGen.CondJump;
      ghost var list;
      var h;
      h, list := CondJump(CMP(code, cond, a, b));
      j := h;
    }

    /** `codecomp`, on operands that have been prepared. */
    method CodeComp(op: BinCmp, e1: ExpDesc, e2: ExpDesc, ghost o1: RK, ghost fs0: State, ghost fs1: State)
      requires e1 != e2 && Valid() && e1.Valid() && e2.Valid()
      requires Shape(fs1, Now(), e2.Value()) && Owned(Now(), e2.Value())
      requires IsOperand(fs0, fs1, e1.Value(), o1) && freereg == fs1.freereg && nactvar == fs1.nactvar <= fs0.freereg
      modifies this, e1, e2
      ensures Valid() && e1.Valid()
      ensures (Now(), e1.Value()) == CodeGen.CodeComp(old(Now()), op, old(e1.Value()), old(e2.Value()))
    {
      hide Seg, Shape, IsList, IsOperand, Disjoint, Owned, CodeGen.Exp2RK, CodeGen.CondJump;
      ghost var was, d1, d2 := Now(), e1.Value(), e2.Value();
      ComparisonOperands(fs0, fs1, was, d1, o1, d2);
      var a := Exp2RK(e1, was);
      var b := Exp2RK(e2, fs1);
      FreeExp(e2);
      FreeExp(e1);
      var j := Comparison(op, a, b);
      e1.info := j;
      e1.k := VJMP;
    }

    // ----- expressions -------------------------------------------------------------------------------

    /** What the parser has done for an expression when it has read it: an operand is read, its operator
      * passed to `luaK_infix`, the second operand read, and `luaK_posfix` called. */
    method Expression(e: Expr) returns (v: ExpDesc)
      requires Valid() && Ready(Now()) && WellFormed(e, nactvar)
      modifies this
      ensures Valid() && v.Valid() && fresh(v) && (Now(), v.Value()) == Compile(old(Now()), e)
      decreases e
    {
      hide Seg, Shape, Ready, CodeGen.CodeNot, CodeGen.GoIfTrue, CodeGen.GoIfFalse, CodeGen.Exp2RK, CodeGen.CodeComp,
           CodeGen.DischargeVars, CodeGen.Concat, IsList, Disjoint;
      ghost var fs0 := Now();
      CompileShape(fs0, e);
      match e {
        case Local(r) => v := new ExpDesc(VLOCAL, r);
        case Upvalue(i) => v := new ExpDesc(VUPVAL, i);
        case Global(n) => v := new ExpDesc(VGLOBAL, n);
        case Constant(i) => v := new ExpDesc(VK, i);
        case Not(a) =>
          CompileShape(fs0, a);
          v := Expression(a);
          CodeNot(v, fs0);
        case And(a, b) =>
          CompileShape(fs0, a);
          var v1 := Expression(a);
          GoIfTrueShape(fs0, Now(), v1.Value());
          GoIfTrue(v1, fs0);
          ghost var fs2 := Now();
          FromSeg(fs0, fs2, [], v1.flist);
          v := Expression(b);
          Swap(fs0, fs2, [], v1.flist);
          RightOperandLists(fs0, fs2, v1.flist, b);
          DischargeVars(v);
          JoinF(v, v1.f, v1.flist);
        case Or(a, b) =>
          CompileShape(fs0, a);
          var v1 := Expression(a);
          GoIfFalseShape(fs0, Now(), v1.Value());
          GoIfFalse(v1, fs0);
          ghost var fs2 := Now();
          FromSeg(fs0, fs2, v1.tlist, []);
          v := Expression(b);
          RightOperandLists(fs0, fs2, v1.tlist, b);
          DischargeVars(v);
          JoinT(v, v1.t, v1.tlist);
        case Compare(op, a, b) =>
          CompileShape(fs0, a);
          v := Expression(a);
          ghost var fs1 := Now();
          RegistersOk(fs0, fs1, v.Value());
          Exp2RKShape(fs0, fs1, v.Value());
          var o1 := Exp2RK(v, fs0);
          ghost var fs2 := Now();
          FromSeg(fs0, fs2, [], []);
          var w := Expression(b);
          CompileShape(fs2, b);
          CodeComp(op, v, w, o1, fs1, fs2);
      }
    }

    // ----- statements --------------------------------------------------------------------------------

    /** `luaK_storevar` for a local: the code computes the expression into its register. */
    method AssignLocal(e: Expr, reg: nat)
      requires Valid() && Ready(Now()) && WellFormed(e, nactvar) && reg < nactvar
      modifies this
      ensures Valid() && Ready(Now()) && freereg == old(freereg) && nactvar == old(nactvar)
      ensures Preserved(old(Now()), Now())
      ensures forall env, regs :: ConstsTrue(env) ==> Assigns(old(Now()), Now(), e, reg, env, regs)
    {
      hide Seg, Shape, Ready, Assigns, ConstsTrue, Preserved;
      ghost var fs0 := Now();
      CompileShape(fs0, e);
      var v := Expression(e);
      Exp2RegShape(fs0, Now(), v.Value(), reg);
      FreeExp(v);
      Exp2Reg(v, reg, fs0);
      FromSeg(fs0, Now(), [], []);
      SegPreserved(fs0, Now(), [], []);
      forall env, regs | ConstsTrue(env) ensures Assigns(fs0, Now(), e, reg, env, regs) {
        ExpressionToRegister(fs0, e, reg, env, regs);
      }
    }

    /** The condition of a statement: the jumps to take when it is false. */
    method Condition(e: Expr) returns (f: int, ghost list: seq<nat>)
      requires Valid() && Ready(Now()) && WellFormed(e, nactvar)
      modifies this
      ensures Valid() && Ready(Now()) && freereg == old(freereg) && f == Head(list) && IsList(code, list)
      ensures forall env, regs :: ConstsTrue(env) ==> GoesOnIf(old(Now()), Now(), list, e, env, regs)
    {
      hide Seg, Shape, Ready, GoesOnIf, ConstsTrue, IsList, CodeGen.GoIfTrue;
      ghost var fs0 := Now();
      CompileShape(fs0, e);
      var v := Expression(e);
      GoIfTrueShape(fs0, Now(), v.Value());
      GoIfTrue(v, fs0);
      FromSeg(fs0, Now(), [], v.flist);
      SegLists(fs0, Now(), [], v.flist);
      f, list := v.f, v.flist;
      forall env, regs | ConstsTrue(env) ensures GoesOnIf(fs0, Now(), list, e, env, regs) {
        CodeCompile.Condition(fs0, e, env, regs);
      }
    }
  }

  lemma ShapeReady(fs0: State, fs: State, d: Desc)
    requires Shape(fs0, fs, d)
    ensures Ready(fs)
  {
    RegistersOk(fs0, fs, d);
    var body := Body(fs, d);
    assert Ready(body);
    hide Seg, IsList;
    if TailLen(d) == 0 {
      assert body == fs;
    } else {
      EmptyList(fs.code);
      assert fs.jpc == [] && !IsTest(fs.code[Pc(fs) - 1]);
    }
  }

  /** The first operand is used as it is, and the registers of both can be freed in order. */
  lemma ComparisonOperands(fs0: State, fs1: State, fs: State, d1: Desc, o1: RK, d2: Desc)
    requires Shape(fs1, fs, d2) && Owned(fs, d2)
    requires IsOperand(fs0, fs1, d1, o1) && fs.freereg == fs1.freereg && fs.nactvar == fs1.nactvar <= fs0.freereg
    ensures Shape(fs, fs, d1) && OnTop(fs, d1) && d1.t == [] && d1.f == [] && OnTop(fs, d2)
    ensures CodeGen.Exp2RK(fs, d1) == (fs, d1, o1)
    ensures var (fs2, e2, o2) := CodeGen.Exp2RK(fs, d2);
      && IsList(fs2.code, fs2.jpc) && OnTop(fs2, e2) && OnTop(CodeGen.FreeExp(fs2, e2), d1)
      && CodeGen.FreeExp(fs2, e2).code == fs2.code && CodeGen.FreeExp(fs2, e2).jpc == fs2.jpc
  {
    hide Seg, Shape, CodeGen.Exp2RK;
    ShapeReady(fs1, fs, d2);
    OperandShape(fs0, fs1, fs, d1, o1);
    Exp2RKShape(fs1, fs, d2);
    SameOperand(fs, d1);
    SegLists(fs1, CodeGen.Exp2RK(fs, d2).0, [], []);
    hide Ready, IsList, Disjoint;
  }

  lemma OperandShape(fs0: State, fs1: State, fs: State, d: Desc, o: RK)
    requires IsOperand(fs0, fs1, d, o) && Ready(fs) && fs.freereg == fs1.freereg
    requires fs.nactvar == fs1.nactvar <= fs0.freereg
    ensures Shape(fs, fs, d) && OnTop(fs, d)
  {
    EmptySeg(fs);
    hide Seg, Ready;
    assert Body(fs, d) == fs;
  }

  /** The lists of the left operand of `and` or `or` can be joined to those of the right one. */
  lemma RightOperandLists(fs0: State, fs2: State, list: seq<nat>, b: Expr)
    requires Seg(fs0, fs2, list, []) && WellFormed(b, fs2.nactvar)
    ensures var (fs3, d3) := Compile(fs2, b);
      var (fs4, d4) := CodeGen.DischargeVars(fs3, d3);
      && IsList(fs3.code, fs3.jpc) && IsList(fs4.code, d4.t) && IsList(fs4.code, d4.f) && IsList(fs4.code, list)
      && Disjoint(d4.t, list) && Disjoint(d4.f, list)
  {
    hide Seg, IsList, Disjoint, Ready, Tested, KindOk, CodeGen.DischargeVars, Compile;
    FromSeg(fs0, fs2, list, []);
    CompileShape(fs2, b);
    var (fs3, d3) := Compile(fs2, b);
    DischargeVarsShape(fs2, fs3, d3);
    var (fs4, d4) := CodeGen.DischargeVars(fs3, d3);
    ShapeLists(fs2, fs3, d3);
    ShapeLists(fs2, fs4, d4);
    TransSeg(fs0, fs2, Body(fs4, d4), list, [], d4.t, d4.f);
    BodyList(fs4, d4, list);
    DisjointBack(list, d4.t);
    DisjointBack(list, d4.f);
  }

  lemma DisjointBack(a: seq<nat>, b: seq<nat>)
    requires Disjoint(a, b)
    ensures Disjoint(b, a)
  {}

  lemma BodyList(fs: State, d: Desc, list: seq<nat>)
    requires TailLen(d) <= Pc(fs) && IsList(Body(fs, d).code, list)
    ensures IsList(fs.code, list)
  {}

  lemma RemovedKeepsList(code: Code, list: seq<nat>, other: seq<nat>)
    requires IsList(code, other)
    ensures IsList(RemoveValues(code, list), other)
  {}

  ghost function ListsOf(r: (State, Desc)): (State, seq<nat>, seq<nat>) { (r.0, r.1.t, r.1.f) }

  lemma ComparisonAtEnd(fs0: State, fs: State, d: Desc)
    requires Shape(fs0, fs, d) && d.k == VJMP
    ensures 1 <= d.info < Pc(fs) && fs.code[d.info - 1].CMP?
  {
    hide Seg;
  }

  /** The jump that decides a condition, and the code with it in place. */
  ghost function Deciding(fs: State, d: Desc, cond: bool): (State, seq<nat>) {
    if d.k == VJMP then (if cond then fs else CodeGen.InvertJump(fs, d.info), [d.info])
    else if d.k == VK && !cond then (fs, [])
    else CodeGen.JumpOnCond(fs, d, cond)
  }

  lemma DecidingSeg(fs0: State, fs: State, d: Desc, cond: bool)
    requires Shape(fs0, fs, d) && Discharged(d) && Owned(fs, d)
    ensures var (fs1, x) := Deciding(fs, d, cond);
      && Seg(fs0, fs1, d.t, d.f) && IsList(fs1.code, x) && Tested(fs1.code, Pc(fs0), x)
      && Disjoint(fs1.jpc, x) && Disjoint(d.t, x) && Disjoint(d.f, x)
  {
    hide Seg, IsList, Decided, CodeGen.JumpOnCond, CodeGen.InvertJump;
    if d.k == VK && !cond {
      EmptyList(fs.code);
      assert Body(fs, d) == fs;
    } else {
      var (base, test) := Decided(fs, d, cond);
      DecidedShape(fs0, fs, d, cond);
      DecidingIs(fs0, fs, d, cond);
      hide Shape;
      WithTestSeg(fs0, base, d.t, d.f, test);
      hide Deciding, WithTest;
    }
  }

  lemma DecidingIs(fs0: State, fs: State, d: Desc, cond: bool)
    requires Shape(fs0, fs, d) && Discharged(d) && !(d.k == VK && !cond)
    ensures var (base, test) := Decided(fs, d, cond); Deciding(fs, d, cond) == (WithTest(base, test), [Pc(base) + 1])
  {
    hide Seg, KindOk, CodeGen.JumpOnCond, CodeGen.InvertJump;
    if d.k == VJMP {
      ComparisonInPlace(fs0, fs, d, cond);
    } else {
      JumpOnCondIs(fs, d, cond);
      DischargedJpc(TestOf(fs, d, cond).0);
      hide TestOf;
    }
  }

  /** The lists that a condition joins and patches are lists of the code with its test in place. */
  lemma ConditionLists(fs0: State, fs: State, d: Desc, cond: bool)
    requires Shape(fs0, fs, d) && Discharged(d) && Owned(fs, d)
    ensures var (fs1, x) := Deciding(fs, d, cond);
      var go, stay := if cond then d.t else d.f, if cond then d.f else d.t;
      var fs2 := CodeGen.Concat(fs1, go, x);
      && IsList(fs1.code, go) && IsList(fs1.code, x) && Disjoint(go, x)
      && IsList(fs2.code, fs2.jpc) && IsList(fs2.code, stay) && Disjoint(fs2.jpc, stay)
  {
    hide Seg, IsList, Disjoint, Tested, Deciding;
    var (fs1, x) := Deciding(fs, d, cond);
    DecidingSeg(fs0, fs, d, cond);
    hide Shape;
    SegLists(fs0, fs1, d.t, d.f);
    var go, stay := if cond then d.t else d.f, if cond then d.f else d.t;
    if !cond { Swap(fs0, fs1, d.t, d.f); }
    JoinSeg(fs0, fs1, go, stay, x);
    SegLists(fs0, CodeGen.Concat(fs1, go, x), go + x, stay);
  }

  /** An operand in a register is in that of a local or in the last one reserved. */
  predicate OnTop(fs: State, d: Desc) { d.k == VNONRELOC && d.info >= fs.nactvar ==> d.info + 1 == fs.freereg }

  lemma DischargeVarsOnTop(fs0: State, fs: State, d: Desc)
    requires Shape(fs0, fs, d) && OnTop(fs, d)
    ensures var (fs1, d1) := CodeGen.DischargeVars(fs, d); OnTop(fs1, d1)
  {
    hide Seg, Emit;
  }

  lemma RegisterDesc(fs0: State, fs: State, d: Desc)
    requires Shape(fs0, fs, d) && Owned(fs, d)
    ensures var (fs1, d1) := CodeGen.Exp2AnyReg(fs, d);
      Shape(fs0, fs1, d1) && OnTop(fs1, d1) && d1.k == VNONRELOC && d1.t == [] && d1.f == []
  {
    hide Seg, CodeGen.Exp2AnyReg;
    RegistersOk(fs0, fs, d);
    Exp2AnyRegShape(fs0, fs, d);
    var (fs1, d1) := CodeGen.Exp2AnyReg(fs, d);
    hide Shape;
    ShapeInRegister(fs0, fs1, d1);
  }

  lemma LoadValueSeg(fs0: State, fs: State, d: Desc, reg: nat)
    requires Shape(fs0, fs, d)
    ensures var (fs1, d1) := CodeGen.LoadValue(fs, d, reg);
      Seg(fs0, fs1, d1.t, d1.f) && (d1.k == VJMP ==> fs1.jpc == [])
  {
    hide Seg, CodeGen.DischargeVars, KindOk;
    var (fs1, d1) := CodeGen.DischargeVars(fs, d);
    DischargeVarsShape(fs0, fs, d);
    DischargedTwice(fs, d);
    LoadValueShape(fs0, fs1, d1, reg);
    assert CodeGen.LoadValue(fs1, d1, reg) == CodeGen.LoadValue(fs, d, reg) by { hide CodeGen.Concat; }
    hide CodeGen.LoadValue;
  }

  lemma SegLists(fs0: State, fs: State, t: seq<nat>, f: seq<nat>)
    requires Seg(fs0, fs, t, f)
    ensures Ready(fs) && IsList(fs.code, fs.jpc) && IsList(fs.code, t) && IsList(fs.code, f)
    ensures Disjoint(fs.jpc, t) && Disjoint(fs.jpc, f) && Disjoint(t, f)
  {}

  /** A list stays one while code is emitted that no jump is waiting for. */
  lemma ListStays(fs: State, list: seq<nat>, i1: Instr, i2: Instr)
    requires IsList(fs.code, list) && IsList(fs.code, fs.jpc) && (fs.jpc == [] || list == [])
    ensures var fs1 := CodeGen.Emit(fs, i1); var fs2 := CodeGen.Emit(fs1, i2);
      && IsList(fs1.code, fs1.jpc) && IsList(fs2.code, fs2.jpc) && fs2.jpc == [] && IsList(fs2.code, list)
      && Disjoint([], list)
      && Pc(fs1) == Pc(fs) + 1
  {
    var fs1, fs2 := CodeGen.Emit(fs, i1), CodeGen.Emit(CodeGen.Emit(fs, i1), i2);
    DischargedJpc(fs);
    DischargedJpc(fs1);
    if list != [] {
      PatchNone(fs.code, Pc(fs), NoReg, Pc(fs));
      PatchNone(fs1.code, Pc(fs1), NoReg, Pc(fs1));
      hide Patch;
      assert fs2.code[..Pc(fs)] == fs.code;
      assert forall j :: j in list ==> fs2.code[j] == fs2.code[..Pc(fs)][j];
    }
  }

  /** Lists of an operand, in the code with its last instructions. */
  lemma ShapeLists(fs0: State, fs: State, d: Desc)
    requires Shape(fs0, fs, d)
    ensures IsList(fs.code, fs.jpc) && IsList(fs.code, d.t) && IsList(fs.code, d.f)
    ensures Disjoint(fs.jpc, d.t) && Disjoint(fs.jpc, d.f) && Disjoint(d.t, d.f) && TailLen(d) <= Pc(fs)
    ensures d.k == VJMP ==> IsList(fs.code, [d.info]) && Disjoint(d.t, [d.info]) && Disjoint(d.f, [d.info])
    ensures d.k == VRELOCABLE ==> d.info < Pc(fs)
  {
    var body := Body(fs, d);
    assert fs.code == body.code + fs.code[Pc(body)..];
    hide Extended, Ready;
    JumpsInside(fs0, body, d.t, d.f);
    GrowList(body.code, fs.code[Pc(body)..], Pc(fs0), d.t);
    GrowList(body.code, fs.code[Pc(body)..], Pc(fs0), d.f);
  }

  lemma NoComparison(fs: State, d: Desc, reg: nat)
    requires d.k != VJMP
    ensures CodeGen.LoadValue(fs, d, reg) == CodeGen.Discharge2Reg(fs, d, reg)
  {}

  lemma JumpOfComparison(fs: State, d: Desc, reg: nat)
    requires d.k == VJMP
    ensures CodeGen.LoadValue(fs, d, reg) == (CodeGen.Concat(fs, d.t, [d.info]), d.(t := d.t + [d.info]))
    ensures Head([d.info]) == d.info
  {}

  /** What a list says about the jump at its place `i`. */
  lemma ConcatIs(code: Code, list1: seq<nat>, list2: seq<nat>)
    requires IsList(code, list1)
    ensures list1 == [] || list2 == [] ==>
      ConcatCode(code, list1, list2) == code && list1 + list2 == if list1 == [] then list2 else list1
    ensures list1 != [] && list2 != [] ==> var last := list1[|list1| - 1];
      && last < |code| && ConcatCode(code, list1, list2) == code[last := JMP(list2[0] as int - (last as int + 1))]
      && Head(list1 + list2) == Head(list1)
  {}

  lemma ListAt(code: Code, list: seq<nat>, i: nat)
    requires IsList(code, list) && i < |list|
    ensures list[i] < |code| && code[list[i]] == JMP(Link(list, i)) && list[i] !in list[..i]
    ensures list[i..] != [] && list[i..][0] == list[i] && (i + 1 < |list| ==> list[i + 1] != list[i])
    ensures forall j :: j in list[..i] ==> j < |code| && code[j].JMP?
    ensures list[..i + 1] == list[..i] + [list[i]]
  {}

  lemma RemoveListStep(code: Code, list: seq<nat>, i: nat)
    requires IsList(code, list) && i < |list|
    ensures var code1 := RemoveValues(code, list[..i]);
      && list[i..] != [] && list[i..][0] == list[i] < |code1| && (i + 1 < |list| ==> list[i + 1] != list[i])
      && code1[list[i]] == JMP(Link(list, i))
      && RemoveValues(code, list[..i + 1]) == TestResolved(code1, list[i], NoReg)
  {
    hide RemoveValues, IsList;
    ListAt(code, list, i);
    RemoveStep(code, list[..i], list[i]);
  }

  lemma PatchListStep(code: Code, list: seq<nat>, i: nat, vtarget: nat, reg: Target, dtarget: nat)
    requires IsList(code, list) && i < |list|
    ensures var code1 := Patch(code, list[..i], vtarget, reg, dtarget);
      && list[i..] != [] && list[i..][0] == list[i] < |code1| && (i + 1 < |list| ==> list[i + 1] != list[i])
      && code1[list[i]] == JMP(Link(list, i))
      && Patch(code, list[..i + 1], vtarget, reg, dtarget) == PatchedJump(code1, list[i], vtarget, reg, dtarget)
  {
    hide Patch, PatchedJump, IsList;
    ListAt(code, list, i);
    PatchStep(code, list[..i], list[i], vtarget, reg, dtarget);
  }

  /** The TESTSET before the jump at `j`, if there is one, is resolved. */
  function TestResolved(code: Code, j: nat, reg: Target): (code1: Code)
    requires j < |code|
    ensures |code1| == |code|
  {
    if HasValue(code, j) then code[j - 1 := Resolve(code[j - 1], reg)] else code
  }

  lemma RemoveNone(code: Code)
    ensures RemoveValues(code, []) == code
  {}

  /** The jump at `j` gets its target, and a TESTSET before it its register. */
  function PatchedJump(code: Code, j: nat, vtarget: nat, reg: Target, dtarget: nat): Code
    requires j < |code|
  {
    TestResolved(code, j, reg)[j := JMP((if HasValue(code, j) then vtarget else dtarget) as int - (j as int + 1))]
  }

  /** One more jump is patched. */
  lemma PatchStep(code: Code, list: seq<nat>, j: nat, vtarget: nat, reg: Target, dtarget: nat)
    requires j !in list && j < |code| && code[j].JMP? && forall i :: i in list ==> i < |code| && code[i].JMP?
    ensures var code1 := Patch(code, list, vtarget, reg, dtarget);
      && code1[j] == code[j] && HasValue(code1, j) == HasValue(code, j)
      && Patch(code, list + [j], vtarget, reg, dtarget) == PatchedJump(code1, j, vtarget, reg, dtarget)
  {
    var code1, code2 := Patch(code, list, vtarget, reg, dtarget), Patch(code, list + [j], vtarget, reg, dtarget);
    assert code1[j] == Patched(code, list, vtarget, reg, dtarget, j);
    assert j >= 1 ==> code1[j - 1] == Patched(code, list, vtarget, reg, dtarget, j - 1);
    forall p | 0 <= p < |code|
      ensures code1[p] == Patched(code, list, vtarget, reg, dtarget, p)
      ensures code2[p] == Patched(code, list + [j], vtarget, reg, dtarget, p)
    {
    }
  }

  lemma RemoveStep(code: Code, list: seq<nat>, j: nat)
    requires j !in list && j < |code| && code[j].JMP? && forall i :: i in list ==> i < |code| && code[i].JMP?
    ensures var code1 := RemoveValues(code, list);
      && code1[j] == code[j] && HasValue(code1, j) == HasValue(code, j)
      && RemoveValues(code, list + [j]) == TestResolved(code1, j, NoReg)
  {}

  lemma JumpLists(fs: State)
    requires IsList(fs.code, fs.jpc)
    ensures var code1 := fs.code + [JMP(-1)];
      && Patch(fs.code, [], |fs.code|, NoReg, |fs.code|) == fs.code
      && IsList(code1, [|fs.code|]) && IsList(code1, fs.jpc) && Disjoint([|fs.code|], fs.jpc)
      && IsList(fs.code, [])
  {
    PatchNone(fs.code, |fs.code|, NoReg, |fs.code|);
    hide Patch;
    assert forall j :: j in fs.jpc ==> j < |fs.code|;
  }

  lemma EmptyList(code: Code)
    ensures IsList(code, [])
  {}
}
