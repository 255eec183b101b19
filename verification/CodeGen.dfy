/** The code generator's handling of expressions, on values: jump lists are sequences of positions. */
module CodeGen {
  import opened LuaCode

  /** `expkind`, for the kinds of operand modelled. VK names a constant. */
  datatype Kind = VK | VLOCAL | VUPVAL | VGLOBAL | VJMP | VRELOCABLE | VNONRELOC

  /** `expdesc`: `t` and `f` are the jumps that leave the expression when it is true or false. */
  datatype Desc = Desc(k: Kind, info: nat, t: seq<nat>, f: seq<nat>)

  /** `FuncState`: `jpc` are the pending jumps to the next instruction. */
  datatype State = State(code: Code, jpc: seq<nat>, freereg: nat, nactvar: nat)

  const MAXINDEXRK: nat := 255

  // ----- jump lists in the code ----------------------------------------------------------------

  /** The offset in the jump at `list[i]` of a list: it leads to the next jump of the list, and the
    * last jump carries `NO_JUMP` (-1, a jump to itself). */
  function Link(list: seq<nat>, i: nat): int
    requires i < |list|
  {
    if i + 1 < |list| then list[i + 1] as int - (list[i] as int + 1) else -1
  }

  ghost predicate NoDup(s: seq<nat>) { forall i, j :: 0 <= i < j < |s| ==> s[i] != s[j] }

  /** `list` is threaded through the offsets of its jumps. */
  ghost predicate IsList(code: Code, list: seq<nat>) {
    && NoDup(list)
    && forall i :: 0 <= i < |list| ==> list[i] < |code| && code[list[i]] == JMP(Link(list, i))
  }

  /** Joins two lists: the last jump of the first is made to lead to the second. */
  function ConcatCode(code: Code, l1: seq<nat>, l2: seq<nat>): (code1: Code)
    ensures |code1| == |code|
  {
    if l1 == [] || l2 == [] || l1[|l1| - 1] >= |code| then code
    else var last := l1[|l1| - 1]; code[last := JMP(l2[0] as int - (last as int + 1))]
  }

  /** The head of a list, as the code generator keeps it. */
  function Head(list: seq<nat>): int { if list == [] then -1 else list[0] }

  /** A TESTSET whose value is wanted in `reg` is given that register; one whose value is not wanted,
    * or is there already, becomes a TEST. */
  function Resolve(i: Instr, reg: Target): Instr {
    if !i.TESTSET? then i
    else if reg.To? && reg.r != i.b then TESTSET(reg, i.b, i.c)
    else TEST(i.b, i.c)
  }

  /** Whether the jump at `j` follows a TESTSET. */
  predicate HasValue(code: Code, j: nat)
    requires j < |code|
  {
    j >= 1 && code[j - 1].TESTSET?
  }

  function Patched(code: Code, list: seq<nat>, vtarget: nat, reg: Target, dtarget: nat, i: nat): Instr
    requires i < |code|
  {
    if i in list then JMP((if HasValue(code, i) then vtarget else dtarget) as int - (i as int + 1))
    else if i + 1 in list then Resolve(code[i], reg)
    else code[i]
  }

  /** `patchlistaux`: jumps of the list that carry a value go to `vtarget`, the others to `dtarget`. */
  function Patch(code: Code, list: seq<nat>, vtarget: nat, reg: Target, dtarget: nat): (code1: Code)
    ensures |code1| == |code|
  {
    seq(|code|, i requires 0 <= i < |code| => Patched(code, list, vtarget, reg, dtarget, i))
  }

  /** `removevalues`. */
  function RemoveValues(code: Code, list: seq<nat>): (code1: Code)
    ensures |code1| == |code|
  {
    seq(|code|, i requires 0 <= i < |code| => if i + 1 in list then Resolve(code[i], NoReg) else code[i])
  }

  /** `need_value`. */
  predicate NeedValue(code: Code, list: seq<nat>) {
    exists j :: j in list && j < |code| && !HasValue(code, j)
  }

  // ----- emitting ------------------------------------------------------------------------------

  function Pc(fs: State): nat { |fs.code| }

  /** `dischargejpc`: the pending jumps to here lead here. */
  function DischargeJpc(fs: State): State {
    fs.(code := Patch(fs.code, fs.jpc, Pc(fs), NoReg, Pc(fs)), jpc := [])
  }

  function Append(fs: State, i: Instr): State { fs.(code := fs.code + [i]) }

  /** `luaK_code`: pending jumps to here are patched first. */
  function Emit(fs: State, i: Instr): State { Append(DischargeJpc(fs), i) }

  function Concat(fs: State, l1: seq<nat>, l2: seq<nat>): State
  {
    fs.(code := ConcatCode(fs.code, l1, l2))
  }

  /** `luaK_jump`: keeps the pending jumps to here on hold, in the list of the new jump. */
  function Jump(fs: State): (r: (State, seq<nat>))
  {
    var fs1 := fs.(code := fs.code + [JMP(-1)], jpc := []);
    (Concat(fs1, [Pc(fs)], fs.jpc), [Pc(fs)] + fs.jpc)
  }

  function CondJump(fs: State, i: Instr): (State, seq<nat>) { Jump(Emit(fs, i)) }

  function PatchToHere(fs: State, list: seq<nat>): State
  {
    Concat(fs, fs.jpc, list).(jpc := fs.jpc + list)
  }

  // ----- discharging ---------------------------------------------------------------------------

  function DischargeVars(fs: State, d: Desc): (State, Desc) {
    match d.k
    case VLOCAL => (fs, d.(k := VNONRELOC))
    case VUPVAL => (Emit(fs, GETUPVAL(0, d.info)), d.(k := VRELOCABLE, info := Pc(fs)))
    case VGLOBAL => (Emit(fs, GETGLOBAL(0, d.info)), d.(k := VRELOCABLE, info := Pc(fs)))
    case _ => (fs, d)
  }

  function FreeReg(fs: State, reg: nat): State {
    if reg >= fs.nactvar && fs.freereg > 0 then fs.(freereg := fs.freereg - 1) else fs
  }

  function FreeExp(fs: State, d: Desc): State {
    if d.k == VNONRELOC then FreeReg(fs, d.info) else fs
  }

  function Reserve(fs: State): State { fs.(freereg := fs.freereg + 1) }

  /** Instructions whose target register is still open. */
  predicate Relocatable(i: Instr) { i.GETUPVAL? || i.GETGLOBAL? || i.NOT? }

  function SetA(i: Instr, reg: nat): Instr {
    match i
    case GETUPVAL(_, b) => GETUPVAL(reg, b)
    case GETGLOBAL(_, k) => GETGLOBAL(reg, k)
    case NOT(_, b) => NOT(reg, b)
    case _ => i
  }

  function Discharge2Reg(fs: State, d: Desc, reg: nat): (State, Desc) {
    var (fs1, d1) := DischargeVars(fs, d);
    match d1.k
    case VK => (Emit(fs1, LOADK(reg, d1.info)), d1.(k := VNONRELOC, info := reg))
    case VRELOCABLE =>
      (if d1.info < Pc(fs1) then fs1.(code := fs1.code[d1.info := SetA(fs1.code[d1.info], reg)]) else fs1,
       d1.(k := VNONRELOC, info := reg))
    case VNONRELOC => (if reg != d1.info then Emit(fs1, MOVE(reg, d1.info)) else fs1, d1.(info := reg))
    case _ => (fs1, d1)
  }

  function Discharge2AnyReg(fs: State, d: Desc): (State, Desc) {
    if d.k == VNONRELOC then (fs, d)
    else var fs1 := Reserve(fs); Discharge2Reg(fs1, d, fs1.freereg - 1)
  }

  predicate HasJumps(d: Desc) { Head(d.t) != Head(d.f) }

  /** The first part of `exp2reg`: the value on the path that falls through. */
  function LoadValue(fs: State, d: Desc, reg: nat): (State, Desc)
  {
    var (fs1, d1) := Discharge2Reg(fs, d, reg);
    if d1.k == VJMP then (Concat(fs1, d1.t, [d1.info]), d1.(t := d1.t + [d1.info])) else (fs1, d1)
  }

  /** The loads of `false` and `true` for jumps that leave the expression without a value. */
  function LoadBools(fs: State, d: Desc, reg: nat): (State, nat, nat)
  {
    var (fs1, fj) := if d.k == VJMP then (fs, []) else Jump(fs);
    var fs2 := Emit(fs1, LOADBOOL(reg, false, true));
    var fs3 := Emit(fs2, LOADBOOL(reg, true, false));
    (PatchToHere(fs3, fj), Pc(fs1), Pc(fs2))
  }

  /** The rest of `exp2reg`: the jumps of the expression are made to deliver its value too. */
  function Finish(fs: State, d: Desc, reg: nat): State {
    if !HasJumps(d) then fs
    else
      var (fs1, pf, pt) := if NeedValue(fs.code, d.t) || NeedValue(fs.code, d.f) then LoadBools(fs, d, reg) else (fs, 0, 0);
      PatchedTo(PatchedTo(fs1, d.f, reg, pf), d.t, reg, pt)
  }

  /** Jumps with a value go to the end of the code, the others to `p`. */
  function PatchedTo(fs: State, list: seq<nat>, reg: nat, p: nat): State {
    fs.(code := Patch(fs.code, list, Pc(fs), To(reg), p))
  }

  function Exp2Reg(fs: State, d: Desc, reg: nat): (State, Desc)
  {
    var (fs1, d1) := LoadValue(fs, d, reg);
    (Finish(fs1, d1, reg), Desc(VNONRELOC, reg, [], []))
  }

  function Exp2NextReg(fs: State, d: Desc): (State, Desc) {
    var (fs1, d1) := DischargeVars(fs, d);
    var fs2 := Reserve(FreeExp(fs1, d1));
    Exp2Reg(fs2, d1, fs2.freereg - 1)
  }

  function Exp2AnyReg(fs: State, d: Desc): (State, Desc) {
    var (fs1, d1) := DischargeVars(fs, d);
    if d1.k == VNONRELOC && !HasJumps(d1) then (fs1, d1)
    else if d1.k == VNONRELOC && d1.info >= fs1.nactvar then Exp2Reg(fs1, d1, d1.info)
    else Exp2NextReg(fs1, d1)
  }

  /** `luaK_exp2RK`: a register, or a constant whose index fits an operand. */
  function Exp2RK(fs: State, d: Desc): (State, Desc, RK) {
    var (fs1, d1) := if HasJumps(d) then Exp2AnyReg(fs, d) else DischargeVars(fs, d);
    if d1.k == VK && d1.info <= MAXINDEXRK then (fs1, d1, Const(d1.info))
    else var (fs2, d2) := Exp2AnyReg(fs1, d1); (fs2, d2, Reg(d2.info))
  }

  // ----- conditions ----------------------------------------------------------------------------

  /** Inverts the comparison that controls the jump at `j`. */
  function InvertJump(fs: State, j: nat): State {
    if 1 <= j <= Pc(fs) && fs.code[j - 1].CMP? then
      fs.(code := fs.code[j - 1 := fs.code[j - 1].(accept := !fs.code[j - 1].accept)])
    else fs
  }

  /** A jump taken when the truth of the expression is `cond`. */
  function JumpOnCond(fs: State, d: Desc, cond: bool): (State, seq<nat>) {
    if d.k == VRELOCABLE && d.info < Pc(fs) && fs.code[d.info].NOT? then
      // the test takes the place of the NOT
      CondJump(fs.(code := fs.code[..Pc(fs) - 1]), TEST(fs.code[d.info].b, !cond))
    else
      var (fs1, d1) := Discharge2AnyReg(fs, d);
      CondJump(FreeExp(fs1, d1), TESTSET(NoReg, d1.info, cond))
  }

  /** Control goes on when the expression is true; the `f` list leaves when it is false. */
  function GoIfTrue(fs: State, d: Desc): (State, Desc) {
    var (fs1, d1) := DischargeVars(fs, d);
    var (fs2, pc) :=
      match d1.k
      case VK => (fs1, [])
      case VJMP => (InvertJump(fs1, d1.info), [d1.info])
      case _ => JumpOnCond(fs1, d1, false);
    var fs3 := Concat(fs2, d1.f, pc);
    (PatchToHere(fs3, d1.t), d1.(t := [], f := d1.f + pc))
  }

  function GoIfFalse(fs: State, d: Desc): (State, Desc) {
    var (fs1, d1) := DischargeVars(fs, d);
    var (fs2, pc) :=
      match d1.k
      case VJMP => (fs1, [d1.info])
      case _ => JumpOnCond(fs1, d1, true);
    var fs3 := Concat(fs2, d1.t, pc);
    (PatchToHere(fs3, d1.f), d1.(t := d1.t + pc, f := []))
  }

  /** The first half of `codenot`: the operand negated, its jumps not yet exchanged. */
  function Negated(fs: State, d: Desc): (State, Desc) {
    if d.k == VJMP then (InvertJump(fs, d.info), d)
    else
      var (fs1, d1) := Discharge2AnyReg(fs, d);
      var fs2 := FreeExp(fs1, d1);
      (Emit(fs2, NOT(0, d1.info)), d1.(k := VRELOCABLE, info := Pc(fs2)))
  }

  function Removed(fs: State, list: seq<nat>): State { fs.(code := RemoveValues(fs.code, list)) }

  function CodeNot(fs: State, d: Desc): (State, Desc) {
    var (fs1, d1) := DischargeVars(fs, d);
    var (fs2, d2) := Negated(fs1, d1);
    (Removed(Removed(fs2, d2.t), d2.f), d2.(t := d2.f, f := d2.t))
  }

  /** The opcode of a comparison, the outcome it accepts, and whether its operands are exchanged. */
  function Coded(op: BinCmp): (CmpOp, bool, bool) {
    match op
    case Equal => (EQ, true, false)
    case NotEqual => (EQ, false, false)
    case Less => (LT, true, false)
    case LessEqual => (LE, true, false)
    case Greater => (LT, true, true)
    case GreaterEqual => (LE, true, true)
  }

  /** `codecomp`, on operands that `luaK_infix` and the parser have prepared. */
  function CodeComp(fs: State, op: BinCmp, d1: Desc, d2: Desc): (State, Desc) {
    var (fs1, e1, o1) := Exp2RK(fs, d1);
    var (fs2, e2, o2) := Exp2RK(fs1, d2);
    var fs3 := FreeExp(FreeExp(fs2, e2), e1);
    var (code, accept, swap) := Coded(op);
    var (fs4, j) := CondJump(fs3, CMP(code, accept, if swap then o2 else o1, if swap then o1 else o2));
    (fs4, Desc(VJMP, Head(j), [], []))
  }

  // ----- expressions ---------------------------------------------------------------------------

  /** What the parser makes the code generator do for an expression. */
  function Compile(fs: State, e: Expr): (State, Desc)
    decreases e
  {
    match e
    case Local(r) => (fs, Desc(VLOCAL, r, [], []))
    case Upvalue(i) => (fs, Desc(VUPVAL, i, [], []))
    case Global(n) => (fs, Desc(VGLOBAL, n, [], []))
    case Constant(i) => (fs, Desc(VK, i, [], []))
    case Not(a) => var (fs1, d) := Compile(fs, a); CodeNot(fs1, d)
    case And(a, b) =>
      var (fs1, d1) := Compile(fs, a);
      var (fs2, d2) := GoIfTrue(fs1, d1);
      var (fs3, d3) := Compile(fs2, b);
      var (fs4, d4) := DischargeVars(fs3, d3);
      (Concat(fs4, d4.f, d2.f), d4.(f := d4.f + d2.f))
    case Or(a, b) =>
      var (fs1, d1) := Compile(fs, a);
      var (fs2, d2) := GoIfFalse(fs1, d1);
      var (fs3, d3) := Compile(fs2, b);
      var (fs4, d4) := DischargeVars(fs3, d3);
      (Concat(fs4, d4.t, d2.t), d4.(t := d4.t + d2.t))
    case Compare(op, a, b) =>
      var (fs1, d1) := Compile(fs, a);
      var (fs2, d2, _) := Exp2RK(fs1, d1);
      var (fs3, d3) := Compile(fs2, b);
      CodeComp(fs3, op, d2, d3)
  }
}
