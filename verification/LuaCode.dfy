/** Instructions of the Lua virtual machine that expressions compile to, what they do, and the
  * meaning of expressions. */
module LuaCode {

  datatype Value = Nil | Bool(b: bool) | Other(id: int)

  predicate Truthy(v: Value) { v != Nil && v != Bool(false) }

  /** Comparison opcodes. */
  datatype CmpOp = EQ | LT | LE

  /** What surrounds an expression: globals, upvalues, constants, and how values compare. */
  datatype Env = Env(globals: nat -> Value, upvals: nat -> Value, consts: nat -> Value, compare: (CmpOp, Value, Value) -> bool)

  /** Register files; a register never written holds nil. */
  type Regs = map<nat, Value>

  function Get(regs: Regs, r: nat): Value { if r in regs then regs[r] else Nil }

  // ----- expressions ---------------------------------------------------------------------------

  datatype BinCmp = Equal | NotEqual | Less | LessEqual | Greater | GreaterEqual

  /** Expressions of `and`, `or`, `not` and comparisons over variables and string or number constants. */
  datatype Expr =
    | Local(reg: nat)
    | Upvalue(index: nat)
    | Global(name: nat)
    | Constant(index: nat)
    | Not(e: Expr)
    | And(l: Expr, r: Expr)
    | Or(l: Expr, r: Expr)
    | Compare(op: BinCmp, l: Expr, r: Expr)

  function Holds(env: Env, op: BinCmp, a: Value, b: Value): bool {
    match op
    case Equal => env.compare(EQ, a, b)
    case NotEqual => !env.compare(EQ, a, b)
    case Less => env.compare(LT, a, b)
    case LessEqual => env.compare(LE, a, b)
    case Greater => env.compare(LT, b, a)
    case GreaterEqual => env.compare(LE, b, a)
  }

  /** The six operators, when the values are ordered by their ranks. */
  lemma HoldsInOrder(env: Env, rank: Value -> int, op: BinCmp, a: Value, b: Value)
    requires forall x, y :: env.compare(EQ, x, y) == (rank(x) == rank(y))
    requires forall x, y :: env.compare(LT, x, y) == (rank(x) < rank(y))
    requires forall x, y :: env.compare(LE, x, y) == (rank(x) <= rank(y))
    ensures Holds(env, op, a, b) ==
      match op
      case Equal => rank(a) == rank(b)
      case NotEqual => rank(a) != rank(b)
      case Less => rank(a) < rank(b)
      case LessEqual => rank(a) <= rank(b)
      case Greater => rank(a) > rank(b)
      case GreaterEqual => rank(a) >= rank(b)
  {}

  /** The value of an expression; `and` and `or` yield one of their operands. */
  function Eval(env: Env, regs: Regs, e: Expr): Value {
    match e
    case Local(r) => Get(regs, r)
    case Upvalue(i) => env.upvals(i)
    case Global(n) => env.globals(n)
    case Constant(i) => env.consts(i)
    case Not(a) => Bool(!Truthy(Eval(env, regs, a)))
    case And(a, b) => var v := Eval(env, regs, a); if Truthy(v) then Eval(env, regs, b) else v
    case Or(a, b) => var v := Eval(env, regs, a); if Truthy(v) then v else Eval(env, regs, b)
    case Compare(op, a, b) => Bool(Holds(env, op, Eval(env, regs, a), Eval(env, regs, b)))
  }

  /** Expressions whose last operand is a constant. */
  predicate EndsInConstant(e: Expr) {
    match e
    case Constant(_) => true
    case And(_, b) => EndsInConstant(b)
    case Or(_, b) => EndsInConstant(b)
    case _ => false
  }

  /** Locals are below `n`, and `not` is not applied to a constant. */
  predicate WellFormed(e: Expr, n: nat) {
    match e
    case Local(r) => r < n
    case Upvalue(_) => true
    case Global(_) => true
    case Constant(_) => true
    case Not(a) => WellFormed(a, n) && !EndsInConstant(a)
    case And(a, b) => WellFormed(a, n) && WellFormed(b, n)
    case Or(a, b) => WellFormed(a, n) && WellFormed(b, n)
    case Compare(_, a, b) => WellFormed(a, n) && WellFormed(b, n)
  }

  ghost predicate Agree(r: Regs, regs: Regs, n: nat) { forall i :: 0 <= i < n ==> Get(r, i) == Get(regs, i) }

  lemma {:induction false} EvalAgree(env: Env, r: Regs, regs: Regs, e: Expr, n: nat)
    requires WellFormed(e, n) && Agree(r, regs, n)
    ensures Eval(env, r, e) == Eval(env, regs, e)
  {
    match e
    case Not(a) => EvalAgree(env, r, regs, a, n);
    case And(a, b) => EvalAgree(env, r, regs, a, n); EvalAgree(env, r, regs, b, n);
    case Or(a, b) => EvalAgree(env, r, regs, a, n); EvalAgree(env, r, regs, b, n);
    case Compare(_, a, b) => EvalAgree(env, r, regs, a, n); EvalAgree(env, r, regs, b, n);
    case _ =>
  }

  // ----- instructions --------------------------------------------------------------------------

  /** A register or a constant. */
  datatype RK = Reg(r: nat) | Const(k: nat)

  /** The register a TESTSET assigns, if it has been given one (`NO_REG`). */
  datatype Target = NoReg | To(r: nat)

  datatype Instr =
    | MOVE(a: nat, b: nat)
    | LOADK(a: nat, bx: nat)
    | LOADBOOL(a: nat, v: bool, skip: bool)
    | GETUPVAL(a: nat, b: nat)
    | GETGLOBAL(a: nat, bx: nat)
    | NOT(a: nat, b: nat)
    | JMP(sbx: int)
    | CMP(op: CmpOp, accept: bool, x: RK, y: RK)
    | TEST(b: nat, c: bool)
    | TESTSET(to: Target, b: nat, c: bool)

  /** `testTMode`: the next instruction is a jump, taken when the test accepts. */
  predicate IsTest(i: Instr) { i.CMP? || i.TEST? || i.TESTSET? }

  function Operand(env: Env, regs: Regs, x: RK): Value {
    match x case Reg(r) => Get(regs, r) case Const(k) => env.consts(k)
  }

  /** Whether a test goes on to the jump that follows it. */
  predicate Accepts(env: Env, regs: Regs, i: Instr)
    requires IsTest(i)
  {
    match i
    case CMP(op, accept, x, y) => env.compare(op, Operand(env, regs, x), Operand(env, regs, y)) == accept
    case TEST(b, c) => Truthy(Get(regs, b)) == c
    case TESTSET(_, b, c) => Truthy(Get(regs, b)) == c
  }

  /** The value that instructions of the form "R(A) := ..." compute. */
  function Computed(env: Env, regs: Regs, i: Instr): Value
    requires i.MOVE? || i.LOADK? || i.LOADBOOL? || i.GETUPVAL? || i.GETGLOBAL? || i.NOT?
  {
    match i
    case MOVE(_, b) => Get(regs, b)
    case LOADK(_, k) => env.consts(k)
    case LOADBOOL(_, v, _) => Bool(v)
    case GETUPVAL(_, b) => env.upvals(b)
    case GETGLOBAL(_, k) => env.globals(k)
    case NOT(_, b) => Bool(!Truthy(Get(regs, b)))
  }

  /** Registers after an instruction. */
  function Written(env: Env, regs: Regs, i: Instr): Regs {
    if i.JMP? || i.CMP? || i.TEST? then regs
    else if i.TESTSET? then
      if Accepts(env, regs, i) && i.to.To? then regs[i.to.r := Get(regs, i.b)] else regs
    else regs[i.a := Computed(env, regs, i)]
  }

  /** Where control goes after the instruction at `pc`. */
  function Successor(env: Env, regs: Regs, i: Instr, pc: nat): int {
    if i.JMP? then pc + 1 + i.sbx
    else if IsTest(i) then if Accepts(env, regs, i) then pc + 1 else pc + 2
    else if i.LOADBOOL? && i.skip then pc + 2
    else pc + 1
  }

  type Code = seq<Instr>

  /** `n` steps of the machine from `pc`; it stops when it leaves the code. */
  function Steps(code: Code, env: Env, pc: int, regs: Regs, n: nat): (int, Regs)
    decreases n
  {
    if n == 0 || !(0 <= pc < |code|) then (pc, regs)
    else Steps(code, env, Successor(env, regs, code[pc], pc), Written(env, regs, code[pc]), n - 1)
  }

  // ----- running code with pending jumps -------------------------------------------------------

  /** How a run ends: at the end of the code, at a pending jump (`tested` if its test led there), or
    * by leaving the code in some other way. */
  datatype Outcome = Fall(regs: Regs) | Exit(at: nat, regs: Regs, tested: bool) | Stuck

  /** Runs forward from `pc`, stopping at the jumps of `pending`, whose targets are not known yet. */
  function Run(code: Code, env: Env, pending: set<nat>, pc: nat, regs: Regs): Outcome
    decreases |code| - pc
  {
    if pc == |code| then Fall(regs)
    else if pc > |code| then Stuck
    else if pc in pending then Exit(pc, regs, false)
    else if IsTest(code[pc]) && pc + 1 in pending && Accepts(env, regs, code[pc]) then
      Exit(pc + 1, Written(env, regs, code[pc]), true)
    else
      var next := Successor(env, regs, code[pc], pc);
      if next <= pc then Stuck else Run(code, env, pending, next, Written(env, regs, code[pc]))
  }

  /** A run is what the machine does, up to where the run stops. */
  lemma {:induction false} RunIsMachine(code: Code, env: Env, pending: set<nat>, pc: nat, regs: Regs)
    requires !Run(code, env, pending, pc, regs).Stuck?
    ensures exists n: nat ::
      Steps(code, env, pc, regs, n) ==
      match Run(code, env, pending, pc, regs)
      case Fall(r) => (|code|, r)
      case Exit(j, r, _) => (j, r)
    decreases |code| - pc
  {
    var o := Run(code, env, pending, pc, regs);
    if pc == |code| || pc in pending {
      assert Steps(code, env, pc, regs, 0) == (pc, regs);
    } else {
      var next, regs1 := Successor(env, regs, code[pc], pc), Written(env, regs, code[pc]);
      assert forall n: nat :: Steps(code, env, pc, regs, n + 1) == Steps(code, env, next, regs1, n);
      if IsTest(code[pc]) && pc + 1 in pending && Accepts(env, regs, code[pc]) {
        assert Steps(code, env, next, regs1, 0) == (pc + 1, regs1);
        assert Steps(code, env, pc, regs, 0 + 1) == (pc + 1, regs1);
      } else {
        RunIsMachine(code, env, pending, next, regs1);
        var n: nat :| Steps(code, env, next, regs1, n) == match o case Fall(r) => (|code|, r) case Exit(j, r, _) => (j, r);
        assert Steps(code, env, pc, regs, n + 1) == Steps(code, env, next, regs1, n);
      }
    }
  }

  /** Only the code from `start` on matters to a run from there. */
  lemma {:induction false} RunFrame(code: Code, code1: Code, env: Env, p: set<nat>, p1: set<nat>, start: nat, pc: nat,
                                    regs: Regs)
    requires |code1| == |code| && start <= pc
    requires forall i :: start <= i < |code| ==> code1[i] == code[i]
    requires forall i :: start <= i < |code| ==> (i in p <==> i in p1)
    requires |code| !in p && |code| !in p1
    ensures Run(code1, env, p1, pc, regs) == Run(code, env, p, pc, regs)
    decreases |code| - pc
  {
    if pc < |code| && pc !in p {
      if IsTest(code[pc]) && pc + 1 in p && Accepts(env, regs, code[pc]) {
      } else {
        var next := Successor(env, regs, code[pc], pc);
        if next > pc {
          RunFrame(code, code1, env, p, p1, start, next, Written(env, regs, code[pc]));
        }
      }
    }
  }

  /** More code goes on where the code before it ended. */
  lemma {:induction false} RunExtend(code: Code, code1: Code, env: Env, p: set<nat>, p1: set<nat>, pc: nat, regs: Regs)
    requires |code| <= |code1| && code1[..|code|] == code && pc <= |code|
    requires forall i :: 0 <= i < |code| ==> (i in p <==> i in p1)
    requires |code| !in p
    requires |code| > 0 ==> !IsTest(code[|code| - 1])
    requires !Run(code, env, p, pc, regs).Stuck?
    ensures Run(code1, env, p1, pc, regs) ==
      match Run(code, env, p, pc, regs)
      case Fall(r) => Run(code1, env, p1, |code|, r)
      case o => o
    decreases |code| - pc
  {
    if pc < |code| && pc !in p {
      assert code1[pc] == code[pc];
      if IsTest(code[pc]) && pc + 1 in p && Accepts(env, regs, code[pc]) {
      } else {
        var next := Successor(env, regs, code[pc], pc);
        if next > pc {
          if next <= |code| {
            RunExtend(code, code1, env, p, p1, next, Written(env, regs, code[pc]));
          }
        }
      }
    }
  }
}
