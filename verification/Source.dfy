/** The C subset whose compilation is verified: int-typed locals, every int operator the code
    generator has a case for, and structured control flow.

    A local variable is named by its frame offset: variable x lives at -x(%rbp).  Operands are
    evaluated left to right and signed arithmetic wraps; what C leaves undefined beyond that
    (division by zero, INT_MIN / -1, shift counts outside 0..31) has no value here.
 */
module Source {
  import opened Words
  import opened Options

  datatype BinOp = Add | Sub | Mul | BitAnd | BitXor | BitOr | Eq | Ne | Lt | Le | Div | Mod | Shl32 | Shr32

  datatype Expr =
    | Num(v: I32)
    | Var(x: nat)
    | Assign(x: nat, rhs: Expr)
    | Bin(op: BinOp, lhs: Expr, rhs: Expr)
    | Neg(e: Expr)
    | BitNot(e: Expr)
    | Not(e: Expr)
    | LogAnd(lhs: Expr, rhs: Expr)
    | LogOr(lhs: Expr, rhs: Expr)
    | Cond(cond: Expr, thn: Expr, els: Expr)
    | Comma(lhs: Expr, rhs: Expr)
    | PostInc(x: nat)
    | PostDec(x: nat)

  datatype Stmt =
    | Null
    | ExprStmt(e: Expr)
    | Block(body: StmtList)
    | If(cond: Expr, thn: Stmt, els: Option<Stmt>)
    | For(init: Option<Expr>, test: Option<Expr>, inc: Option<Expr>, body1: Stmt)
    | Do(body1: Stmt, cond: Expr)
    | Break
    | Continue
    | Return(value: Option<Expr>)

  datatype StmtList = Nil | Cons(head: Stmt, tail: StmtList)

  type Env = map<nat, I32>

  // ----- expressions -----

  predicate IsComparison(op: BinOp) { op.Eq? || op.Ne? || op.Lt? || op.Le? }

  function Bool(b: bool): I32 { if b then 1 else 0 }

  function BinVal(op: BinOp, a: I32, b: I32): Option<I32> {
    match op
    case Add => Some(Wrap32(a + b))
    case Sub => Some(Wrap32(a - b))
    case Mul => Some(Wrap32(Words.Mul(a, b)))
    case BitAnd => Some(Bits32(BAnd, a, b))
    case BitXor => Some(Bits32(BXor, a, b))
    case BitOr => Some(Bits32(BOr, a, b))
    case Eq => Some(Bool(a == b))
    case Ne => Some(Bool(a != b))
    case Lt => Some(Bool(a < b))
    case Le => Some(Bool(a <= b))
    case Div => if DivDefined(a, b) then Some(Sdiv(a, b)) else None
    case Mod => if DivDefined(a, b) then Some(Smod(a, b)) else None
    case Shl32 => if 0 <= b < 32 then Some(Shl(a, b)) else None
    case Shr32 => if 0 <= b < 32 then Some(Sar(a, b)) else None
  }

  datatype Value = Value(v: I32, env: Env)

  // The value of an expression and the locals after its side effects.
  function Eval(e: Expr, env: Env): Option<Value> {
    match e
    case Num(v) => Some(Value(v, env))
    case Var(x) => if x in env then Some(Value(env[x], env)) else None
    case Assign(x, rhs) =>
      if x !in env then None else
      (match Eval(rhs, env)
       case Some(a) => Some(Value(a.v, a.env[x := a.v]))
       case None => None)
    case Bin(op, lhs, rhs) =>
      (match Eval(lhs, env)
       case Some(a) =>
         (match Eval(rhs, a.env)
          case Some(b) =>
            (match BinVal(op, a.v, b.v)
             case Some(v) => Some(Value(v, b.env))
             case None => None)
          case None => None)
       case None => None)
    case Neg(e1) =>
      (match Eval(e1, env)
       case Some(a) => Some(Value(Wrap32(0 - a.v), a.env))
       case None => None)
    case BitNot(e1) =>
      (match Eval(e1, env)
       case Some(a) => Some(Value(-1 - a.v, a.env))
       case None => None)
    case Not(e1) =>
      (match Eval(e1, env)
       case Some(a) => Some(Value(Bool(a.v == 0), a.env))
       case None => None)
    case LogAnd(lhs, rhs) =>
      (match Eval(lhs, env)
       case Some(a) => if a.v == 0 then Some(Value(0, a.env)) else Truth(Eval(rhs, a.env))
       case None => None)
    case LogOr(lhs, rhs) =>
      (match Eval(lhs, env)
       case Some(a) => if a.v != 0 then Some(Value(1, a.env)) else Truth(Eval(rhs, a.env))
       case None => None)
    case Cond(c, t, f) =>
      (match Eval(c, env)
       case Some(a) => if a.v != 0 then Eval(t, a.env) else Eval(f, a.env)
       case None => None)
    case Comma(lhs, rhs) =>
      (match Eval(lhs, env)
       case Some(a) => Eval(rhs, a.env)
       case None => None)
    case PostInc(x) => if x in env then Some(Value(env[x], env[x := Wrap32(env[x] as int + 1)])) else None
    case PostDec(x) => if x in env then Some(Value(env[x], env[x := Wrap32(env[x] as int - 1)])) else None
  }

  function Truth(r: Option<Value>): Option<Value> {
    match r
    case Some(a) => Some(Value(Bool(a.v != 0), a.env))
    case None => None
  }

  // ----- statements -----

  datatype Outcome = Normal | Broke | Continued | Returned(v: Option<I32>)
  datatype Result = Timeout | Stuck | Done(o: Outcome, env: Env)

  // Big-step execution; fuel bounds the number of loop iterations along any path.
  function Exec(s: Stmt, env: Env, fuel: nat): Result
    decreases fuel, s, 1
  {
    match s
    case Null => Done(Normal, env)
    case ExprStmt(e) => ExecExpr(Some(e), env)
    case Block(body) => ExecList(body, env, fuel)
    case If(c, t, f) =>
      (match Eval(c, env)
       case Some(a) =>
         if a.v != 0 then Exec(t, a.env, fuel)
         else if f.Some? then Exec(f.value, a.env, fuel)
         else Done(Normal, a.env)
       case None => Stuck)
    case For(init, test, inc, body) =>
      (match ExecExpr(init, env)
       case Done(_, env1) => ExecFor(s, env1, fuel)
       case r => r)
    case Do(body, c) => ExecDo(s, env, fuel)
    case Break => Done(Broke, env)
    case Continue => Done(Continued, env)
    case Return(v) =>
      if v.None? then Done(Returned(None), env) else
      (match Eval(v.value, env)
       case Some(a) => Done(Returned(Some(a.v)), a.env)
       case None => Stuck)
  }

  function ExecExpr(e: Option<Expr>, env: Env): Result {
    if e.None? then Done(Normal, env) else
    match Eval(e.value, env)
    case Some(a) => Done(Normal, a.env)
    case None => Stuck
  }

  function ExecList(l: StmtList, env: Env, fuel: nat): Result
    decreases fuel, l, 1
  {
    match l
    case Nil => Done(Normal, env)
    case Cons(s, tail) =>
      (match Exec(s, env, fuel)
       case Done(Normal, env1) => ExecList(tail, env1, fuel)
       case r => r)
  }

  // The loop of a for statement, after its init expression.
  function ExecFor(s: Stmt, env: Env, fuel: nat): Result
    requires s.For?
    decreases fuel, s, 0
  {
    if fuel == 0 then Timeout else
    match EvalTest(s.test, env)
    case None => Stuck
    case Some(a) =>
      if a.v == 0 then Done(Normal, a.env) else
      match Exec(s.body1, a.env, fuel - 1)
      case Done(Broke, env1) => Done(Normal, env1)
      case Done(Returned(v), env1) => Done(Returned(v), env1)
      case Done(_, env1) =>
        (match ExecExpr(s.inc, env1)
         case Done(_, env2) => ExecFor(s, env2, fuel - 1)
         case r => r)
      case r => r
  }

  function EvalTest(test: Option<Expr>, env: Env): Option<Value> {
    if test.None? then Some(Value(1, env)) else Eval(test.value, env)
  }

  function ExecDo(s: Stmt, env: Env, fuel: nat): Result
    requires s.Do?
    decreases fuel, s, 0
  {
    if fuel == 0 then Timeout else
    match Exec(s.body1, env, fuel - 1)
    case Done(Broke, env1) => Done(Normal, env1)
    case Done(Returned(v), env1) => Done(Returned(v), env1)
    case Done(_, env1) =>
      (match Eval(s.cond, env1)
       case None => Stuck
       case Some(a) => if a.v == 0 then Done(Normal, a.env) else ExecDo(s, a.env, fuel - 1))
    case r => r
  }

  // break and continue occur only inside loops.  The arm that a constant condition rules out
  // is never looked at.
  predicate WellNested(s: Stmt, depth: nat) {
    match s
    case Block(body) => WellNestedList(body, depth)
    case If(c, t, f) =>
      && (!c.Num? || c.v != 0 ==> WellNested(t, depth))
      && (f.Some? && (!c.Num? || c.v == 0) ==> WellNested(f.value, depth))
    case For(_, _, _, body) => WellNested(body, depth + 1)
    case Do(body, _) => WellNested(body, depth + 1)
    case Break => depth > 0
    case Continue => depth > 0
    case _ => true
  }

  predicate WellNestedList(l: StmtList, depth: nat) {
    match l
    case Nil => true
    case Cons(s, tail) => WellNested(s, depth) && WellNestedList(tail, depth)
  }
}
