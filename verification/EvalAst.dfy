/** The interpreter as it runs: slots in an array that is updated in place. */
module EvalAst {
  import opened Words
  import opened Options
  import opened Interpreter

  // ----- sizes, for termination -----

  function SizeE(e: Expr): nat {
    match e
    case Num(_) => 1
    case Var(_) => 1
    case Assign(_, r) => 1 + SizeE(r)
    case Bin(_, l, r) => 1 + SizeE(l) + SizeE(r)
    case Logical(_, l, r) => 1 + SizeE(l) + SizeE(r)
    case Cond(c, t, f) => 1 + SizeE(c) + SizeE(t) + SizeE(f)
    case Comma(l, r) => 1 + SizeE(l) + SizeE(r)
    case Call(_, _, args) => 1 + SizeArgs(args)
  }

  function SizeArgs(args: Args): nat {
    match args
    case NoArgs => 1
    case Arg(e, tail) => 1 + SizeE(e) + SizeArgs(tail)
  }

  function SizeS(s: Stmt): nat {
    match s
    case Block(body) => 1 + SizeBody(body)
    case Return(v) => 1 + if v.Some? then SizeE(v.value) else 0
    case If(c, t, f) => 1 + SizeE(c) + SizeS(t) + if f.Some? then SizeS(f.value) else 0
    case ExprStmt(e) => 1 + SizeE(e)
    case For(_, _, _, _) => 1
  }

  function SizeBody(body: Body): nat {
    match body
    case End => 1
    case Then(s, tail) => 1 + SizeS(s) + SizeBody(tail)
  }

  // ----- eval_ast -----

  // success, or why there is none.
  datatype Status = Success | GaveUp | NameMissing | Crashed | OutOfFuel

  predicate Stopped(r: Eval, st: Status) {
    match r
    case Ok(_, _, _) => false
    case Fail => st == GaveUp
    case NullName => st == NameMissing
    case Crash => st == Crashed
    case Timeout => st == OutOfFuel
  }

  // The outcome in variables: value, slots, control flow and status.
  ghost predicate Is(r: Eval, v: I32, slots: seq<I32>, returned: bool, st: Status) {
    if r.Ok? then st == Success && v == r.v && slots == r.slots && returned == r.returned else Stopped(r, st)
  }

  method EvalExpr(p: Program, fuel: nat, e: Expr, env: array<I32>) returns (v: I32, st: Status)
    requires env.Length == SLOTS
    modifies env
    ensures Is(EvalE(p, fuel, e, old(env[..])), v, env[..], false, st)
    decreases fuel, SizeE(e), 1
  {
    hide EvalBin, Find, EvalStmts, BindSlots;
    v, st := 0, Success;
    match e
    case Num(val) => v := Truncate(val);
    case Var(x) =>
      if x / 8 >= SLOTS { return 0, Crashed; }
      v := env[x / 8];
    case Assign(x, rhs) =>
      v, st := EvalExpr(p, fuel, rhs, env);
      if st == Success || st == GaveUp {
        if x / 8 >= SLOTS { return 0, Crashed; }
        env[x / 8] := v;
      }
    case Bin(op, lhs, rhs) =>
      if !Evaluable(op) { return 0, GaveUp; }
      var l, r: I32 := 0, 0;
      l, st := EvalExpr(p, fuel, lhs, env);
      if st != Success { return 0, st; }
      r, st := EvalExpr(p, fuel, rhs, env);
      if st != Success { return 0, st; }
      v, st := Operate(op, l, r, env[..]);
    case Call(name, named, args) =>
      v, st := EvalCall(p, fuel, name, named, args, env);
    case Logical(_, _, _) => st := GaveUp;
    case Cond(_, _, _) => st := GaveUp;
    case Comma(_, _) => st := GaveUp;
  }

  method Operate(op: Source.BinOp, l: I32, r: I32, ghost slots: Slots) returns (v: I32, st: Status)
    ensures Is(EvalBin(op, l, r, slots), v, slots, false, st)
  {
    v, st := 0, Success;
    match op
    case Add => v := Wrap32(l + r);
    case Sub => v := Wrap32(l - r);
    case Mul => v := Wrap32(Mul(l, r));
    case Div =>
      if r == 0 { return 0, GaveUp; }
      if !DivDefined(l, r) { return 0, Crashed; }
      v := Sdiv(l, r);
    case Mod =>
      if r == 0 { return 0, GaveUp; }
      if !DivDefined(l, r) { return 0, Crashed; }
      v := Smod(l, r);
    case Eq => v := if l == r then 1 else 0;
    case Ne => v := if l != r then 1 else 0;
    case Lt => v := if l < r then 1 else 0;
    case Le => v := if l <= r then 1 else 0;
    case _ => st := GaveUp;
  }

  method EvalCall(p: Program, fuel: nat, name: string, named: bool, args: Args, env: array<I32>) returns (v: I32, st: Status)
    requires env.Length == SLOTS
    modifies env
    ensures Is(EvalE(p, fuel, Call(name, named, args), old(env[..])), v, env[..], false, st)
    decreases fuel, SizeE(Call(name, named, args)), 0
  {
    hide Find, EvalStmts, EvalArguments, BindInto;
    var vals: seq<I32>;
    vals, st := EvalArgList(p, fuel, args, env);
    if st != Success { return 0, st; }
    if !named { return 0, NameMissing; }
    var target := Find(p, name);
    if target.None? || target.value.body.None? || name == PRINTF { return 0, GaveUp; }
    if fuel == 0 { return 0, OutOfFuel; }
    var inner := new I32[SLOTS](_ => 0);
    assert inner[..] == NoSlots();
    var fits := BindParams(target.value.params, vals, inner);
    if !fits { return 0, Crashed; }
    var returned;
    v, returned, st := EvalBody(p, fuel - 1, target.value.body.value, inner);
  }

  // Evaluate the arguments into at most nine places.
  method EvalArgList(p: Program, fuel: nat, args: Args, env: array<I32>) returns (vals: seq<I32>, st: Status)
    requires env.Length == SLOTS
    modifies env
    ensures var r := EvalArguments(p, fuel, args, old(env[..]), 0);
      if r.Good? then st == Success && vals == r.vs && env[..] == r.slots else Stopped(r.r, st)
    decreases fuel, SizeArgs(args), 1
  {
    hide EvalE;
    vals, st := [], Success;
    ghost var whole := EvalArguments(p, fuel, args, env[..], 0);
    var arg := args;
    while arg.Arg?
      invariant SizeArgs(arg) <= SizeArgs(args) && st == Success
      invariant var r := EvalArguments(p, fuel, arg, env[..], |vals|);
        if r.Good? then whole == Good(vals + r.vs, r.slots) else whole == r
      decreases arg
    {
      ghost var before, slots, n := vals, env[..], |vals|;
      var v;
      v, st := EvalExpr(p, fuel, arg.head, env);
      if st != Success { return; }
      vals := vals + [v];
      if |vals| >= MAX_ARGS { st := GaveUp; return; }
      ghost var r := EvalArguments(p, fuel, arg.tail, env[..], |vals|);
      if r.Good? {
        assert EvalArguments(p, fuel, arg, slots, n) == Good([v] + r.vs, r.slots);
        assert before + ([v] + r.vs) == vals + r.vs;
      }
      arg := arg.tail;
    }
    assert vals + [] == vals;
  }

  // Store the arguments in the parameters' slots.
  method BindParams(params: seq<nat>, vals: seq<I32>, env: array<I32>) returns (fits: bool)
    requires env.Length == SLOTS
    modifies env
    ensures BindInto(params, vals, old(env[..])) == if fits then Some(env[..]) else None
  {
    var i := 0;
    ghost var whole := BindInto(params, vals, env[..]);
    assert params[0..] == params && vals[0..] == vals;
    while i < |vals| && i < |params|
      invariant i <= |vals| && i <= |params|
      invariant BindInto(params[i..], vals[i..], env[..]) == whole
    {
      assert params[i..][1..] == params[i + 1..] && vals[i..][1..] == vals[i + 1..];
      if params[i] / 8 >= SLOTS { return false; }
      ghost var slots := env[..];
      env[params[i] / 8] := vals[i];
      assert env[..] == slots[params[i] / 8 := vals[i]];
      i := i + 1;
    }
    fits := true;
  }

  method EvalStmt(p: Program, fuel: nat, s: Stmt, env: array<I32>) returns (v: I32, returned: bool, st: Status)
    requires env.Length == SLOTS
    modifies env
    ensures Is(EvalS(p, fuel, s, old(env[..])), v, env[..], returned, st)
    decreases fuel, SizeS(s), 1
  {
    hide EvalE;
    v, returned, st := 0, false, Success;
    match s
    case Block(body) =>
      v, returned, st := EvalBody(p, fuel, body, env);
      if !returned { v := 0; }
    case Return(value) =>
      if value.Some? {
        v, st := EvalExpr(p, fuel, value.value, env);
      }
      returned := true;
    case If(c, t, f) =>
      v, st := EvalExpr(p, fuel, c, env);
      if st != Success { return; }
      if v != 0 {
        v, returned, st := EvalStmt(p, fuel, t, env);
      } else if f.Some? {
        v, returned, st := EvalStmt(p, fuel, f.value, env);
      } else {
        v := 0;
      }
    case ExprStmt(e) => v, st := EvalExpr(p, fuel, e, env);
    case For(_, _, _, _) => st := GaveUp;
  }

  // The statements of a block or function, until one returns.
  method EvalBody(p: Program, fuel: nat, body: Body, env: array<I32>) returns (v: I32, returned: bool, st: Status)
    requires env.Length == SLOTS
    modifies env
    ensures Is(EvalStmts(p, fuel, body, old(env[..]), 0), v, env[..], returned, st)
    decreases fuel, SizeBody(body), 1
  {
    hide EvalS;
    v, returned, st := 0, false, Success;
    var stmt := body;
    while stmt.Then?
      invariant SizeBody(stmt) <= SizeBody(body) && st == Success && !returned
      invariant EvalStmts(p, fuel, body, old(env[..]), 0) == EvalStmts(p, fuel, stmt, env[..], v)
      decreases stmt
    {
      v, returned, st := EvalStmt(p, fuel, stmt.head, env);
      if st != Success || returned { return; }
      stmt := stmt.tail;
    }
  }
}
