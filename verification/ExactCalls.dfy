/** What the interpreter makes of a call that C gives a value to: exactly that value, or a null name,
    and which of the two. */
module ExactCalls {
  import opened Words
  import opened Options
  import opened Interpreter
  import opened Optimizer
  import opened OptimizerViews

  // ----- what the interpreter can evaluate -----

  function NumArgs(args: Args): nat {
    match args
    case NoArgs => 0
    case Arg(_, tail) => 1 + NumArgs(tail)
  }

  predicate Plain(e: Expr) {
    match e
    case Num(_) => true
    case Var(_) => true
    case Assign(_, rhs) => Plain(rhs)
    case Bin(op, l, r) => Evaluable(op) && Plain(l) && Plain(r)
    case Call(name, named, args) => (named ==> name != PRINTF) && NumArgs(args) < MAX_ARGS && PlainArgs(args)
    case _ => false
  }

  predicate PlainArgs(args: Args) {
    match args
    case NoArgs => true
    case Arg(e, tail) => Plain(e) && PlainArgs(tail)
  }

  predicate PlainS(s: Stmt) {
    match s
    case Block(body) => PlainBody(body)
    case Return(value) => value.Some? ==> Plain(value.value)
    case If(c, t, f) => Plain(c) && PlainS(t) && (f.Some? ==> PlainS(f.value))
    case ExprStmt(e) => Plain(e)
    case For(_, _, _, _) => false
  }

  predicate PlainBody(body: Body) {
    match body
    case End => true
    case Then(s, tail) => PlainS(s) && PlainBody(tail)
  }

  // The functions in names are plain, have slots of their own, and call by name only functions in
  // names.
  ghost predicate PlainIn(p: Program, names: set<string>) {
    forall i :: 0 <= i < |p| && p[i].name in names && p[i].body.Some? ==>
      PlainBody(p[i].body.value) && FuncOk(p[i]) && NamesBody(p[i].body.value) <= names
  }

  lemma PlainOk(p: Program, names: set<string>)
    requires PlainIn(p, names)
    ensures OkIn(p, names)
  {
    hide FuncOk, PlainBody;
  }

  // ----- the program without its unnamed calls -----

  // An expression without a value in place of each unnamed call: what has a value in the program
  // that is left makes none.
  function NoValue(): Expr { Bin(Source.Div, Num(1), Num(0)) }

  function Strip(e: Expr): Expr {
    match e
    case Num(_) => e
    case Var(_) => e
    case Assign(x, rhs) => Assign(x, Strip(rhs))
    case Bin(op, l, r) => Bin(op, Strip(l), Strip(r))
    case Logical(isAnd, l, r) => Logical(isAnd, Strip(l), Strip(r))
    case Cond(c, t, f) => Cond(Strip(c), Strip(t), Strip(f))
    case Comma(l, r) => Comma(Strip(l), Strip(r))
    case Call(name, named, args) => if named then Call(name, named, StripArgs(args)) else NoValue()
  }

  function StripArgs(args: Args): Args {
    match args
    case NoArgs => NoArgs
    case Arg(e, tail) => Arg(Strip(e), StripArgs(tail))
  }

  function StripOpt(e: Option<Expr>): Option<Expr> { if e.Some? then Some(Strip(e.value)) else None }

  function StripS(s: Stmt): Stmt {
    match s
    case Block(body) => Block(StripBody(body))
    case Return(value) => Return(StripOpt(value))
    case If(c, t, f) => If(Strip(c), StripS(t), if f.Some? then Some(StripS(f.value)) else None)
    case ExprStmt(e) => ExprStmt(Strip(e))
    case For(init, test, inc, loop) => For(StripOpt(init), StripOpt(test), StripOpt(inc), StripS(loop))
  }

  function StripBody(body: Body): Body {
    match body
    case End => End
    case Then(s, tail) => Then(StripS(s), StripBody(tail))
  }

  function StripFunc(f: Func): Func { if f.body.Some? then f.(body := Some(StripBody(f.body.value))) else f }

  function Stripped(p: Program): Program { if p == [] then [] else [StripFunc(p[0])] + Stripped(p[1..]) }

  lemma {:induction false} FindStripped(p: Program, name: string)
    ensures Find(Stripped(p), name) == if Find(p, name).Some? then Some(StripFunc(Find(p, name).value)) else None
  {
    if p != [] {
      assert Stripped(p)[1..] == Stripped(p[1..]);
      FindStripped(p[1..], name);
    }
  }

  lemma NoValueMeans(p: Program, m: nat, env: Env)
    ensures SrcE(p, m, NoValue(), env).None?
  {
    assert SrcE(p, m, Num(1), env) == Some(Value(1, env)) && SrcE(p, m, Num(0), env) == Some(Value(0, env));
    assert Source.BinVal(Source.Div, 1, 0).None?;
  }

  // ----- the interpreter follows C up to the first unnamed call -----

  ghost predicate ExactIn(p: Program, names: set<string>, m: nat, n: nat) {
    PlainIn(p, names) && n >= m
  }

  lemma BinExact(op: Source.BinOp, a: I32, b: I32, slots: Slots)
    requires Evaluable(op) && StrictBin(op, a, b).Some?
    ensures EvalBin(op, a, b, slots).Ok?
  {
    hide Sdiv, Smod;
  }

  lemma {:induction false} ExactE(p: Program, names: set<string>, m: nat, n: nat, e: Expr, env: Env, slots: Slots, vars: set<nat>)
    requires ExactIn(p, names, m, n) && Plain(e) && Names(e) <= names
    requires SlotsOk(vars) && Vars(e) <= vars && Match(env, slots, vars) && SrcE(p, m, e, env).Some?
    ensures var w := SrcE(Stripped(p), m, Strip(e), env);
      if w.Some? then EvalE(p, n, e, slots).Ok? && w == SrcE(p, m, e, env) else EvalE(p, n, e, slots) == NullName
    decreases n, e
  {
    hide ExactIn, OkIn, PlainIn, SlotsOk, Match, StrictBin, EvalBin, Stripped;
    match e
    case Num(_) =>
    case Var(x) => VarAgrees(x, env, slots, vars);
    case Assign(x, rhs) =>
      ExactE(p, names, m, n, rhs, env, slots, vars);
      SetInside(x, vars);
    case Bin(op, l, r) =>
      ExactE(p, names, m, n, l, env, slots, vars);
      var a := SrcE(p, m, l, env).value;
      if EvalE(p, n, l, slots).Ok? {
        ExactOk(p, names, m, n);
        ExprAgrees(p, names, m, n, l, env, slots, vars);
        var s1 := EvalE(p, n, l, slots).slots;
        ExactE(p, names, m, n, r, a.env, s1, vars);
        if EvalE(p, n, r, s1).Ok? {
          ExprAgrees(p, names, m, n, r, a.env, s1, vars);
          BinExact(op, a.v, SrcE(p, m, r, a.env).value.v, EvalE(p, n, r, s1).slots);
        }
      }
    case Call(name, named, args) => ExactCall(p, names, m, n, name, named, args, env, slots, vars);
    case _ => assert false;
  }

  lemma SetInside(x: nat, vars: set<nat>)
    requires SlotsOk(vars) && x in vars
    ensures SlotOf(x) < SLOTS
  {
  }

  lemma ExactOk(p: Program, names: set<string>, m: nat, n: nat)
    requires ExactIn(p, names, m, n)
    ensures OkIn(p, names) && n >= m
  {
    PlainOk(p, names);
  }

  lemma PlainAt(p: Program, names: set<string>, m: nat, n: nat, name: string)
    requires ExactIn(p, names, m, n) && name in names && Find(p, name).Some? && Find(p, name).value.body.Some?
    ensures var b := Find(p, name).value.body.value; PlainBody(b) && NamesBody(b) <= names
    ensures FuncOk(Find(p, name).value) && (m > 0 ==> ExactIn(p, names, m - 1, n - 1))
  {
  }

  lemma {:induction false} ExactCall(p: Program, names: set<string>, m: nat, n: nat, name: string, named: bool, args: Args,
      env: Env, slots: Slots, vars: set<nat>)
    requires var e := Call(name, named, args); ExactIn(p, names, m, n) && Plain(e) && Names(e) <= names && Vars(e) <= vars
    requires SlotsOk(vars) && Match(env, slots, vars) && SrcE(p, m, Call(name, named, args), env).Some?
    ensures var e := Call(name, named, args); var w := SrcE(Stripped(p), m, Strip(e), env);
      if w.Some? then EvalE(p, n, e, slots).Ok? && w == SrcE(p, m, e, env) else EvalE(p, n, e, slots) == NullName
    decreases n, Call(name, named, args), 0
  {
    hide ExactIn, OkIn, PlainIn, SlotsOk, Match, Find, BindEnv, BindSlots, FuncOk;
    ExactArgs(p, names, m, n, args, env, slots, 0, vars);
    if !named {
      NoValueMeans(Stripped(p), m, env);
    } else {
      FindStripped(p, name);
      var a, f := SrcArgs(p, m, args, env).value, Find(p, name).value;
      if EvalArguments(p, n, args, slots, 0).Good? {
        PlainAt(p, names, m, n, name);
        ExactOk(p, names, m, n);
        ArgsAgree(p, names, m, n, args, env, slots, 0, vars);
        ExactFunction(p, names, m - 1, n - 1, f, a.vs);
      }
    }
  }

  lemma {:induction false} ExactFunction(p: Program, names: set<string>, m: nat, n: nat, f: Func, vals: seq<I32>)
    requires ExactIn(p, names, m, n) && FuncOk(f) && f.body.Some? && |f.params| == |vals|
    requires PlainBody(f.body.value) && NamesBody(f.body.value) <= names
    requires SrcBody(p, m, f.body.value, BindEnv(f.params, vals)).Some?
    ensures var start := BindEnv(f.params, vals);
      var w := SrcBody(Stripped(p), m, StripBody(f.body.value), start);
      && BindSlots(f.params, vals).Some?
      && var r := EvalStmts(p, n, f.body.value, BindSlots(f.params, vals).value, 0);
      if w.Some? then r.Ok? && w == SrcBody(p, m, f.body.value, start) else r == NullName
    decreases n, f.body.value, 1
  {
    hide ExactIn, SlotsOk, Match, BindEnv, BindSlots;
    var vars := FuncVars(f);
    BindMatch(f.params, vals, vars);
    ExactBody(p, names, m, n, f.body.value, BindEnv(f.params, vals), BindSlots(f.params, vals).value, 0, vars);
  }

  lemma {:induction false} ExactArgs(p: Program, names: set<string>, m: nat, n: nat, args: Args, env: Env, slots: Slots, i: nat, vars: set<nat>)
    requires ExactIn(p, names, m, n) && PlainArgs(args) && i + NumArgs(args) < MAX_ARGS && NamesArgs(args) <= names
    requires SlotsOk(vars) && VarsArgs(args) <= vars && Match(env, slots, vars) && SrcArgs(p, m, args, env).Some?
    ensures var w := SrcArgs(Stripped(p), m, StripArgs(args), env);
      var r := EvalArguments(p, n, args, slots, i);
      if w.Some? then r.Good? && w == SrcArgs(p, m, args, env) else r == Bad(NullName)
    decreases n, args
  {
    hide ExactIn, OkIn, SlotsOk, Match, Stripped, SrcE, EvalE;
    match args
    case NoArgs =>
    case Arg(e, tail) =>
      ExactE(p, names, m, n, e, env, slots, vars);
      var a := EvalE(p, n, e, slots);
      if a.Ok? {
        ExactOk(p, names, m, n);
        ExprAgrees(p, names, m, n, e, env, slots, vars);
        ExactArgs(p, names, m, n, tail, SrcE(p, m, e, env).value.env, a.slots, i + 1, vars);
      }
  }

  lemma {:induction false} ExactS(p: Program, names: set<string>, m: nat, n: nat, s: Stmt, env: Env, slots: Slots, vars: set<nat>)
    requires ExactIn(p, names, m, n) && PlainS(s) && NamesS(s) <= names
    requires SlotsOk(vars) && VarsS(s) <= vars && Match(env, slots, vars) && SrcS(p, m, s, env).Some?
    ensures var w := SrcS(Stripped(p), m, StripS(s), env);
      if w.Some? then EvalS(p, n, s, slots).Ok? && w == SrcS(p, m, s, env) else EvalS(p, n, s, slots) == NullName
    decreases n, s
  {
    hide ExactIn, OkIn, SlotsOk, Match, Stripped, SrcE, EvalE;
    match s
    case Block(body) => ExactBody(p, names, m, n, body, env, slots, 0, vars);
    case Return(value) =>
      if value.Some? {
        ExactE(p, names, m, n, value.value, env, slots, vars);
      }
    case If(c, t, f) =>
      ExactE(p, names, m, n, c, env, slots, vars);
      var b := EvalE(p, n, c, slots);
      if b.Ok? {
        ExactOk(p, names, m, n);
        ExprAgrees(p, names, m, n, c, env, slots, vars);
        var a := SrcE(p, m, c, env).value;
        if a.v != 0 {
          ExactS(p, names, m, n, t, a.env, b.slots, vars);
        } else if f.Some? {
          ExactS(p, names, m, n, f.value, a.env, b.slots, vars);
        }
      }
    case ExprStmt(e) => ExactE(p, names, m, n, e, env, slots, vars);
    case For(_, _, _, _) => assert false;
  }

  lemma {:induction false} ExactBody(p: Program, names: set<string>, m: nat, n: nat, body: Body, env: Env, slots: Slots, last: I32, vars: set<nat>)
    requires ExactIn(p, names, m, n) && PlainBody(body) && NamesBody(body) <= names
    requires SlotsOk(vars) && VarsBody(body) <= vars && Match(env, slots, vars) && SrcBody(p, m, body, env).Some?
    ensures var w := SrcBody(Stripped(p), m, StripBody(body), env);
      if w.Some? then EvalStmts(p, n, body, slots, last).Ok? && w == SrcBody(p, m, body, env)
      else EvalStmts(p, n, body, slots, last) == NullName
    decreases n, body, 0
  {
    hide ExactIn, OkIn, SlotsOk, Match, Stripped, SrcS, EvalS;
    match body
    case End =>
    case Then(s, tail) =>
      ExactS(p, names, m, n, s, env, slots, vars);
      var b := EvalS(p, n, s, slots);
      if b.Ok? {
        ExactOk(p, names, m, n);
        StmtAgrees(p, names, m, n, s, env, slots, vars);
        var a := SrcS(p, m, s, env).value;
        if a.Next? {
          ExactBody(p, names, m, n, tail, a.env, b.slots, b.v, vars);
        }
      }
  }

  // ----- what becomes of a call -----

  // C's run of a call of f makes only named calls.
  ghost predicate RunsNamed(p: Program, m: nat, f: Func, vals: seq<I32>) {
    SrcCall(Stripped(p), m, StripFunc(f), vals).Some?
  }

  // A named call in function k of a parsed program, to plain functions, with constant arguments, that
  // C gives a value to: it is folded to that value exactly if C's run makes only named calls, and
  // otherwise the compiler meets a null name.
  lemma CallExact(p: Program, k: nat, names: set<string>, m: nat, name: string, args: Args)
    requires ParsedFrom(p, k + 1) && Late(p, k, {name}) && PlainIn(p, names) && name in names && name != PRINTF
    requires ConstArgs(args).Some? && Find(p, name).Some? && !Find(p, name).value.cleanup
    requires SrcCall(p, m, Find(p, name).value, ConstArgs(args).value).Some?
    ensures var f, vals := Find(p, name).value, ConstArgs(args).value;
      FoldCall(p, |p|, name, true, args)
      == if RunsNamed(p, m, f, vals) then Done(Num(SrcCall(p, m, f, vals).value)) else Aborted(NullCompared)
  {
    hide ParsedFrom, SameBehind, PlainIn, OkIn, Find, EvalStmts, SrcBody, BindEnv, BindSlots, FuncOk, Late, Stripped;
    var f, vals := Find(p, name).value, ConstArgs(args).value;
    var n := m + |p|;
    assert ExactIn(p, names, m, n);
    PlainAt(p, names, m, n, name);
    assert Kept(vals) == vals by { ParamLimit(f); }
    ExactFunction(p, names, m, n, f, vals);
    var slots := BindSlots(f.params, vals).value;
    SameSelf(p, k);
    var j := Callee(p, p, k, name);
    SameFrom(p, p, k, j);
    EvalBehindBody(p, p, j, |p|, n, f.body.value, slots, 0);
    if RunsNamed(p, m, f, vals) {
      PlainOk(p, names);
      FunctionAgrees(p, names, m, n, f, vals);
    }
  }

  lemma SameSelf(p: Program, k: nat)
    ensures SameBehind(p, p, k)
  {
  }
}
