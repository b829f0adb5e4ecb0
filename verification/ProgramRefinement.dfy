/** Programs whose functions have been replaced by functions that do at least what those did. */
module ProgramRefinement {
  import opened Options
  import opened Interpreter

  // What has a value in p has it in q, with the same effects.
  ghost predicate Refines(p: Program, q: Program) {
    forall m: nat, e: Expr, env: Env :: SrcE(p, m, e, env).Some? ==> SrcE(q, m, e, env) == SrcE(p, m, e, env)
  }

  ghost predicate BodyRefines(p: Program, b: Body, b': Body) {
    forall m: nat, env: Env :: SrcBody(p, m, b, env).Some? ==> SrcBody(p, m, b', env) == SrcBody(p, m, b, env)
  }

  // In p, the function f' does what f does.
  ghost predicate FuncRefines(p: Program, f: Func, f': Func) {
    && f'.name == f.name && f'.params == f.params && (f'.body.Some? <==> f.body.Some?)
    && (f.body.Some? ==> BodyRefines(p, f.body.value, f'.body.value))
  }

  ghost predicate Replaced(p: Program, q: Program) {
    |q| == |p| && forall i :: 0 <= i < |p| ==> FuncRefines(p, p[i], q[i])
  }

  lemma {:induction false} FindIn(p: Program, q: Program, name: string)
    requires |q| == |p| && forall i :: 0 <= i < |p| ==> q[i].name == p[i].name
    ensures Find(q, name).Some? <==> Find(p, name).Some?
    ensures Find(p, name).Some? ==> exists i :: 0 <= i < |p| && p[i] == Find(p, name).value && q[i] == Find(q, name).value
  {
    if p != [] && p[0].name != name {
      FindIn(p[1..], q[1..], name);
      if Find(p, name).Some? {
        var i :| 0 <= i < |p[1..]| && p[1..][i] == Find(p, name).value && q[1..][i] == Find(q, name).value;
        assert p[i + 1] == p[1..][i] && q[i + 1] == q[1..][i];
      }
    }
  }

  lemma FindReplaced(p: Program, q: Program, name: string)
    requires Replaced(p, q) && Find(p, name).Some?
    ensures Find(q, name).Some? && FuncRefines(p, Find(p, name).value, Find(q, name).value)
  {
    hide BodyRefines;
    FindIn(p, q, name);
  }

  lemma BodyRefinesAt(p: Program, b: Body, b': Body, m: nat, env: Env)
    requires BodyRefines(p, b, b') && SrcBody(p, m, b, env).Some?
    ensures SrcBody(p, m, b', env) == SrcBody(p, m, b, env)
  {
  }

  lemma {:induction false} ReplacedE(p: Program, q: Program, m: nat, e: Expr, env: Env)
    requires Replaced(p, q) && SrcE(p, m, e, env).Some?
    ensures SrcE(q, m, e, env) == SrcE(p, m, e, env)
    decreases m, e
  {
    hide Replaced, Find;
    match e
    case Num(_) =>
    case Var(_) =>
    case Assign(_, rhs) => ReplacedE(p, q, m, rhs, env);
    case Bin(_, l, r) =>
      ReplacedE(p, q, m, l, env);
      ReplacedE(p, q, m, r, SrcE(p, m, l, env).value.env);
    case Logical(_, l, r) =>
      ReplacedE(p, q, m, l, env);
      var a := SrcE(p, m, l, env).value;
      if SrcE(p, m, r, a.env).Some? {
        ReplacedE(p, q, m, r, a.env);
      }
    case Cond(c, t, f) =>
      ReplacedE(p, q, m, c, env);
      var a := SrcE(p, m, c, env).value;
      ReplacedE(p, q, m, if a.v != 0 then t else f, a.env);
    case Comma(l, r) =>
      ReplacedE(p, q, m, l, env);
      ReplacedE(p, q, m, r, SrcE(p, m, l, env).value.env);
    case Call(name, named, args) => ReplacedCall(p, q, m, name, named, args, env);
  }

  lemma {:induction false} ReplacedCall(p: Program, q: Program, m: nat, name: string, named: bool, args: Args, env: Env)
    requires Replaced(p, q) && SrcE(p, m, Call(name, named, args), env).Some?
    ensures SrcE(q, m, Call(name, named, args), env) == SrcE(p, m, Call(name, named, args), env)
    decreases m, Call(name, named, args), 0
  {
    hide Replaced, BodyRefines, Find, BindEnv;
    ReplacedArgs(p, q, m, args, env);
    var a, f := SrcArgs(p, m, args, env).value, Find(p, name).value;
    FindReplaced(p, q, name);
    var start := BindEnv(f.params, a.vs);
    var b := Find(q, name).value.body.value;
    BodyRefinesAt(p, f.body.value, b, m - 1, start);
    ReplacedBody(p, q, m - 1, b, start);
  }

  lemma {:induction false} ReplacedArgs(p: Program, q: Program, m: nat, args: Args, env: Env)
    requires Replaced(p, q) && SrcArgs(p, m, args, env).Some?
    ensures SrcArgs(q, m, args, env) == SrcArgs(p, m, args, env)
    decreases m, args
  {
    hide Replaced;
    match args
    case NoArgs =>
    case Arg(e, tail) =>
      ReplacedE(p, q, m, e, env);
      ReplacedArgs(p, q, m, tail, SrcE(p, m, e, env).value.env);
  }

  lemma ReplacedOpt(p: Program, q: Program, m: nat, e: Option<Expr>, env: Env)
    requires Replaced(p, q) && SrcOpt(p, m, e, env).Some?
    ensures SrcOpt(q, m, e, env) == SrcOpt(p, m, e, env)
    decreases m, e, 1
  {
    hide Replaced, SrcE;
    if e.Some? {
      ReplacedE(p, q, m, e.value, env);
    }
  }

  lemma {:induction false} ReplacedS(p: Program, q: Program, m: nat, s: Stmt, env: Env)
    requires Replaced(p, q) && SrcS(p, m, s, env).Some?
    ensures SrcS(q, m, s, env) == SrcS(p, m, s, env)
    decreases m, s, 1
  {
    hide Replaced, SrcE, SrcOpt;
    match s
    case Block(body) => ReplacedBody(p, q, m, body, env);
    case Return(value) =>
      if value.Some? {
        ReplacedE(p, q, m, value.value, env);
      }
    case If(c, t, f) =>
      ReplacedE(p, q, m, c, env);
      var a := SrcE(p, m, c, env).value;
      if a.v != 0 {
        ReplacedS(p, q, m, t, a.env);
      } else if f.Some? {
        ReplacedS(p, q, m, f.value, a.env);
      }
    case ExprStmt(e) => ReplacedE(p, q, m, e, env);
    case For(init, _, _, _) =>
      ReplacedOpt(p, q, m, init, env);
      ReplacedLoop(p, q, m, s, SrcOpt(p, m, init, env).value.env);
  }

  lemma {:induction false} ReplacedLoop(p: Program, q: Program, m: nat, s: Stmt, env: Env)
    requires Replaced(p, q) && s.For? && SrcLoop(p, m, s, env).Some?
    ensures SrcLoop(q, m, s, env) == SrcLoop(p, m, s, env)
    decreases m, s, 0
  {
    hide Replaced, SrcOpt;
    ReplacedOpt(p, q, m, s.test, env);
    var a := SrcOpt(p, m, s.test, env).value;
    if a.v != 0 {
      ReplacedS(p, q, m, s.loop, a.env);
      var r := SrcS(p, m, s.loop, a.env).value;
      if r.Next? {
        ReplacedOpt(p, q, m, s.inc, r.env);
        ReplacedLoop(p, q, m - 1, s, SrcOpt(p, m, s.inc, r.env).value.env);
      }
    }
  }

  lemma {:induction false} ReplacedBody(p: Program, q: Program, m: nat, body: Body, env: Env)
    requires Replaced(p, q) && SrcBody(p, m, body, env).Some?
    ensures SrcBody(q, m, body, env) == SrcBody(p, m, body, env)
    decreases m, body, 1
  {
    hide Replaced, SrcS;
    match body
    case End =>
    case Then(s, tail) =>
      ReplacedS(p, q, m, s, env);
      var r := SrcS(p, m, s, env).value;
      if r.Next? {
        ReplacedBody(p, q, m, tail, r.env);
      }
  }

  // Replacing functions by functions that do the same keeps every meaning.
  lemma ReplacedRefines(p: Program, q: Program)
    requires Replaced(p, q)
    ensures Refines(p, q)
  {
    hide Replaced, SrcE;
    forall m: nat, e: Expr, env: Env | SrcE(p, m, e, env).Some?
      ensures SrcE(q, m, e, env) == SrcE(p, m, e, env)
    {
      ReplacedE(p, q, m, e, env);
    }
  }
}
