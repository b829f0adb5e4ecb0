/** The AST optimizer preserves the meaning of programs. */
module OptimizerCorrect {
  import opened Options
  import opened Interpreter
  import opened Optimizer
  import opened OptimizerViews
  import opened ProgramRefinement

  // ----- rewriting preserves values and effects -----

  lemma NumMeans(p: Program, m: nat, e: Expr, env: Env)
    requires e.Num?
    ensures SrcE(p, m, e, env) == if InInt(e.val) then Some(Value(e.val, env)) else None
  {
  }

  lemma FoldBinPreserved(p: Program, op: Source.BinOp, l: Expr, r: Expr, m: nat, env: Env)
    requires SrcE(p, m, Bin(op, l, r), env).Some? && FoldBin(op, l, r).Done?
    ensures SrcE(p, m, FoldBin(op, l, r).value, env) == SrcE(p, m, Bin(op, l, r), env)
  {
    hide StrictBin, FoldVal;
    if l.Num? && r.Num? && FoldVal(op, l.val, r.val).Some? {
      NumMeans(p, m, l, env);
      NumMeans(p, m, r, env);
      FoldAgrees(op, l.val, r.val);
    }
  }

  lemma {:induction false} PreservedE(p: Program, names: set<string>, n: nat, m: nat, e: Expr, env: Env)
    requires OkIn(p, names) && Names(e) <= names && SrcE(p, m, e, env).Some? && RewriteE(p, n, e).Done?
    ensures SrcE(p, m, RewriteE(p, n, e).value, env) == SrcE(p, m, e, env)
    decreases e
  {
    hide OkIn, FoldBin, FoldCall, StrictBin;
    match e
    case Num(_) =>
    case Var(_) =>
    case Assign(_, rhs) => PreservedE(p, names, n, m, rhs, env);
    case Bin(op, l, r) =>
      PreservedE(p, names, n, m, l, env);
      PreservedE(p, names, n, m, r, SrcE(p, m, l, env).value.env);
      FoldBinPreserved(p, op, RewriteE(p, n, l).value, RewriteE(p, n, r).value, m, env);
    case Logical(_, l, r) =>
      PreservedE(p, names, n, m, l, env);
      var a := SrcE(p, m, l, env).value;
      if SrcE(p, m, r, a.env).Some? {
        PreservedE(p, names, n, m, r, a.env);
      }
    case Cond(c, t, f) =>
      PreservedE(p, names, n, m, c, env);
      var a := SrcE(p, m, c, env).value;
      PreservedE(p, names, n, m, if a.v != 0 then t else f, a.env);
    case Comma(l, r) =>
      PreservedE(p, names, n, m, l, env);
      PreservedE(p, names, n, m, r, SrcE(p, m, l, env).value.env);
    case Call(name, named, args) =>
      PreservedArgs(p, names, n, m, args, env);
      var args1 := RewriteArgs(p, n, args).value;
      assert SrcE(p, m, Call(name, named, args1), env) == SrcE(p, m, e, env);
      CallPreserved(p, names, n, m, name, named, args1, env);
  }

  lemma {:induction false} PreservedArgs(p: Program, names: set<string>, n: nat, m: nat, args: Args, env: Env)
    requires OkIn(p, names) && NamesArgs(args) <= names && SrcArgs(p, m, args, env).Some? && RewriteArgs(p, n, args).Done?
    ensures SrcArgs(p, m, RewriteArgs(p, n, args).value, env) == SrcArgs(p, m, args, env)
    decreases args
  {
    hide OkIn, RewriteE;
    match args
    case NoArgs =>
    case Arg(e, tail) =>
      PreservedE(p, names, n, m, e, env);
      PreservedArgs(p, names, n, m, tail, SrcE(p, m, e, env).value.env);
  }

  lemma PreservedOpt(p: Program, names: set<string>, n: nat, m: nat, e: Option<Expr>, env: Env)
    requires OkIn(p, names) && NamesOpt(e) <= names && SrcOpt(p, m, e, env).Some? && RewriteOpt(p, n, e).Done?
    ensures SrcOpt(p, m, RewriteOpt(p, n, e).value, env) == SrcOpt(p, m, e, env)
  {
    hide OkIn, RewriteE, SrcE;
    if e.Some? {
      PreservedE(p, names, n, m, e.value, env);
    }
  }

  lemma {:induction false} PreservedS(p: Program, names: set<string>, n: nat, m: nat, s: Stmt, env: Env)
    requires OkIn(p, names) && NamesS(s) <= names && SrcS(p, m, s, env).Some? && RewriteS(p, n, s).Done?
    ensures SrcS(p, m, RewriteS(p, n, s).value, env) == SrcS(p, m, s, env)
    decreases s, m, 1
  {
    hide OkIn, RewriteE, SrcE, RewriteOpt, SrcOpt;
    match s
    case Block(body) => PreservedBody(p, names, n, m, body, env);
    case Return(value) => PreservedValue(p, names, n, m, value, env);
    case If(c, t, f) => PreservedIf(p, names, n, m, c, t, f, env);
    case ExprStmt(e) => PreservedE(p, names, n, m, e, env);
    case For(init, _, _, _) =>
      PreservedOpt(p, names, n, m, init, env);
      PreservedLoop(p, names, n, m, s, SrcOpt(p, m, init, env).value.env);
  }

  lemma PreservedValue(p: Program, names: set<string>, n: nat, m: nat, e: Option<Expr>, env: Env)
    requires OkIn(p, names) && NamesOpt(e) <= names && RewriteOpt(p, n, e).Done? && (e.Some? ==> SrcE(p, m, e.value, env).Some?)
    ensures RewriteOpt(p, n, e).value.Some? <==> e.Some?
    ensures e.Some? ==> SrcE(p, m, RewriteOpt(p, n, e).value.value, env) == SrcE(p, m, e.value, env)
  {
    hide OkIn, RewriteE, SrcE;
    if e.Some? {
      PreservedE(p, names, n, m, e.value, env);
    }
  }

  lemma {:induction false} PreservedIf(p: Program, names: set<string>, n: nat, m: nat, c: Expr, t: Stmt, f: Option<Stmt>, env: Env)
    requires OkIn(p, names) && NamesS(If(c, t, f)) <= names && SrcS(p, m, If(c, t, f), env).Some? && RewriteS(p, n, If(c, t, f)).Done?
    ensures SrcS(p, m, RewriteS(p, n, If(c, t, f)).value, env) == SrcS(p, m, If(c, t, f), env)
    decreases If(c, t, f), m, 0
  {
    hide OkIn, RewriteE, SrcE;
    PreservedE(p, names, n, m, c, env);
    var a := SrcE(p, m, c, env).value;
    if a.v != 0 {
      PreservedS(p, names, n, m, t, a.env);
    } else if f.Some? {
      PreservedS(p, names, n, m, f.value, a.env);
    }
  }

  lemma {:induction false} PreservedLoop(p: Program, names: set<string>, n: nat, m: nat, s: Stmt, env: Env)
    requires OkIn(p, names) && NamesS(s) <= names && s.For? && SrcLoop(p, m, s, env).Some? && RewriteS(p, n, s).Done?
    ensures RewriteS(p, n, s).value.For? && SrcLoop(p, m, RewriteS(p, n, s).value, env) == SrcLoop(p, m, s, env)
    decreases s, m, 0
  {
    hide OkIn, RewriteOpt, SrcOpt;
    PreservedOpt(p, names, n, m, s.test, env);
    var a := SrcOpt(p, m, s.test, env).value;
    if a.v != 0 {
      PreservedS(p, names, n, m, s.loop, a.env);
      var r := SrcS(p, m, s.loop, a.env).value;
      if r.Next? {
        PreservedOpt(p, names, n, m, s.inc, r.env);
        PreservedLoop(p, names, n, m - 1, s, SrcOpt(p, m, s.inc, r.env).value.env);
      }
    }
  }

  lemma {:induction false} PreservedBody(p: Program, names: set<string>, n: nat, m: nat, body: Body, env: Env)
    requires OkIn(p, names) && NamesBody(body) <= names && SrcBody(p, m, body, env).Some? && RewriteBody(p, n, body).Done?
    ensures SrcBody(p, m, RewriteBody(p, n, body).value, env) == SrcBody(p, m, body, env)
    decreases body, m, 1
  {
    hide OkIn, RewriteS, SrcS;
    match body
    case End =>
    case Then(s, tail) =>
      PreservedS(p, names, n, m, s, env);
      var r := SrcS(p, m, s, env).value;
      if r.Next? {
        PreservedBody(p, names, n, m, tail, r.env);
      }
  }

  // ----- the whole program -----

  lemma FuncPreserved(p: Program, names: set<string>, n: nat, f: Func, b: Body)
    requires OkIn(p, names) && f.body.Some? && NamesBody(f.body.value) <= names && RewriteBody(p, n, f.body.value) == Done(b)
    ensures FuncRefines(p, f, f.(body := Some(b)))
  {
    hide OkIn, RewriteBody, SrcBody;
    forall m: nat, env: Env | SrcBody(p, m, f.body.value, env).Some?
      ensures SrcBody(p, m, b, env) == SrcBody(p, m, f.body.value, env)
    {
      PreservedBody(p, names, n, m, f.body.value, env);
    }
  }

  lemma FuncSelf(p: Program, f: Func)
    ensures FuncRefines(p, f, f)
  {
  }

  lemma {:induction false} FromPreserved(p: Program, names: set<string>, n: nat, k: nat)
    requires OkIn(p, names) && AllNames(p) <= names && k <= |p| && RewriteFrom(p, n, k).Done?
    ensures var r := RewriteFrom(p, n, k).value; |r| == |p| - k && forall i :: k <= i < |p| ==> FuncRefines(p, p[i], r[i - k])
    decreases |p| - k
  {
    hide OkIn, RewriteBody, FuncRefines;
    if k < |p| {
      FromPreserved(p, names, n, k + 1);
      if p[k].body.None? {
        FuncSelf(p, p[k]);
      } else {
        FuncPreserved(p, names, n, p[k], RewriteBody(p, n, p[k].body.value).value);
      }
    }
  }

  // Whatever has a value in a program from the parser has the same value and effects in the optimized
  // program, provided that the compiler gets that far, and that the functions called by name have
  // slots of their own for their variables, or are such that the interpreter is stuck on them.
  lemma OptimizePreserves(p: Program)
    requires Parsed(p) && OkIn(p, AllNames(p))
    ensures Optimize(p).Done? ==> |Optimize(p).value| == |p| && Refines(p, Optimize(p).value)
  {
    hide OkIn, AllNames, Parsed, OptProgram, FuncRefines, RewriteFrom, Refines;
    RewrittenInPlace(p, |p|, |p|);
    if Optimize(p).Done? {
      FromPreserved(p, AllNames(p), |p|, 0);
      ReplacedRefines(p, Optimize(p).value);
    }
  }

  // In particular if no function is called by name.
  lemma NoNamesPreserved(p: Program)
    requires AllNames(p) == {}
    ensures Optimize(p).Done? ==> Refines(p, Optimize(p).value)
  {
    hide Refines, OptProgram;
    forall i | 0 <= i < |p| && p[i].body.Some? ensures NamesBody(p[i].body.value) == {} {
      assert NamesBody(p[i].body.value) <= AllNames(p);
    }
    OptimizePreserves(p);
  }
}
