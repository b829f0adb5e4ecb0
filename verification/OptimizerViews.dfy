/** What the interpreter may see of a program that is being rewritten, and why it does not matter: a
    named call goes to a function that is declared later, and those have not been rewritten yet. */
module OptimizerViews {
  import opened Words
  import opened Options
  import opened Interpreter
  import opened Optimizer

  // ----- what the parser guarantees of named calls -----

  // The functions that are called by name anywhere.
  function AllNames(p: Program): set<string> {
    set i, name | 0 <= i < |p| && p[i].body.Some? && name in NamesBody(p[i].body.value) :: name
  }

  // None of the names is that of function k or one before it.
  predicate Late(p: Program, k: nat, names: set<string>) {
    forall i :: 0 <= i <= k && i < |p| ==> p[i].name !in names
  }

  // The symbol of a function is declared before its body is parsed, and a call is named only if its
  // name is not declared: so named calls go forward.
  ghost predicate ParsedFrom(p: Program, k: nat) {
    forall i :: k <= i < |p| && p[i].body.Some? ==> Late(p, i, NamesBody(p[i].body.value))
  }

  ghost predicate Parsed(p: Program) { ParsedFrom(p, 0) }

  // Two programs that differ at most in functions up to k, and in no name.
  predicate SameBehind(p: Program, q: Program, k: nat) {
    && |q| == |p| && (forall i :: 0 <= i < |p| ==> q[i].name == p[i].name)
    && (forall i :: k < i < |p| ==> q[i] == p[i])
  }

  // The first function with the name is one of those from d on.
  lemma {:induction false} FindBehind(p: Program, q: Program, d: nat, name: string)
    requires |q| == |p| && (forall i :: 0 <= i < |p| ==> q[i].name == p[i].name)
    requires forall i :: 0 <= i < |p| ==> if i < d then p[i].name != name else q[i] == p[i]
    ensures Find(q, name) == Find(p, name)
    ensures Find(p, name).Some? ==> exists i :: d <= i < |p| && p[i] == Find(p, name).value
    decreases |p|
  {
    if p != [] && p[0].name != name {
      var n := if d == 0 then 0 else d - 1;
      FindBehind(p[1..], q[1..], n, name);
      if Find(p, name).Some? {
        var i :| n <= i < |p[1..]| && p[1..][i] == Find(p, name).value;
        assert p[i + 1] == p[1..][i];
      }
    }
  }

  // A named call in function k goes to a function behind it, and the names in that are late there.
  lemma Callee(p: Program, q: Program, k: nat, name: string) returns (j: nat)
    requires ParsedFrom(p, k + 1) && SameBehind(p, q, k) && Late(p, k, {name})
    requires Find(q, name).Some? && Find(q, name).value.body.Some?
    ensures k < j < |p| && Find(q, name) == Find(p, name) == Some(p[j]) && Late(p, j, NamesBody(p[j].body.value))
  {
    FindBehind(p, q, k + 1, name);
    j :| k + 1 <= j < |p| && p[j] == Find(p, name).value;
  }

  lemma SameFind(p: Program, q: Program, k: nat, name: string)
    requires SameBehind(p, q, k) && Late(p, k, {name})
    ensures Find(q, name) == Find(p, name)
  {
    FindBehind(p, q, k + 1, name);
  }

  lemma LateLess(p: Program, k: nat, names: set<string>, j: nat, names1: set<string>)
    requires Late(p, j, names) && k <= j && names1 <= names
    ensures Late(p, k, names1)
  {
  }

  // ----- all views of a program under rewriting differ in one function -----

  // The program, and the function in it, that a context belongs to.
  datatype Base = Base(p: Program, k: nat)

  function BaseE(ctx: ExprCtx): Base {
    match ctx
    case InAssign(_, up) => BaseE(up)
    case InBinL(_, _, up) => BaseE(up)
    case InBinR(_, _, up) => BaseE(up)
    case InLogicalL(_, _, up) => BaseE(up)
    case InLogicalR(_, _, up) => BaseE(up)
    case InCond(_, _, up) => BaseE(up)
    case InThen(_, _, up) => BaseE(up)
    case InElse(_, _, up) => BaseE(up)
    case InCommaL(_, up) => BaseE(up)
    case InCommaR(_, up) => BaseE(up)
    case InHead(_, up) => BaseArgs(up)
    case Unlinked(up) => BaseArgs(up)
    case InReturn(up) => BaseS(up)
    case InIf(_, _, up) => BaseS(up)
    case InExprStmt(up) => BaseS(up)
    case InTest(_, _, _, up) => BaseS(up)
    case InInit(_, _, _, up) => BaseS(up)
    case InInc(_, _, _, up) => BaseS(up)
  }

  function BaseArgs(ctx: ArgsCtx): Base {
    match ctx
    case InCall(_, _, up) => BaseE(up)
    case InTail(_, up) => BaseArgs(up)
  }

  function BaseS(ctx: StmtCtx): Base {
    match ctx
    case InIfThen(_, _, up) => BaseS(up)
    case InIfElse(_, _, up) => BaseS(up)
    case InLoop(_, _, _, up) => BaseS(up)
    case AtHead(_, up) => BaseBody(up)
  }

  function BaseBody(ctx: BodyCtx): Base {
    match ctx
    case InBlock(up) => BaseS(up)
    case InRest(_, up) => BaseBody(up)
    case Top(p, k) => Base(p, k)
  }

  predicate SameBut(b: Base, q: Program) {
    && |q| == |b.p| && b.k < |b.p| && q[b.k].name == b.p[b.k].name
    && forall i :: 0 <= i < |q| && i != b.k ==> q[i] == b.p[i]
  }

  lemma {:induction false} FillSameE(ctx: ExprCtx, e: Expr)
    requires BaseE(ctx).k < |BaseE(ctx).p|
    ensures SameBut(BaseE(ctx), FillE(ctx, e))
    decreases ctx
  {
    hide SameBut;
    match ctx
    case InAssign(x, up) => FillSameE(up, Assign(x, e));
    case InBinL(op, r, up) => FillSameE(up, Bin(op, e, r));
    case InBinR(op, l, up) => FillSameE(up, Bin(op, l, e));
    case InLogicalL(isAnd, r, up) => FillSameE(up, Logical(isAnd, e, r));
    case InLogicalR(isAnd, l, up) => FillSameE(up, Logical(isAnd, l, e));
    case InCond(t, f, up) => FillSameE(up, Cond(e, t, f));
    case InThen(c, f, up) => FillSameE(up, Cond(c, e, f));
    case InElse(c, t, up) => FillSameE(up, Cond(c, t, e));
    case InCommaL(r, up) => FillSameE(up, Comma(e, r));
    case InCommaR(l, up) => FillSameE(up, Comma(l, e));
    case InHead(tail, up) => FillSameArgs(up, Arg(e, tail));
    case Unlinked(up) => FillSameArgs(up, NoArgs);
    case InReturn(up) => FillSameS(up, Return(Some(e)));
    case InIf(thn, els, up) => FillSameS(up, If(e, thn, els));
    case InExprStmt(up) => FillSameS(up, ExprStmt(e));
    case InTest(init, inc, loop, up) => FillSameS(up, For(init, Some(e), inc, loop));
    case InInit(test, inc, loop, up) => FillSameS(up, For(Some(e), test, inc, loop));
    case InInc(init, test, loop, up) => FillSameS(up, For(init, test, Some(e), loop));
  }

  lemma {:induction false} FillSameArgs(ctx: ArgsCtx, args: Args)
    requires BaseArgs(ctx).k < |BaseArgs(ctx).p|
    ensures SameBut(BaseArgs(ctx), FillArgs(ctx, args))
    decreases ctx
  {
    hide SameBut;
    match ctx
    case InCall(name, named, up) => FillSameE(up, Call(name, named, args));
    case InTail(head, up) => FillSameArgs(up, Arg(head, args));
  }

  lemma {:induction false} FillSameS(ctx: StmtCtx, s: Stmt)
    requires BaseS(ctx).k < |BaseS(ctx).p|
    ensures SameBut(BaseS(ctx), FillS(ctx, s))
    decreases ctx
  {
    hide SameBut;
    match ctx
    case InIfThen(c, els, up) => FillSameS(up, If(c, s, els));
    case InIfElse(c, thn, up) => FillSameS(up, If(c, thn, Some(s)));
    case InLoop(init, test, inc, up) => FillSameS(up, For(init, test, inc, s));
    case AtHead(tail, up) => FillSameBody(up, Then(s, tail));
  }

  lemma {:induction false} FillSameBody(ctx: BodyCtx, body: Body)
    requires BaseBody(ctx).k < |BaseBody(ctx).p|
    ensures SameBut(BaseBody(ctx), FillBody(ctx, body))
    decreases ctx
  {
    match ctx
    case InBlock(up) => FillSameS(up, Block(body));
    case InRest(head, up) => FillSameBody(up, Then(head, body));
    case Top(_, _) =>
  }

  // ----- the interpreter runs on functions behind the one that is rewritten -----

  lemma BinEnds(op: Source.BinOp, l: I32, r: I32, slots: Slots)
    ensures !EvalBin(op, l, r, slots).Timeout? && !EvalBin(op, l, r, slots).NullName?
  {
    hide Sdiv, Smod, DivDefined;
  }

  // What is run from function k on gets only to functions behind it: it makes no difference what has
  // become of the others.  With at least one unit of fuel for each of those behind it, it ends.
  lemma {:induction false} EvalBehindE(p: Program, q: Program, k: nat, n: nat, m: nat, e: Expr, slots: Slots)
    requires ParsedFrom(p, k + 1) && SameBehind(p, q, k) && Late(p, k, Names(e)) && n + k + 1 >= |p| && m + k + 1 >= |p|
    ensures EvalE(q, n, e, slots) == EvalE(p, m, e, slots) && !EvalE(p, m, e, slots).Timeout?
    decreases n, e
  {
    hide ParsedFrom, SameBehind, Late, EvalBin, Find, BindSlots;
    match e
    case Assign(_, rhs) => EvalBehindE(p, q, k, n, m, rhs, slots);
    case Bin(_, l, r) =>
      LateLess(p, k, Names(e), k, Names(l));
      LateLess(p, k, Names(e), k, Names(r));
      EvalBehindE(p, q, k, n, m, l, slots);
      var a := EvalE(p, m, l, slots);
      if a.Ok? {
        EvalBehindE(p, q, k, n, m, r, a.slots);
        var b := EvalE(p, m, r, a.slots);
        if b.Ok? { BinEnds(e.op, a.v, b.v, b.slots); }
      }
    case Call(name, named, args) => EvalBehindCall(p, q, k, n, m, name, named, args, slots);
    case _ =>
  }

  lemma {:induction false} EvalBehindCall(p: Program, q: Program, k: nat, n: nat, m: nat, name: string, named: bool, args: Args, slots: Slots)
    requires ParsedFrom(p, k + 1) && SameBehind(p, q, k) && Late(p, k, Names(Call(name, named, args)))
    requires n + k + 1 >= |p| && m + k + 1 >= |p|
    ensures var e := Call(name, named, args); EvalE(q, n, e, slots) == EvalE(p, m, e, slots) && !EvalE(p, m, e, slots).Timeout?
    decreases n, Call(name, named, args), 0
  {
    hide ParsedFrom, SameBehind, Late, Find, BindSlots, EvalStmts;
    var names := Names(Call(name, named, args));
    LateLess(p, k, names, k, NamesArgs(args));
    EvalBehindArgs(p, q, k, n, m, args, slots, 0);
    if named {
      LateLess(p, k, names, k, {name});
      SameFind(p, q, k, name);
      var f, a := Find(q, name), EvalArguments(q, n, args, slots, 0);
      if a.Good? && f.Some? && f.value.body.Some? {
        var j := Callee(p, q, k, name);
        SameFrom(p, q, k, j);
        var inner := BindSlots(f.value.params, a.vs);
        if inner.Some? {
          EvalBehindBody(p, q, j, n - 1, m - 1, f.value.body.value, inner.value, 0);
        }
      }
    }
  }

  lemma SameFrom(p: Program, q: Program, k: nat, j: nat)
    requires ParsedFrom(p, k + 1) && SameBehind(p, q, k) && k <= j
    ensures ParsedFrom(p, j + 1) && SameBehind(p, q, j)
  {
  }

  lemma {:induction false} EvalBehindArgs(p: Program, q: Program, k: nat, n: nat, m: nat, args: Args, slots: Slots, i: nat)
    requires ParsedFrom(p, k + 1) && SameBehind(p, q, k) && Late(p, k, NamesArgs(args)) && n + k + 1 >= |p| && m + k + 1 >= |p|
    ensures EvalArguments(q, n, args, slots, i) == EvalArguments(p, m, args, slots, i)
    ensures EvalArguments(p, m, args, slots, i).Bad? ==> !EvalArguments(p, m, args, slots, i).r.Timeout?
    decreases n, args
  {
    hide ParsedFrom, SameBehind, Late, EvalE;
    match args
    case NoArgs =>
    case Arg(e, tail) =>
      LateLess(p, k, NamesArgs(args), k, Names(e));
      LateLess(p, k, NamesArgs(args), k, NamesArgs(tail));
      EvalBehindE(p, q, k, n, m, e, slots);
      var a := EvalE(p, m, e, slots);
      if a.Ok? {
        EvalBehindArgs(p, q, k, n, m, tail, a.slots, i + 1);
      }
  }

  lemma {:induction false} EvalBehindS(p: Program, q: Program, k: nat, n: nat, m: nat, s: Stmt, slots: Slots)
    requires ParsedFrom(p, k + 1) && SameBehind(p, q, k) && Late(p, k, NamesS(s)) && n + k + 1 >= |p| && m + k + 1 >= |p|
    ensures EvalS(q, n, s, slots) == EvalS(p, m, s, slots) && !EvalS(p, m, s, slots).Timeout?
    decreases n, s
  {
    hide ParsedFrom, SameBehind, Late, EvalE;
    match s
    case Block(body) => EvalBehindBody(p, q, k, n, m, body, slots, 0);
    case Return(value) =>
      if value.Some? {
        EvalBehindE(p, q, k, n, m, value.value, slots);
      }
    case If(c, t, f) =>
      LateLess(p, k, NamesS(s), k, Names(c));
      LateLess(p, k, NamesS(s), k, NamesS(t));
      EvalBehindE(p, q, k, n, m, c, slots);
      var a := EvalE(p, m, c, slots);
      if a.Ok? {
        EvalBehindS(p, q, k, n, m, t, a.slots);
        if f.Some? {
          LateLess(p, k, NamesS(s), k, NamesS(f.value));
          EvalBehindS(p, q, k, n, m, f.value, a.slots);
        }
      }
    case ExprStmt(e) => EvalBehindE(p, q, k, n, m, e, slots);
    case For(_, _, _, _) =>
  }

  lemma {:induction false} EvalBehindBody(p: Program, q: Program, k: nat, n: nat, m: nat, body: Body, slots: Slots, last: I32)
    requires ParsedFrom(p, k + 1) && SameBehind(p, q, k) && Late(p, k, NamesBody(body)) && n + k + 1 >= |p| && m + k + 1 >= |p|
    ensures EvalStmts(q, n, body, slots, last) == EvalStmts(p, m, body, slots, last) && !EvalStmts(p, m, body, slots, last).Timeout?
    decreases n, body
  {
    hide ParsedFrom, SameBehind, Late, EvalS;
    match body
    case End =>
    case Then(s, tail) =>
      LateLess(p, k, NamesBody(body), k, NamesS(s));
      LateLess(p, k, NamesBody(body), k, NamesBody(tail));
      EvalBehindS(p, q, k, n, m, s, slots);
      var a := EvalS(p, m, s, slots);
      if a.Ok? && !a.returned {
        EvalBehindBody(p, q, k, n, m, tail, a.slots, a.v);
      }
  }

  // So a call becomes the same whatever the function it is in has become meanwhile.
  lemma FoldBehind(p: Program, q: Program, k: nat, n: nat, m: nat, name: string, named: bool, args: Args)
    requires ParsedFrom(p, k + 1) && SameBehind(p, q, k) && (named ==> Late(p, k, {name})) && n + k + 2 >= |p| && m + k + 2 >= |p|
    ensures FoldCall(q, n, name, named, args) == FoldCall(p, m, name, named, args)
  {
    hide ParsedFrom, SameBehind, Late, Find, BindSlots, EvalStmts;
    if named {
      SameFind(p, q, k, name);
      var f, vals := Find(q, name), ConstArgs(args);
      if f.Some? && f.value.body.Some? && vals.Some? {
        var j := Callee(p, q, k, name);
        SameFrom(p, q, k, j);
        var slots := BindSlots(f.value.params, Kept(vals.value));
        if slots.Some? {
          EvalBehindBody(p, q, j, n, m, f.value.body.value, slots.value, 0);
        }
      }
    }
  }

  // ----- rewriting in place is rewriting with the interpreter on the original program -----

  // The program as it stands differs from p only up to function k.
  ghost predicate Within(p: Program, k: nat, b: Base) { b.k == k < |b.p| && SameBehind(p, b.p, k) }

  lemma WithinFill(p: Program, k: nat, ctx: ExprCtx, e: Expr)
    requires Within(p, k, BaseE(ctx))
    ensures SameBehind(p, FillE(ctx, e), k)
  {
    hide FillE;
    FillSameE(ctx, e);
  }

  lemma {:induction false} InPlaceE(p: Program, k: nat, ctx: ExprCtx, n: nat, m: nat, e: Expr)
    requires ParsedFrom(p, k + 1) && Within(p, k, BaseE(ctx)) && Late(p, k, Names(e)) && n + k + 2 >= |p| && m + k + 2 >= |p|
    ensures OptE(ctx, n, e) == RewriteE(p, m, e)
    decreases e
  {
    hide ParsedFrom, Within, Late, FoldBin, FoldCall, FillE;
    match e
    case Num(_) =>
    case Var(_) =>
    case Assign(x, rhs) => InPlaceE(p, k, InAssign(x, ctx), n, m, rhs);
    case Bin(op, l, r) =>
      LateLess(p, k, Names(e), k, Names(l));
      LateLess(p, k, Names(e), k, Names(r));
      InPlaceE(p, k, InBinL(op, r, ctx), n, m, l);
      var l1 := RewriteE(p, m, l);
      if l1.Done? { InPlaceE(p, k, InBinR(op, l1.value, ctx), n, m, r); }
    case Logical(isAnd, l, r) =>
      LateLess(p, k, Names(e), k, Names(l));
      LateLess(p, k, Names(e), k, Names(r));
      InPlaceE(p, k, InLogicalL(isAnd, r, ctx), n, m, l);
      var l1 := RewriteE(p, m, l);
      if l1.Done? { InPlaceE(p, k, InLogicalR(isAnd, l1.value, ctx), n, m, r); }
    case Cond(c, t, f) =>
      LateLess(p, k, Names(e), k, Names(c));
      LateLess(p, k, Names(e), k, Names(t));
      LateLess(p, k, Names(e), k, Names(f));
      InPlaceE(p, k, InCond(t, f, ctx), n, m, c);
      var c1 := RewriteE(p, m, c);
      if c1.Done? {
        InPlaceE(p, k, InThen(c1.value, f, ctx), n, m, t);
        var t1 := RewriteE(p, m, t);
        if t1.Done? { InPlaceE(p, k, InElse(c1.value, t1.value, ctx), n, m, f); }
      }
    case Comma(l, r) =>
      LateLess(p, k, Names(e), k, Names(l));
      LateLess(p, k, Names(e), k, Names(r));
      InPlaceE(p, k, InCommaL(r, ctx), n, m, l);
      var l1 := RewriteE(p, m, l);
      if l1.Done? { InPlaceE(p, k, InCommaR(l1.value, ctx), n, m, r); }
    case Call(name, named, args) =>
      LateLess(p, k, Names(e), k, NamesArgs(args));
      if named { LateLess(p, k, Names(e), k, {name}); }
      InPlaceArgs(p, k, InCall(name, named, ctx), n, m, args, false);
      var args1 := RewriteArgs(p, m, args);
      if args1.Done? {
        WithinFill(p, k, ctx, Call(name, named, args1.value));
        FoldBehind(p, FillE(ctx, Call(name, named, args1.value)), k, n, m, name, named, args1.value);
      }
  }

  lemma {:induction false} InPlaceArgs(p: Program, k: nat, ctx: ArgsCtx, n: nat, m: nat, args: Args, unlinked: bool)
    requires ParsedFrom(p, k + 1) && Within(p, k, BaseArgs(ctx)) && Late(p, k, NamesArgs(args)) && n + k + 2 >= |p| && m + k + 2 >= |p|
    ensures OptArgs(ctx, n, args, unlinked) == RewriteArgs(p, m, args)
    decreases args
  {
    hide ParsedFrom, Within, Late, OptE, RewriteE;
    match args
    case NoArgs =>
    case Arg(e, tail) =>
      LateLess(p, k, NamesArgs(args), k, Names(e));
      LateLess(p, k, NamesArgs(args), k, NamesArgs(tail));
      InPlaceE(p, k, if unlinked then Unlinked(ctx) else InHead(tail, ctx), n, m, e);
      var e1 := RewriteE(p, m, e);
      if e1.Done? { InPlaceArgs(p, k, InTail(e1.value, ctx), n, m, tail, Fresh(e, e1.value)); }
  }

  lemma InPlaceOpt(p: Program, k: nat, ctx: ExprCtx, n: nat, m: nat, e: Option<Expr>)
    requires ParsedFrom(p, k + 1) && Within(p, k, BaseE(ctx)) && Late(p, k, NamesOpt(e)) && n + k + 2 >= |p| && m + k + 2 >= |p|
    ensures OptOpt(ctx, n, e) == RewriteOpt(p, m, e)
  {
    hide ParsedFrom, Within, Late, OptE, RewriteE;
    if e.Some? {
      InPlaceE(p, k, ctx, n, m, e.value);
    }
  }

  lemma {:induction false} InPlaceS(p: Program, k: nat, ctx: StmtCtx, n: nat, m: nat, s: Stmt)
    requires ParsedFrom(p, k + 1) && Within(p, k, BaseS(ctx)) && Late(p, k, NamesS(s)) && n + k + 2 >= |p| && m + k + 2 >= |p|
    ensures OptS(ctx, n, s) == RewriteS(p, m, s)
    decreases s, 1
  {
    hide ParsedFrom, Within, Late, OptE, RewriteE, OptOpt, RewriteOpt;
    match s
    case Block(body) => InPlaceBody(p, k, InBlock(ctx), n, m, body);
    case Return(value) => InPlaceOpt(p, k, InReturn(ctx), n, m, value);
    case If(c, t, f) =>
      LateLess(p, k, NamesS(s), k, Names(c));
      LateLess(p, k, NamesS(s), k, NamesS(t));
      InPlaceE(p, k, InIf(t, f, ctx), n, m, c);
      var c1 := RewriteE(p, m, c);
      if c1.Done? {
        InPlaceS(p, k, InIfThen(c1.value, f, ctx), n, m, t);
        var t1 := RewriteS(p, m, t);
        if t1.Done? && f.Some? {
          LateLess(p, k, NamesS(s), k, NamesS(f.value));
          InPlaceS(p, k, InIfElse(c1.value, t1.value, ctx), n, m, f.value);
        }
      }
    case ExprStmt(e) => InPlaceE(p, k, InExprStmt(ctx), n, m, e);
    case For(_, _, _, _) => InPlaceFor(p, k, ctx, n, m, s);
  }

  lemma {:induction false} InPlaceFor(p: Program, k: nat, ctx: StmtCtx, n: nat, m: nat, s: Stmt)
    requires ParsedFrom(p, k + 1) && Within(p, k, BaseS(ctx)) && Late(p, k, NamesS(s)) && n + k + 2 >= |p| && m + k + 2 >= |p|
    requires s.For?
    ensures OptS(ctx, n, s) == RewriteS(p, m, s)
    decreases s, 0
  {
    hide ParsedFrom, Within, Late, OptE, RewriteE, OptOpt, RewriteOpt;
    var init, test, inc, loop := s.init, s.test, s.inc, s.loop;
    LateLess(p, k, NamesS(s), k, NamesOpt(init));
    LateLess(p, k, NamesS(s), k, NamesOpt(test));
    LateLess(p, k, NamesS(s), k, NamesOpt(inc));
    LateLess(p, k, NamesS(s), k, NamesS(loop));
    InPlaceOpt(p, k, InTest(init, inc, loop, ctx), n, m, test);
    var test1 := RewriteOpt(p, m, test);
    if test1.Done? {
      InPlaceS(p, k, InLoop(init, test1.value, inc, ctx), n, m, loop);
      var loop1 := RewriteS(p, m, loop);
      if loop1.Done? {
        InPlaceOpt(p, k, InInit(test1.value, inc, loop1.value, ctx), n, m, init);
        var init1 := RewriteOpt(p, m, init);
        if init1.Done? {
          InPlaceOpt(p, k, InInc(init1.value, test1.value, loop1.value, ctx), n, m, inc);
        }
      }
    }
  }

  lemma {:induction false} InPlaceBody(p: Program, k: nat, ctx: BodyCtx, n: nat, m: nat, body: Body)
    requires ParsedFrom(p, k + 1) && Within(p, k, BaseBody(ctx)) && Late(p, k, NamesBody(body)) && n + k + 2 >= |p| && m + k + 2 >= |p|
    ensures OptBody(ctx, n, body) == RewriteBody(p, m, body)
    decreases body
  {
    hide ParsedFrom, Within, Late, OptS, RewriteS;
    match body
    case End =>
    case Then(s, tail) =>
      LateLess(p, k, NamesBody(body), k, NamesS(s));
      LateLess(p, k, NamesBody(body), k, NamesBody(tail));
      InPlaceS(p, k, AtHead(tail, ctx), n, m, s);
      var s1 := RewriteS(p, m, s);
      if s1.Done? { InPlaceBody(p, k, InRest(s1.value, ctx), n, m, tail); }
  }

  // ----- the whole program -----

  // Function k is to be rewritten next; the interpreter only gets to functions behind it, which are
  // still those of p.
  lemma NextInPlace(p: Program, q: Program, n: nat, m: nat, k: nat)
    requires Parsed(p) && k < |p| && |q| == |p| && q[k..] == p[k..] && (forall i :: 0 <= i < |p| ==> q[i].name == p[i].name)
    requires p[k].body.Some? && n + 2 >= |p| && m + 2 >= |p|
    ensures OptBody(Top(q, k), n, q[k].body.value) == RewriteBody(p, m, p[k].body.value)
  {
    hide OptBody, RewriteBody, NamesBody;
    forall i | k <= i < |p| ensures q[i] == p[i] {
      assert q[k..][i - k] == p[k..][i - k];
    }
    InPlaceBody(p, k, Top(q, k), n, m, p[k].body.value);
  }

  // Functions k.. rewritten with an interpreter that runs on p.
  function RewriteFrom(p: Program, fuel: nat, k: nat): Result<Program>
    requires k <= |p|
    decreases |p| - k
  {
    if k == |p| then Done([])
    else if p[k].body.None? then
      var rest :- RewriteFrom(p, fuel, k + 1);
      Done([p[k]] + rest)
    else
      var body1 :- RewriteBody(p, fuel, p[k].body.value);
      var rest :- RewriteFrom(p, fuel, k + 1);
      Done([p[k].(body := Some(body1))] + rest)
  }

  lemma {:induction false} FromInPlace(p: Program, q: Program, n: nat, m: nat, k: nat)
    requires Parsed(p) && k <= |p| && |q| == |p| && q[k..] == p[k..] && (forall i :: 0 <= i < |p| ==> q[i].name == p[i].name)
    requires n + 2 >= |p| && m + 2 >= |p|
    ensures OptFrom(q, n, k) == match RewriteFrom(p, m, k) case Done(r) => Done(q[..k] + r) case Aborted(why) => Aborted(why)
    decreases |p| - k
  {
    hide OptBody, RewriteBody, Parsed;
    if k == |p| {
      assert q[..k] + [] == q;
    } else {
      assert q[k] == q[k..][0] == p[k..][0] == p[k];
      assert q[k + 1..] == q[k..][1..] == p[k..][1..] == p[k + 1..];
      if p[k].body.None? {
        FromInPlace(p, q, n, m, k + 1);
        Joined(q, q, k, RewriteFrom(p, m, k + 1));
      } else {
        NextInPlace(p, q, n, m, k);
        var body1 := RewriteBody(p, m, p[k].body.value);
        if body1.Done? {
          var q1 := q[k := q[k].(body := Some(body1.value))];
          FromInPlace(p, q1, n, m, k + 1);
          Joined(q, q1, k, RewriteFrom(p, m, k + 1));
        }
      }
    }
  }

  lemma Joined(q: Program, q1: Program, k: nat, r: Result<Program>)
    requires k < |q| && |q1| == |q| && q1[..k] == q[..k]
    ensures r.Done? ==> q1[..k + 1] + r.value == q[..k] + ([q1[k]] + r.value)
  {
  }

  // While a function of a parsed program is rewritten, part by part, nothing that the interpreter
  // sees has been changed; and the interpreter needs no more fuel than there are functions.
  lemma RewrittenInPlace(p: Program, n: nat, m: nat)
    requires Parsed(p) && n >= |p| && m >= |p|
    ensures OptProgram(p, n) == RewriteFrom(p, m, 0) == Optimize(p)
  {
    hide OptFrom, RewriteFrom;
    FromInPlace(p, p, n, m, 0);
    FromInPlace(p, p, |p|, m, 0);
    var r := RewriteFrom(p, m, 0);
    if r.Done? {
      assert p[..0] + r.value == r.value;
    }
  }
}
