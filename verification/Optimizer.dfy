/** The AST optimizer: constants are folded bottom-up and named calls with constant arguments are
    replaced by the number the interpreter computes.  The tree is rewritten in place, so the
    interpreter sees the program as it stands at that moment. */
module Optimizer {
  import opened Words
  import opened Options
  import opened Interpreter

  // What is left of a node or a program; or the compiler did something C leaves undefined.
  datatype Result<+T> = Done(value: T) | Aborted(why: Reason) {
    predicate IsFailure() { Aborted? }

    function PropagateFailure<U>(): Result<U>
      requires Aborted?
    {
      Aborted(why)
    }

    function Extract(): T
      requires Done?
    {
      value
    }
  }

  // NullCompared: a null name was passed to strcmp.  Undefined: anything else.
  datatype Reason = NullCompared | Undefined

  // Folding works on 64-bit values; a zero divisor is left for run time.
  function FoldVal(op: Source.BinOp, l: int, r: int): Option<int> {
    match op
    case Add => Some(Wrap64(l + r))
    case Sub => Some(Wrap64(l - r))
    case Mul => Some(Wrap64(Mul(l, r)))
    case Div => if r == 0 then None else Some(Wrap64(TruncDiv(l, r)))
    case Mod => if r == 0 then None else Some(Wrap64(TruncMod(l, r)))
    case _ => None
  }

  // The values of the arguments, if all are numbers.
  function ConstArgs(args: Args): Option<seq<I32>> {
    match args
    case NoArgs => Some([])
    case Arg(e, tail) =>
      var r := ConstArgs(tail);
      if e.Num? && r.Some? then Some([Truncate(e.val)] + r.value) else None
  }

  // Only the first ten arguments are kept.
  function Kept(vals: seq<I32>): seq<I32> { if |vals| <= MAX_ARGS then vals else vals[..MAX_ARGS] }

  function RunCall(p: Program, fuel: nat, f: Func, vals: seq<I32>): Eval
    requires f.body.Some?
  {
    var slots := BindSlots(f.params, Kept(vals));
    if slots.None? then Crash else EvalStmts(p, fuel, f.body.value, slots.value, 0)
  }

  // What a call with these (rewritten) arguments becomes.
  function FoldCall(p: Program, fuel: nat, name: string, named: bool, args: Args): Result<Expr> {
    var vals, f := ConstArgs(args), Find(p, name);
    if !named || vals.None? || name == PRINTF || f.None? || f.value.body.None? || f.value.cleanup then Done(Call(name, named, args))
    else
      match RunCall(p, fuel, f.value, vals.value)
      case Ok(v, _, _) => Done(Num(v))
      case NullName => Aborted(NullCompared)
      case Crash => Aborted(Undefined)
      case _ => Done(Call(name, named, args))
  }

  // The only division of 64-bit values that has no 64-bit result.
  predicate Overflows(op: Source.BinOp, l: int, r: int) { (op.Div? || op.Mod?) && l == -0x8000_0000_0000_0000 && r == -1 }

  function FoldBin(op: Source.BinOp, l: Expr, r: Expr): Result<Expr> {
    if !l.Num? || !r.Num? || FoldVal(op, l.val, r.val).None? then Done(Bin(op, l, r))
    else if Overflows(op, l.val, r.val) then Aborted(Undefined)
    else Done(Num(FoldVal(op, l.val, r.val).value))
  }

  // ----- the program around the node that is being rewritten -----

  // Where an expression stands.  Parts that come before it have been rewritten, parts after it not.
  datatype ExprCtx =
    | InAssign(x: nat, up: ExprCtx)
    | InBinL(op: Source.BinOp, r: Expr, up: ExprCtx)
    | InBinR(op: Source.BinOp, l: Expr, up: ExprCtx)
    | InLogicalL(isAnd: bool, r: Expr, up: ExprCtx)
    | InLogicalR(isAnd: bool, l: Expr, up: ExprCtx)
    | InCond(t: Expr, f: Expr, up: ExprCtx)
    | InThen(c: Expr, f: Expr, up: ExprCtx)
    | InElse(c: Expr, t: Expr, up: ExprCtx)
    | InCommaL(r: Expr, up: ExprCtx)
    | InCommaR(l: Expr, up: ExprCtx)
    | InHead(tail: Args, upArgs: ArgsCtx)
    | Unlinked(upArgs: ArgsCtx)       // behind an argument whose new node has no successor yet
    | InReturn(upStmt: StmtCtx)
    | InIf(thn: Stmt, els: Option<Stmt>, upStmt: StmtCtx)
    | InExprStmt(upStmt: StmtCtx)
    | InTest(init: Option<Expr>, inc: Option<Expr>, loop: Stmt, upStmt: StmtCtx)
    | InInit(test: Option<Expr>, inc: Option<Expr>, loop: Stmt, upStmt: StmtCtx)
    | InInc(init: Option<Expr>, test: Option<Expr>, loop: Stmt, upStmt: StmtCtx)

  datatype ArgsCtx = InCall(name: string, named: bool, up: ExprCtx) | InTail(head: Expr, upArgs: ArgsCtx)

  datatype StmtCtx =
    | InIfThen(c: Expr, els: Option<Stmt>, up: StmtCtx)
    | InIfElse(c: Expr, thn: Stmt, up: StmtCtx)
    | InLoop(init: Option<Expr>, test: Option<Expr>, inc: Option<Expr>, up: StmtCtx)
    | AtHead(tail: Body, upBody: BodyCtx)

  datatype BodyCtx = InBlock(up: StmtCtx) | InRest(head: Stmt, upBody: BodyCtx) | Top(p: Program, k: nat)

  // The program with e in its place.
  function FillE(ctx: ExprCtx, e: Expr): Program {
    match ctx
    case InAssign(x, up) => FillE(up, Assign(x, e))
    case InBinL(op, r, up) => FillE(up, Bin(op, e, r))
    case InBinR(op, l, up) => FillE(up, Bin(op, l, e))
    case InLogicalL(isAnd, r, up) => FillE(up, Logical(isAnd, e, r))
    case InLogicalR(isAnd, l, up) => FillE(up, Logical(isAnd, l, e))
    case InCond(t, f, up) => FillE(up, Cond(e, t, f))
    case InThen(c, f, up) => FillE(up, Cond(c, e, f))
    case InElse(c, t, up) => FillE(up, Cond(c, t, e))
    case InCommaL(r, up) => FillE(up, Comma(e, r))
    case InCommaR(l, up) => FillE(up, Comma(l, e))
    case InHead(tail, up) => FillArgs(up, Arg(e, tail))
    case Unlinked(up) => FillArgs(up, NoArgs)
    case InReturn(up) => FillS(up, Return(Some(e)))
    case InIf(thn, els, up) => FillS(up, If(e, thn, els))
    case InExprStmt(up) => FillS(up, ExprStmt(e))
    case InTest(init, inc, loop, up) => FillS(up, For(init, Some(e), inc, loop))
    case InInit(test, inc, loop, up) => FillS(up, For(Some(e), test, inc, loop))
    case InInc(init, test, loop, up) => FillS(up, For(init, test, Some(e), loop))
  }

  function FillArgs(ctx: ArgsCtx, args: Args): Program {
    match ctx
    case InCall(name, named, up) => FillE(up, Call(name, named, args))
    case InTail(head, up) => FillArgs(up, Arg(head, args))
  }

  function FillS(ctx: StmtCtx, s: Stmt): Program {
    match ctx
    case InIfThen(c, els, up) => FillS(up, If(c, s, els))
    case InIfElse(c, thn, up) => FillS(up, If(c, thn, Some(s)))
    case InLoop(init, test, inc, up) => FillS(up, For(init, test, inc, s))
    case AtHead(tail, up) => FillBody(up, Then(s, tail))
  }

  function FillBody(ctx: BodyCtx, body: Body): Program {
    match ctx
    case InBlock(up) => FillS(up, Block(body))
    case InRest(head, up) => FillBody(up, Then(head, body))
    case Top(p, k) => if k < |p| then p[k := p[k].(body := Some(body))] else p
  }

  // ----- rewriting -----

  // The node returned is a new one.
  predicate Fresh(e: Expr, e1: Expr) { e1.Num? && !e.Num? }

  // optimize_node, with bounded fuel for the interpreter.
  function OptE(ctx: ExprCtx, fuel: nat, e: Expr): Result<Expr>
    decreases e
  {
    match e
    case Num(_) => Done(e)
    case Var(_) => Done(e)
    case Assign(x, rhs) =>
      var rhs1 :- OptE(InAssign(x, ctx), fuel, rhs);
      Done(Assign(x, rhs1))
    case Bin(op, l, r) =>
      var l1 :- OptE(InBinL(op, r, ctx), fuel, l);
      var r1 :- OptE(InBinR(op, l1, ctx), fuel, r);
      FoldBin(op, l1, r1)
    case Logical(isAnd, l, r) =>
      var l1 :- OptE(InLogicalL(isAnd, r, ctx), fuel, l);
      var r1 :- OptE(InLogicalR(isAnd, l1, ctx), fuel, r);
      Done(Logical(isAnd, l1, r1))
    case Cond(c, t, f) =>
      var c1 :- OptE(InCond(t, f, ctx), fuel, c);
      var t1 :- OptE(InThen(c1, f, ctx), fuel, t);
      var f1 :- OptE(InElse(c1, t1, ctx), fuel, f);
      Done(Cond(c1, t1, f1))
    case Comma(l, r) =>
      var l1 :- OptE(InCommaL(r, ctx), fuel, l);
      var r1 :- OptE(InCommaR(l1, ctx), fuel, r);
      Done(Comma(l1, r1))
    case Call(name, named, args) =>
      var args1 :- OptArgs(InCall(name, named, ctx), fuel, args, false);
      FoldCall(FillE(ctx, Call(name, named, args1)), fuel, name, named, args1)
  }

  // A new node is linked to its successor only after that has been rewritten: unlinked says that
  // the arguments are behind such a node, and so no part of the program.
  function OptArgs(ctx: ArgsCtx, fuel: nat, args: Args, unlinked: bool): Result<Args>
    decreases args
  {
    match args
    case NoArgs => Done(NoArgs)
    case Arg(e, tail) =>
      var e1 :- OptE(if unlinked then Unlinked(ctx) else InHead(tail, ctx), fuel, e);
      var tail1 :- OptArgs(InTail(e1, ctx), fuel, tail, Fresh(e, e1));
      Done(Arg(e1, tail1))
  }

  function OptOpt(ctx: ExprCtx, fuel: nat, e: Option<Expr>): Result<Option<Expr>>
    decreases e
  {
    match e
    case None => Done(None)
    case Some(x) =>
      var x1 :- OptE(ctx, fuel, x);
      Done(Some(x1))
  }

  function OptS(ctx: StmtCtx, fuel: nat, s: Stmt): Result<Stmt>
    decreases s
  {
    match s
    case Block(body) =>
      var body1 :- OptBody(InBlock(ctx), fuel, body);
      Done(Block(body1))
    case Return(value) =>
      var value1 :- OptOpt(InReturn(ctx), fuel, value);
      Done(Return(value1))
    case If(c, t, f) =>
      var c1 :- OptE(InIf(t, f, ctx), fuel, c);
      var t1 :- OptS(InIfThen(c1, f, ctx), fuel, t);
      (match f
       case None => Done(If(c1, t1, None))
       case Some(x) =>
         var x1 :- OptS(InIfElse(c1, t1, ctx), fuel, x);
         Done(If(c1, t1, Some(x1))))
    case ExprStmt(e) =>
      var e1 :- OptE(InExprStmt(ctx), fuel, e);
      Done(ExprStmt(e1))
    case For(init, test, inc, loop) =>
      var test1 :- OptOpt(InTest(init, inc, loop, ctx), fuel, test);
      var loop1 :- OptS(InLoop(init, test1, inc, ctx), fuel, loop);
      var init1 :- OptOpt(InInit(test1, inc, loop1, ctx), fuel, init);
      var inc1 :- OptOpt(InInc(init1, test1, loop1, ctx), fuel, inc);
      Done(For(init1, test1, inc1, loop1))
  }

  function OptBody(ctx: BodyCtx, fuel: nat, body: Body): Result<Body>
    decreases body
  {
    match body
    case End => Done(End)
    case Then(s, tail) =>
      var s1 :- OptS(AtHead(tail, ctx), fuel, s);
      var tail1 :- OptBody(InRest(s1, ctx), fuel, tail);
      Done(Then(s1, tail1))
  }

  // Functions k.. are still to be rewritten.
  function OptFrom(p: Program, fuel: nat, k: nat): Result<Program>
    requires k <= |p|
    decreases |p| - k
  {
    if k == |p| then Done(p)
    else if p[k].body.None? then OptFrom(p, fuel, k + 1)
    else
      var body1 :- OptBody(Top(p, k), fuel, p[k].body.value);
      OptFrom(p[k := p[k].(body := Some(body1))], fuel, k + 1)
  }

  function OptProgram(p: Program, fuel: nat): Result<Program> { OptFrom(p, fuel, 0) }

  // optimize.  As much fuel as there are functions is enough: a named call goes to a later one.
  function Optimize(p: Program): Result<Program> { OptProgram(p, |p|) }

  // ----- rewriting with an interpreter that runs on a program which stays as it is -----

  function RewriteE(p: Program, fuel: nat, e: Expr): Result<Expr>
    decreases e
  {
    match e
    case Num(_) => Done(e)
    case Var(_) => Done(e)
    case Assign(x, rhs) =>
      var rhs1 :- RewriteE(p, fuel, rhs);
      Done(Assign(x, rhs1))
    case Bin(op, l, r) =>
      var l1 :- RewriteE(p, fuel, l);
      var r1 :- RewriteE(p, fuel, r);
      FoldBin(op, l1, r1)
    case Logical(isAnd, l, r) =>
      var l1 :- RewriteE(p, fuel, l);
      var r1 :- RewriteE(p, fuel, r);
      Done(Logical(isAnd, l1, r1))
    case Cond(c, t, f) =>
      var c1 :- RewriteE(p, fuel, c);
      var t1 :- RewriteE(p, fuel, t);
      var f1 :- RewriteE(p, fuel, f);
      Done(Cond(c1, t1, f1))
    case Comma(l, r) =>
      var l1 :- RewriteE(p, fuel, l);
      var r1 :- RewriteE(p, fuel, r);
      Done(Comma(l1, r1))
    case Call(name, named, args) =>
      var args1 :- RewriteArgs(p, fuel, args);
      FoldCall(p, fuel, name, named, args1)
  }

  function RewriteArgs(p: Program, fuel: nat, args: Args): Result<Args>
    decreases args
  {
    match args
    case NoArgs => Done(NoArgs)
    case Arg(e, tail) =>
      var e1 :- RewriteE(p, fuel, e);
      var tail1 :- RewriteArgs(p, fuel, tail);
      Done(Arg(e1, tail1))
  }

  function RewriteOpt(p: Program, fuel: nat, e: Option<Expr>): Result<Option<Expr>>
    decreases e
  {
    match e
    case None => Done(None)
    case Some(x) =>
      var x1 :- RewriteE(p, fuel, x);
      Done(Some(x1))
  }

  function RewriteS(p: Program, fuel: nat, s: Stmt): Result<Stmt>
    decreases s
  {
    match s
    case Block(body) =>
      var body1 :- RewriteBody(p, fuel, body);
      Done(Block(body1))
    case Return(value) =>
      var value1 :- RewriteOpt(p, fuel, value);
      Done(Return(value1))
    case If(c, t, f) =>
      var c1 :- RewriteE(p, fuel, c);
      var t1 :- RewriteS(p, fuel, t);
      (match f
       case None => Done(If(c1, t1, None))
       case Some(x) =>
         var x1 :- RewriteS(p, fuel, x);
         Done(If(c1, t1, Some(x1))))
    case ExprStmt(e) =>
      var e1 :- RewriteE(p, fuel, e);
      Done(ExprStmt(e1))
    case For(init, test, inc, loop) =>
      var test1 :- RewriteOpt(p, fuel, test);
      var loop1 :- RewriteS(p, fuel, loop);
      var init1 :- RewriteOpt(p, fuel, init);
      var inc1 :- RewriteOpt(p, fuel, inc);
      Done(For(init1, test1, inc1, loop1))
  }

  function RewriteBody(p: Program, fuel: nat, body: Body): Result<Body>
    decreases body
  {
    match body
    case End => Done(End)
    case Then(s, tail) =>
      var s1 :- RewriteS(p, fuel, s);
      var tail1 :- RewriteBody(p, fuel, tail);
      Done(Then(s1, tail1))
  }

  // ----- folding is right -----

  lemma ScaleUp(b: nat, q: nat)
    requires b > 0
    ensures b * q >= q && (b >= 2 ==> b * q >= 2 * q)
  {
    if b >= 2 {
      assert b * q == 2 * q + (b - 2) * q;
    }
  }

  lemma QuotientBound(a: nat, b: nat)
    requires b > 0
    ensures 0 <= a / b <= a && 0 <= a - b * (a / b) < b && (b >= 2 && a > 0 ==> a / b < a)
  {
    var q, r := a / b, a % b;
    assert a == b * q + r;
    ScaleUp(b, q);
  }

  lemma TruncRange(a: I32, b: I32)
    requires DivDefined(a, b)
    ensures InInt(TruncDiv(a, b)) && InInt(TruncMod(a, b))
  {
    var x, y := Abs(a), Abs(b);
    QuotientBound(x, y);
    var q: int := x / y;
    var z: int := y;
    assert TruncDiv(a, b) == if (a < 0) != (b < 0) then 0 - q else q;
    var m := b * TruncDiv(a, b);
    assert m == if a < 0 then 0 - z * q else z * q by {
      SignedProducts(b, q);
    }
  }

  lemma FoldAgrees(op: Source.BinOp, a: I32, b: I32)
    requires StrictBin(op, a, b).Some? && FoldVal(op, a, b).Some?
    ensures FoldVal(op, a, b).value == StrictBin(op, a, b).value
  {
    hide TruncDiv, TruncMod, Mul, Bitwise;
    if op.Div? || op.Mod? {
      TruncRange(a, b);
    }
  }

  lemma {:induction false} ConstArgsValue(p: Program, m: nat, args: Args, env: Env)
    requires ConstArgs(args).Some? && SrcArgs(p, m, args, env).Some?
    ensures SrcArgs(p, m, args, env).value == Values(ConstArgs(args).value, env)
  {
    match args
    case NoArgs =>
    case Arg(_, tail) => ConstArgsValue(p, m, tail, env);
  }

  // A folded call has the value of the call.
  lemma CallPreserved(p: Program, names: set<string>, fuel: nat, m: nat, name: string, named: bool, args: Args, env: Env)
    requires OkIn(p, names) && (named ==> name in names) && SrcE(p, m, Call(name, named, args), env).Some?
    requires FoldCall(p, fuel, name, named, args).Done?
    ensures SrcE(p, m, FoldCall(p, fuel, name, named, args).value, env) == SrcE(p, m, Call(name, named, args), env)
  {
    hide OkIn, EvalStmts, SrcBody, ConstArgs, SrcArgs, Find, BindSlots, BindEnv, Kept;
    var vals, f := ConstArgs(args), Find(p, name);
    if FoldCall(p, fuel, name, named, args).value.Num? {
      ConstArgsValue(p, m, args, env);
      FindOk(p, names, name);
      if StuckBody(f.value.body.value) {
        StuckStmts(p, fuel, f.value.body.value, BindSlots(f.value.params, Kept(vals.value)).value, 0);
      }
      AllKept(f.value, vals.value);
      FunctionAgrees(p, names, m - 1, fuel, f.value, vals.value);
    }
  }

  // No argument of a function whose parameters have slots of their own is dropped.
  lemma AllKept(f: Func, vals: seq<I32>)
    requires FuncOk(f) && |vals| == |f.params|
    ensures Kept(vals) == vals
  {
    ParamLimit(f);
  }

  lemma ParamLimit(f: Func)
    requires FuncOk(f)
    ensures |f.params| <= MAX_ARGS
  {
  }
}
