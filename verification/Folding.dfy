/** What constant folding makes of a program: when the compiler gets through it at all, and what it
    leaves behind. */
module Folding {
  import opened Words
  import opened Options
  import opened Interpreter
  import opened Optimizer
  import opened OptimizerViews

  const INT64_MIN := -0x8000_0000_0000_0000

  // The operators that are folded.
  predicate Arithmetic(op: Source.BinOp) { op.Add? || op.Sub? || op.Mul? || op.Div? || op.Mod? }

  predicate Divides(op: Source.BinOp) { op.Div? || op.Mod? }

  // The result without a bound on its size.
  function Unbounded(op: Source.BinOp, l: int, r: int): int
    requires Arithmetic(op) && (Divides(op) ==> r != 0)
  {
    match op
    case Add => l + r
    case Sub => l - r
    case Mul => Mul(l, r)
    case Div => TruncDiv(l, r)
    case Mod => TruncMod(l, r)
  }

  // Two constants: what C says, where it says something; otherwise the low 64 bits of the result.  The
  // compiler stops exactly for the one division that has no 64-bit result.
  lemma ConstantsFolded(ctx: ExprCtx, fuel: nat, op: Source.BinOp, l: int, r: int)
    ensures var o := OptE(ctx, fuel, Bin(op, Num(l), Num(r)));
      && (o.Aborted? <==> Divides(op) && l == INT64_MIN && r == -1)
      && (!Arithmetic(op) || (Divides(op) && r == 0) ==> o == Done(Bin(op, Num(l), Num(r))))
      && (o.Done? && Arithmetic(op) && (Divides(op) ==> r != 0) ==> o == Done(Num(Wrap64(Unbounded(op, l, r)))))
      && (Arithmetic(op) && InInt(l) && InInt(r) && StrictBin(op, l, r).Some? ==> o == Done(Num(StrictBin(op, l, r).value)))
  {
    hide TruncDiv, TruncMod, Mul, Bitwise, Wrap64;
    if Arithmetic(op) && InInt(l) && InInt(r) && StrictBin(op, l, r).Some? {
      FoldAgrees(op, l, r);
    }
  }

  // ----- constant expressions -----

  // The 64-bit value of an expression made of constants and arithmetic, if nothing is divided by zero.
  function Constant(e: Expr): Option<int> {
    match e
    case Num(v) => Some(v)
    case Bin(op, l, r) =>
      if Arithmetic(op) && Constant(l).Some? && Constant(r).Some? && (Divides(op) ==> Constant(r).value != 0)
      then Some(Wrap64(Unbounded(op, Constant(l).value, Constant(r).value))) else None
    case _ => None
  }

  // Somewhere a constant INT64_MIN is divided by a constant -1.
  predicate Stops(e: Expr) {
    match e
    case Num(_) => false
    case Var(_) => false
    case Assign(_, rhs) => Stops(rhs)
    case Bin(op, l, r) => Stops(l) || Stops(r) || (Divides(op) && Constant(l) == Some(INT64_MIN) && Constant(r) == Some(-1))
    case Logical(_, l, r) => Stops(l) || Stops(r)
    case Cond(c, t, f) => Stops(c) || Stops(t) || Stops(f)
    case Comma(l, r) => Stops(l) || Stops(r)
    case Call(_, _, args) => StopsArgs(args)
  }

  predicate StopsArgs(args: Args) {
    match args
    case NoArgs => false
    case Arg(e, tail) => Stops(e) || StopsArgs(tail)
  }

  predicate StopsOpt(e: Option<Expr>) { e.Some? && Stops(e.value) }

  predicate StopsS(s: Stmt) {
    match s
    case Block(body) => StopsBody(body)
    case Return(value) => StopsOpt(value)
    case If(c, t, f) => Stops(c) || StopsS(t) || (f.Some? && StopsS(f.value))
    case ExprStmt(e) => Stops(e)
    case For(init, test, inc, loop) => StopsOpt(init) || StopsOpt(test) || StopsOpt(inc) || StopsS(loop)
  }

  predicate StopsBody(body: Body) {
    match body
    case End => false
    case Then(s, tail) => StopsS(s) || StopsBody(tail)
  }

  // ----- nothing is left to fold -----

  // No arithmetic on two constants, except a division by zero.
  predicate Folded(e: Expr) {
    match e
    case Num(_) => true
    case Var(_) => true
    case Assign(_, rhs) => Folded(rhs)
    case Bin(op, l, r) => Folded(l) && Folded(r) && (Arithmetic(op) && l.Num? && r.Num? ==> Divides(op) && r.val == 0)
    case Logical(_, l, r) => Folded(l) && Folded(r)
    case Cond(c, t, f) => Folded(c) && Folded(t) && Folded(f)
    case Comma(l, r) => Folded(l) && Folded(r)
    case Call(_, _, args) => FoldedArgs(args)
  }

  predicate FoldedArgs(args: Args) {
    match args
    case NoArgs => true
    case Arg(e, tail) => Folded(e) && FoldedArgs(tail)
  }

  predicate FoldedOpt(e: Option<Expr>) { e.Some? ==> Folded(e.value) }

  predicate FoldedS(s: Stmt) {
    match s
    case Block(body) => FoldedBody(body)
    case Return(value) => FoldedOpt(value)
    case If(c, t, f) => Folded(c) && FoldedS(t) && (f.Some? ==> FoldedS(f.value))
    case ExprStmt(e) => Folded(e)
    case For(init, test, inc, loop) => FoldedOpt(init) && FoldedOpt(test) && FoldedOpt(inc) && FoldedS(loop)
  }

  predicate FoldedBody(body: Body) {
    match body
    case End => true
    case Then(s, tail) => FoldedS(s) && FoldedBody(tail)
  }

  // ----- the rewriting -----

  // What folding makes of an operation whose operands have been rewritten.
  lemma BinFolded(op: Source.BinOp, l: Expr, r: Expr)
    requires Folded(l) && Folded(r)
    ensures var o := FoldBin(op, l, r);
      && (o.Done? ==> Folded(o.value))
      && (o.Aborted? <==> Divides(op) && l == Num(INT64_MIN) && r == Num(-1))
      && (o.Done? ==> (o.value.Num? <==> Arithmetic(op) && l.Num? && r.Num? && (Divides(op) ==> r.val != 0)))
      && (o.Done? && o.value.Num? ==> o.value.val == Wrap64(Unbounded(op, l.val, r.val)))
  {
    hide TruncDiv, TruncMod, Mul, Wrap64;
  }

  // A rewritten expression has nothing left to fold.  Without calls by name, it is there unless the
  // expression stops the compiler, and it is a number exactly for a constant expression.
  lemma {:induction false} OptFolds(ctx: ExprCtx, fuel: nat, e: Expr)
    ensures var o := OptE(ctx, fuel, e);
      && (o.Done? ==> Folded(o.value))
      && (Names(e) == {} ==> (o.Done? <==> !Stops(e)))
      && (Names(e) == {} && o.Done? ==> Constant(e) == if o.value.Num? then Some(o.value.val) else None)
    decreases e
  {
    hide FoldBin, FoldCall, FillE, Unbounded, Wrap64;
    match e
    case Num(_) =>
    case Var(_) =>
    case Assign(x, rhs) => OptFolds(InAssign(x, ctx), fuel, rhs);
    case Bin(op, l, r) =>
      var l1 := OptE(InBinL(op, r, ctx), fuel, l);
      OptFolds(InBinL(op, r, ctx), fuel, l);
      if l1.Done? {
        var r1 := OptE(InBinR(op, l1.value, ctx), fuel, r);
        OptFolds(InBinR(op, l1.value, ctx), fuel, r);
        if r1.Done? {
          BinFolded(op, l1.value, r1.value);
        }
      }
    case Logical(isAnd, l, r) =>
      OptFolds(InLogicalL(isAnd, r, ctx), fuel, l);
      var l1 := OptE(InLogicalL(isAnd, r, ctx), fuel, l);
      if l1.Done? {
        OptFolds(InLogicalR(isAnd, l1.value, ctx), fuel, r);
      }
    case Cond(c, t, f) =>
      OptFolds(InCond(t, f, ctx), fuel, c);
      var c1 := OptE(InCond(t, f, ctx), fuel, c);
      if c1.Done? {
        OptFolds(InThen(c1.value, f, ctx), fuel, t);
        var t1 := OptE(InThen(c1.value, f, ctx), fuel, t);
        if t1.Done? {
          OptFolds(InElse(c1.value, t1.value, ctx), fuel, f);
        }
      }
    case Comma(l, r) =>
      OptFolds(InCommaL(r, ctx), fuel, l);
      var l1 := OptE(InCommaL(r, ctx), fuel, l);
      if l1.Done? {
        OptFolds(InCommaR(l1.value, ctx), fuel, r);
      }
    case Call(name, named, args) =>
      OptFoldsArgs(InCall(name, named, ctx), fuel, args, false);
      var args1 := OptArgs(InCall(name, named, ctx), fuel, args, false);
      if args1.Done? {
        CallFolded(FillE(ctx, Call(name, named, args1.value)), fuel, name, named, args1.value);
      }
  }

  lemma CallFolded(p: Program, fuel: nat, name: string, named: bool, args: Args)
    requires FoldedArgs(args)
    ensures var o := FoldCall(p, fuel, name, named, args);
      (o.Done? ==> Folded(o.value)) && (!named ==> o == Done(Call(name, named, args)))
  {
    hide RunCall;
  }

  lemma {:induction false} OptFoldsArgs(ctx: ArgsCtx, fuel: nat, args: Args, unlinked: bool)
    ensures var o := OptArgs(ctx, fuel, args, unlinked);
      (o.Done? ==> FoldedArgs(o.value)) && (NamesArgs(args) == {} ==> (o.Done? <==> !StopsArgs(args)))
    decreases args
  {
    hide OptE, Folded, Stops;
    match args
    case NoArgs =>
    case Arg(e, tail) =>
      var here := if unlinked then Unlinked(ctx) else InHead(tail, ctx);
      OptFolds(here, fuel, e);
      var e1 := OptE(here, fuel, e);
      if e1.Done? {
        OptFoldsArgs(InTail(e1.value, ctx), fuel, tail, Fresh(e, e1.value));
      }
  }

  lemma OptFoldsOpt(ctx: ExprCtx, fuel: nat, e: Option<Expr>)
    ensures var o := OptOpt(ctx, fuel, e);
      (o.Done? ==> FoldedOpt(o.value)) && (NamesOpt(e) == {} ==> (o.Done? <==> !StopsOpt(e)))
  {
    hide OptE, Folded, Stops;
    if e.Some? {
      OptFolds(ctx, fuel, e.value);
    }
  }

  lemma {:induction false} OptFoldsS(ctx: StmtCtx, fuel: nat, s: Stmt)
    ensures var o := OptS(ctx, fuel, s);
      (o.Done? ==> FoldedS(o.value)) && (NamesS(s) == {} ==> (o.Done? <==> !StopsS(s)))
    decreases s, 1
  {
    hide OptE, OptOpt, Folded, FoldedOpt, Stops, StopsOpt;
    match s
    case Block(body) => OptFoldsBody(InBlock(ctx), fuel, body);
    case Return(value) => OptFoldsOpt(InReturn(ctx), fuel, value);
    case If(c, t, f) =>
      OptFolds(InIf(t, f, ctx), fuel, c);
      var c1 := OptE(InIf(t, f, ctx), fuel, c);
      if c1.Done? {
        OptFoldsS(InIfThen(c1.value, f, ctx), fuel, t);
        var t1 := OptS(InIfThen(c1.value, f, ctx), fuel, t);
        if t1.Done? && f.Some? {
          OptFoldsS(InIfElse(c1.value, t1.value, ctx), fuel, f.value);
        }
      }
    case ExprStmt(e) => OptFolds(InExprStmt(ctx), fuel, e);
    case For(init, test, inc, loop) => OptFoldsFor(ctx, fuel, init, test, inc, loop);
  }

  lemma {:induction false} OptFoldsFor(ctx: StmtCtx, fuel: nat, init: Option<Expr>, test: Option<Expr>, inc: Option<Expr>, loop: Stmt)
    ensures var s := For(init, test, inc, loop);
      var o := OptS(ctx, fuel, s);
      (o.Done? ==> FoldedS(o.value)) && (NamesS(s) == {} ==> (o.Done? <==> !StopsS(s)))
    decreases For(init, test, inc, loop), 0
  {
    hide OptOpt, FoldedOpt, StopsOpt;
    OptFoldsOpt(InTest(init, inc, loop, ctx), fuel, test);
    var test1 := OptOpt(InTest(init, inc, loop, ctx), fuel, test);
    if test1.Done? {
      OptFoldsS(InLoop(init, test1.value, inc, ctx), fuel, loop);
      var loop1 := OptS(InLoop(init, test1.value, inc, ctx), fuel, loop);
      if loop1.Done? {
        OptFoldsOpt(InInit(test1.value, inc, loop1.value, ctx), fuel, init);
        var init1 := OptOpt(InInit(test1.value, inc, loop1.value, ctx), fuel, init);
        if init1.Done? {
          OptFoldsOpt(InInc(init1.value, test1.value, loop1.value, ctx), fuel, inc);
        }
      }
    }
  }

  lemma {:induction false} OptFoldsBody(ctx: BodyCtx, fuel: nat, body: Body)
    ensures var o := OptBody(ctx, fuel, body);
      (o.Done? ==> FoldedBody(o.value)) && (NamesBody(body) == {} ==> (o.Done? <==> !StopsBody(body)))
    decreases body
  {
    hide OptS, FoldedS, StopsS;
    match body
    case End =>
    case Then(s, tail) =>
      OptFoldsS(AtHead(tail, ctx), fuel, s);
      var s1 := OptS(AtHead(tail, ctx), fuel, s);
      if s1.Done? {
        OptFoldsBody(InRest(s1.value, ctx), fuel, tail);
      }
  }

  // ----- programs -----

  predicate FuncFolded(f: Func) { f.body.Some? ==> FoldedBody(f.body.value) }

  predicate FuncStops(f: Func) { f.body.Some? && StopsBody(f.body.value) }

  predicate Nameless(f: Func) { f.body.Some? ==> NamesBody(f.body.value) == {} }

  lemma {:induction false} OptFoldsFrom(p: Program, fuel: nat, k: nat)
    requires k <= |p|
    ensures var o := OptFrom(p, fuel, k);
      && (o.Done? ==> |o.value| == |p| && (forall i :: 0 <= i < k ==> o.value[i] == p[i])
                      && forall i :: k <= i < |p| ==> FuncFolded(o.value[i]))
      && ((forall i :: k <= i < |p| ==> Nameless(p[i])) ==> (o.Done? <==> forall i :: k <= i < |p| ==> !FuncStops(p[i])))
    decreases |p| - k
  {
    hide OptBody, FoldedBody, StopsBody, NamesBody;
    if k < |p| {
      if p[k].body.None? {
        OptFoldsFrom(p, fuel, k + 1);
      } else {
        OptFoldsBody(Top(p, k), fuel, p[k].body.value);
        var body1 := OptBody(Top(p, k), fuel, p[k].body.value);
        if body1.Done? {
          var q := p[k := p[k].(body := Some(body1.value))];
          OptFoldsFrom(q, fuel, k + 1);
          assert FuncFolded(q[k]) && forall i :: k < i < |p| ==> q[i] == p[i];
        }
        assert Nameless(p[k]) ==> (body1.Done? <==> !FuncStops(p[k]));
      }
    }
  }

  // In an optimized program, whatever it is, there is no arithmetic on two constants left, except for
  // divisions by zero.
  lemma OptimizeFolds(p: Program)
    requires Optimize(p).Done?
    ensures |Optimize(p).value| == |p| && forall i :: 0 <= i < |p| ==> FuncFolded(Optimize(p).value[i])
  {
    hide FuncFolded, OptFrom;
    OptFoldsFrom(p, |p|, 0);
  }

  // If nothing is called by name, the compiler gets through a program exactly if no constant INT64_MIN
  // is divided by a constant -1 in it.
  lemma OptimizeDoneIff(p: Program)
    requires AllNames(p) == {}
    ensures Optimize(p).Done? <==> forall i :: 0 <= i < |p| ==> !FuncStops(p[i])
  {
    hide FuncStops, FuncFolded, OptFrom;
    forall i | 0 <= i < |p| ensures Nameless(p[i]) {
      if p[i].body.Some? {
        assert NamesBody(p[i].body.value) <= AllNames(p);
      }
    }
    OptFoldsFrom(p, |p|, 0);
  }

  // ----- constants that are ints -----

  // That the constants themselves are ints is not enough: -2147483648 * 65536 * 65536 / -1.
  lemma SmallConstantsStop(name: string, params: seq<nat>)
    ensures var e := Bin(Source.Div, Bin(Source.Mul, Bin(Source.Mul, Num(-0x8000_0000), Num(0x1_0000)), Num(0x1_0000)), Num(-1));
      Optimize([Func(name, params, Some(Then(ExprStmt(e), End)), false)]) == Aborted(Undefined)
  {
    var m := Bin(Source.Mul, Num(-0x8000_0000), Num(0x1_0000));
    var l := Bin(Source.Mul, m, Num(0x1_0000));
    var e := Bin(Source.Div, l, Num(-1));
    var p := [Func(name, params, Some(Then(ExprStmt(e), End)), false)];
    Products();
    assert Constant(m) == Some(-0x8000_0000_0000);
    assert Constant(l) == Some(INT64_MIN);
    assert NamesBody(Then(ExprStmt(e), End)) == {};
    assert AllNames(p) == {};
    assert FuncStops(p[0]);
    OptimizeDoneIff(p);
  }

  lemma Products()
    ensures Wrap64(Mul(-0x8000_0000, 0x1_0000)) == -0x8000_0000_0000
    ensures Wrap64(Mul(-0x8000_0000_0000, 0x1_0000)) == INT64_MIN
  {
  }

  // It is enough that all constant expressions, parts of others included, have values that are ints.
  predicate IntConstants(e: Expr) {
    && (Constant(e).Some? ==> InInt(Constant(e).value))
    && match e
      case Num(_) => true
      case Var(_) => true
      case Assign(_, rhs) => IntConstants(rhs)
      case Bin(_, l, r) => IntConstants(l) && IntConstants(r)
      case Logical(_, l, r) => IntConstants(l) && IntConstants(r)
      case Cond(c, t, f) => IntConstants(c) && IntConstants(t) && IntConstants(f)
      case Comma(l, r) => IntConstants(l) && IntConstants(r)
      case Call(_, _, args) => IntConstantsArgs(args)
  }

  predicate IntConstantsArgs(args: Args) {
    match args
    case NoArgs => true
    case Arg(e, tail) => IntConstants(e) && IntConstantsArgs(tail)
  }

  lemma {:induction false} IntsNeverStop(e: Expr)
    requires IntConstants(e)
    ensures !Stops(e)
    decreases e
  {
    hide Constant;
    match e
    case Num(_) =>
    case Var(_) =>
    case Assign(_, rhs) => IntsNeverStop(rhs);
    case Bin(_, l, r) => IntsNeverStop(l); IntsNeverStop(r);
    case Logical(_, l, r) => IntsNeverStop(l); IntsNeverStop(r);
    case Cond(c, t, f) => IntsNeverStop(c); IntsNeverStop(t); IntsNeverStop(f);
    case Comma(l, r) => IntsNeverStop(l); IntsNeverStop(r);
    case Call(_, _, args) => IntArgsNeverStop(args);
  }

  lemma {:induction false} IntArgsNeverStop(args: Args)
    requires IntConstantsArgs(args)
    ensures !StopsArgs(args)
    decreases args
  {
    hide Stops, IntConstants;
    match args
    case NoArgs =>
    case Arg(e, tail) => IntsNeverStop(e); IntArgsNeverStop(tail);
  }

  predicate IntConstantsOpt(e: Option<Expr>) { e.Some? ==> IntConstants(e.value) }

  predicate IntConstantsS(s: Stmt) {
    match s
    case Block(body) => IntConstantsBody(body)
    case Return(value) => IntConstantsOpt(value)
    case If(c, t, f) => IntConstants(c) && IntConstantsS(t) && (f.Some? ==> IntConstantsS(f.value))
    case ExprStmt(e) => IntConstants(e)
    case For(init, test, inc, loop) => IntConstantsOpt(init) && IntConstantsOpt(test) && IntConstantsOpt(inc) && IntConstantsS(loop)
  }

  predicate IntConstantsBody(body: Body) {
    match body
    case End => true
    case Then(s, tail) => IntConstantsS(s) && IntConstantsBody(tail)
  }

  lemma IntOptNeverStops(e: Option<Expr>)
    requires IntConstantsOpt(e)
    ensures !StopsOpt(e)
  {
    if e.Some? {
      IntsNeverStop(e.value);
    }
  }

  lemma {:induction false} IntStmtNeverStops(s: Stmt)
    requires IntConstantsS(s)
    ensures !StopsS(s)
    decreases s
  {
    hide Stops, IntConstants, StopsOpt, IntConstantsOpt;
    match s
    case Block(body) => IntBodyNeverStops(body);
    case Return(value) => IntOptNeverStops(value);
    case If(c, t, f) =>
      IntsNeverStop(c);
      IntStmtNeverStops(t);
      if f.Some? {
        IntStmtNeverStops(f.value);
      }
    case ExprStmt(e) => IntsNeverStop(e);
    case For(init, test, inc, loop) =>
      IntOptNeverStops(init);
      IntOptNeverStops(test);
      IntOptNeverStops(inc);
      IntStmtNeverStops(loop);
  }

  lemma {:induction false} IntBodyNeverStops(body: Body)
    requires IntConstantsBody(body)
    ensures !StopsBody(body)
    decreases body
  {
    hide StopsS, IntConstantsS;
    match body
    case End =>
    case Then(s, tail) => IntStmtNeverStops(s); IntBodyNeverStops(tail);
  }

  predicate IntFunc(f: Func) { f.body.Some? ==> IntConstantsBody(f.body.value) }

  lemma IntProgramDone(p: Program)
    requires AllNames(p) == {} && forall i :: 0 <= i < |p| ==> IntFunc(p[i])
    ensures Optimize(p).Done?
  {
    hide OptProgram, AllNames, StopsBody, IntConstantsBody;
    forall i | 0 <= i < |p| ensures !FuncStops(p[i]) {
      assert IntFunc(p[i]);
      if p[i].body.Some? {
        IntBodyNeverStops(p[i].body.value);
      }
    }
    OptimizeDoneIff(p);
  }
}
