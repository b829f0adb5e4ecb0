/** Calls without a name: the interpreter compares the name of a call with those of the functions, and
    the name is null where the function was declared before.  When that happens and when it does not. */
module NullNames {
  import opened Words
  import opened Options
  import opened Interpreter
  import opened Optimizer
  import opened OptimizerViews

  // ----- functions that make only named calls -----

  predicate AllNamed(e: Expr) {
    match e
    case Num(_) => true
    case Var(_) => true
    case Assign(_, rhs) => AllNamed(rhs)
    case Bin(_, l, r) => AllNamed(l) && AllNamed(r)
    case Logical(_, l, r) => AllNamed(l) && AllNamed(r)
    case Cond(c, t, f) => AllNamed(c) && AllNamed(t) && AllNamed(f)
    case Comma(l, r) => AllNamed(l) && AllNamed(r)
    case Call(_, named, args) => named && AllNamedArgs(args)
  }

  predicate AllNamedArgs(args: Args) {
    match args
    case NoArgs => true
    case Arg(e, tail) => AllNamed(e) && AllNamedArgs(tail)
  }

  predicate AllNamedOpt(e: Option<Expr>) { e.Some? ==> AllNamed(e.value) }

  predicate AllNamedS(s: Stmt) {
    match s
    case Block(body) => AllNamedBody(body)
    case Return(value) => AllNamedOpt(value)
    case If(c, t, f) => AllNamed(c) && AllNamedS(t) && (f.Some? ==> AllNamedS(f.value))
    case ExprStmt(e) => AllNamed(e)
    case For(init, test, inc, loop) => AllNamedOpt(init) && AllNamedOpt(test) && AllNamedOpt(inc) && AllNamedS(loop)
  }

  predicate AllNamedBody(body: Body) {
    match body
    case End => true
    case Then(s, tail) => AllNamedS(s) && AllNamedBody(tail)
  }

  // Every function in names makes only named calls, and those to functions in names.
  ghost predicate QuietIn(p: Program, names: set<string>) {
    forall i :: 0 <= i < |p| && p[i].name in names && p[i].body.Some? ==>
      AllNamedBody(p[i].body.value) && NamesBody(p[i].body.value) <= names
  }

  // Every function that is called by name makes only named calls.
  ghost predicate Quiet(p: Program) {
    forall i, j :: 0 <= i < |p| && 0 <= j < |p| && p[i].body.Some? && p[j].body.Some? && p[j].name in NamesBody(p[i].body.value) ==>
      AllNamedBody(p[j].body.value)
  }

  lemma {:induction false} QuietE(p: Program, names: set<string>, n: nat, e: Expr, slots: Slots)
    requires QuietIn(p, names) && AllNamed(e) && Names(e) <= names
    ensures !EvalE(p, n, e, slots).NullName?
    decreases n, e
  {
    hide QuietIn, EvalBin, Find, BindSlots;
    match e
    case Assign(_, rhs) => QuietE(p, names, n, rhs, slots);
    case Bin(op, l, r) =>
      QuietE(p, names, n, l, slots);
      var a := EvalE(p, n, l, slots);
      if a.Ok? {
        QuietE(p, names, n, r, a.slots);
        var b := EvalE(p, n, r, a.slots);
        if b.Ok? { BinEnds(op, a.v, b.v, b.slots); }
      }
    case Call(name, _, args) => QuietCall(p, names, n, name, args, slots);
    case _ =>
  }

  lemma QuietAt(p: Program, names: set<string>, name: string)
    requires QuietIn(p, names) && name in names && Find(p, name).Some? && Find(p, name).value.body.Some?
    ensures var b := Find(p, name).value.body.value; AllNamedBody(b) && NamesBody(b) <= names
  {
  }

  lemma {:induction false} QuietCall(p: Program, names: set<string>, n: nat, name: string, args: Args, slots: Slots)
    requires QuietIn(p, names) && name in names && AllNamedArgs(args) && NamesArgs(args) <= names
    ensures !EvalE(p, n, Call(name, true, args), slots).NullName?
    decreases n, Call(name, true, args), 0
  {
    hide QuietIn, Find, BindSlots;
    QuietArgs(p, names, n, args, slots, 0);
    var f, a := Find(p, name), EvalArguments(p, n, args, slots, 0);
    if a.Good? && f.Some? && f.value.body.Some? && n > 0 {
      QuietAt(p, names, name);
      var inner := BindSlots(f.value.params, a.vs);
      if inner.Some? {
        QuietBody(p, names, n - 1, f.value.body.value, inner.value, 0);
      }
    }
  }

  lemma {:induction false} QuietArgs(p: Program, names: set<string>, n: nat, args: Args, slots: Slots, i: nat)
    requires QuietIn(p, names) && AllNamedArgs(args) && NamesArgs(args) <= names
    ensures EvalArguments(p, n, args, slots, i) != Bad(NullName)
    decreases n, args
  {
    hide QuietIn, EvalE;
    match args
    case NoArgs =>
    case Arg(e, tail) =>
      QuietE(p, names, n, e, slots);
      var a := EvalE(p, n, e, slots);
      if a.Ok? {
        QuietArgs(p, names, n, tail, a.slots, i + 1);
      }
  }

  lemma {:induction false} QuietS(p: Program, names: set<string>, n: nat, s: Stmt, slots: Slots)
    requires QuietIn(p, names) && AllNamedS(s) && NamesS(s) <= names
    ensures !EvalS(p, n, s, slots).NullName?
    decreases n, s
  {
    hide QuietIn, EvalE;
    match s
    case Block(body) => QuietBody(p, names, n, body, slots, 0);
    case Return(value) =>
      if value.Some? {
        QuietE(p, names, n, value.value, slots);
      }
    case If(c, t, f) =>
      QuietE(p, names, n, c, slots);
      var a := EvalE(p, n, c, slots);
      if a.Ok? {
        QuietS(p, names, n, t, a.slots);
        if f.Some? {
          QuietS(p, names, n, f.value, a.slots);
        }
      }
    case ExprStmt(e) => QuietE(p, names, n, e, slots);
    case For(_, _, _, _) =>
  }

  lemma {:induction false} QuietBody(p: Program, names: set<string>, n: nat, body: Body, slots: Slots, last: I32)
    requires QuietIn(p, names) && AllNamedBody(body) && NamesBody(body) <= names
    ensures !EvalStmts(p, n, body, slots, last).NullName?
    decreases n, body
  {
    hide QuietIn, EvalS;
    match body
    case End =>
    case Then(s, tail) =>
      QuietS(p, names, n, s, slots);
      var a := EvalS(p, n, s, slots);
      if a.Ok? && !a.returned {
        QuietBody(p, names, n, tail, a.slots, a.v);
      }
  }

  // ----- programs in which no null name is met -----

  lemma QuietFold(p: Program, names: set<string>, n: nat, name: string, named: bool, args: Args)
    requires QuietIn(p, names) && (named ==> name in names)
    ensures FoldCall(p, n, name, named, args) != Aborted(NullCompared)
  {
    hide QuietIn, Find, BindSlots, EvalStmts;
    var f, vals := Find(p, name), ConstArgs(args);
    if named && vals.Some? && f.Some? && f.value.body.Some? {
      QuietAt(p, names, name);
      var slots := BindSlots(f.value.params, Kept(vals.value));
      if slots.Some? {
        QuietBody(p, names, n, f.value.body.value, slots.value, 0);
      }
    }
  }

  lemma {:induction false} RewriteQuietE(p: Program, names: set<string>, n: nat, e: Expr)
    requires QuietIn(p, names) && Names(e) <= names
    ensures RewriteE(p, n, e) != Aborted(NullCompared)
    decreases e
  {
    hide QuietIn, FoldCall, FoldVal;
    match e
    case Num(_) =>
    case Var(_) =>
    case Assign(_, rhs) => RewriteQuietE(p, names, n, rhs);
    case Bin(_, l, r) => RewriteQuietE(p, names, n, l); RewriteQuietE(p, names, n, r);
    case Logical(_, l, r) => RewriteQuietE(p, names, n, l); RewriteQuietE(p, names, n, r);
    case Cond(c, t, f) => RewriteQuietE(p, names, n, c); RewriteQuietE(p, names, n, t); RewriteQuietE(p, names, n, f);
    case Comma(l, r) => RewriteQuietE(p, names, n, l); RewriteQuietE(p, names, n, r);
    case Call(name, named, args) =>
      RewriteQuietArgs(p, names, n, args);
      var args1 := RewriteArgs(p, n, args);
      if args1.Done? { QuietFold(p, names, n, name, named, args1.value); }
  }

  lemma {:induction false} RewriteQuietArgs(p: Program, names: set<string>, n: nat, args: Args)
    requires QuietIn(p, names) && NamesArgs(args) <= names
    ensures RewriteArgs(p, n, args) != Aborted(NullCompared)
    decreases args
  {
    hide QuietIn, RewriteE;
    match args
    case NoArgs =>
    case Arg(e, tail) => RewriteQuietE(p, names, n, e); RewriteQuietArgs(p, names, n, tail);
  }

  lemma RewriteQuietOpt(p: Program, names: set<string>, n: nat, e: Option<Expr>)
    requires QuietIn(p, names) && NamesOpt(e) <= names
    ensures RewriteOpt(p, n, e) != Aborted(NullCompared)
  {
    hide QuietIn, RewriteE;
    if e.Some? { RewriteQuietE(p, names, n, e.value); }
  }

  lemma {:induction false} RewriteQuietS(p: Program, names: set<string>, n: nat, s: Stmt)
    requires QuietIn(p, names) && NamesS(s) <= names
    ensures RewriteS(p, n, s) != Aborted(NullCompared)
    decreases s
  {
    hide QuietIn, RewriteE, RewriteOpt;
    match s
    case Block(body) => RewriteQuietBody(p, names, n, body);
    case Return(value) => RewriteQuietOpt(p, names, n, value);
    case If(c, t, f) =>
      RewriteQuietE(p, names, n, c);
      RewriteQuietS(p, names, n, t);
      if f.Some? { RewriteQuietS(p, names, n, f.value); }
    case ExprStmt(e) => RewriteQuietE(p, names, n, e);
    case For(init, test, inc, loop) =>
      RewriteQuietOpt(p, names, n, init);
      RewriteQuietOpt(p, names, n, test);
      RewriteQuietOpt(p, names, n, inc);
      RewriteQuietS(p, names, n, loop);
  }

  lemma {:induction false} RewriteQuietBody(p: Program, names: set<string>, n: nat, body: Body)
    requires QuietIn(p, names) && NamesBody(body) <= names
    ensures RewriteBody(p, n, body) != Aborted(NullCompared)
    decreases body
  {
    hide QuietIn, RewriteS;
    match body
    case End =>
    case Then(s, tail) => RewriteQuietS(p, names, n, s); RewriteQuietBody(p, names, n, tail);
  }

  lemma {:induction false} RewriteQuietFrom(p: Program, n: nat, k: nat)
    requires QuietIn(p, AllNames(p)) && k <= |p|
    ensures RewriteFrom(p, n, k) != Aborted(NullCompared)
    decreases |p| - k
  {
    hide QuietIn, RewriteBody;
    if k < |p| {
      RewriteQuietFrom(p, n, k + 1);
      if p[k].body.Some? {
        assert NamesBody(p[k].body.value) <= AllNames(p);
        RewriteQuietBody(p, AllNames(p), n, p[k].body.value);
      }
    }
  }

  // If every function that is called by name makes only named calls, no null name is met.
  lemma NoNullName(p: Program)
    requires Parsed(p) && Quiet(p)
    ensures Optimize(p) != Aborted(NullCompared)
  {
    hide Parsed, RewriteFrom, OptProgram, NamesBody, AllNamedBody;
    RewrittenInPlace(p, |p|, |p|);
    RewriteQuietFrom(p, |p|, 0);
  }
}
