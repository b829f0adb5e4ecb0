/** Rewriting without regard to what a node is: all its children in one order, then its statement list,
    then its argument list, and at last the node itself.  On expressions and statements this is what
    Optimizer says case by case. */
module OptimizerTrees {
  import opened Options
  import opened Interpreter
  import opened Optimizer

  // What a node is, with what it holds besides other nodes.
  datatype Kind =
    | KNum(val: int) | KVar(off: nat) | KAssign | KBin(op: Source.BinOp) | KLogical(isAnd: bool) | KCond | KComma
    | KCall(name: string, named: bool) | KBlock | KReturn | KIf | KExprStmt | KFor

  // The children in the order in which they are rewritten: lhs, rhs, cond, then, els, init, inc.
  const KIDS: nat := 7

  datatype Tree = Null | T(kind: Kind, kids: seq<Tree>, body: seq<Tree>, args: seq<Tree>)

  function Leaf(kind: Kind): Tree { T(kind, Kids(Null, Null, Null, Null, Null, Null, Null), [], []) }

  function Kids(lhs: Tree, rhs: Tree, cond: Tree, thn: Tree, els: Tree, init: Tree, inc: Tree): (ts: seq<Tree>)
    ensures |ts| == KIDS
  {
    [lhs] + ([rhs] + ([cond] + ([thn] + ([els] + ([init] + ([inc] + []))))))
  }

  predicate IsNum(t: Tree) { t.T? && t.kind.KNum? }

  // ----- the trees of expressions and statements -----

  function TreeE(e: Expr): Tree {
    match e
    case Num(v) => Leaf(KNum(v))
    case Var(x) => Leaf(KVar(x))
    case Assign(x, rhs) => T(KAssign, Kids(Leaf(KVar(x)), TreeE(rhs), Null, Null, Null, Null, Null), [], [])
    case Bin(op, l, r) => T(KBin(op), Kids(TreeE(l), TreeE(r), Null, Null, Null, Null, Null), [], [])
    case Logical(isAnd, l, r) => T(KLogical(isAnd), Kids(TreeE(l), TreeE(r), Null, Null, Null, Null, Null), [], [])
    case Cond(c, t, f) => T(KCond, Kids(Null, Null, TreeE(c), TreeE(t), TreeE(f), Null, Null), [], [])
    case Comma(l, r) => T(KComma, Kids(TreeE(l), TreeE(r), Null, Null, Null, Null, Null), [], [])
    case Call(name, named, args) => T(KCall(name, named), Leaf(KCond).kids, [], TreesArgs(args))
  }

  function TreesArgs(args: Args): seq<Tree> {
    match args
    case NoArgs => []
    case Arg(e, tail) => [TreeE(e)] + TreesArgs(tail)
  }

  function TreeOpt(e: Option<Expr>): Tree { if e.Some? then TreeE(e.value) else Null }

  function TreeS(s: Stmt): Tree {
    match s
    case Block(body) => T(KBlock, Leaf(KBlock).kids, TreesBody(body), [])
    case Return(value) => T(KReturn, Kids(TreeOpt(value), Null, Null, Null, Null, Null, Null), [], [])
    case If(c, t, f) => T(KIf, Kids(Null, Null, TreeE(c), TreeS(t), if f.Some? then TreeS(f.value) else Null, Null, Null), [], [])
    case ExprStmt(e) => T(KExprStmt, Kids(TreeE(e), Null, Null, Null, Null, Null, Null), [], [])
    case For(init, test, inc, loop) =>
      T(KFor, Kids(Null, Null, TreeOpt(test), TreeS(loop), Null, TreeOpt(init), TreeOpt(inc)), [], [])
  }

  function TreesBody(body: Body): seq<Tree> {
    match body
    case End => []
    case Then(s, tail) => [TreeS(s)] + TreesBody(tail)
  }

  // ----- rewriting -----

  // The arguments, if all are numbers.
  function NumArgsOf(args: seq<Tree>): Option<Args> {
    if args == [] then Some(NoArgs)
    else if !IsNum(args[0]) then None
    else
      match NumArgsOf(args[1..])
      case None => None
      case Some(tail) => Some(Arg(Num(args[0].kind.val), tail))
  }

  // The node itself, when its children and lists have been rewritten.
  function FoldTree(p: Program, fuel: nat, t: Tree): Result<Tree>
    requires t.T? && |t.kids| == KIDS
  {
    match t.kind
    case KBin(op) =>
      if IsNum(t.kids[0]) && IsNum(t.kids[1]) then
        var e :- FoldBin(op, Num(t.kids[0].kind.val), Num(t.kids[1].kind.val));
        Done(if e.Num? then Leaf(KNum(e.val)) else t)
      else Done(t)
    case KCall(name, named) =>
      (match NumArgsOf(t.args)
       case Some(args) =>
         var e :- FoldCall(p, fuel, name, named, args);
         Done(if e.Num? then Leaf(KNum(e.val)) else t)
       case None => Done(t))
    case _ => Done(t)
  }

  ghost predicate Formed(t: Tree) {
    t.T? ==> |t.kids| == KIDS && AllFormed(t.kids) && AllFormed(t.body) && AllFormed(t.args)
  }

  ghost predicate AllFormed(ts: seq<Tree>) { forall i :: 0 <= i < |ts| ==> Formed(ts[i]) }

  // optimize_node
  ghost function RewriteTree(p: Program, fuel: nat, t: Tree): Result<Tree>
    requires Formed(t)
    decreases t, 0
  {
    match t
    case Null => Done(Null)
    case T(kind, kids, body, args) =>
      var kids1 :- RewriteTrees(p, fuel, kids);
      var body1 :- RewriteTrees(p, fuel, body);
      var args1 :- RewriteTrees(p, fuel, args);
      FoldTree(p, fuel, T(kind, kids1, body1, args1))
  }

  ghost function RewriteTrees(p: Program, fuel: nat, ts: seq<Tree>): (r: Result<seq<Tree>>)
    requires AllFormed(ts)
    ensures r.Done? ==> |r.value| == |ts|
    decreases ts, 0
  {
    if ts == [] then Done([])
    else
      var t1 :- RewriteTree(p, fuel, ts[0]);
      var rest :- RewriteTrees(p, fuel, ts[1..]);
      Done([t1] + rest)
  }

  // ----- it is the same on expressions and statements -----

  ghost function Mapped<S, U>(r: Result<S>, f: S -> U): Result<U> {
    match r
    case Done(v) => Done(f(v))
    case Aborted(why) => Aborted(why)
  }

  function Prepended(t: Result<Tree>, ts: Result<seq<Tree>>): Result<seq<Tree>> {
    var t1 :- t;
    var ts1 :- ts;
    Done([t1] + ts1)
  }

  lemma OneMore(p: Program, fuel: nat, t: Tree, ts: seq<Tree>)
    requires Formed(t) && AllFormed(ts)
    ensures AllFormed([t] + ts)
    ensures RewriteTrees(p, fuel, [t] + ts) == Prepended(RewriteTree(p, fuel, t), RewriteTrees(p, fuel, ts))
  {
    hide RewriteTree;
    assert ([t] + ts)[1..] == ts;
  }

  function Seven(a: Result<Tree>, b: Result<Tree>, c: Result<Tree>, d: Result<Tree>, e: Result<Tree>, f: Result<Tree>, g: Result<Tree>): Result<seq<Tree>> {
    var a1 :- a;
    var b1 :- b;
    var c1 :- c;
    var d1 :- d;
    var e1 :- e;
    var f1 :- f;
    var g1 :- g;
    Done(Kids(a1, b1, c1, d1, e1, f1, g1))
  }

  lemma RewriteKids(p: Program, n: nat, a: Tree, b: Tree, c: Tree, d: Tree, e: Tree, f: Tree, g: Tree)
    requires Formed(a) && Formed(b) && Formed(c) && Formed(d) && Formed(e) && Formed(f) && Formed(g)
    ensures AllFormed(Kids(a, b, c, d, e, f, g))
    ensures RewriteTrees(p, n, Kids(a, b, c, d, e, f, g))
      == Seven(RewriteTree(p, n, a), RewriteTree(p, n, b), RewriteTree(p, n, c), RewriteTree(p, n, d),
          RewriteTree(p, n, e), RewriteTree(p, n, f), RewriteTree(p, n, g))
  {
    hide RewriteTree, RewriteTrees, Formed;
    assert AllFormed([]) && RewriteTrees(p, n, []) == Done([]) by { NoTrees(p, n); }
    OneMore(p, n, g, []);
    OneMore(p, n, f, [g] + []);
    OneMore(p, n, e, [f] + ([g] + []));
    OneMore(p, n, d, [e] + ([f] + ([g] + [])));
    OneMore(p, n, c, [d] + ([e] + ([f] + ([g] + []))));
    OneMore(p, n, b, [c] + ([d] + ([e] + ([f] + ([g] + [])))));
    OneMore(p, n, a, [b] + ([c] + ([d] + ([e] + ([f] + ([g] + []))))));
  }

  lemma NoTrees(p: Program, n: nat)
    ensures AllFormed([]) && RewriteTrees(p, n, []) == Done([])
  {
  }

  // A node whose children and lists have become these.
  function Rebuilt(p: Program, fuel: nat, kind: Kind, kids: Result<seq<Tree>>, body: Result<seq<Tree>>, args: Result<seq<Tree>>): Result<Tree>
    requires kids.Done? ==> |kids.value| == KIDS
  {
    var kids1 :- kids;
    var body1 :- body;
    var args1 :- args;
    FoldTree(p, fuel, T(kind, kids1, body1, args1))
  }

  // A node without lists.
  lemma NoLists(p: Program, n: nat, kind: Kind, kids: seq<Tree>)
    requires |kids| == KIDS && AllFormed(kids)
    ensures var t := T(kind, kids, [], []);
      Formed(t) && RewriteTree(p, n, t) == Rebuilt(p, n, kind, RewriteTrees(p, n, kids), Done([]), Done([]))
  {
    hide FoldTree;
    NoTrees(p, n);
  }

  lemma LeafKept(p: Program, n: nat, kind: Kind)
    requires !kind.KBin? && !kind.KCall?
    ensures Formed(Leaf(kind)) && RewriteTree(p, n, Leaf(kind)) == Done(Leaf(kind))
  {
    hide RewriteTrees;
    RewriteKids(p, n, Null, Null, Null, Null, Null, Null, Null);
    NoLists(p, n, kind, Leaf(kind).kids);
  }

  lemma {:induction false} ConstIff(args: Args)
    ensures NumArgsOf(TreesArgs(args)) == if ConstArgs(args).Some? then Some(args) else None
  {
    match args
    case NoArgs =>
    case Arg(e, tail) =>
      assert TreesArgs(args)[1..] == TreesArgs(tail);
      ConstIff(tail);
  }

  // A binary operator on two trees of expressions.
  lemma FoldBinTree(p: Program, n: nat, op: Source.BinOp, l: Expr, r: Expr)
    ensures FoldTree(p, n, TreeE(Bin(op, l, r))) == Mapped(FoldBin(op, l, r), TreeE)
  {
    hide FoldVal, Overflows;
  }

  lemma FoldCallTree(p: Program, n: nat, name: string, named: bool, args: Args)
    ensures FoldTree(p, n, TreeE(Call(name, named, args))) == Mapped(FoldCall(p, n, name, named, args), TreeE)
  {
    hide RunCall, Find;
    ConstIff(args);
  }

  lemma {:induction false} SameE(p: Program, n: nat, e: Expr)
    ensures Formed(TreeE(e)) && RewriteTree(p, n, TreeE(e)) == Mapped(RewriteE(p, n, e), TreeE)
    decreases e
  {
    hide RewriteTree, RewriteTrees, FoldTree, FoldBin, FoldCall, Formed, AllFormed;
    assert Formed(Null) && RewriteTree(p, n, Null) == Done(Null) by { NullKept(p, n); }
    match e
    case Num(v) => LeafKept(p, n, KNum(v));
    case Var(x) => LeafKept(p, n, KVar(x));
    case Assign(x, rhs) =>
      LeafKept(p, n, KVar(x));
      SameE(p, n, rhs);
      RewriteKids(p, n, Leaf(KVar(x)), TreeE(rhs), Null, Null, Null, Null, Null);
      NoLists(p, n, KAssign, TreeE(e).kids);
      OtherKinds(p, n);
    case Bin(op, l, r) =>
      SameE(p, n, l);
      SameE(p, n, r);
      RewriteKids(p, n, TreeE(l), TreeE(r), Null, Null, Null, Null, Null);
      NoLists(p, n, KBin(op), TreeE(e).kids);
      var l1, r1 := RewriteE(p, n, l), RewriteE(p, n, r);
      if l1.Done? && r1.Done? { FoldBinTree(p, n, op, l1.value, r1.value); }
    case Logical(isAnd, l, r) =>
      SameE(p, n, l);
      SameE(p, n, r);
      RewriteKids(p, n, TreeE(l), TreeE(r), Null, Null, Null, Null, Null);
      NoLists(p, n, KLogical(isAnd), TreeE(e).kids);
      OtherKinds(p, n);
    case Cond(c, t, f) =>
      SameE(p, n, c);
      SameE(p, n, t);
      SameE(p, n, f);
      RewriteKids(p, n, Null, Null, TreeE(c), TreeE(t), TreeE(f), Null, Null);
      NoLists(p, n, KCond, TreeE(e).kids);
      OtherKinds(p, n);
    case Comma(l, r) =>
      SameE(p, n, l);
      SameE(p, n, r);
      RewriteKids(p, n, TreeE(l), TreeE(r), Null, Null, Null, Null, Null);
      NoLists(p, n, KComma, TreeE(e).kids);
      OtherKinds(p, n);
    case Call(name, named, args) =>
      SameArgs(p, n, args);
      RewriteKids(p, n, Null, Null, Null, Null, Null, Null, Null);
      WithArgs(p, n, KCall(name, named), TreeE(e).kids, TreesArgs(args));
      var args1 := RewriteArgs(p, n, args);
      if args1.Done? { FoldCallTree(p, n, name, named, args1.value); }
  }

  lemma NullKept(p: Program, n: nat)
    ensures Formed(Null) && RewriteTree(p, n, Null) == Done(Null)
  {
  }

  lemma OtherKinds(p: Program, n: nat)
    ensures forall t: Tree :: t.T? && |t.kids| == KIDS && !t.kind.KBin? && !t.kind.KCall? ==> FoldTree(p, n, t) == Done(t)
  {
  }

  lemma WithArgs(p: Program, n: nat, kind: Kind, kids: seq<Tree>, args: seq<Tree>)
    requires |kids| == KIDS && AllFormed(kids) && AllFormed(args) && RewriteTrees(p, n, kids) == Done(kids)
    ensures var t := T(kind, kids, [], args);
      Formed(t) && RewriteTree(p, n, t) == Rebuilt(p, n, kind, Done(kids), Done([]), RewriteTrees(p, n, args))
  {
    hide FoldTree;
    NoTrees(p, n);
  }

  lemma {:induction false} SameArgs(p: Program, n: nat, args: Args)
    ensures AllFormed(TreesArgs(args)) && RewriteTrees(p, n, TreesArgs(args)) == Mapped(RewriteArgs(p, n, args), TreesArgs)
    decreases args
  {
    hide RewriteTree, RewriteTrees, RewriteE, Formed, AllFormed;
    match args
    case NoArgs => NoTrees(p, n);
    case Arg(e, tail) =>
      SameE(p, n, e);
      SameArgs(p, n, tail);
      OneMore(p, n, TreeE(e), TreesArgs(tail));
  }

  lemma SameOpt(p: Program, n: nat, e: Option<Expr>)
    ensures Formed(TreeOpt(e)) && RewriteTree(p, n, TreeOpt(e)) == Mapped(RewriteOpt(p, n, e), TreeOpt)
  {
    hide RewriteTree, RewriteE, Formed;
    if e.Some? {
      SameE(p, n, e.value);
    } else {
      NullKept(p, n);
    }
  }

  lemma {:induction false} SameS(p: Program, n: nat, s: Stmt)
    ensures Formed(TreeS(s)) && RewriteTree(p, n, TreeS(s)) == Mapped(RewriteS(p, n, s), TreeS)
    decreases s
  {
    hide RewriteTree, RewriteTrees, RewriteE, RewriteOpt, FoldTree, Formed, AllFormed, TreeE, TreeOpt;
    NullKept(p, n);
    OtherKinds(p, n);
    match s
    case Block(body) =>
      SameBody(p, n, body);
      RewriteKids(p, n, Null, Null, Null, Null, Null, Null, Null);
      WithBody(p, n, KBlock, TreeS(s).kids, TreesBody(body));
    case Return(value) =>
      SameOpt(p, n, value);
      RewriteKids(p, n, TreeOpt(value), Null, Null, Null, Null, Null, Null);
      NoLists(p, n, KReturn, TreeS(s).kids);
    case If(c, t, f) =>
      SameE(p, n, c);
      SameS(p, n, t);
      if f.Some? { SameS(p, n, f.value); }
      RewriteKids(p, n, Null, Null, TreeE(c), TreeS(t), if f.Some? then TreeS(f.value) else Null, Null, Null);
      NoLists(p, n, KIf, TreeS(s).kids);
    case ExprStmt(e) =>
      SameE(p, n, e);
      RewriteKids(p, n, TreeE(e), Null, Null, Null, Null, Null, Null);
      NoLists(p, n, KExprStmt, TreeS(s).kids);
    case For(init, test, inc, loop) =>
      SameOpt(p, n, init);
      SameOpt(p, n, test);
      SameOpt(p, n, inc);
      SameS(p, n, loop);
      RewriteKids(p, n, Null, Null, TreeOpt(test), TreeS(loop), Null, TreeOpt(init), TreeOpt(inc));
      NoLists(p, n, KFor, TreeS(s).kids);
  }

  lemma WithBody(p: Program, n: nat, kind: Kind, kids: seq<Tree>, body: seq<Tree>)
    requires |kids| == KIDS && AllFormed(kids) && AllFormed(body) && RewriteTrees(p, n, kids) == Done(kids)
    ensures var t := T(kind, kids, body, []);
      Formed(t) && RewriteTree(p, n, t) == Rebuilt(p, n, kind, Done(kids), RewriteTrees(p, n, body), Done([]))
  {
    hide FoldTree;
    NoTrees(p, n);
  }

  lemma {:induction false} SameBody(p: Program, n: nat, body: Body)
    ensures AllFormed(TreesBody(body)) && RewriteTrees(p, n, TreesBody(body)) == Mapped(RewriteBody(p, n, body), TreesBody)
    decreases body
  {
    hide RewriteTree, RewriteTrees, RewriteS, Formed, AllFormed;
    match body
    case End => NoTrees(p, n);
    case Then(s, tail) =>
      SameS(p, n, s);
      SameBody(p, n, tail);
      OneMore(p, n, TreeS(s), TreesBody(tail));
  }
}
