/** What gen emits for statements; registers and label stacks are balanced by each. */
module StmtSpec {
  import opened Words
  import opened Machine
  import opened Options
  import opened Source
  import opened CodegenSpec

  datatype GenStmt = GenStmt(code: Prog, g: GState)

  // An expression evaluated for its effects.
  function GenEffect(e: Option<Expr>, g: GState): GenStmt {
    if e.None? then GenStmt([], g)
    else
      var a := GenE(e.value, g);
      var f := Free(a.g, a.r);
      GenStmt(a.code + f.code, f.g)
  }

  // gen_cond_branch_inv: jump to l when c is zero; a comparison is fused with the branch.
  function GenBranchInv(c: Expr, l: Label, g: GState): GenStmt {
    if c.Bin? && IsComparison(c.op) then
      var a := GenE(c.lhs, g);
      var jump := [Jcc(Negate(CcOf(c.op)), l)];
      if c.rhs.Num? then
        var f := Free(a.g, a.r);
        GenStmt(a.code + ([Alu(NoSuffix, OCmp, Imm(c.rhs.v), P32(a.r))] + (f.code + jump)), f.g)
      else
        var b := GenE(c.rhs, a.g);
        var fb := Free(b.g, b.r);
        var fa := Free(fb.g, a.r);
        GenStmt(a.code + (b.code + ([Alu(NoSuffix, OCmp, P32(b.r), P32(a.r))] + (fb.code + (fa.code + jump)))), fa.g)
    else
      var a := GenE(c, g);
      var f := Free(a.g, a.r);
      GenStmt(a.code + ([Alu(NoSuffix, OCmp, Imm(0), P32(a.r))] + (f.code + [Jcc(CE, l)])), f.g)
  }

  function Push(g: GState, c: nat): GState { g.(breaks := g.breaks + [c], continues := g.continues + [c]) }

  function Pop(g: GState): GState {
    if |g.breaks| == 0 || |g.continues| == 0 then g
    else g.(breaks := g.breaks[..|g.breaks| - 1], continues := g.continues[..|g.continues| - 1])
  }

  function JoinIfElse(c: nat, b: GenStmt, t: GenStmt, f: GenStmt): GenStmt {
    GenStmt(b.code + (t.code + ([Jmp(Label(LEnd, c)), Lab(Label(LElse, c))] + (f.code + [Lab(Label(LEnd, c))]))), f.g)
  }

  function JoinFor(c: nat, init: GenStmt, test: GenStmt, body: GenStmt, inc: GenStmt): GenStmt {
    GenStmt(init.code
            + ([Lab(Label(LBegin, c))]
               + (test.code + (body.code + ([Lab(Label(LContinue, c))]
                  + (inc.code + [Jmp(Label(LBegin, c)), Lab(Label(LEnd, c))]))))),
            Pop(inc.g))
  }

  function JoinDo(c: nat, body: GenStmt, a: Gen): GenStmt {
    var f := Free(a.g, a.r);
    GenStmt([Lab(Label(LBegin, c))]
            + (body.code + ([Lab(Label(LContinue, c))]
               + (a.code + ([Alu(NoSuffix, OCmp, Imm(0), P32(a.r))]
                  + (f.code + [Jcc(CNE, Label(LBegin, c)), Lab(Label(LEnd, c))]))))),
            Pop(f.g))
  }

  function GenTest(test: Option<Expr>, l: Label, g: GState): GenStmt {
    if test.None? then GenStmt([], g) else GenBranchInv(test.value, l, g)
  }

  // gen on a statement node.
  function GenS(s: Stmt, g: GState): GenStmt {
    match s
    case Null => GenStmt([], g)
    case ExprStmt(e) => GenEffect(Some(e), g)
    case Block(body) => GenList(body, g)
    case If(c, t, f) =>
      if c.Num? then
        if c.v != 0 then GenS(t, g) else if f.Some? then GenS(f.value, g) else GenStmt([], g)
      else
        var n := FreshLabel(g).labels;
        if f.Some? then
          var b := GenBranchInv(c, Label(LElse, n), FreshLabel(g));
          var x := GenS(t, b.g);
          JoinIfElse(n, b, x, GenS(f.value, x.g))
        else
          var b := GenBranchInv(c, Label(LEnd, n), FreshLabel(g));
          var x := GenS(t, b.g);
          GenStmt(b.code + (x.code + [Lab(Label(LEnd, n))]), x.g)
    case For(init, test, inc, body) =>
      var n := FreshLabel(g).labels;
      var i := GenEffect(init, FreshLabel(g));
      var b := GenTest(test, Label(LEnd, n), Push(i.g, n));
      var x := GenS(body, b.g);
      JoinFor(n, i, b, x, GenEffect(inc, x.g))
    case Do(body, c) =>
      var n := FreshLabel(g).labels;
      var x := GenS(body, Push(FreshLabel(g), n));
      JoinDo(n, x, GenE(c, x.g))
    case Break =>
      if |g.breaks| == 0 then GenStmt([], g.(failed := true))
      else GenStmt([Jmp(Label(LEnd, g.breaks[|g.breaks| - 1]))], g)
    case Continue =>
      if |g.continues| == 0 then GenStmt([], g.(failed := true))
      else GenStmt([Jmp(Label(LContinue, g.continues[|g.continues| - 1]))], g)
    case Return(v) =>
      if v.None? then GenStmt([Jmp(RETURN_LABEL)], g)
      else
        var a := GenE(v.value, g);
        var f := Free(a.g, a.r);
        GenStmt(a.code + ([Mov(SufQ, P64(a.r), R(RAX, W64))] + (f.code + [Jmp(RETURN_LABEL)])), f.g)
  }

  function GenList(l: StmtList, g: GState): GenStmt {
    match l
    case Nil => GenStmt([], g)
    case Cons(s, tail) =>
      var x := GenS(s, g);
      var y := GenList(tail, x.g);
      GenStmt(x.code + y.code, y.g)
  }

  // ----- register need -----

  function NeedOpt(e: Option<Expr>): nat { if e.None? then 0 else Need(e.value) }

  // A branch on a fused comparison holds the left operand while the right one is computed.
  function NeedBranch(c: Expr): nat {
    if c.Bin? && IsComparison(c.op) then
      if c.rhs.Num? then Need(c.lhs) else Max(Need(c.lhs), 1 + Need(c.rhs))
    else Need(c)
  }

  function NeedS(s: Stmt): nat {
    match s
    case ExprStmt(e) => Need(e)
    case Block(body) => NeedList(body)
    case If(c, t, f) => Max(NeedBranch(c), Max(NeedS(t), if f.Some? then NeedS(f.value) else 0))
    case For(init, test, inc, body) =>
      Max(Max(NeedOpt(init), if test.None? then 0 else NeedBranch(test.value)), Max(NeedS(body), NeedOpt(inc)))
    case Do(body, c) => Max(NeedS(body), Need(c))
    case Return(v) => NeedOpt(v)
    case _ => 0
  }

  function NeedList(l: StmtList): nat {
    match l
    case Nil => 0
    case Cons(s, tail) => Max(NeedS(s), NeedList(tail))
  }

  // ----- what generating a statement does to the state -----

  // All registers handed out are free again; the label stacks are balanced.
  ghost predicate Balanced(g: GState, g1: GState) {
    && g1.used == g.used && g1.spilled == {} && g1.slots == g.slots && g1.nextSlot == g.nextSlot
    && g1.labels >= g.labels && g1.breaks == g.breaks && g1.continues == g.continues
  }

  lemma EffectBalanced(e: Option<Expr>, g: GState)
    requires Fits(NeedOpt(e), g)
    ensures Balanced(g, GenEffect(e, g).g) && GenEffect(e, g).g.failed == g.failed
    ensures e.Some? ==> GenEffect(e, g).code == GenE(e.value, g).code
  {
    hide Fits;
    if e.None? {
      FitsPlain(0, g);
    } else {
      FitsPlain(NeedOpt(e), g);
      GenDiscipline(e.value, g);
      FreeFits(g, GenE(e.value, g));
    }
  }

  lemma FitsPlain(n: nat, g: GState)
    requires Fits(n, g)
    ensures g.spilled == {}
  {
  }

  lemma FitsBalanced(m: nat, n: nat, g: GState, g1: GState)
    requires Fits(n, g) && m <= n && Balanced(g, g1)
    ensures Fits(m, g1)
  {
  }

  // The fused branch, with the code of the empty register reloads left out.
  lemma BranchBalanced(c: Expr, l: Label, g: GState)
    requires Fits(NeedBranch(c), g)
    ensures Balanced(g, GenBranchInv(c, l, g).g) && GenBranchInv(c, l, g).g.failed == g.failed
    ensures GenBranchInv(c, l, g).code ==
      if c.Bin? && IsComparison(c.op) then
        var a := GenE(c.lhs, g);
        if c.rhs.Num? then a.code + [Alu(NoSuffix, OCmp, Imm(c.rhs.v), P32(a.r)), Jcc(Negate(CcOf(c.op)), l)]
        else
          var b := GenE(c.rhs, a.g);
          a.code + (b.code + [Alu(NoSuffix, OCmp, P32(b.r), P32(a.r)), Jcc(Negate(CcOf(c.op)), l)])
      else
        var a := GenE(c, g);
        a.code + [Alu(NoSuffix, OCmp, Imm(0), P32(a.r)), Jcc(CE, l)]
  {
    var fused := c.Bin? && IsComparison(c.op);
    var e := if fused then c.lhs else c;
    GenDiscipline(e, g);
    var a := GenE(e, g);
    if !fused || c.rhs.Num? {
      FreeFits(g, a);
    } else {
      FitsAfter(Need(c.rhs), g, a);
      GenDiscipline(c.rhs, a.g);
      var b := GenE(c.rhs, a.g);
      FreeFits(a.g, b);
      FreeFits(g, Gen([], a.r, Free(b.g, b.r).g));
    }
  }

  lemma PushPop(g: GState, n: nat, g1: GState)
    requires Balanced(Push(g, n), g1)
    ensures Balanced(g, Pop(g1))
    ensures Pop(g1).used == g1.used && Pop(g1).failed == g1.failed && Pop(g1).labels == g1.labels
  {
  }

  lemma TestBalanced(test: Option<Expr>, l: Label, g: GState)
    requires Fits(if test.None? then 0 else NeedBranch(test.value), g)
    ensures Balanced(g, GenTest(test, l, g).g) && GenTest(test, l, g).g.failed == g.failed
  {
    hide Fits, GenBranchInv;
    if test.None? {
      FitsPlain(0, g);
    } else {
      BranchBalanced(test.value, l, g);
    }
  }

  // Generation succeeds exactly for well-nested statements, and is balanced.
  lemma {:induction false} StmtBalanced(s: Stmt, g: GState)
    requires Fits(NeedS(s), g) && |g.breaks| == |g.continues|
    ensures Balanced(g, GenS(s, g).g)
    ensures GenS(s, g).g.failed <==> g.failed || !WellNested(s, |g.breaks|)
    decreases s, 1
  {
    hide Fits, GenBranchInv, GenEffect, GenTest, Free;
    FitsPlain(NeedS(s), g);
    match s
    case Null =>
    case ExprStmt(e) => EffectBalanced(Some(e), g);
    case Block(body) => ListBalanced(body, g);
    case If(_, _, _) => IfBalanced(s, g);
    case For(_, _, _, _) => ForBalanced(s, g);
    case Do(_, _) => DoBalanced(s, g);
    case Break =>
    case Continue =>
    case Return(v) =>
      if v.Some? {
        GenDiscipline(v.value, g);
        FreeFits(g, GenE(v.value, g));
      }
  }

  lemma {:induction false} ListBalanced(l: StmtList, g: GState)
    requires Fits(NeedList(l), g) && |g.breaks| == |g.continues|
    ensures Balanced(g, GenList(l, g).g)
    ensures GenList(l, g).g.failed <==> g.failed || !WellNestedList(l, |g.breaks|)
  {
    hide Fits, GenS, Need;
    FitsPlain(NeedList(l), g);
    match l
    case Nil =>
    case Cons(s, tail) =>
      FitsSame(NeedS(s), NeedList(l), g, g);
      StmtBalanced(s, g);
      FitsBalanced(NeedList(tail), NeedList(l), g, GenS(s, g).g);
      ListBalanced(tail, GenS(s, g).g);
  }

  lemma {:induction false} IfBalanced(s: Stmt, g: GState)
    requires s.If? && Fits(NeedS(s), g) && |g.breaks| == |g.continues|
    ensures Balanced(g, GenS(s, g).g)
    ensures GenS(s, g).g.failed <==> g.failed || !WellNested(s, |g.breaks|) 
    decreases s, 0
  {
    hide Fits, GenBranchInv;
    FitsPlain(NeedS(s), g);
    var c, n := s.cond, NeedS(s);
    if c.Num? {
      if c.v != 0 {
        FitsSame(NeedS(s.thn), n, g, g);
        StmtBalanced(s.thn, g);
      } else if s.els.Some? {
        FitsSame(NeedS(s.els.value), n, g, g);
        StmtBalanced(s.els.value, g);
      }
    } else {
      var g0 := FreshLabel(g);
      var l := Label(if s.els.Some? then LElse else LEnd, g0.labels);
      FitsSame(NeedBranch(c), n, g, g0);
      BranchBalanced(c, l, g0);
      var b := GenBranchInv(c, l, g0);
      FitsSame(n, n, g, g0);
      FitsBalanced(NeedS(s.thn), n, g0, b.g);
      StmtBalanced(s.thn, b.g);
      var x := GenS(s.thn, b.g);
      if s.els.Some? {
        FitsBalanced(NeedS(s.els.value), n, g0, x.g);
        StmtBalanced(s.els.value, x.g);
      }
    }
  }

  lemma {:induction false} ForBalanced(s: Stmt, g: GState)
    requires s.For? && Fits(NeedS(s), g) && |g.breaks| == |g.continues|
    ensures Balanced(g, GenS(s, g).g)
    ensures GenS(s, g).g.failed <==> g.failed || !WellNested(s, |g.breaks|)
    decreases s, 0
  {
    hide Fits, GenBranchInv, GenEffect, GenTest;
    var g0, n := FreshLabel(g), NeedS(s);
    FitsSame(n, n, g, g0);
    FitsPlain(n, g);
    FitsSame(NeedOpt(s.init), n, g, g0);
    EffectBalanced(s.init, g0);
    var i := GenEffect(s.init, g0);
    var gp := Push(i.g, g0.labels);
    FitsSame(n, n, g0, gp);
    FitsSame(if s.test.None? then 0 else NeedBranch(s.test.value), n, gp, gp);
    var l := Label(LEnd, g0.labels);
    TestBalanced(s.test, l, gp);
    var b := GenTest(s.test, l, gp);
    FitsBalanced(NeedS(s.body1), n, gp, b.g);
    StmtBalanced(s.body1, b.g);
    var x := GenS(s.body1, b.g);
    FitsBalanced(NeedOpt(s.inc), n, gp, x.g);
    EffectBalanced(s.inc, x.g);
    PushPop(i.g, g0.labels, GenEffect(s.inc, x.g).g);
  }

  lemma {:induction false} DoBalanced(s: Stmt, g: GState)
    requires s.Do? && Fits(NeedS(s), g) && |g.breaks| == |g.continues|
    ensures Balanced(g, GenS(s, g).g)
    ensures GenS(s, g).g.failed <==> g.failed || !WellNested(s, |g.breaks|)
    decreases s, 0
  {
    hide Fits, Free;
    var g0, n := FreshLabel(g), NeedS(s);
    var gp := Push(g0, g0.labels);
    FitsPlain(n, g);
    FitsSame(n, n, g, gp);
    FitsSame(NeedS(s.body1), n, gp, gp);
    StmtBalanced(s.body1, gp);
    var x := GenS(s.body1, gp);
    FitsBalanced(Need(s.cond), n, gp, x.g);
    GenDiscipline(s.cond, x.g);
    var a := GenE(s.cond, x.g);
    FreeFits(x.g, a);
    PushPop(g0, g0.labels, Free(a.g, a.r).g);
  }
}
