/** The two halves together: what the code generator emits meets the peephole optimizer's
    conditions, so the optimized body still computes what C says. */
module OptimizedBody {
  import opened Words
  import opened Machine
  import opened Options
  import opened Source
  import opened CodegenSpec
  import opened ExprCorrect
  import opened StmtSpec
  import opened Labels
  import opened Divergence
  import opened Peephole
  import opened PeepholeCorrect
  import opened PeepholeWindow
  import opened CodeGenerator

  // ----- the shape of generated code -----

  // A move into the 32-bit name of a pool register from another register: only divisions have one.
  predicate IsResultMove(i: Instr) {
    i.Mov? && i.sfx.NoSuffix? && i.src.R? && i.dst.R? && i.dst.r.Pool? && i.dst.w.W32?
  }

  predicate TidyLine(i: Instr) {
    && LineOk(i) && (IsLoad(i) ==> i.sfx.SufL?)
    && (i.Mov? && !i.src.R? ==> i.dst.R? && i.dst.r.Pool? && i.dst.w.W32?)
  }

  ghost predicate Tidy(p: Prog) {
    forall k :: 0 <= k < |p| ==> TidyAt(p, k)
  }

  predicate TidyAt(p: Prog, k: nat)
    requires k < |p|
  {
    TidyLine(p[k]) && (IsResultMove(p[k]) ==> k > 0 && p[k - 1].Idiv?)
  }

  lemma TidyCodeOk(p: Prog)
    requires Tidy(p)
    ensures CodeOk(p)
  {
    forall k | 0 <= k < |p|
      ensures LineOk(p[k])
    {
      assert TidyAt(p, k);
    }
    forall k | 0 <= k && k + 2 < |p|
      ensures Fine5(p[k], p[k + 1], p[k + 2], p[k + 3..])
    {
      assert TidyAt(p, k) && TidyAt(p, k + 2);
    }
    forall i: nat, j: nat
      ensures NotMixed(p, i, j)
    {
      if i < |p| && j < |p| {
        assert TidyAt(p, i) && TidyAt(p, j);
      }
    }
  }

  lemma TidyConcat(a: Prog, b: Prog)
    requires Tidy(a) && Tidy(b)
    ensures Tidy(a + b)
  {
    forall k | 0 <= k < |a + b|
      ensures TidyAt(a + b, k)
    {
      if k >= |a| {
        assert TidyAt(b, k - |a|);
      } else {
        assert TidyAt(a, k);
      }
    }
  }

  lemma Tidy3(a: Prog, b: Prog, c: Prog)
    requires Tidy(a) && Tidy(b) && Tidy(c)
    ensures Tidy(a + (b + c))
  {
    TidyConcat(b, c);
    TidyConcat(a, b + c);
  }

  // Lines that are tidy by themselves.
  lemma TidyLines(p: Prog)
    requires forall k :: 0 <= k < |p| ==> TidyLine(p[k]) && !IsResultMove(p[k])
    ensures Tidy(p)
  {
  }

  lemma OperatorTidy(op: BinOp, v: I32, a: nat, b: nat)
    ensures Tidy(ConstCode(op, v, a)) && Tidy(BinCode(op, a, b)) && Tidy(SetCode(op, a))
  {
    hide Tidy, SetCode, ImmCode, BinCode;
    SetTidy(op, a);
    ImmTidy(op, v, a);
    BinCodeTidy(op, a, b);
    TidyConcat(ImmCode(op, v, a), SetCode(op, a));
    TidyLines([ShiftImm(ShiftOf(op), v, Pool(a))]);
  }

  lemma SetTidy(op: BinOp, r: nat)
    ensures Tidy(SetCode(op, r))
  {
    TidyLines(SetCode(op, r));
  }

  lemma ImmTidy(op: BinOp, v: I32, r: nat)
    ensures Tidy(ImmCode(op, v, r))
  {
    TidyLines(ImmCode(op, v, r));
  }

  lemma BinCodeTidy(op: BinOp, a: nat, b: nat)
    ensures Tidy(BinCode(op, a, b))
  {
  }

  lemma LogicalTidy(isAnd: bool, c: nat, a: Gen, b: Gen)
    requires Tidy(a.code) && Tidy(b.code) && Free(a.g, a.r).code == [] && Free(b.g, b.r).code == []
    requires Alloc(Free(b.g, b.r).g).code == []
    ensures Tidy(JoinLogical(isAnd, c, a, b).code)
  {
    hide Alloc, Free, Tidy;
    var end := Label(LEnd, c);
    var d := Alloc(Free(b.g, b.r).g);
    var test := [Alu(NoSuffix, OCmp, Imm(0), P32(a.r)), MovbImm(if isAnd then 0 else 1, SPILL_LOGAND), Jcc(if isAnd then CE else CNE, end)];
    var mid := [Alu(NoSuffix, OCmp, Imm(0), P32(b.r)), Setcc(CNE), MovbAl(SPILL_LOGAND)];
    var last := [MovzblFrame(SPILL_LOGAND, Pool(d.r))];
    TidyLines(test);
    TidyLines(mid);
    TidyLines([Lab(end)]);
    TidyLines(last);
    TidyLines([]);
    TidyConcat(d.code, last);
    Tidy3([], [Lab(end)], d.code + last);
    Tidy3(b.code, mid, [] + ([Lab(end)] + (d.code + last)));
    TidyConcat([], b.code + (mid + ([] + ([Lab(end)] + (d.code + last)))));
    Tidy3(a.code, test, [] + (b.code + (mid + ([] + ([Lab(end)] + (d.code + last))))));
  }

  lemma CondTidy(c: nat, d: Gen, a: Gen, x: Gen, y: Gen)
    requires Tidy(a.code) && Tidy(x.code) && Tidy(y.code) && d.code == []
    requires Free(a.g, a.r).code == [] && Free(x.g, x.r).code == [] && Free(y.g, y.r).code == []
    ensures Tidy(JoinCond(c, d, a, x, y).code)
  {
    hide Free, Tidy;
    var els, end := Label(LElse, c), Label(LEnd, c);
    var test, mid := [Alu(NoSuffix, OCmp, Imm(0), P32(a.r)), Jcc(CE, els)], [Jmp(end), Lab(els)];
    var m1, m2 := [Mov(NoSuffix, P64(x.r), P64(d.r))], [Mov(NoSuffix, P64(y.r), P64(d.r))];
    TidyLines(test);
    TidyLines(mid);
    TidyLines(m1);
    TidyLines(m2);
    TidyLines([Lab(end)]);
    TidyLines([]);
    TidyConcat([], [Lab(end)]);
    Tidy3(y.code, m2, [] + [Lab(end)]);
    var t := y.code + (m2 + ([] + [Lab(end)]));
    Tidy3([], mid, t);
    Tidy3(x.code, m1, [] + (mid + t));
    var u := x.code + (m1 + ([] + (mid + t)));
    TidyConcat([], u);
    Tidy3(a.code, test, [] + u);
    TidyConcat([], a.code + (test + ([] + u)));
  }

  lemma {:induction false} ExprTidy(e: Expr, g: GState)
    requires Fits(Need(e), g)
    ensures Tidy(GenE(e, g).code)
    decreases e, 1
  {
    hide Alloc, Free, Fits, Tidy, JoinLogical, JoinCond, ConstCode, BinCode, SetCode, GenPost, Discipline;
    match e
    case Num(v) => AllocFits(g); AppendTidy(Alloc(g), [Mov(NoSuffix, Imm(v), P32(Alloc(g).r))]);
    case Var(x) => AllocFits(g); AppendTidy(Alloc(g), [Mov(SufL, Frame(x), P32(Alloc(g).r))]);
    case Assign(x, rhs) =>
      ExprTidy(rhs, g);
      AppendTidy(GenE(rhs, g), [Mov(NoSuffix, P32(GenE(rhs, g).r), Frame(x))]);
    case Bin(op, lhs, rhs) => BinTidy(op, lhs, rhs, g);
    case Neg(e1) => ExprTidy(e1, g); AppendTidy(GenE(e1, g), [NegR(Pool(GenE(e1, g).r))]);
    case BitNot(e1) => ExprTidy(e1, g); AppendTidy(GenE(e1, g), [NotR(Pool(GenE(e1, g).r))]);
    case Not(e1) =>
      var r := GenE(e1, g).r;
      ExprTidy(e1, g);
      AppendTidy(GenE(e1, g), [Alu(NoSuffix, OCmp, Imm(0), P32(r)), Setcc(CE), MovzblAl(Pool(r))]);
    case LogAnd(lhs, rhs) => LogicalExprTidy(e, lhs, rhs, g);
    case LogOr(lhs, rhs) => LogicalExprTidy(e, lhs, rhs, g);
    case Cond(c, t, f) => CondExprTidy(c, t, f, g);
    case Comma(lhs, rhs) =>
      FitsSame(Need(lhs), Need(e), g, g);
      ExprTidy(lhs, g);
      GenDiscipline(lhs, g);
      var a := GenE(lhs, g);
      Released(Need(rhs), Need(e), g, a);
      ExprTidy(rhs, Free(a.g, a.r).g);
      NoCode();
      Tidy3(a.code, Free(a.g, a.r).code, GenE(rhs, Free(a.g, a.r).g).code);
    case PostInc(x) => GenPostDiscipline(x, OAdd, g); TidyLines(GenPost(x, OAdd, g).code);
    case PostDec(x) => GenPostDiscipline(x, OSub, g); TidyLines(GenPost(x, OSub, g).code);
  }

  lemma NoCode()
    ensures Tidy([])
  {
  }

  lemma AppendTidy(a: Gen, p: Prog)
    requires a.code == [] || Tidy(a.code)
    requires forall k :: 0 <= k < |p| ==> TidyLine(p[k]) && !IsResultMove(p[k])
    ensures Tidy(Append(a, p).code)
  {
    TidyConcat(a.code, p);
  }

  // The register of a subexpression given back: the state fits what comes next.
  lemma Released(m: nat, n: nat, g: GState, a: Gen)
    requires Fits(n, g) && Discipline(g, a) && m <= n
    ensures Free(a.g, a.r).code == [] && Fits(m, Free(a.g, a.r).g)
  {
    FreeFits(g, a);
    FitsSame(m, n, g, Free(a.g, a.r).g);
  }

  lemma {:induction false} BinTidy(op: BinOp, lhs: Expr, rhs: Expr, g: GState)
    requires Fits(Need(Bin(op, lhs, rhs)), g)
    ensures Tidy(GenE(Bin(op, lhs, rhs), g).code)
    decreases Bin(op, lhs, rhs), 0
  {
    hide Free, Fits, Tidy, ConstCode, BinCode, SetCode, Discipline;
    var n := Need(Bin(op, lhs, rhs));
    FitsSame(Need(lhs), n, g, g);
    ExprTidy(lhs, g);
    var a := GenE(lhs, g);
    if UsesImmediate(op, rhs) {
      OperatorTidy(op, rhs.v, a.r, 0);
      TidyConcat(a.code, ConstCode(op, rhs.v, a.r));
    } else {
      GenDiscipline(lhs, g);
      FitsSame(Need(rhs) + 1, n, g, g);
      FitsAfter(Need(rhs), g, a);
      ExprTidy(rhs, a.g);
      GenDiscipline(rhs, a.g);
      var b := GenE(rhs, a.g);
      Released(0, Need(rhs), a.g, b);
      OperatorTidy(op, 0, a.r, b.r);
      NoCode();
      TidyConcat(Free(b.g, b.r).code, SetCode(op, a.r));
      Tidy3(b.code, BinCode(op, a.r, b.r), Free(b.g, b.r).code + SetCode(op, a.r));
      TidyConcat(a.code, b.code + (BinCode(op, a.r, b.r) + (Free(b.g, b.r).code + SetCode(op, a.r))));
    }
  }

  lemma {:induction false} LogicalExprTidy(e: Expr, lhs: Expr, rhs: Expr, g: GState)
    requires e == LogAnd(lhs, rhs) || e == LogOr(lhs, rhs)
    requires Fits(Need(e), g)
    ensures Tidy(GenE(e, g).code)
    decreases e, 0
  {
    hide Alloc, Free, Fits, Tidy, JoinLogical, Discipline;
    var n, g0 := Need(e), FreshLabel(g);
    FitsSame(n, n, g, g0);
    FitsSame(Need(lhs), n, g0, g0);
    ExprTidy(lhs, g0);
    GenDiscipline(lhs, g0);
    var a := GenE(lhs, g0);
    Released(Need(rhs), n, g0, a);
    var g1 := Free(a.g, a.r).g;
    ExprTidy(rhs, g1);
    GenDiscipline(rhs, g1);
    var b := GenE(rhs, g1);
    Released(1, Need(rhs), g1, b);
    AllocFits(Free(b.g, b.r).g);
    LogicalTidy(e.LogAnd?, g0.labels, a, b);
  }

  lemma {:induction false} CondExprTidy(c: Expr, t: Expr, f: Expr, g: GState)
    requires Fits(Need(Cond(c, t, f)), g)
    ensures Tidy(GenE(Cond(c, t, f), g).code)
    decreases Cond(c, t, f), 0
  {
    hide Alloc, Free, Fits, Tidy, JoinCond, Discipline;
    var n, g0 := Need(Cond(c, t, f)), FreshLabel(g);
    FitsSame(n, n, g, g0);
    FitsSame(1, n, g0, g0);
    var d := Alloc(g0);
    AllocFits(g0);
    FitsAfter(n - 1, g0, d);
    FitsSame(Need(c), n - 1, d.g, d.g);
    ExprTidy(c, d.g);
    GenDiscipline(c, d.g);
    var a := GenE(c, d.g);
    Released(n - 1, n - 1, d.g, a);
    var g1 := Free(a.g, a.r).g;
    FitsSame(Need(t), n - 1, g1, g1);
    ExprTidy(t, g1);
    GenDiscipline(t, g1);
    var x := GenE(t, g1);
    Released(Need(f), n - 1, g1, x);
    var g2 := Free(x.g, x.r).g;
    ExprTidy(f, g2);
    GenDiscipline(f, g2);
    var y := GenE(f, g2);
    Released(0, Need(f), g2, y);
    CondTidy(g0.labels, d, a, x, y);
  }

  // ----- statements -----

  lemma EffectTidy(e: Option<Expr>, g: GState)
    requires Fits(NeedOpt(e), g)
    ensures Tidy(GenEffect(e, g).code)
  {
    hide Tidy, Fits;
    NoCode();
    if e.Some? {
      EffectBalanced(e, g);
      ExprTidy(e.value, g);
    }
  }

  lemma BranchTidy(c: Expr, l: Label, g: GState)
    requires Fits(NeedBranch(c), g)
    ensures Tidy(GenBranchInv(c, l, g).code)
  {
    hide Tidy, Fits, Free, GenBranchInv, Discipline;
    BranchBalanced(c, l, g);
    var fused := c.Bin? && IsComparison(c.op);
    var e := if fused then c.lhs else c;
    FitsSame(Need(e), NeedBranch(c), g, g);
    ExprTidy(e, g);
    var a := GenE(e, g);
    if fused && !c.rhs.Num? {
      GenDiscipline(e, g);
      FitsSame(Need(c.rhs) + 1, NeedBranch(c), g, g);
      FitsAfter(Need(c.rhs), g, a);
      ExprTidy(c.rhs, a.g);
      var b := GenE(c.rhs, a.g);
      var jump := [Alu(NoSuffix, OCmp, P32(b.r), P32(a.r)), Jcc(Negate(CcOf(c.op)), l)];
      TidyLines(jump);
      Tidy3(a.code, b.code, jump);
    } else {
      var jump := [Alu(NoSuffix, OCmp, Imm(if fused then c.rhs.v else 0), P32(a.r)), Jcc(if fused then Negate(CcOf(c.op)) else CE, l)];
      TidyLines(jump);
      TidyConcat(a.code, jump);
    }
  }

  lemma TestTidy(test: Option<Expr>, l: Label, g: GState)
    requires Fits(if test.None? then 0 else NeedBranch(test.value), g)
    ensures Tidy(GenTest(test, l, g).code)
  {
    hide Tidy, Fits, GenBranchInv;
    NoCode();
    if test.Some? {
      BranchTidy(test.value, l, g);
    }
  }

  lemma ForTidy(c: nat, i: GenStmt, t: GenStmt, x: GenStmt, n: GenStmt)
    requires Tidy(i.code) && Tidy(t.code) && Tidy(x.code) && Tidy(n.code)
    ensures Tidy(JoinFor(c, i, t, x, n).code)
  {
    hide Tidy;
    var begin, cont, last := [Lab(Label(LBegin, c))], [Lab(Label(LContinue, c))], [Jmp(Label(LBegin, c)), Lab(Label(LEnd, c))];
    TidyLines(begin);
    TidyLines(cont);
    TidyLines(last);
    Tidy3(cont, n.code, last);
    Tidy3(t.code, x.code, cont + (n.code + last));
    Tidy3(i.code, begin, t.code + (x.code + (cont + (n.code + last))));
  }

  lemma DoTidy(c: nat, x: GenStmt, a: Gen)
    requires Tidy(x.code) && Tidy(a.code) && Free(a.g, a.r).code == []
    ensures Tidy(JoinDo(c, x, a).code)
  {
    hide Tidy, Free;
    var begin, cont, last := [Lab(Label(LBegin, c))], [Lab(Label(LContinue, c))], [Jcc(CNE, Label(LBegin, c)), Lab(Label(LEnd, c))];
    var cmp := [Alu(NoSuffix, OCmp, Imm(0), P32(a.r))];
    TidyLines(begin);
    TidyLines(cont);
    TidyLines(cmp);
    TidyLines(last);
    NoCode();
    Tidy3(cmp, Free(a.g, a.r).code, last);
    Tidy3(cont, a.code, cmp + (Free(a.g, a.r).code + last));
    Tidy3(begin, x.code, cont + (a.code + (cmp + (Free(a.g, a.r).code + last))));
  }

  lemma {:induction false} StmtTidy(s: Stmt, g: GState)
    requires Fits(NeedS(s), g) && |g.breaks| == |g.continues|
    ensures Tidy(GenS(s, g).code)
    decreases s, 1
  {
    hide Tidy, Fits, Free, GenEffect, GenBranchInv, GenTest, JoinFor, JoinDo, JoinIfElse, Discipline;
    NoCode();
    match s
    case Null =>
    case ExprStmt(e) => EffectTidy(Some(e), g);
    case Block(body) => ListTidy(body, g);
    case If(c, t, f) => IfTidy(c, t, f, g);
    case For(_, _, _, _) => LoopTidy(s, g);
    case Do(_, _) => LoopTidy(s, g);
    case Break => TidyLines(GenS(s, g).code);
    case Continue => TidyLines(GenS(s, g).code);
    case Return(v) =>
      TidyLines([Jmp(RETURN_LABEL)]);
      if v.Some? {
        ExprTidy(v.value, g);
        GenDiscipline(v.value, g);
        var a := GenE(v.value, g);
        Released(0, Need(v.value), g, a);
        var mov := [Mov(SufQ, P64(a.r), R(RAX, W64))];
        TidyLines(mov);
        TidyConcat(Free(a.g, a.r).code, [Jmp(RETURN_LABEL)]);
        Tidy3(a.code, mov, Free(a.g, a.r).code + [Jmp(RETURN_LABEL)]);
      }
  }

  lemma BalancedStacks(g: GState, g1: GState)
    requires Balanced(g, g1) && |g.breaks| == |g.continues|
    ensures |g1.breaks| == |g1.continues|
  {
  }

  lemma {:induction false} ListTidy(l: StmtList, g: GState)
    requires Fits(NeedList(l), g) && |g.breaks| == |g.continues|
    ensures Tidy(GenList(l, g).code)
    decreases l
  {
    hide Tidy, Fits, GenS, Balanced;
    NoCode();
    match l
    case Nil =>
    case Cons(s, tail) =>
      FitsSame(NeedS(s), NeedList(l), g, g);
      StmtTidy(s, g);
      StmtBalanced(s, g);
      var x := GenS(s, g);
      FitsBalanced(NeedList(tail), NeedList(l), g, x.g);
      BalancedStacks(g, x.g);
      ListTidy(tail, x.g);
      TidyConcat(x.code, GenList(tail, x.g).code);
  }

  lemma {:induction false} IfTidy(c: Expr, t: Stmt, f: Option<Stmt>, g: GState)
    requires Fits(NeedS(If(c, t, f)), g) && |g.breaks| == |g.continues|
    ensures Tidy(GenS(If(c, t, f), g).code)
    decreases If(c, t, f), 0
  {
    hide Tidy, Fits, GenBranchInv, Balanced;
    var n := NeedS(If(c, t, f));
    NoCode();
    if c.Num? {
      if c.v != 0 {
        FitsSame(NeedS(t), n, g, g);
        StmtTidy(t, g);
      } else if f.Some? {
        FitsSame(NeedS(f.value), n, g, g);
        StmtTidy(f.value, g);
      }
    } else {
      var g0 := FreshLabel(g);
      var end, els := Label(LEnd, g0.labels), Label(LElse, g0.labels);
      var l := if f.Some? then els else end;
      FitsSame(n, n, g, g0);
      FitsSame(NeedBranch(c), n, g0, g0);
      BranchTidy(c, l, g0);
      BranchBalanced(c, l, g0);
      var b := GenBranchInv(c, l, g0);
      FitsBalanced(n, n, g0, b.g);
      FitsSame(NeedS(t), n, b.g, b.g);
      BalancedStacks(g0, b.g);
      StmtTidy(t, b.g);
      var x := GenS(t, b.g);
      TidyLines([Lab(end)]);
      if f.Some? {
        StmtBalanced(t, b.g);
        FitsBalanced(NeedS(f.value), n, b.g, x.g);
        BalancedStacks(b.g, x.g);
        StmtTidy(f.value, x.g);
        var y, mid := GenS(f.value, x.g), [Jmp(end), Lab(els)];
        TidyLines(mid);
        Tidy3(mid, y.code, [Lab(end)]);
        Tidy3(b.code, x.code, mid + (y.code + [Lab(end)]));
      } else {
        Tidy3(b.code, x.code, [Lab(end)]);
      }
    }
  }

  lemma {:induction false} LoopTidy(s: Stmt, g: GState)
    requires (s.For? || s.Do?) && Fits(NeedS(s), g) && |g.breaks| == |g.continues|
    ensures Tidy(GenS(s, g).code)
    decreases s, 0
  {
    hide Tidy, Fits, Free, GenEffect, GenTest, JoinFor, JoinDo, Discipline, Balanced;
    var g0, n := FreshLabel(g), NeedS(s);
    FitsSame(n, n, g, g0);
    if s.For? {
      FitsSame(NeedOpt(s.init), n, g0, g0);
      EffectTidy(s.init, g0);
      EffectBalanced(s.init, g0);
      var i := GenEffect(s.init, g0);
      FitsBalanced(n, n, g0, i.g);
      BalancedStacks(g0, i.g);
      var gp, end := Push(i.g, g0.labels), Label(LEnd, g0.labels);
      FitsSame(n, n, i.g, gp);
      FitsSame(if s.test.None? then 0 else NeedBranch(s.test.value), n, gp, gp);
      TestTidy(s.test, end, gp);
      TestBalanced(s.test, end, gp);
      var b := GenTest(s.test, end, gp);
      FitsBalanced(n, n, gp, b.g);
      FitsSame(NeedS(s.body1), n, b.g, b.g);
      BalancedStacks(gp, b.g);
      StmtTidy(s.body1, b.g);
      StmtBalanced(s.body1, b.g);
      var x := GenS(s.body1, b.g);
      FitsBalanced(NeedOpt(s.inc), n, b.g, x.g);
      EffectTidy(s.inc, x.g);
      ForTidy(g0.labels, i, b, x, GenEffect(s.inc, x.g));
    } else {
      var gp := Push(g0, g0.labels);
      FitsSame(n, n, g0, gp);
      FitsSame(NeedS(s.body1), n, gp, gp);
      StmtTidy(s.body1, gp);
      StmtBalanced(s.body1, gp);
      var x := GenS(s.body1, gp);
      FitsBalanced(Need(s.cond), n, gp, x.g);
      ExprTidy(s.cond, x.g);
      GenDiscipline(s.cond, x.g);
      Released(0, Need(s.cond), x.g, GenE(s.cond, x.g));
      DoTidy(g0.labels, x, GenE(s.cond, x.g));
    }
  }

  // ----- the whole body -----

  // The text of a compiled function body, up to its return label.
  function CompiledBody(s: Stmt): Prog {
    Printed(Optimized(GenS(s, INITIAL).code)) + [Lab(RETURN_LABEL)]
  }

  // Running p from m ends as C says s ends in env.
  ghost predicate Computes(p: Prog, s: Stmt, env: Env, fuel: nat, m: State)
    requires Exec(s, env, fuel).Done?
  {
    exists m1 :: Reaches(p, Conf(0, m), Conf(|p|, m1)) && EndsAs(Exec(s, env, fuel), env, m, m1)
  }

  ghost predicate EndsAs(r: Result, env: Env, m: State, m1: State)
    requires r.Done?
  {
    && EnvRel(r.env, m1.mem) && SameOutside(env.Keys, m.mem, m1.mem)
    && (r.o.Returned? && r.o.v.Some? ==> Low32(GetReg(m1, RAX)) == Some(Narrow(r.o.v.value)))
  }

  lemma AgreeingEnd(r: Result, env: Env, m: State, m1: State, t: State)
    requires r.Done? && EndsAs(r, env, m, m1) && StateLe(m1, t)
    ensures EndsAs(r, env, m, t)
  {
    hide Load32;
    forall x | x in r.env
      ensures Load32(t.mem, Addr(x)) == r.env[x]
    {
      SameBytesLoad(m1.mem, t.mem, Addr(x));
    }
    assert ValLe(GetReg(m1, RAX), GetReg(t, RAX));
    SameOutsideAgrees(env.Keys, m.mem, m1.mem, t.mem);
  }

  lemma SameOutsideAgrees(vars: set<nat>, m: Memory, m1: Memory, t: Memory)
    requires SameOutside(vars, m, m1) && SameBytes(m1, t)
    ensures SameOutside(vars, m, t)
  {
    assert forall a: int :: GetByte(m1, a) == GetByte(t, a);
  }

  // Compiled and optimized, a function body still computes what C says it computes.
  lemma CompiledBodyCorrect(s: Stmt, env: Env, fuel: nat, m: State)
    requires NeedS(s) <= NUM_REGS && WellNested(s, 0) && FrameOk(env.Keys) && EnvRel(env, m.mem)
    requires Exec(s, env, fuel).Done?
    ensures Computes(CompiledBody(s), s, env, fuel, m)
  {
    hide Exec, GenS, EnvRel, FrameOk, SameOutside, StateLe, Reaches, CodeOk, UniqueLabels, Optimized, Printed, EndsAs;
    var code, tail := GenS(s, INITIAL).code, [Lab(RETURN_LABEL)];
    var m1 := BodyCorrect(s, env, fuel, m);
    BodyUniqueLabels(s);
    InitialFits(s);
    StmtTidy(s, INITIAL);
    TidyCodeOk(code);
    var d := Conf(|code + tail|, m1);
    var t := OptimizedRun(code, tail, m, d);
    var q := Optimized(code) + tail;
    assert q[..|q|] == q;
    PrintedConcat(Optimized(code), tail);
    PrintedAll(tail);
    var r := Exec(s, env, fuel);
    assert EndsAs(r, env, m, m1) by { EndOf(r, env, m, m1); }
    AgreeingEnd(r, env, m, m1, t);
  }

  lemma InitialFits(s: Stmt)
    requires NeedS(s) <= NUM_REGS
    ensures Fits(NeedS(s), INITIAL)
  {
  }

  lemma EndOf(r: Result, env: Env, m: State, m1: State)
    requires r.Done? && EnvRel(r.env, m1.mem) && SameOutside(env.Keys, m.mem, m1.mem)
    requires r.o.Returned? && r.o.v.Some? ==> GetReg(m1, RAX) == Narrow(r.o.v.value)
    ensures EndsAs(r, env, m, m1)
  {
  }

  // Where C runs for ever, the compiled body never gets to its return label.
  ghost predicate Diverges(s: Stmt, env: Env) { forall fuel: nat :: Exec(s, env, fuel).Timeout? }

  ghost predicate RunsOn(p: Prog, m: State) { forall n: nat :: Running(p, Conf(0, m), n) }

  lemma CompiledBodyDiverges(s: Stmt, env: Env, m: State)
    requires NeedS(s) <= NUM_REGS && WellNested(s, 0) && FrameOk(env.Keys) && EnvRel(env, m.mem)
    requires Diverges(s, env)
    ensures RunsOn(CompiledBody(s), m)
  {
    hide Exec, GenS, EnvRel, FrameOk, CodeOk, UniqueLabels, Optimized, Printed, Running, Goes;
    var code, tail := GenS(s, INITIAL).code, [Lab(RETURN_LABEL)];
    BodyUniqueLabels(s);
    InitialFits(s);
    StmtTidy(s, INITIAL);
    TidyCodeOk(code);
    forall n: nat ensures Running(CompiledBody(s), Conf(0, m), n) {
      var fuel := (n + 2) * (|code + tail| + 1);
      BodyGoes(s, env, fuel, m);
      OptimizedGoes(code, tail, m, n + 2);
      StillRunning(CompiledBody(s), Conf(0, m), n);
    }
  }

  // Where C leaves nothing undefined, the compiled body returns exactly if C comes to an end.
  lemma CompiledBodyEndsIff(s: Stmt, env: Env, m: State)
    requires NeedS(s) <= NUM_REGS && WellNested(s, 0) && FrameOk(env.Keys) && EnvRel(env, m.mem)
    requires forall fuel: nat :: !Exec(s, env, fuel).Stuck?
    ensures (exists n: nat :: Returned(CompiledBody(s), m, n)) <==> (exists fuel: nat :: Exec(s, env, fuel).Done?)
  {
    hide Exec, GenS, EnvRel, FrameOk, CompiledBody;
    var p := CompiledBody(s);
    if fuel: nat :| Exec(s, env, fuel).Done? {
      CompiledBodyCorrect(s, env, fuel, m);
      var m1 :| Reaches(p, Conf(0, m), Conf(|p|, m1));
      var n: nat :| Steps(p, Conf(0, m), n) == Some(Conf(|p|, m1));
      assert Returned(p, m, n);
    } else {
      CompiledBodyDiverges(s, env, m);
      forall n: nat ensures !Returned(p, m, n) {
        assert Running(p, Conf(0, m), n);
      }
    }
  }

  ghost predicate Returned(p: Prog, m: State, n: nat) { Goes(p, Conf(0, m), n) && Steps(p, Conf(0, m), n).value.pc == |p| }

  // The compiler's path for a function body: generate into a buffer, then optimize the buffer.
  method CompileBody(s: Stmt) returns (text: Prog, failed: bool)
    requires LoopDepth(s) <= MAX_DEPTH && NeedS(s) <= NUM_REGS
    ensures failed <==> !WellNested(s, 0)
    ensures !failed ==>
      forall env: Env, fuel: nat, m: State ::
        FrameOk(env.Keys) && EnvRel(env, m.mem) && Exec(s, env, fuel).Done? ==>
          Computes(text + [Lab(RETURN_LABEL)], s, env, fuel, m)
    ensures !failed ==>
      forall env: Env, m: State :: FrameOk(env.Keys) && EnvRel(env, m.mem) && Diverges(s, env) ==> RunsOn(text + [Lab(RETURN_LABEL)], m)
  {
    hide FrameOk, EnvRel, Exec, Computes, GenS, Optimized, Printed, WellNested, Diverges, RunsOn;
    var g := new Generator();
    g.GenStatement(s);
    CatNone(GenS(s, INITIAL).code);
    failed := g.failed;
    text := EmitPeepholeBody(g.out, false);
    InitialFits(s);
    StmtBalanced(s, INITIAL);
    if !failed {
      forall env: Env, fuel: nat, m: State | FrameOk(env.Keys) && EnvRel(env, m.mem) && Exec(s, env, fuel).Done?
        ensures Computes(text + [Lab(RETURN_LABEL)], s, env, fuel, m)
      {
        CompiledBodyCorrect(s, env, fuel, m);
      }
      forall env: Env, m: State | FrameOk(env.Keys) && EnvRel(env, m.mem) && Diverges(s, env)
        ensures RunsOn(text + [Lab(RETURN_LABEL)], m)
      {
        CompiledBodyDiverges(s, env, m);
      }
    }
  }

  lemma CatNone(p: Prog)
    ensures Cat([], p) == p
  {
  }
}
