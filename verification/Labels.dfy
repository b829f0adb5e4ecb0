/** Labels drawn from rcc_label_count never clash. */
module Labels {
  import opened Words
  import opened Machine
  import opened Options
  import opened Source
  import opened CodegenSpec
  import opened ExprCorrect
  import opened ExprSimulation
  import opened StmtSpec
  import opened StmtSimulation

  // How often label l is defined in code.
  function Count(code: Prog, l: Label): nat {
    if code == [] then 0 else (if code[0] == Lab(l) then 1 else 0) + Count(code[1..], l)
  }

  lemma {:induction false} CountConcat(a: Prog, b: Prog, l: Label)
    ensures Count(a + b, l) == Count(a, l) + Count(b, l)
  {
    if a == [] {
      assert a + b == b;
    } else {
      CountConcat(a[1..], b, l);
      assert (a + b)[1..] == a[1..] + b;
    }
  }

  lemma {:induction false} CountPositive(code: Prog, l: Label, i: nat)
    requires i < |code| && code[i] == Lab(l)
    ensures Count(code, l) >= 1
  {
    if i > 0 {
      CountPositive(code[1..], l, i - 1);
    }
  }

  lemma CountTwice(code: Prog, l: Label, i: nat, j: nat)
    requires i < j < |code| && code[i] == Lab(l) && code[j] == Lab(l)
    ensures Count(code, l) >= 2
  {
    assert code == code[..j] + code[j..];
    CountConcat(code[..j], code[j..], l);
    CountPositive(code[..j], l, i);
    CountPositive(code[j..], l, 0);
  }

  lemma CountedOnce(code: Prog)
    requires forall l :: Count(code, l) <= 1
    ensures UniqueLabels(code)
  {
    forall i, j | 0 <= i < j < |code| && code[i].Lab? && code[j].Lab?
      ensures code[i].l != code[j].l
    {
      if code[i].l == code[j].l {
        CountTwice(code, code[i].l, i, j);
      }
    }
  }

  // l may be defined by code generated between two values of the label counter.
  function Quota(l: Label, lo: nat, hi: nat): nat {
    if lo < l.id <= hi && l.kind != LReturn then 1 else 0
  }

  lemma AllocCount(g: GState, l: Label)
    ensures Count(Alloc(g).code, l) == 0 && Alloc(g).g.labels == g.labels
  {
  }

  lemma FreeCount(g: GState, r: nat, l: Label)
    ensures Count(Free(g, r).code, l) == 0 && Free(g, r).g.labels == g.labels
  {
  }

  // The code from a on, piece by piece.
  lemma Count2(a: Prog, b: Prog, rest: Prog, l: Label)
    ensures Count(a + (b + rest), l) == Count(a, l) + Count(b, l) + Count(rest, l)
  {
    CountConcat(a, b + rest, l);
    CountConcat(b, rest, l);
  }

  lemma {:induction false} PlainCount(code: Prog, l: Label)
    requires forall i :: 0 <= i < |code| ==> !code[i].Lab?
    ensures Count(code, l) == 0
  {
    if code != [] {
      PlainCount(code[1..], l);
    }
  }

  lemma LabelCount(x: Label, l: Label)
    ensures Count([Lab(x)], l) == if x == l then 1 else 0
  {
  }

  lemma LogicalCount(isAnd: bool, c: nat, a: Gen, b: Gen, l: Label)
    ensures var d := JoinLogical(isAnd, c, a, b);
      Count(d.code, l) == Count(a.code, l) + Count(b.code, l) + (if l == Label(LEnd, c) then 1 else 0) && d.g.labels == b.g.labels
  {
    hide Alloc, Free, Count;
    var end := Label(LEnd, c);
    var fa, fb := Free(a.g, a.r).code, Free(b.g, b.r);
    var d := Alloc(fb.g);
    var test := [Alu(NoSuffix, OCmp, Imm(0), P32(a.r)), MovbImm(if isAnd then 0 else 1, SPILL_LOGAND), Jcc(if isAnd then CE else CNE, end)];
    var mid := [Alu(NoSuffix, OCmp, Imm(0), P32(b.r)), Setcc(CNE), MovbAl(SPILL_LOGAND)];
    var last := [MovzblFrame(SPILL_LOGAND, Pool(d.r))];
    FreeCount(a.g, a.r, l);
    FreeCount(b.g, b.r, l);
    AllocCount(fb.g, l);
    PlainCount(test, l);
    PlainCount(mid, l);
    PlainCount(last, l);
    LabelCount(end, l);
    Count2(a.code, test, fa + (b.code + (mid + (fb.code + ([Lab(end)] + (d.code + last))))), l);
    Count2(fa, b.code, mid + (fb.code + ([Lab(end)] + (d.code + last))), l);
    Count2(mid, fb.code, [Lab(end)] + (d.code + last), l);
    Count2([Lab(end)], d.code, last, l);
  }

  lemma CondCount(c: nat, d: Gen, a: Gen, x: Gen, y: Gen, l: Label)
    requires Count(d.code, l) == 0
    ensures var j := JoinCond(c, d, a, x, y);
      && Count(j.code, l) == Count(a.code, l) + Count(x.code, l) + Count(y.code, l)
        + (if l == Label(LEnd, c) || l == Label(LElse, c) then 1 else 0)
      && j.g.labels == y.g.labels
  {
    hide Alloc, Free, Count;
    var els, end := Label(LElse, c), Label(LEnd, c);
    var fa, fx, fy := Free(a.g, a.r).code, Free(x.g, x.r).code, Free(y.g, y.r).code;
    FreeCount(a.g, a.r, l);
    FreeCount(x.g, x.r, l);
    FreeCount(y.g, y.r, l);
    var test := [Alu(NoSuffix, OCmp, Imm(0), P32(a.r)), Jcc(CE, els)];
    var m1, m2 := [Mov(NoSuffix, P64(x.r), P64(d.r))], [Mov(NoSuffix, P64(y.r), P64(d.r))];
    var mid := [Jmp(end), Lab(els)];
    PlainCount(test, l);
    PlainCount(m1, l);
    PlainCount(m2, l);
    PlainCount([Jmp(end)], l);
    LabelCount(els, l);
    LabelCount(end, l);
    CountConcat([Jmp(end)], [Lab(els)], l);
    assert [Jmp(end)] + [Lab(els)] == mid;
    var t4 := fy + [Lab(end)];
    CountConcat(fy, [Lab(end)], l);
    var t3 := mid + (y.code + (m2 + t4));
    Count2(mid, y.code, m2 + t4, l);
    CountConcat(m2, t4, l);
    var t2 := x.code + (m1 + (fx + t3));
    Count2(x.code, m1, fx + t3, l);
    CountConcat(fx, t3, l);
    Count2(d.code, a.code, test + (fa + t2), l);
    Count2(test, fa, t2, l);
  }

  // Every label of an expression's code is drawn while the code is generated, and defined once.
  lemma {:induction false} ExprLabels(e: Expr, g: GState, l: Label)
    ensures var a := GenE(e, g); a.g.labels >= g.labels && Count(a.code, l) <= Quota(l, g.labels, a.g.labels)
    decreases e, 1
  {
    hide Alloc, Free, Count, JoinLogical, JoinCond, ConstCode, BinCode, SetCode;
    match e
    case Num(v) => var a := Alloc(g); AllocCount(g, l); AppendCount(a, [Mov(NoSuffix, Imm(v), P32(a.r))], l);
    case Var(x) => var a := Alloc(g); AllocCount(g, l); AppendCount(a, [Mov(SufL, Frame(x), P32(a.r))], l);
    case Assign(x, rhs) =>
      var a := GenE(rhs, g);
      ExprLabels(rhs, g, l);
      AppendCount(a, [Mov(NoSuffix, P32(a.r), Frame(x))], l);
    case Bin(op, lhs, rhs) =>
      var a := GenE(lhs, g);
      ExprLabels(lhs, g, l);
      OperatorPlain(op);
      if UsesImmediate(op, rhs) {
        AppendCount(a, ConstCode(op, rhs.v, a.r), l);
      } else {
        var b := GenE(rhs, a.g);
        var f := Free(b.g, b.r);
        ExprLabels(rhs, a.g, l);
        FreeCount(b.g, b.r, l);
        var bin, sets := BinCode(op, a.r, b.r), SetCode(op, a.r);
        Count2(a.code, b.code, bin + (f.code + sets), l);
        Count2(bin, f.code, sets, l);
        PlainCount(bin, l);
        PlainCount(sets, l);
      }
    case Neg(e1) => var a := GenE(e1, g); ExprLabels(e1, g, l); AppendCount(a, [NegR(Pool(a.r))], l);
    case BitNot(e1) => var a := GenE(e1, g); ExprLabels(e1, g, l); AppendCount(a, [NotR(Pool(a.r))], l);
    case Not(e1) =>
      var a := GenE(e1, g);
      ExprLabels(e1, g, l);
      AppendCount(a, [Alu(NoSuffix, OCmp, Imm(0), P32(a.r)), Setcc(CE), MovzblAl(Pool(a.r))], l);
    case LogAnd(lhs, rhs) => LogicalLabels(e, lhs, rhs, g, l);
    case LogOr(lhs, rhs) => LogicalLabels(e, lhs, rhs, g, l);
    case Cond(c, t, f) =>
      var g0 := FreshLabel(g);
      var d := Alloc(g0);
      AllocCount(g0, l);
      ExprLabels(c, d.g, l);
      var a := GenE(c, d.g);
      FreeCount(a.g, a.r, l);
      ExprLabels(t, Free(a.g, a.r).g, l);
      var x := GenE(t, Free(a.g, a.r).g);
      FreeCount(x.g, x.r, l);
      ExprLabels(f, Free(x.g, x.r).g, l);
      CondCount(g0.labels, d, a, x, GenE(f, Free(x.g, x.r).g), l);
    case Comma(lhs, rhs) =>
      ExprLabels(lhs, g, l);
      var a := GenE(lhs, g);
      var fa := Free(a.g, a.r);
      FreeCount(a.g, a.r, l);
      ExprLabels(rhs, fa.g, l);
      Count2(a.code, fa.code, GenE(rhs, fa.g).code, l);
    case PostInc(x) => PostCount(x, OAdd, g, l);
    case PostDec(x) => PostCount(x, OSub, g, l);
  }

  lemma {:induction false} LogicalLabels(e: Expr, lhs: Expr, rhs: Expr, g: GState, l: Label)
    requires e == LogAnd(lhs, rhs) || e == LogOr(lhs, rhs)
    ensures var a := GenE(e, g); a.g.labels >= g.labels && Count(a.code, l) <= Quota(l, g.labels, a.g.labels)
    decreases e, 0
  {
    hide Free, Count, JoinLogical;
    var g0 := FreshLabel(g);
    ExprLabels(lhs, g0, l);
    var a := GenE(lhs, g0);
    FreeCount(a.g, a.r, l);
    ExprLabels(rhs, Free(a.g, a.r).g, l);
    LogicalCount(e.LogAnd?, g0.labels, a, GenE(rhs, Free(a.g, a.r).g), l);
  }

  lemma AppendCount(a: Gen, code: Prog, l: Label)
    requires forall i :: 0 <= i < |code| ==> !code[i].Lab?
    ensures Count(Append(a, code).code, l) == Count(a.code, l)
  {
    CountConcat(a.code, code, l);
    PlainCount(code, l);
  }

  lemma OperatorPlain(op: BinOp)
    ensures forall v: I32, r: nat, i :: 0 <= i < |ConstCode(op, v, r)| ==> !ConstCode(op, v, r)[i].Lab?
    ensures forall a: nat, b: nat, i :: 0 <= i < |BinCode(op, a, b)| ==> !BinCode(op, a, b)[i].Lab?
    ensures forall r: nat, i :: 0 <= i < |SetCode(op, r)| ==> !SetCode(op, r)[i].Lab?
  {
  }

  lemma PostCount(x: nat, op: AluOp, g: GState, l: Label)
    ensures Count(GenPost(x, op, g).code, l) == 0 && GenPost(x, op, g).g.labels == g.labels
  {
    hide Alloc, Free, Count;
    var a := Alloc(g);
    var b := Alloc(a.g);
    var fa := Free(b.g, a.r);
    AllocCount(g, l);
    AllocCount(a.g, l);
    FreeCount(b.g, a.r, l);
    var last := [Mov(NoSuffix, Ind(Pool(a.r)), P32(b.r)), Alu(SufL, op, Imm(1), Ind(Pool(a.r)))];
    PlainCount([Lea(x, Pool(a.r))], l);
    PlainCount(last, l);
    Count2(a.code, [Lea(x, Pool(a.r))], b.code + (last + fa.code), l);
    Count2(b.code, last, fa.code, l);
  }

  // ----- statements -----

  lemma EffectLabels(e: Option<Expr>, g: GState, l: Label)
    ensures var x := GenEffect(e, g); x.g.labels >= g.labels && Count(x.code, l) <= Quota(l, g.labels, x.g.labels)
  {
    hide Free, GenE;
    if e.Some? {
      var a := GenE(e.value, g);
      ExprLabels(e.value, g, l);
      FreeCount(a.g, a.r, l);
      CountConcat(a.code, Free(a.g, a.r).code, l);
    }
  }

  lemma BranchLabels(c: Expr, to: Label, g: GState, l: Label)
    ensures var x := GenBranchInv(c, to, g); x.g.labels >= g.labels && Count(x.code, l) <= Quota(l, g.labels, x.g.labels)
  {
    hide Free, GenE, Count;
    var fused := c.Bin? && IsComparison(c.op);
    var e := if fused then c.lhs else c;
    var a := GenE(e, g);
    ExprLabels(e, g, l);
    FreeCount(a.g, a.r, l);
    var jump := [Jcc(if fused then Negate(CcOf(c.op)) else CE, to)];
    PlainCount(jump, l);
    if fused && !c.rhs.Num? {
      var b := GenE(c.rhs, a.g);
      ExprLabels(c.rhs, a.g, l);
      var fb := Free(b.g, b.r);
      var fa := Free(fb.g, a.r);
      FreeCount(b.g, b.r, l);
      FreeCount(fb.g, a.r, l);
      var cmp := [Alu(NoSuffix, OCmp, P32(b.r), P32(a.r))];
      PlainCount(cmp, l);
      Count2(a.code, b.code, cmp + (fb.code + (fa.code + jump)), l);
      Count2(cmp, fb.code, fa.code + jump, l);
      CountConcat(fa.code, jump, l);
    } else {
      var f := Free(a.g, a.r);
      var cmp := [Alu(NoSuffix, OCmp, Imm(if fused then c.rhs.v else 0), P32(a.r))];
      PlainCount(cmp, l);
      Count2(a.code, cmp, f.code + jump, l);
      CountConcat(f.code, jump, l);
    }
  }

  lemma TestLabels(test: Option<Expr>, to: Label, g: GState, l: Label)
    ensures var x := GenTest(test, to, g); x.g.labels >= g.labels && Count(x.code, l) <= Quota(l, g.labels, x.g.labels)
  {
    hide GenBranchInv;
    if test.Some? {
      BranchLabels(test.value, to, g, l);
    }
  }

  lemma IfElseCount(c: nat, b: GenStmt, t: GenStmt, f: GenStmt, l: Label)
    ensures Count(JoinIfElse(c, b, t, f).code, l) == Count(b.code, l) + Count(t.code, l) + Count(f.code, l)
      + (if l == Label(LEnd, c) || l == Label(LElse, c) then 1 else 0)
  {
    hide Count;
    var end, els := Label(LEnd, c), Label(LElse, c);
    var mid := [Jmp(end), Lab(els)];
    PlainCount([Jmp(end)], l);
    LabelCount(els, l);
    LabelCount(end, l);
    CountConcat([Jmp(end)], [Lab(els)], l);
    assert [Jmp(end)] + [Lab(els)] == mid;
    Count2(b.code, t.code, mid + (f.code + [Lab(end)]), l);
    Count2(mid, f.code, [Lab(end)], l);
  }

  lemma ForCount(c: nat, i: GenStmt, t: GenStmt, x: GenStmt, n: GenStmt, l: Label)
    ensures Count(JoinFor(c, i, t, x, n).code, l)
      == Count(i.code, l) + Count(t.code, l) + Count(x.code, l) + Count(n.code, l)
        + (if l == Label(LBegin, c) || l == Label(LContinue, c) || l == Label(LEnd, c) then 1 else 0)
  {
    hide Count;
    var begin, cont, end := Label(LBegin, c), Label(LContinue, c), Label(LEnd, c);
    var last := [Jmp(begin), Lab(end)];
    PlainCount([Jmp(begin)], l);
    LabelCount(begin, l);
    LabelCount(cont, l);
    LabelCount(end, l);
    CountConcat([Jmp(begin)], [Lab(end)], l);
    assert [Jmp(begin)] + [Lab(end)] == last;
    Count2(i.code, [Lab(begin)], t.code + (x.code + ([Lab(cont)] + (n.code + last))), l);
    Count2(t.code, x.code, [Lab(cont)] + (n.code + last), l);
    Count2([Lab(cont)], n.code, last, l);
  }

  lemma DoCount(c: nat, x: GenStmt, a: Gen, l: Label)
    ensures Count(JoinDo(c, x, a).code, l) == Count(x.code, l) + Count(a.code, l)
        + (if l == Label(LBegin, c) || l == Label(LContinue, c) || l == Label(LEnd, c) then 1 else 0)
    ensures JoinDo(c, x, a).g.labels == a.g.labels
  {
    hide Count, Free;
    var begin, cont, end := Label(LBegin, c), Label(LContinue, c), Label(LEnd, c);
    var f, cmp := Free(a.g, a.r), [Alu(NoSuffix, OCmp, Imm(0), P32(a.r))];
    var last := [Jcc(CNE, begin), Lab(end)];
    FreeCount(a.g, a.r, l);
    PlainCount(cmp, l);
    PlainCount([Jcc(CNE, begin)], l);
    LabelCount(begin, l);
    LabelCount(cont, l);
    LabelCount(end, l);
    CountConcat([Jcc(CNE, begin)], [Lab(end)], l);
    assert [Jcc(CNE, begin)] + [Lab(end)] == last;
    Count2([Lab(begin)], x.code, [Lab(cont)] + (a.code + (cmp + (f.code + last))), l);
    Count2([Lab(cont)], a.code, cmp + (f.code + last), l);
    Count2(cmp, f.code, last, l);
  }

  // Every label of a statement's code is drawn while the code is generated, and defined once.
  lemma {:induction false} StmtLabels(s: Stmt, g: GState, l: Label)
    ensures var x := GenS(s, g); x.g.labels >= g.labels && Count(x.code, l) <= Quota(l, g.labels, x.g.labels)
    decreases s, 1
  {
    hide Count, Free, GenE, GenBranchInv, GenTest, GenEffect, JoinFor, JoinDo, JoinIfElse;
    match s
    case Null => PlainCount([], l);
    case ExprStmt(e) => EffectLabels(Some(e), g, l);
    case Block(body) => ListLabels(body, g, l);
    case If(_, _, _) => IfLabels(s, g, l);
    case For(_, _, _, _) => LoopLabels(s, g, l);
    case Do(_, _) => LoopLabels(s, g, l);
    case Break => PlainCount(GenS(s, g).code, l);
    case Continue => PlainCount(GenS(s, g).code, l);
    case Return(v) =>
      if v.None? {
        PlainCount([Jmp(RETURN_LABEL)], l);
      } else {
        var a := GenE(v.value, g);
        var f, mov := Free(a.g, a.r), [Mov(SufQ, P64(a.r), R(RAX, W64))];
        ExprLabels(v.value, g, l);
        FreeCount(a.g, a.r, l);
        PlainCount(mov, l);
        PlainCount([Jmp(RETURN_LABEL)], l);
        Count2(a.code, mov, f.code + [Jmp(RETURN_LABEL)], l);
        CountConcat(f.code, [Jmp(RETURN_LABEL)], l);
      }
  }

  lemma {:induction false} ListLabels(b: StmtList, g: GState, l: Label)
    ensures var x := GenList(b, g); x.g.labels >= g.labels && Count(x.code, l) <= Quota(l, g.labels, x.g.labels)
  {
    hide Count, GenS;
    match b
    case Nil => PlainCount([], l);
    case Cons(s, tail) =>
      StmtLabels(s, g, l);
      var x := GenS(s, g);
      ListLabels(tail, x.g, l);
      CountConcat(x.code, GenList(tail, x.g).code, l);
  }

  lemma {:induction false} IfLabels(s: Stmt, g: GState, l: Label)
    requires s.If?
    ensures var x := GenS(s, g); x.g.labels >= g.labels && Count(x.code, l) <= Quota(l, g.labels, x.g.labels)
    decreases s, 0
  {
    hide Count, GenBranchInv, JoinIfElse;
    var c, n := s.cond, FreshLabel(g).labels;
    if c.Num? {
      if c.v != 0 {
        StmtLabels(s.thn, g, l);
      } else if s.els.Some? {
        StmtLabels(s.els.value, g, l);
      } else {
        PlainCount([], l);
      }
    } else {
      var to := Label(if s.els.Some? then LElse else LEnd, n);
      BranchLabels(c, to, FreshLabel(g), l);
      var b := GenBranchInv(c, to, FreshLabel(g));
      StmtLabels(s.thn, b.g, l);
      var x := GenS(s.thn, b.g);
      if s.els.Some? {
        StmtLabels(s.els.value, x.g, l);
        IfElseCount(n, b, x, GenS(s.els.value, x.g), l);
        IfElseState(n, b, x, GenS(s.els.value, x.g));
      } else {
        Count2(b.code, x.code, [Lab(to)], l);
        LabelCount(to, l);
      }
    }
  }

  lemma IfElseState(c: nat, b: GenStmt, t: GenStmt, f: GenStmt)
    ensures JoinIfElse(c, b, t, f).g == f.g
  {
  }

  lemma ForState(c: nat, i: GenStmt, t: GenStmt, x: GenStmt, n: GenStmt)
    ensures JoinFor(c, i, t, x, n).g.labels == n.g.labels
  {
  }

  lemma {:induction false} LoopLabels(s: Stmt, g: GState, l: Label)
    requires s.For? || s.Do?
    ensures var x := GenS(s, g); x.g.labels >= g.labels && Count(x.code, l) <= Quota(l, g.labels, x.g.labels)
    decreases s, 0
  {
    hide Count, GenEffect, GenTest, JoinFor, JoinDo, GenE;
    var n := FreshLabel(g).labels;
    if s.For? {
      EffectLabels(s.init, FreshLabel(g), l);
      var i := GenEffect(s.init, FreshLabel(g));
      TestLabels(s.test, Label(LEnd, n), Push(i.g, n), l);
      var b := GenTest(s.test, Label(LEnd, n), Push(i.g, n));
      StmtLabels(s.body1, b.g, l);
      var x := GenS(s.body1, b.g);
      EffectLabels(s.inc, x.g, l);
      ForCount(n, i, b, x, GenEffect(s.inc, x.g), l);
      ForState(n, i, b, x, GenEffect(s.inc, x.g));
    } else {
      StmtLabels(s.body1, Push(FreshLabel(g), n), l);
      var x := GenS(s.body1, Push(FreshLabel(g), n));
      ExprLabels(s.cond, x.g, l);
      DoCount(n, x, GenE(s.cond, x.g), l);
    }
  }

  // ----- whole function bodies -----

  // The body of a function as emitted, up to its return label.
  function BodyProgram(s: Stmt): Prog {
    GenS(s, INITIAL).code + [Lab(RETURN_LABEL)]
  }

  lemma BodyUniqueLabels(s: Stmt)
    ensures UniqueLabels(BodyProgram(s))
  {
    hide Count, GenS;
    forall l
      ensures Count(BodyProgram(s), l) <= 1
    {
      StmtLabels(s, INITIAL, l);
      CountConcat(GenS(s, INITIAL).code, [Lab(RETURN_LABEL)], l);
      LabelCount(RETURN_LABEL, l);
    }
    CountedOnce(BodyProgram(s));
  }

  // A function body computes what C says it computes: from any machine state whose frame holds
  // the locals, its code runs to the end of the body with the locals C leaves behind, the
  // returned value in rax and the rest of the frame untouched.
  lemma BodyCorrect(s: Stmt, env: Env, fuel: nat, m: State) returns (m1: State)
    requires NeedS(s) <= NUM_REGS && WellNested(s, 0) && FrameOk(env.Keys) && EnvRel(env, m.mem)
    requires Exec(s, env, fuel).Done?
    ensures var r := Exec(s, env, fuel);
      && (r.o.Normal? || r.o.Returned?)
      && Reaches(BodyProgram(s), Conf(0, m), Conf(|BodyProgram(s)|, m1))
      && EnvRel(r.env, m1.mem) && SameOutside(env.Keys, m.mem, m1.mem)
      && (r.o.Returned? && r.o.v.Some? ==> GetReg(m1, RAX) == Narrow(r.o.v.value))
  {
    hide Exec, GenS, EnvRel, FrameOk, SameOutside;
    var p, code, r := BodyProgram(s), GenS(s, INITIAL).code, Exec(s, env, fuel);
    BodyUniqueLabels(s);
    assert At(p, 0, code) by { assert p[0..|code|] == code; }
    ReachSelf(p, Conf(0, m));
    ExecKeys(s, env, fuel);
    m1 := StmtRun(s, INITIAL, p, Conf(0, m), 0, m, env, fuel);
    if r.o.Normal? {
      LabelRun(p, Conf(0, m), |code|, m1);
    } else {
      AtLabelHere(p, Conf(0, m), RETURN_LABEL, m1, |code|);
    }
  }
}
