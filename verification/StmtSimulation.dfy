/** Statement compilation simulates the source. */
module StmtSimulation {
  import opened Words
  import opened Machine
  import opened Options
  import opened Source
  import opened CodegenSpec
  import opened StmtSpec
  import opened ExprCorrect
  import opened ExprSimulation

  // Control has reached label l in state s.
  ghost predicate AtLabel(p: Prog, c0: Conf, l: Label, s: State) {
    forall t: nat :: t < |p| && p[t] == Lab(l) ==> Reaches(p, c0, Conf(t + 1, s))
  }

  // Control is where outcome o of a statement generated in state g belongs: behind its code
  // (at k), at the exit or continue label of the innermost loop, or at the return label with
  // the returned value in rax.
  ghost predicate Exited(o: Outcome, g: GState, p: Prog, c0: Conf, k: nat, s: State) {
    match o
    case Normal => Reaches(p, c0, Conf(k, s))
    case Broke => |g.breaks| > 0 && AtLabel(p, c0, Label(LEnd, g.breaks[|g.breaks| - 1]), s)
    case Continued => |g.continues| > 0 && AtLabel(p, c0, Label(LContinue, g.continues[|g.continues| - 1]), s)
    case Returned(v) => AtLabel(p, c0, RETURN_LABEL, s) && (v.Some? ==> GetReg(s, RAX) == Narrow(v.value))
  }

  // The state s1 after a statement that started in s and left the locals env1.
  ghost predicate After(used: set<nat>, env1: Env, s: State, s1: State) {
    EnvRel(env1, s1.mem) && Kept(used, env1.Keys, s, s1)
  }

  // The machine is about to run the code of a statement generated in state g.
  ghost predicate Start(n: nat, g: GState, depth: nat, p: Prog, c0: Conf, k: nat, s: State, env: Env) {
    Ready(n, g, p, c0, k, s, env) && |g.breaks| == |g.continues| == depth
  }

  lemma JumpOut(p: Prog, c0: Conf, k: nat, s: State)
    requires UniqueLabels(p) && Reaches(p, c0, Conf(k, s)) && k < |p|
    requires (p[k].Jcc? && s.flags.Flags? && Holds(p[k].cc, s.flags)) || p[k].Jmp?
    ensures AtLabel(p, c0, p[k].l, s)
  {
    hide Reaches, UniqueLabels, Holds;
    forall t: nat | t < |p| && p[t] == Lab(p[k].l)
      ensures Reaches(p, c0, Conf(t + 1, s))
    {
      TakeJump(p, c0, k, s, t);
    }
  }

  lemma AtLabelHere(p: Prog, c0: Conf, l: Label, s: State, t: nat)
    requires AtLabel(p, c0, l, s) && t < |p| && p[t] == Lab(l)
    ensures Reaches(p, c0, Conf(t + 1, s))
  {
  }

  lemma {:induction false} ExecKeys(s: Stmt, env: Env, fuel: nat)
    requires Exec(s, env, fuel).Done?
    ensures Exec(s, env, fuel).env.Keys == env.Keys
    decreases fuel, s, 1
  {
    match s
    case Null =>
    case ExprStmt(e) => EvalKeys(e, env);
    case Block(body) => ListKeys(body, env, fuel);
    case If(c, t, f) =>
      EvalKeys(c, env);
      var a := Eval(c, env).value;
      if a.v != 0 {
        ExecKeys(t, a.env, fuel);
      } else if f.Some? {
        ExecKeys(f.value, a.env, fuel);
      }
    case For(init, _, _, _) =>
      EffectKeys(init, env);
      ForKeys(s, ExecExpr(init, env).env, fuel);
    case Do(_, _) => DoKeys(s, env, fuel);
    case Break =>
    case Continue =>
    case Return(v) => if v.Some? { EvalKeys(v.value, env); }
  }

  lemma EffectKeys(e: Option<Expr>, env: Env)
    requires ExecExpr(e, env).Done?
    ensures ExecExpr(e, env).env.Keys == env.Keys && ExecExpr(e, env).o.Normal?
  {
    if e.Some? {
      EvalKeys(e.value, env);
    }
  }

  lemma {:induction false} ListKeys(l: StmtList, env: Env, fuel: nat)
    requires ExecList(l, env, fuel).Done?
    ensures ExecList(l, env, fuel).env.Keys == env.Keys
    decreases fuel, l, 1
  {
    if l.Cons? {
      ExecKeys(l.head, env, fuel);
      var r := Exec(l.head, env, fuel);
      if r.o.Normal? {
        ListKeys(l.tail, r.env, fuel);
      }
    }
  }

  lemma {:induction false} ForKeys(s: Stmt, env: Env, fuel: nat)
    requires s.For? && ExecFor(s, env, fuel).Done?
    ensures ExecFor(s, env, fuel).env.Keys == env.Keys
    ensures ExecFor(s, env, fuel).o.Normal? || ExecFor(s, env, fuel).o.Returned?
    decreases fuel, s, 0
  {
    if s.test.Some? {
      EvalKeys(s.test.value, env);
    }
    var a := EvalTest(s.test, env).value;
    if a.v != 0 {
      ExecKeys(s.body1, a.env, fuel - 1);
      var r := Exec(s.body1, a.env, fuel - 1);
      if r.o.Normal? || r.o.Continued? {
        EffectKeys(s.inc, r.env);
        ForKeys(s, ExecExpr(s.inc, r.env).env, fuel - 1);
      }
    }
  }

  lemma {:induction false} DoKeys(s: Stmt, env: Env, fuel: nat)
    requires s.Do? && ExecDo(s, env, fuel).Done?
    ensures ExecDo(s, env, fuel).env.Keys == env.Keys
    ensures ExecDo(s, env, fuel).o.Normal? || ExecDo(s, env, fuel).o.Returned?
    decreases fuel, s, 0
  {
    ExecKeys(s.body1, env, fuel - 1);
    var r := Exec(s.body1, env, fuel - 1);
    if r.o.Normal? || r.o.Continued? {
      EvalKeys(s.cond, r.env);
      if Eval(s.cond, r.env).value.v != 0 {
        DoKeys(s, Eval(s.cond, r.env).value.env, fuel - 1);
      }
    }
  }

  // ----- expressions in statements -----

  lemma AfterTrans(used: set<nat>, env: Env, env1: Env, s: State, s1: State, s2: State)
    requires Kept(used, env.Keys, s, s1) && After(used, env1, s1, s2) && env1.Keys == env.Keys
    ensures After(used, env1, s, s2)
  {
    KeptTrans(used, used, env.Keys, s, s1, s2);
  }

  lemma EffectRun(e: Option<Expr>, g: GState, p: Prog, c0: Conf, k: nat, s: State, env: Env) returns (s1: State)
    requires Ready(NeedOpt(e), g, p, c0, k, s, env) && At(p, k, GenEffect(e, g).code) && ExecExpr(e, env).Done?
    ensures Reaches(p, c0, Conf(k + |GenEffect(e, g).code|, s1))
    ensures After(g.used, ExecExpr(e, env).env, s, s1)
  {
    hide Reaches, At, UniqueLabels, FrameOk, EnvRel, Fits, GenE, Eval, Need;
    EffectBalanced(e, g);
    if e.None? {
      s1 := s;
    } else {
      s1 := ExprRun(e.value, g, p, c0, k, s, env);
    }
  }

  // A comparison of register r with operand o, and the inverted conditional jump.
  lemma CompareRun(op: BinOp, r: nat, o: Operand, l: Label, a: I32, b: I32, used: set<nat>, env: Env,
                   p: Prog, c0: Conf, k: nat, s: State) returns (s1: State)
    requires UniqueLabels(p) && Reaches(p, c0, Conf(k, s)) && EnvRel(env, s.mem)
    requires IsComparison(op) && At(p, k, [Alu(NoSuffix, OCmp, o, P32(r)), Jcc(Negate(CcOf(op)), l)])
    requires GetReg(s, Pool(r)) == Narrow(a) && Denotes(s, o, b)
    ensures BinVal(op, a, b) == Some(0) ==> AtLabel(p, c0, l, s1)
    ensures BinVal(op, a, b) != Some(0) ==> Reaches(p, c0, Conf(k + 2, s1))
    ensures After(used, env, s, s1)
  {
    hide Reaches, UniqueLabels, EnvRel, Kept, At, CmpFlags, AtLabel;
    var code := [Alu(NoSuffix, OCmp, o, P32(r)), Jcc(Negate(CcOf(op)), l)];
    AtLine(p, k, code, 0);
    AtLine(p, k, code, 1);
    s1 := AluRun(OCmp, p, c0, k, s, r, o, a, b);
    KeptFlags(used, env.Keys, s, s1.flags);
    FlagsDefined(a, b);
    NegateHolds(CcOf(op), s1.flags);
    FlagsCompare(CcOf(op), a, b);
    CompareMeaning(op, a, b);
    if Holds(Negate(CcOf(op)), s1.flags) {
      JumpOut(p, c0, k + 1, s1);
    } else {
      SkipJump(p, c0, k + 1, s1);
    }
  }

  lemma FlagsDefined(a: I32, b: I32)
    ensures CmpFlags(W32, Narrow(a), Narrow(b)).Flags?
  {
  }

  lemma NegateHolds(cc: Cc, f: Flags)
    requires f.Flags?
    ensures Holds(Negate(cc), f) == !Holds(cc, f)
  {
  }

  lemma CompareMeaning(op: BinOp, a: I32, b: I32)
    requires IsComparison(op)
    ensures BinVal(op, a, b) == Some(Bool(Compare(CcOf(op), a, b)))
  {
  }

  lemma ZeroBranch(r: nat, l: Label, v: I32, used: set<nat>, env: Env, p: Prog, c0: Conf, k: nat, s: State, cc: Cc) returns (s1: State)
    requires UniqueLabels(p) && Reaches(p, c0, Conf(k, s)) && EnvRel(env, s.mem) && (cc.CE? || cc.CNE?)
    requires At(p, k, [Alu(NoSuffix, OCmp, Imm(0), P32(r)), Jcc(cc, l)])
    requires GetReg(s, Pool(r)) == Narrow(v)
    ensures (v == 0) == cc.CE? ==> AtLabel(p, c0, l, s1)
    ensures (v == 0) != cc.CE? ==> Reaches(p, c0, Conf(k + 2, s1))
    ensures After(used, env, s, s1)
  {
    hide Reaches, UniqueLabels, EnvRel, Kept, At, CmpFlags, AtLabel, Holds;
    var code := [Alu(NoSuffix, OCmp, Imm(0), P32(r)), Jcc(cc, l)];
    AtLine(p, k, code, 0);
    AtLine(p, k, code, 1);
    s1 := TestZero(p, c0, k, s, r, v);
    KeptFlags(used, env.Keys, s, s1.flags);
    if (v == 0) == cc.CE? {
      JumpOut(p, c0, k + 1, s1);
    } else {
      SkipJump(p, c0, k + 1, s1);
    }
  }

  lemma PlainBranchRun(c: Expr, l: Label, g: GState, p: Prog, c0: Conf, k: nat, s: State, env: Env) returns (s1: State)
    requires !(c.Bin? && IsComparison(c.op))
    requires Ready(NeedBranch(c), g, p, c0, k, s, env) && At(p, k, GenBranchInv(c, l, g).code) && Eval(c, env).Some?
    ensures Eval(c, env).value.v == 0 ==> AtLabel(p, c0, l, s1)
    ensures Eval(c, env).value.v != 0 ==> Reaches(p, c0, Conf(k + |GenBranchInv(c, l, g).code|, s1))
    ensures After(g.used, Eval(c, env).value.env, s, s1)
  {
    hide Reaches, At, UniqueLabels, FrameOk, EnvRel, Fits, Kept, GenE, Eval, Need, GenBranchInv, AtLabel;
    BranchBalanced(c, l, g);
    var a, va := GenE(c, g), Eval(c, env).value;
    AtSplit(p, k, a.code, [Alu(NoSuffix, OCmp, Imm(0), P32(a.r)), Jcc(CE, l)]);
    var t := ExprRun(c, g, p, c0, k, s, env);
    s1 := ZeroBranch(a.r, l, va.v, g.used, va.env, p, c0, k + |a.code|, t, CE);
    AfterTrans(g.used, va.env, va.env, s, t, s1);
  }

  lemma FusedBranchRun(op: BinOp, lhs: Expr, rhs: Expr, l: Label, g: GState, p: Prog, c0: Conf, k: nat, s: State, env: Env)
    returns (s1: State)
    requires IsComparison(op)
    requires Ready(NeedBranch(Bin(op, lhs, rhs)), g, p, c0, k, s, env) && At(p, k, GenBranchInv(Bin(op, lhs, rhs), l, g).code)
    requires Eval(Bin(op, lhs, rhs), env).Some?
    ensures var c := Bin(op, lhs, rhs);
      && (Eval(c, env).value.v == 0 ==> AtLabel(p, c0, l, s1))
      && (Eval(c, env).value.v != 0 ==> Reaches(p, c0, Conf(k + |GenBranchInv(c, l, g).code|, s1)))
      && After(g.used, Eval(c, env).value.env, s, s1)
  {
    hide Reaches, At, UniqueLabels, FrameOk, EnvRel, Fits, Kept, GenE, GenBranchInv, AtLabel, BinVal, Negate, CcOf;
    BranchBalanced(Bin(op, lhs, rhs), l, g);
    var a, va, n := GenE(lhs, g), Eval(lhs, env).value, NeedBranch(Bin(op, lhs, rhs));
    var jcc := Jcc(Negate(CcOf(op)), l);
    EvalKeys(lhs, env);
    FitsSame(Need(lhs), n, g, g);
    if rhs.Num? {
      AtSplit(p, k, a.code, [Alu(NoSuffix, OCmp, Imm(rhs.v), P32(a.r)), jcc]);
      var t := ExprRun(lhs, g, p, c0, k, s, env);
      s1 := CompareRun(op, a.r, Imm(rhs.v), l, va.v, rhs.v, g.used, va.env, p, c0, k + |a.code|, t);
      AfterTrans(g.used, va.env, va.env, s, t, s1);
    } else {
      GenDiscipline(lhs, g);
      FitsSame(Need(rhs) + 1, n, g, g);
      FitsAfter(Need(rhs), g, a);
      var b, vb := GenE(rhs, a.g), Eval(rhs, va.env).value;
      EvalKeys(rhs, va.env);
      var last := [Alu(NoSuffix, OCmp, P32(b.r), P32(a.r)), jcc];
      AtSplit(p, k, a.code, b.code + last);
      AtSplit(p, k + |a.code|, b.code, last);
      var t := ExprRun(lhs, g, p, c0, k, s, env);
      var u := ExprRun(rhs, a.g, p, c0, k + |a.code|, t, va.env);
      KeptReg(a.g.used, env.Keys, t, u, a.r);
      KeptTrans(g.used, a.g.used, env.Keys, s, t, u);
      s1 := CompareRun(op, a.r, P32(b.r), l, va.v, vb.v, g.used, vb.env, p, c0, k + |a.code| + |b.code|, u);
      AfterTrans(g.used, vb.env, vb.env, s, u, s1);
    }
  }

  // gen_cond_branch_inv jumps to l exactly when the condition is 0.
  lemma BranchInvRun(c: Expr, l: Label, g: GState, p: Prog, c0: Conf, k: nat, s: State, env: Env) returns (s1: State)
    requires Ready(NeedBranch(c), g, p, c0, k, s, env) && At(p, k, GenBranchInv(c, l, g).code) && Eval(c, env).Some?
    ensures Eval(c, env).value.v == 0 ==> AtLabel(p, c0, l, s1)
    ensures Eval(c, env).value.v != 0 ==> Reaches(p, c0, Conf(k + |GenBranchInv(c, l, g).code|, s1))
    ensures After(g.used, Eval(c, env).value.env, s, s1)
  {
    hide Reaches, Ready, At, AtLabel, After, GenBranchInv, NeedBranch, Eval;
    if c.Bin? && IsComparison(c.op) {
      s1 := FusedBranchRun(c.op, c.lhs, c.rhs, l, g, p, c0, k, s, env);
    } else {
      s1 := PlainBranchRun(c, l, g, p, c0, k, s, env);
    }
  }

  lemma TestRun(test: Option<Expr>, l: Label, g: GState, p: Prog, c0: Conf, k: nat, s: State, env: Env) returns (s1: State)
    requires Ready(if test.None? then 0 else NeedBranch(test.value), g, p, c0, k, s, env)
    requires At(p, k, GenTest(test, l, g).code) && EvalTest(test, env).Some?
    ensures var a := EvalTest(test, env).value;
      && (a.v == 0 ==> AtLabel(p, c0, l, s1))
      && (a.v != 0 ==> Reaches(p, c0, Conf(k + |GenTest(test, l, g).code|, s1)))
      && After(g.used, a.env, s, s1)
  {
    hide Reaches, At, UniqueLabels, FrameOk, EnvRel, Fits, GenBranchInv, AtLabel, Eval;
    if test.None? {
      s1 := s;
    } else {
      s1 := BranchInvRun(test.value, l, g, p, c0, k, s, env);
    }
  }

  // ----- statements -----

  // Outcomes other than Normal look only at the label stacks.
  lemma ExitedElsewhere(o: Outcome, g: GState, g1: GState, p: Prog, c0: Conf, k: nat, k1: nat, s: State)
    requires Exited(o, g, p, c0, k, s) && !o.Normal? && g1.breaks == g.breaks && g1.continues == g.continues
    ensures Exited(o, g1, p, c0, k1, s)
  {
  }

  lemma {:induction false} StmtRun(st: Stmt, g: GState, p: Prog, c0: Conf, k: nat, s: State, env: Env, fuel: nat)
    returns (s1: State)
    requires Start(NeedS(st), g, |g.breaks|, p, c0, k, s, env) && WellNested(st, |g.breaks|)
    requires At(p, k, GenS(st, g).code) && Exec(st, env, fuel).Done?
    ensures Exited(Exec(st, env, fuel).o, g, p, c0, k + |GenS(st, g).code|, s1)
    ensures After(g.used, Exec(st, env, fuel).env, s, s1)
    decreases fuel, st, 2
  {
    hide Reaches, At, UniqueLabels, FrameOk, EnvRel, Fits, GenE, Need, AtLabel, Free, Alloc, GenBranchInv, GenTest, JoinFor, JoinDo, JoinIfElse, Kept;
    match st
    case Null => s1 := NothingRun(g, p, c0, k, s, env);
    case ExprStmt(e) => s1 := EffectRun(Some(e), g, p, c0, k, s, env);
    case Block(body) => s1 := ListRun(body, g, p, c0, k, s, env, fuel);
    case If(c, t, f) =>
      if c.Num? {
        s1 := ConstIfRun(c.v, t, f, g, p, c0, k, s, env, fuel);
      } else if f.Some? {
        s1 := IfElseRun(c, t, f.value, g, p, c0, k, s, env, fuel);
      } else {
        s1 := IfRun(c, t, g, p, c0, k, s, env, fuel);
      }
    case For(init, test, inc, body) => s1 := ForRun(st, g, p, c0, k, s, env, fuel);
    case Do(body, c) => s1 := DoRun(st, g, p, c0, k, s, env, fuel);
    case Break => s1 := JumpRun(Label(LEnd, g.breaks[|g.breaks| - 1]), g, p, c0, k, s, env);
    case Continue => s1 := JumpRun(Label(LContinue, g.continues[|g.continues| - 1]), g, p, c0, k, s, env);
    case Return(v) => s1 := ReturnRun(v, g, p, c0, k, s, env);
  }

  lemma NothingRun(g: GState, p: Prog, c0: Conf, k: nat, s: State, env: Env) returns (s1: State)
    requires Reaches(p, c0, Conf(k, s)) && EnvRel(env, s.mem)
    ensures Reaches(p, c0, Conf(k, s1)) && After(g.used, env, s, s1)
  {
    hide EnvRel, Reaches;
    s1 := s;
  }

  lemma JumpRun(l: Label, g: GState, p: Prog, c0: Conf, k: nat, s: State, env: Env) returns (s1: State)
    requires UniqueLabels(p) && Reaches(p, c0, Conf(k, s)) && EnvRel(env, s.mem) && At(p, k, [Jmp(l)])
    ensures AtLabel(p, c0, l, s1) && After(g.used, env, s, s1)
  {
    hide EnvRel, Reaches, UniqueLabels;
    s1 := s;
    AtLine(p, k, [Jmp(l)], 0);
    JumpOut(p, c0, k, s);
  }

  // movq r, %rax; jmp .L.return
  lemma ReturnJump(r: nat, v: I32, used: set<nat>, env: Env, p: Prog, c0: Conf, k: nat, s: State) returns (s1: State)
    requires UniqueLabels(p) && Reaches(p, c0, Conf(k, s)) && EnvRel(env, s.mem) && GetReg(s, Pool(r)) == Narrow(v)
    requires At(p, k, [Mov(SufQ, P64(r), R(RAX, W64)), Jmp(RETURN_LABEL)])
    ensures AtLabel(p, c0, RETURN_LABEL, s1) && After(used, env, s, s1) && GetReg(s1, RAX) == Narrow(v)
  {
    hide EnvRel, Reaches, UniqueLabels, AtLabel;
    var code := [Mov(SufQ, P64(r), R(RAX, W64)), Jmp(RETURN_LABEL)];
    AtLine(p, k, code, 0);
    AtLine(p, k, code, 1);
    s1 := Advance(p, c0, k, s, code[0]);
    JumpOut(p, c0, k + 1, s1);
  }

  lemma ReturnRun(v: Option<Expr>, g: GState, p: Prog, c0: Conf, k: nat, s: State, env: Env) returns (s1: State)
    requires Ready(NeedOpt(v), g, p, c0, k, s, env) && At(p, k, GenS(Return(v), g).code) && Exec(Return(v), env, 0).Done?
    ensures Exited(Exec(Return(v), env, 0).o, g, p, c0, 0, s1)
    ensures After(g.used, Exec(Return(v), env, 0).env, s, s1)
  {
    hide Reaches, At, UniqueLabels, FrameOk, EnvRel, Fits, GenE, Need, AtLabel, Eval, Kept;
    if v.None? {
      s1 := JumpRun(RETURN_LABEL, g, p, c0, k, s, env);
    } else {
      var a, va := GenE(v.value, g), Eval(v.value, env).value;
      FitsPlain(Need(v.value), g);
      GenDiscipline(v.value, g);
      FreeFits(g, a);
      var last := [Mov(SufQ, P64(a.r), R(RAX, W64)), Jmp(RETURN_LABEL)];
      assert GenS(Return(v), g).code == a.code + last;
      AtSplit(p, k, a.code, last);
      var t := ExprRun(v.value, g, p, c0, k, s, env);
      s1 := ReturnJump(a.r, va.v, g.used, va.env, p, c0, k + |a.code|, t);
      AfterTrans(g.used, va.env, va.env, s, t, s1);
    }
  }

  lemma {:induction false} ListRun(l: StmtList, g: GState, p: Prog, c0: Conf, k: nat, s: State, env: Env, fuel: nat)
    returns (s1: State)
    requires Start(NeedList(l), g, |g.breaks|, p, c0, k, s, env) && WellNestedList(l, |g.breaks|)
    requires At(p, k, GenList(l, g).code) && ExecList(l, env, fuel).Done?
    ensures Exited(ExecList(l, env, fuel).o, g, p, c0, k + |GenList(l, g).code|, s1)
    ensures After(g.used, ExecList(l, env, fuel).env, s, s1)
    decreases fuel, l, 1
  {
    hide Reaches, At, UniqueLabels, FrameOk, EnvRel, Fits, AtLabel, Kept, GenS, Exec, NeedS, WellNested;
    match l
    case Nil => s1 := NothingRun(g, p, c0, k, s, env);
    case Cons(h, tail) =>
      var x, r := GenS(h, g), Exec(h, env, fuel);
      var y := GenList(tail, x.g);
      FitsSame(NeedS(h), NeedList(l), g, g);
      StmtBalanced(h, g);
      FitsBalanced(NeedList(tail), NeedList(l), g, x.g);
      AtSplit(p, k, x.code, y.code);
      ExecKeys(h, env, fuel);
      s1 := StmtRun(h, g, p, c0, k, s, env, fuel);
      if r.o.Normal? {
        ListKeys(tail, r.env, fuel);
        var t := s1;
        s1 := ListRun(tail, x.g, p, c0, k + |x.code|, t, r.env, fuel);
        AfterTrans(g.used, r.env, ExecList(tail, r.env, fuel).env, s, t, s1);
      }
  }

  // The arm that a constant condition selects.
  function Selected(v: I32, t: Stmt, f: Option<Stmt>): Option<Stmt> {
    if v != 0 then Some(t) else f
  }

  lemma ConstIfShape(v: I32, t: Stmt, f: Option<Stmt>, g: GState, env: Env, fuel: nat, depth: nat)
    ensures GenS(If(Num(v), t, f), g)
      == if Selected(v, t, f).Some? then GenS(Selected(v, t, f).value, g) else GenStmt([], g)
    ensures Exec(If(Num(v), t, f), env, fuel)
      == if Selected(v, t, f).Some? then Exec(Selected(v, t, f).value, env, fuel) else Done(Normal, env)
    ensures Selected(v, t, f).Some? ==> NeedS(Selected(v, t, f).value) <= NeedS(If(Num(v), t, f))
    ensures Selected(v, t, f).Some? && WellNested(If(Num(v), t, f), depth) ==> WellNested(Selected(v, t, f).value, depth)
  {
  }

  lemma {:induction false} ConstIfRun(v: I32, t: Stmt, f: Option<Stmt>, g: GState, p: Prog, c0: Conf, k: nat, s: State, env: Env, fuel: nat)
    returns (s1: State)
    requires Start(NeedS(If(Num(v), t, f)), g, |g.breaks|, p, c0, k, s, env) && WellNested(If(Num(v), t, f), |g.breaks|)
    requires At(p, k, GenS(If(Num(v), t, f), g).code) && Exec(If(Num(v), t, f), env, fuel).Done?
    ensures Exited(Exec(If(Num(v), t, f), env, fuel).o, g, p, c0, k + |GenS(If(Num(v), t, f), g).code|, s1)
    ensures After(g.used, Exec(If(Num(v), t, f), env, fuel).env, s, s1)
    decreases fuel, If(Num(v), t, f), 0
  {
    hide Reaches, At, UniqueLabels, FrameOk, EnvRel, Fits, AtLabel, Kept, NeedS, WellNested, GenS, Exec;
    var n, arm := NeedS(If(Num(v), t, f)), Selected(v, t, f);
    ConstIfShape(v, t, f, g, env, fuel, |g.breaks|);
    if arm.Some? {
      FitsSame(NeedS(arm.value), n, g, g);
      s1 := StmtRun(arm.value, g, p, c0, k, s, env, fuel);
    } else {
      s1 := NothingRun(g, p, c0, k, s, env);
    }
  }

  lemma IfShape(c: Expr, t: Stmt, g: GState) returns (end: Label, b: GenStmt, x: GenStmt)
    requires !c.Num? && Fits(NeedS(If(c, t, None)), g) && |g.breaks| == |g.continues|
    ensures b == GenBranchInv(c, end, FreshLabel(g)) && x == GenS(t, b.g)
    ensures Fits(NeedBranch(c), FreshLabel(g)) && Fits(NeedS(t), b.g) && Balanced(FreshLabel(g), b.g)
    ensures GenS(If(c, t, None), g).code == b.code + (x.code + [Lab(end)])
  {
    hide Fits, GenBranchInv, NeedBranch;
    var m, g0 := NeedS(If(c, t, None)), FreshLabel(g);
    end := Label(LEnd, g0.labels);
    b := GenBranchInv(c, end, g0);
    FitsSame(m, m, g, g0);
    FitsSame(NeedBranch(c), m, g, g0);
    BranchBalanced(c, end, g0);
    FitsBalanced(NeedS(t), m, g0, b.g);
    x := GenS(t, b.g);
  }

  lemma {:induction false} IfRun(c: Expr, t: Stmt, g: GState, p: Prog, c0: Conf, k: nat, s: State, env: Env, fuel: nat)
    returns (s1: State)
    requires !c.Num?
    requires Start(NeedS(If(c, t, None)), g, |g.breaks|, p, c0, k, s, env) && WellNested(If(c, t, None), |g.breaks|)
    requires At(p, k, GenS(If(c, t, None), g).code) && Exec(If(c, t, None), env, fuel).Done?
    ensures Exited(Exec(If(c, t, None), env, fuel).o, g, p, c0, k + |GenS(If(c, t, None), g).code|, s1)
    ensures After(g.used, Exec(If(c, t, None), env, fuel).env, s, s1)
    decreases fuel, If(c, t, None), 0
  {
    hide Reaches, At, UniqueLabels, FrameOk, EnvRel, Fits, AtLabel, Kept, GenBranchInv, Eval, NeedBranch, NeedS, GenS;
    var end, b, x := IfShape(c, t, g);
    AtSplit(p, k, b.code, x.code + [Lab(end)]);
    var k1 := k + |b.code|;
    AtSplit(p, k1, x.code, [Lab(end)]);
    var k2 := k1 + |x.code|;
    AtLine(p, k2, [Lab(end)], 0);
    var a := Eval(c, env).value;
    EvalKeys(c, env);
    var u := BranchInvRun(c, end, FreshLabel(g), p, c0, k, s, env);
    if a.v == 0 {
      AtLabelHere(p, c0, end, u, k2);
      s1 := u;
    } else {
      ExecKeys(t, a.env, fuel);
      s1 := StmtRun(t, b.g, p, c0, k1, u, a.env, fuel);
      AfterTrans(g.used, a.env, Exec(t, a.env, fuel).env, s, u, s1);
      if Exec(t, a.env, fuel).o.Normal? {
        LabelRun(p, c0, k2, s1);
      } else {
        ExitedElsewhere(Exec(t, a.env, fuel).o, b.g, g, p, c0, k2, k2 + 1, s1);
      }
    }
  }

  // Where the parts of an if-else stand.
  lemma IfElseParts(c: nat, b: Prog, x: Prog, y: Prog, p: Prog, k: nat) returns (k2: nat, k3: nat)
    requires At(p, k, b + (x + ([Jmp(Label(LEnd, c)), Lab(Label(LElse, c))] + (y + [Lab(Label(LEnd, c))]))))
    ensures At(p, k, b) && At(p, k + |b|, x) && k2 == k + |b| + |x| && At(p, k2 + 2, y) && k3 == k2 + 2 + |y| && k3 < |p|
    ensures p[k2] == Jmp(Label(LEnd, c)) && p[k2 + 1] == Lab(Label(LElse, c)) && p[k3] == Lab(Label(LEnd, c))
  {
    hide At;
    var mid, last := [Jmp(Label(LEnd, c)), Lab(Label(LElse, c))], [Lab(Label(LEnd, c))];
    AtSplit(p, k, b, x + (mid + (y + last)));
    AtSplit(p, k + |b|, x, mid + (y + last));
    k2 := k + |b| + |x|;
    AtSplit(p, k2, mid, y + last);
    AtSplit(p, k2 + 2, y, last);
    k3 := k2 + 2 + |y|;
    AtLine(p, k2, mid, 0);
    AtLine(p, k2, mid, 1);
    AtLine(p, k3, last, 0);
  }

  lemma IfElseShape(c: Expr, t: Stmt, f: Stmt, g: GState) returns (n: nat, b: GenStmt, x: GenStmt, y: GenStmt)
    requires !c.Num? && Fits(NeedS(If(c, t, Some(f))), g) && |g.breaks| == |g.continues|
    ensures n == FreshLabel(g).labels && b == GenBranchInv(c, Label(LElse, n), FreshLabel(g))
    ensures x == GenS(t, b.g) && y == GenS(f, x.g)
    ensures Fits(NeedBranch(c), FreshLabel(g)) && Fits(NeedS(t), b.g) && Fits(NeedS(f), x.g)
    ensures Balanced(FreshLabel(g), b.g) && Balanced(b.g, x.g)
    ensures GenS(If(c, t, Some(f)), g) == JoinIfElse(n, b, x, y)
  {
    hide Fits, GenBranchInv, JoinIfElse, NeedBranch;
    var m, g0 := NeedS(If(c, t, Some(f))), FreshLabel(g);
    n := g0.labels;
    b := GenBranchInv(c, Label(LElse, n), g0);
    FitsSame(m, m, g, g0);
    FitsSame(NeedBranch(c), m, g, g0);
    BranchBalanced(c, Label(LElse, n), g0);
    FitsBalanced(NeedS(t), m, g0, b.g);
    StmtBalanced(t, b.g);
    x := GenS(t, b.g);
    FitsBalanced(NeedS(f), m, g0, x.g);
    y := GenS(f, x.g);
  }

  lemma {:induction false} IfElseRun(c: Expr, t: Stmt, f: Stmt, g: GState, p: Prog, c0: Conf, k: nat, s: State, env: Env, fuel: nat)
    returns (s1: State)
    requires !c.Num?
    requires Start(NeedS(If(c, t, Some(f))), g, |g.breaks|, p, c0, k, s, env) && WellNested(If(c, t, Some(f)), |g.breaks|)
    requires At(p, k, GenS(If(c, t, Some(f)), g).code) && Exec(If(c, t, Some(f)), env, fuel).Done?
    ensures Exited(Exec(If(c, t, Some(f)), env, fuel).o, g, p, c0, k + |GenS(If(c, t, Some(f)), g).code|, s1)
    ensures After(g.used, Exec(If(c, t, Some(f)), env, fuel).env, s, s1)
    decreases fuel, If(c, t, Some(f)), 0
  {
    hide Reaches, At, UniqueLabels, FrameOk, EnvRel, Fits, AtLabel, Kept, GenBranchInv, Eval, NeedBranch, NeedS, GenS;
    var n, b, x, y := IfElseShape(c, t, f, g);
    var els := Label(LElse, n);
    var k2, k3 := IfElseParts(n, b.code, x.code, y.code, p, k);
    var a := Eval(c, env).value;
    EvalKeys(c, env);
    var u := BranchInvRun(c, els, FreshLabel(g), p, c0, k, s, env);
    if a.v != 0 {
      var r := Exec(t, a.env, fuel);
      ExecKeys(t, a.env, fuel);
      s1 := StmtRun(t, b.g, p, c0, k + |b.code|, u, a.env, fuel);
      AfterTrans(g.used, a.env, r.env, s, u, s1);
      if r.o.Normal? {
        TakeJump(p, c0, k2, s1, k3);
      } else {
        ExitedElsewhere(r.o, b.g, g, p, c0, k2, k3 + 1, s1);
      }
    } else {
      AtLabelHere(p, c0, els, u, k2 + 1);
      var r := Exec(f, a.env, fuel);
      ExecKeys(f, a.env, fuel);
      s1 := StmtRun(f, x.g, p, c0, k2 + 2, u, a.env, fuel);
      AfterTrans(g.used, a.env, r.env, s, u, s1);
      if r.o.Normal? {
        LabelRun(p, c0, k3, s1);
      } else {
        ExitedElsewhere(r.o, x.g, g, p, c0, k3, k3 + 1, s1);
      }
    }
  }

  // ----- loops -----

  // The code of a loop from its begin label on, and its exits.
  ghost predicate ForAt(n: nat, test: Prog, body: Prog, inc: Prog, p: Prog, k: nat) {
    && At(p, k + 1, test) && At(p, k + 1 + |test|, body) && At(p, k + 1 + |test| + |body| + 1, inc)
    && var kc := k + 1 + |test| + |body|;
      var ke := kc + 1 + |inc|;
      ke + 1 < |p| && p[k] == Lab(Label(LBegin, n)) && p[kc] == Lab(Label(LContinue, n))
      && p[ke] == Jmp(Label(LBegin, n)) && p[ke + 1] == Lab(Label(LEnd, n))
  }

  lemma ForParts(n: nat, init: Prog, test: Prog, body: Prog, inc: Prog, p: Prog, k: nat)
    requires At(p, k, init + ([Lab(Label(LBegin, n))] + (test + (body + ([Lab(Label(LContinue, n))]
               + (inc + [Jmp(Label(LBegin, n)), Lab(Label(LEnd, n))]))))))
    ensures At(p, k, init) && ForAt(n, test, body, inc, p, k + |init|)
  {
    hide At;
    var begin, cont, last := [Lab(Label(LBegin, n))], [Lab(Label(LContinue, n))], [Jmp(Label(LBegin, n)), Lab(Label(LEnd, n))];
    AtSplit(p, k, init, begin + (test + (body + (cont + (inc + last)))));
    var k1 := k + |init|;
    AtSplit(p, k1, begin, test + (body + (cont + (inc + last))));
    AtSplit(p, k1 + 1, test, body + (cont + (inc + last)));
    AtSplit(p, k1 + 1 + |test|, body, cont + (inc + last));
    var kc := k1 + 1 + |test| + |body|;
    AtSplit(p, kc, cont, inc + last);
    AtSplit(p, kc + 1, inc, last);
    AtLine(p, k1, begin, 0);
    AtLine(p, kc, cont, 0);
    AtLine(p, kc + 1 + |inc|, last, 0);
    AtLine(p, kc + 1 + |inc|, last, 1);
  }

  // The states in which the parts of a for loop are generated.
  ghost predicate ForGen(st: Stmt, g: GState, n: nat, b: GenStmt, x: GenStmt, i: GenStmt)
    requires st.For?
  {
    && b == GenTest(st.test, Label(LEnd, n), Push(g, n)) && x == GenS(st.body1, b.g) && i == GenEffect(st.inc, x.g)
    && Fits(if st.test.None? then 0 else NeedBranch(st.test.value), Push(g, n)) && Fits(NeedS(st.body1), b.g) && Fits(NeedOpt(st.inc), x.g)
    && Balanced(Push(g, n), b.g) && Balanced(Push(g, n), x.g)
  }

  lemma ForShape(st: Stmt, g: GState) returns (i0: GenStmt, n: nat, b: GenStmt, x: GenStmt, i: GenStmt)
    requires st.For? && Fits(NeedS(st), g) && |g.breaks| == |g.continues|
    ensures i0 == GenEffect(st.init, FreshLabel(g)) && n == FreshLabel(g).labels && ForGen(st, i0.g, n, b, x, i)
    ensures Balanced(FreshLabel(g), i0.g) && Fits(NeedOpt(st.init), FreshLabel(g))
    ensures GenS(st, g) == JoinFor(n, i0, b, x, i)
  {
    hide Fits, GenBranchInv, GenEffect, GenTest;
    var g0, m := FreshLabel(g), NeedS(st);
    n := g0.labels;
    FitsSame(m, m, g, g0);
    FitsSame(NeedOpt(st.init), m, g, g0);
    FitsPlain(m, g);
    EffectBalanced(st.init, g0);
    i0 := GenEffect(st.init, g0);
    var gp := Push(i0.g, n);
    FitsSame(m, m, g0, gp);
    FitsSame(if st.test.None? then 0 else NeedBranch(st.test.value), m, gp, gp);
    TestBalanced(st.test, Label(LEnd, n), gp);
    b := GenTest(st.test, Label(LEnd, n), gp);
    FitsBalanced(NeedS(st.body1), m, gp, b.g);
    StmtBalanced(st.body1, b.g);
    x := GenS(st.body1, b.g);
    FitsBalanced(NeedOpt(st.inc), m, gp, x.g);
    i := GenEffect(st.inc, x.g);
  }

  lemma {:induction false} ForRun(st: Stmt, g: GState, p: Prog, c0: Conf, k: nat, s: State, env: Env, fuel: nat)
    returns (s1: State)
    requires st.For?
    requires Start(NeedS(st), g, |g.breaks|, p, c0, k, s, env) && WellNested(st, |g.breaks|)
    requires At(p, k, GenS(st, g).code) && Exec(st, env, fuel).Done?
    ensures Exited(Exec(st, env, fuel).o, g, p, c0, k + |GenS(st, g).code|, s1)
    ensures After(g.used, Exec(st, env, fuel).env, s, s1)
    decreases fuel, st, 1
  {
    hide Reaches, At, UniqueLabels, FrameOk, EnvRel, Fits, AtLabel, Kept, GenEffect, GenS, NeedS, ForGen, ForAt, Balanced, ExecFor, NeedOpt;
    var i0, n, b, x, i := ForShape(st, g);
    ForParts(n, i0.code, b.code, x.code, i.code, p, k);
    EffectKeys(st.init, env);
    var u := EffectRun(st.init, FreshLabel(g), p, c0, k, s, env);
    var env1, kb := ExecExpr(st.init, env).env, k + |i0.code|;
    BalancedMeans(FreshLabel(g), i0.g);
    ForKeys(st, env1, fuel);
    ForBegin(n, b.code, x.code, i.code, p, c0, kb, u);
    s1 := ForLoop(st, i0.g, n, b, x, i, p, c0, kb, u, env1, fuel);
    AfterTrans(g.used, env1, ExecFor(st, env1, fuel).env, s, u, s1);
    if ExecFor(st, env1, fuel).o.Returned? {
      ExitedElsewhere(ExecFor(st, env1, fuel).o, i0.g, g, p, c0, 0, k + |GenS(st, g).code|, s1);
    }
  }

  lemma BalancedMeans(g: GState, g1: GState)
    requires Balanced(g, g1)
    ensures g1.used == g.used && g1.breaks == g.breaks && g1.continues == g.continues
  {
  }

  lemma ForBegin(n: nat, test: Prog, body: Prog, inc: Prog, p: Prog, c0: Conf, k: nat, s: State)
    requires ForAt(n, test, body, inc, p, k) && Reaches(p, c0, Conf(k, s))
    ensures Reaches(p, c0, Conf(k + 1, s))
  {
    hide Reaches, At;
    LabelRun(p, c0, k, s);
  }

  // From the loop head to the loop exit.
  lemma {:induction false} ForLoop(st: Stmt, g: GState, n: nat, b: GenStmt, x: GenStmt, i: GenStmt,
                                   p: Prog, c0: Conf, k: nat, s: State, env: Env, fuel: nat) returns (s1: State)
    requires st.For? && ForGen(st, g, n, b, x, i) && ForAt(n, b.code, x.code, i.code, p, k)
    requires UniqueLabels(p) && FrameOk(env.Keys) && Reaches(p, c0, Conf(k + 1, s)) && EnvRel(env, s.mem)
    requires |g.breaks| == |g.continues| && WellNested(st.body1, |g.breaks| + 1) && ExecFor(st, env, fuel).Done?
    ensures Exited(ExecFor(st, env, fuel).o, g, p, c0, k + |b.code| + |x.code| + |i.code| + 4, s1)
    ensures After(g.used, ExecFor(st, env, fuel).env, s, s1)
    decreases fuel, st, 0
  {
    hide Reaches, At, UniqueLabels, FrameOk, EnvRel, Fits, AtLabel, Kept, GenEffect, GenS, GenTest, Exec, EvalTest, ExecExpr, WellNested, NeedS, NeedBranch, NeedOpt;
    var end := Label(LEnd, n);
    var kb := k + 1 + |b.code|;
    var kc := kb + |x.code|;
    var ke := kc + 1 + |i.code|;
    var a := EvalTest(st.test, env).value;
    TestKeys(st.test, env);
    ForKeys(st, env, fuel);
    var u := TestRun(st.test, end, Push(g, n), p, c0, k + 1, s, env);
    if a.v == 0 {
      AtLabelHere(p, c0, end, u, ke + 1);
      s1 := u;
    } else {
      var r := Exec(st.body1, a.env, fuel - 1);
      ExecKeys(st.body1, a.env, fuel - 1);
      var w := StmtRun(st.body1, b.g, p, c0, kb, u, a.env, fuel - 1);
      AfterTrans(g.used, a.env, r.env, s, u, w);
      if r.o.Broke? {
        AtLabelHere(p, c0, end, w, ke + 1);
        s1 := w;
      } else if r.o.Returned? {
        s1 := w;
      } else {
        if r.o.Normal? {
          LabelRun(p, c0, kc, w);
        } else {
          AtLabelHere(p, c0, Label(LContinue, n), w, kc);
        }
        EffectKeys(st.inc, r.env);
        var y := EffectRun(st.inc, x.g, p, c0, kc + 1, w, r.env);
        var env2 := ExecExpr(st.inc, r.env).env;
        AfterTrans(g.used, r.env, env2, s, w, y);
        TakeJump(p, c0, ke, y, k);
        s1 := ForLoop(st, g, n, b, x, i, p, c0, k, y, env2, fuel - 1);
        AfterTrans(g.used, env2, ExecFor(st, env2, fuel - 1).env, s, y, s1);
      }
    }
  }

  lemma TestKeys(test: Option<Expr>, env: Env)
    requires EvalTest(test, env).Some?
    ensures EvalTest(test, env).value.env.Keys == env.Keys
  {
    if test.Some? {
      EvalKeys(test.value, env);
    }
  }

  ghost predicate DoAt(n: nat, body: Prog, a: Prog, r: nat, p: Prog, k: nat) {
    && At(p, k + 1, body) && At(p, k + 2 + |body|, a)
    && At(p, k + 2 + |body| + |a|, [Alu(NoSuffix, OCmp, Imm(0), P32(r)), Jcc(CNE, Label(LBegin, n))])
    && var ke := k + 4 + |body| + |a|;
      ke < |p| && p[k] == Lab(Label(LBegin, n)) && p[k + 1 + |body|] == Lab(Label(LContinue, n)) && p[ke] == Lab(Label(LEnd, n))
  }

  lemma DoParts(n: nat, body: Prog, a: Prog, r: nat, p: Prog, k: nat)
    requires At(p, k, [Lab(Label(LBegin, n))] + (body + ([Lab(Label(LContinue, n))]
               + (a + [Alu(NoSuffix, OCmp, Imm(0), P32(r)), Jcc(CNE, Label(LBegin, n)), Lab(Label(LEnd, n))]))))
    ensures DoAt(n, body, a, r, p, k)
  {
    hide At;
    var begin, cont := [Lab(Label(LBegin, n))], [Lab(Label(LContinue, n))];
    var test, end := [Alu(NoSuffix, OCmp, Imm(0), P32(r)), Jcc(CNE, Label(LBegin, n))], [Lab(Label(LEnd, n))];
    assert [Alu(NoSuffix, OCmp, Imm(0), P32(r)), Jcc(CNE, Label(LBegin, n)), Lab(Label(LEnd, n))] == test + end;
    var last := test + end;
    AtSplit(p, k, begin, body + (cont + (a + last)));
    AtSplit(p, k + 1, body, cont + (a + last));
    var kc := k + 1 + |body|;
    AtSplit(p, kc, cont, a + last);
    AtSplit(p, kc + 1, a, last);
    AtSplit(p, kc + 1 + |a|, test, end);
    AtLine(p, k, begin, 0);
    AtLine(p, kc, cont, 0);
    AtLine(p, kc + 3 + |a|, end, 0);
  }

  ghost predicate DoGen(st: Stmt, g: GState, n: nat, x: GenStmt, a: Gen)
    requires st.Do?
  {
    && x == GenS(st.body1, Push(g, n)) && a == GenE(st.cond, x.g)
    && Fits(NeedS(st.body1), Push(g, n)) && Fits(Need(st.cond), x.g) && Balanced(Push(g, n), x.g)
  }

  lemma DoShape(st: Stmt, g: GState) returns (n: nat, x: GenStmt, a: Gen)
    requires st.Do? && Fits(NeedS(st), g) && |g.breaks| == |g.continues|
    ensures n == FreshLabel(g).labels && DoGen(st, FreshLabel(g), n, x, a)
    ensures GenS(st, g).code == [Lab(Label(LBegin, n))] + (x.code + ([Lab(Label(LContinue, n))]
               + (a.code + [Alu(NoSuffix, OCmp, Imm(0), P32(a.r)), Jcc(CNE, Label(LBegin, n)), Lab(Label(LEnd, n))])))
  {
    hide Fits, Free;
    var g0, m := FreshLabel(g), NeedS(st);
    n := g0.labels;
    var gp := Push(g0, n);
    FitsSame(m, m, g, gp);
    FitsSame(NeedS(st.body1), m, gp, gp);
    FitsPlain(m, g);
    StmtBalanced(st.body1, gp);
    x := GenS(st.body1, gp);
    FitsBalanced(Need(st.cond), m, gp, x.g);
    GenDiscipline(st.cond, x.g);
    a := GenE(st.cond, x.g);
    FreeFits(x.g, a);
    var last := [Jcc(CNE, Label(LBegin, n)), Lab(Label(LEnd, n))];
    assert [Alu(NoSuffix, OCmp, Imm(0), P32(a.r))] + ([] + last)
      == [Alu(NoSuffix, OCmp, Imm(0), P32(a.r)), Jcc(CNE, Label(LBegin, n)), Lab(Label(LEnd, n))];
  }

  lemma {:induction false} DoRun(st: Stmt, g: GState, p: Prog, c0: Conf, k: nat, s: State, env: Env, fuel: nat)
    returns (s1: State)
    requires st.Do?
    requires Start(NeedS(st), g, |g.breaks|, p, c0, k, s, env) && WellNested(st, |g.breaks|)
    requires At(p, k, GenS(st, g).code) && Exec(st, env, fuel).Done?
    ensures Exited(Exec(st, env, fuel).o, g, p, c0, k + |GenS(st, g).code|, s1)
    ensures After(g.used, Exec(st, env, fuel).env, s, s1)
    decreases fuel, st, 1
  {
    hide Reaches, At, UniqueLabels, FrameOk, EnvRel, Fits, AtLabel, Kept, GenS, NeedS, DoGen, Balanced, ExecDo;
    var n, x, a := DoShape(st, g);
    DoParts(n, x.code, a.code, a.r, p, k);
    LabelRun(p, c0, k, s);
    DoKeys(st, env, fuel);
    s1 := DoLoop(st, FreshLabel(g), n, x, a, p, c0, k, s, env, fuel);
    if ExecDo(st, env, fuel).o.Returned? {
      ExitedElsewhere(ExecDo(st, env, fuel).o, FreshLabel(g), g, p, c0, 0, k + |GenS(st, g).code|, s1);
    }
  }

  lemma {:induction false} DoLoop(st: Stmt, g: GState, n: nat, x: GenStmt, a: Gen,
                                  p: Prog, c0: Conf, k: nat, s: State, env: Env, fuel: nat) returns (s1: State)
    requires st.Do? && DoGen(st, g, n, x, a) && DoAt(n, x.code, a.code, a.r, p, k)
    requires UniqueLabels(p) && FrameOk(env.Keys) && Reaches(p, c0, Conf(k + 1, s)) && EnvRel(env, s.mem)
    requires |g.breaks| == |g.continues| && WellNested(st.body1, |g.breaks| + 1) && ExecDo(st, env, fuel).Done?
    ensures Exited(ExecDo(st, env, fuel).o, g, p, c0, k + |x.code| + |a.code| + 5, s1)
    ensures After(g.used, ExecDo(st, env, fuel).env, s, s1)
    decreases fuel, st, 0
  {
    hide Reaches, At, UniqueLabels, FrameOk, EnvRel, Fits, AtLabel, Kept, GenS, GenE, Exec, Eval, WellNested, NeedS, Need;
    var kc := k + 1 + |x.code|;
    var kt := kc + 1 + |a.code|;
    var r := Exec(st.body1, env, fuel - 1);
    ExecKeys(st.body1, env, fuel - 1);
    var w := StmtRun(st.body1, Push(g, n), p, c0, k + 1, s, env, fuel - 1);
    if r.o.Broke? {
      AtLabelHere(p, c0, Label(LEnd, n), w, kt + 2);
      s1 := w;
    } else if r.o.Returned? {
      s1 := w;
    } else {
      if r.o.Normal? {
        LabelRun(p, c0, kc, w);
      } else {
        AtLabelHere(p, c0, Label(LContinue, n), w, kc);
      }
      var v := Eval(st.cond, r.env).value;
      EvalKeys(st.cond, r.env);
      var y := ExprRun(st.cond, x.g, p, c0, kc + 1, w, r.env);
      AfterTrans(g.used, r.env, v.env, s, w, y);
      var z := ZeroBranch(a.r, Label(LBegin, n), v.v, g.used, v.env, p, c0, kt, y, CNE);
      AfterTrans(g.used, v.env, v.env, s, y, z);
      if v.v == 0 {
        LabelRun(p, c0, kt + 2, z);
        s1 := z;
      } else {
        AtLabelHere(p, c0, Label(LBegin, n), z, k);
        DoKeys(st, v.env, fuel - 1);
        s1 := DoLoop(st, g, n, x, a, p, c0, k, z, v.env, fuel - 1);
        AfterTrans(g.used, v.env, ExecDo(st, v.env, fuel - 1).env, s, z, s1);
      }
    }
  }
}
