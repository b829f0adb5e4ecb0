/** Statement compilation keeps divergence: where C runs for ever, so does the code. */
module Divergence {
  import opened Words
  import opened Machine
  import opened Options
  import opened Source
  import opened CodegenSpec
  import opened StmtSpec
  import opened ExprCorrect
  import opened ExprSimulation
  import opened StmtSimulation
  import opened Labels

  // ----- statements -----

  // If C has not finished after fuel iterations, the code makes at least as many steps.
  lemma {:induction false} StmtGoes(st: Stmt, g: GState, p: Prog, c0: Conf, k: nat, s: State, env: Env, fuel: nat)
    requires Start(NeedS(st), g, |g.breaks|, p, c0, k, s, env) && WellNested(st, |g.breaks|)
    requires At(p, k, GenS(st, g).code) && Exec(st, env, fuel).Timeout?
    ensures Goes(p, c0, fuel)
    decreases fuel, st, 2
  {
    hide Reaches, At, UniqueLabels, FrameOk, EnvRel, Fits, GenE, Need, Goes, GenBranchInv, GenTest, JoinFor, JoinDo, JoinIfElse, Eval;
    match st
    case Block(body) => ListGoes(body, g, p, c0, k, s, env, fuel);
    case If(c, t, f) =>
      if c.Num? {
        ConstIfGoes(c.v, t, f, g, p, c0, k, s, env, fuel);
      } else if f.Some? {
        IfElseGoes(c, t, f.value, g, p, c0, k, s, env, fuel);
      } else {
        IfGoes(c, t, g, p, c0, k, s, env, fuel);
      }
    case For(_, _, _, _) => ForGoes(st, g, p, c0, k, s, env, fuel);
    case Do(_, _) => DoGoes(st, g, p, c0, k, s, env, fuel);
    case _ =>
  }

  lemma {:induction false} ListGoes(l: StmtList, g: GState, p: Prog, c0: Conf, k: nat, s: State, env: Env, fuel: nat)
    requires Start(NeedList(l), g, |g.breaks|, p, c0, k, s, env) && WellNestedList(l, |g.breaks|)
    requires At(p, k, GenList(l, g).code) && ExecList(l, env, fuel).Timeout?
    ensures Goes(p, c0, fuel)
    decreases fuel, l, 1
  {
    hide Reaches, At, UniqueLabels, FrameOk, EnvRel, Fits, AtLabel, Kept, GenS, Exec, NeedS, WellNested, Goes;
    match l
    case Cons(h, tail) =>
      var x, r := GenS(h, g), Exec(h, env, fuel);
      var y := GenList(tail, x.g);
      FitsSame(NeedS(h), NeedList(l), g, g);
      StmtBalanced(h, g);
      FitsBalanced(NeedList(tail), NeedList(l), g, x.g);
      AtSplit(p, k, x.code, y.code);
      if r.Timeout? {
        StmtGoes(h, g, p, c0, k, s, env, fuel);
      } else {
        ExecKeys(h, env, fuel);
        var t := StmtRun(h, g, p, c0, k, s, env, fuel);
        ListGoes(tail, x.g, p, c0, k + |x.code|, t, r.env, fuel);
      }
  }

  lemma {:induction false} ConstIfGoes(v: I32, t: Stmt, f: Option<Stmt>, g: GState, p: Prog, c0: Conf, k: nat, s: State, env: Env, fuel: nat)
    requires Start(NeedS(If(Num(v), t, f)), g, |g.breaks|, p, c0, k, s, env) && WellNested(If(Num(v), t, f), |g.breaks|)
    requires At(p, k, GenS(If(Num(v), t, f), g).code) && Exec(If(Num(v), t, f), env, fuel).Timeout?
    ensures Goes(p, c0, fuel)
    decreases fuel, If(Num(v), t, f), 0
  {
    hide Reaches, At, UniqueLabels, FrameOk, EnvRel, Fits, NeedS, WellNested, GenS, Exec, Goes;
    var arm := Selected(v, t, f);
    ConstIfShape(v, t, f, g, env, fuel, |g.breaks|);
    FitsSame(NeedS(arm.value), NeedS(If(Num(v), t, f)), g, g);
    StmtGoes(arm.value, g, p, c0, k, s, env, fuel);
  }

  lemma {:induction false} IfGoes(c: Expr, t: Stmt, g: GState, p: Prog, c0: Conf, k: nat, s: State, env: Env, fuel: nat)
    requires !c.Num?
    requires Start(NeedS(If(c, t, None)), g, |g.breaks|, p, c0, k, s, env) && WellNested(If(c, t, None), |g.breaks|)
    requires At(p, k, GenS(If(c, t, None), g).code) && Exec(If(c, t, None), env, fuel).Timeout?
    ensures Goes(p, c0, fuel)
    decreases fuel, If(c, t, None), 0
  {
    hide Reaches, At, UniqueLabels, FrameOk, EnvRel, Fits, AtLabel, Kept, GenBranchInv, Eval, NeedBranch, NeedS, GenS, Goes;
    var end, b, x := IfShape(c, t, g);
    AtSplit(p, k, b.code, x.code + [Lab(end)]);
    AtSplit(p, k + |b.code|, x.code, [Lab(end)]);
    var a := Eval(c, env).value;
    EvalKeys(c, env);
    var u := BranchInvRun(c, end, FreshLabel(g), p, c0, k, s, env);
    StmtGoes(t, b.g, p, c0, k + |b.code|, u, a.env, fuel);
  }

  lemma {:induction false} IfElseGoes(c: Expr, t: Stmt, f: Stmt, g: GState, p: Prog, c0: Conf, k: nat, s: State, env: Env, fuel: nat)
    requires !c.Num?
    requires Start(NeedS(If(c, t, Some(f))), g, |g.breaks|, p, c0, k, s, env) && WellNested(If(c, t, Some(f)), |g.breaks|)
    requires At(p, k, GenS(If(c, t, Some(f)), g).code) && Exec(If(c, t, Some(f)), env, fuel).Timeout?
    ensures Goes(p, c0, fuel)
    decreases fuel, If(c, t, Some(f)), 0
  {
    hide Reaches, At, UniqueLabels, FrameOk, EnvRel, Fits, AtLabel, Kept, GenBranchInv, Eval, NeedBranch, NeedS, GenS, Goes;
    var n, b, x, y := IfElseShape(c, t, f, g);
    var els := Label(LElse, n);
    var k2, k3 := IfElseParts(n, b.code, x.code, y.code, p, k);
    var a := Eval(c, env).value;
    EvalKeys(c, env);
    var u := BranchInvRun(c, els, FreshLabel(g), p, c0, k, s, env);
    if a.v != 0 {
      StmtGoes(t, b.g, p, c0, k + |b.code|, u, a.env, fuel);
    } else {
      AtLabelHere(p, c0, els, u, k2 + 1);
      StmtGoes(f, x.g, p, c0, k2 + 2, u, a.env, fuel);
    }
  }

  // ----- loops -----

  lemma {:induction false} ForGoes(st: Stmt, g: GState, p: Prog, c0: Conf, k: nat, s: State, env: Env, fuel: nat)
    requires st.For?
    requires Start(NeedS(st), g, |g.breaks|, p, c0, k, s, env) && WellNested(st, |g.breaks|)
    requires At(p, k, GenS(st, g).code) && Exec(st, env, fuel).Timeout?
    ensures Goes(p, c0, fuel)
    decreases fuel, st, 1
  {
    hide Reaches, At, UniqueLabels, FrameOk, EnvRel, Fits, AtLabel, Kept, GenEffect, GenS, NeedS, ForGen, ForAt, Balanced, ExecFor, NeedOpt, Goes;
    var i0, n, b, x, i := ForShape(st, g);
    ForParts(n, i0.code, b.code, x.code, i.code, p, k);
    EffectKeys(st.init, env);
    var u := EffectRun(st.init, FreshLabel(g), p, c0, k, s, env);
    var env1, kb := ExecExpr(st.init, env).env, k + |i0.code|;
    BalancedMeans(FreshLabel(g), i0.g);
    ForLoopGoes(st, i0.g, n, b, x, i, p, kb, u, env1, fuel);
    ReachSelf(p, Conf(kb, u));
    ForBegin(n, b.code, x.code, i.code, p, Conf(kb, u), kb, u);
    NoSteps(p, c0);
    if fuel > 0 {
      GoesFrom(p, Conf(kb, u), Conf(kb + 1, u), fuel - 1);
      GoesFrom(p, c0, Conf(kb, u), fuel);
    }
  }

  // From behind the begin label: one step less, since entering the loop takes one.
  lemma {:induction false} ForLoopGoes(st: Stmt, g: GState, n: nat, b: GenStmt, x: GenStmt, i: GenStmt,
                                       p: Prog, k: nat, s: State, env: Env, fuel: nat)
    requires st.For? && ForGen(st, g, n, b, x, i) && ForAt(n, b.code, x.code, i.code, p, k)
    requires UniqueLabels(p) && FrameOk(env.Keys) && EnvRel(env, s.mem)
    requires |g.breaks| == |g.continues| && WellNested(st.body1, |g.breaks| + 1) && ExecFor(st, env, fuel).Timeout?
    ensures Goes(p, Conf(k + 1, s), if fuel == 0 then 0 else fuel - 1)
    decreases fuel, st, 0
  {
    hide Reaches, At, UniqueLabels, FrameOk, EnvRel, Fits, AtLabel, Kept, GenEffect, GenS, GenTest, Exec, EvalTest, ExecExpr, WellNested, NeedS, NeedBranch, NeedOpt, Goes;
    var c0 := Conf(k + 1, s);
    var kb := k + 1 + |b.code|;
    var kc := kb + |x.code|;
    var ke := kc + 1 + |i.code|;
    NoSteps(p, c0);
    if fuel > 1 {
      ReachSelf(p, c0);
      var a := EvalTest(st.test, env).value;
      TestKeys(st.test, env);
      var u := TestRun(st.test, Label(LEnd, n), Push(g, n), p, c0, k + 1, s, env);
      var r := Exec(st.body1, a.env, fuel - 1);
      if r.Timeout? {
        StmtGoes(st.body1, b.g, p, c0, kb, u, a.env, fuel - 1);
      } else {
        ExecKeys(st.body1, a.env, fuel - 1);
        var w := StmtRun(st.body1, b.g, p, c0, kb, u, a.env, fuel - 1);
        if r.o.Normal? {
          LabelRun(p, c0, kc, w);
        } else {
          AtLabelHere(p, c0, Label(LContinue, n), w, kc);
        }
        EffectEnds(st.inc, r.env);
        EffectKeys(st.inc, r.env);
        var y := EffectRun(st.inc, x.g, p, c0, kc + 1, w, r.env);
        var env2 := ExecExpr(st.inc, r.env).env;
        ForLoopGoes(st, g, n, b, x, i, p, k, y, env2, fuel - 1);
        ReachSelf(p, Conf(ke, y));
        TakeJump(p, Conf(ke, y), ke, y, k);
        GoesFrom(p, Conf(ke, y), Conf(k + 1, y), fuel - 2);
        GoesFrom(p, c0, Conf(ke, y), fuel - 1);
      }
    }
  }

  lemma EffectEnds(e: Option<Expr>, env: Env)
    ensures !ExecExpr(e, env).Timeout?
  {
  }

  lemma {:induction false} DoGoes(st: Stmt, g: GState, p: Prog, c0: Conf, k: nat, s: State, env: Env, fuel: nat)
    requires st.Do?
    requires Start(NeedS(st), g, |g.breaks|, p, c0, k, s, env) && WellNested(st, |g.breaks|)
    requires At(p, k, GenS(st, g).code) && Exec(st, env, fuel).Timeout?
    ensures Goes(p, c0, fuel)
    decreases fuel, st, 1
  {
    hide Reaches, At, UniqueLabels, FrameOk, EnvRel, Fits, AtLabel, Kept, GenS, NeedS, DoGen, Balanced, ExecDo, Goes;
    var n, x, a := DoShape(st, g);
    DoParts(n, x.code, a.code, a.r, p, k);
    DoLoopGoes(st, FreshLabel(g), n, x, a, p, k, s, env, fuel);
    ReachSelf(p, Conf(k, s));
    LabelRun(p, Conf(k, s), k, s);
    NoSteps(p, c0);
    if fuel > 0 {
      GoesFrom(p, Conf(k, s), Conf(k + 1, s), fuel - 1);
      GoesFrom(p, c0, Conf(k, s), fuel);
    }
  }

  lemma {:induction false} DoLoopGoes(st: Stmt, g: GState, n: nat, x: GenStmt, a: Gen, p: Prog, k: nat, s: State, env: Env, fuel: nat)
    requires st.Do? && DoGen(st, g, n, x, a) && DoAt(n, x.code, a.code, a.r, p, k)
    requires UniqueLabels(p) && FrameOk(env.Keys) && EnvRel(env, s.mem)
    requires |g.breaks| == |g.continues| && WellNested(st.body1, |g.breaks| + 1) && ExecDo(st, env, fuel).Timeout?
    ensures Goes(p, Conf(k + 1, s), if fuel == 0 then 0 else fuel - 1)
    decreases fuel, st, 0
  {
    hide Reaches, At, UniqueLabels, FrameOk, EnvRel, Fits, AtLabel, Kept, GenS, GenE, Exec, Eval, WellNested, NeedS, Need, Goes;
    var c0 := Conf(k + 1, s);
    var kc := k + 1 + |x.code|;
    var kt := kc + 1 + |a.code|;
    NoSteps(p, c0);
    if fuel > 1 {
      ReachSelf(p, c0);
      var r := Exec(st.body1, env, fuel - 1);
      if r.Timeout? {
        StmtGoes(st.body1, Push(g, n), p, c0, k + 1, s, env, fuel - 1);
      } else {
        ExecKeys(st.body1, env, fuel - 1);
        var w := StmtRun(st.body1, Push(g, n), p, c0, k + 1, s, env, fuel - 1);
        if r.o.Normal? {
          LabelRun(p, c0, kc, w);
        } else {
          AtLabelHere(p, c0, Label(LContinue, n), w, kc);
        }
        var c1 := Conf(kc + 1, w);
        ReachSelf(p, c1);
        var v := Eval(st.cond, r.env).value;
        EvalKeys(st.cond, r.env);
        var y := ExprRun(st.cond, x.g, p, c1, kc + 1, w, r.env);
        var z := ZeroBranch(a.r, Label(LBegin, n), v.v, g.used, v.env, p, c1, kt, y, CNE);
        AtLabelHere(p, c1, Label(LBegin, n), z, k);
        DoLoopGoes(st, g, n, x, a, p, k, z, v.env, fuel - 1);
        GoesFrom(p, c1, Conf(k + 1, z), fuel - 2);
        GoesFrom(p, c0, c1, fuel - 2);
      }
    }
  }

  // ----- whole function bodies -----

  // After n steps the machine has not got to the return label, which is the last line.
  ghost predicate Running(p: Prog, c: Conf, n: nat) { Goes(p, c, n) && Steps(p, c, n).value.pc < |p| - 1 }

  lemma StillRunning(p: Prog, c: Conf, n: nat)
    requires p != [] && p[|p| - 1].Lab? && Goes(p, c, n + 2)
    ensures Running(p, c, n)
  {
    GoesLess(p, c, n, n + 2);
    StepsAdd(p, c, n, 2);
    var d := Steps(p, c, n).value;
    assert Step(p, d).Some? && Step(p, Step(p, d).value).Some?;
  }

  // The code of a function body goes on as long as C does.
  lemma BodyGoes(s: Stmt, env: Env, fuel: nat, m: State)
    requires NeedS(s) <= NUM_REGS && WellNested(s, 0) && FrameOk(env.Keys) && EnvRel(env, m.mem)
    requires Exec(s, env, fuel).Timeout?
    ensures Goes(BodyProgram(s), Conf(0, m), fuel)
  {
    hide Exec, GenS, EnvRel, FrameOk, Goes;
    var p, code := BodyProgram(s), GenS(s, INITIAL).code;
    BodyUniqueLabels(s);
    assert At(p, 0, code) by { assert p[0..|code|] == code; }
    ReachSelf(p, Conf(0, m));
    StmtGoes(s, INITIAL, p, Conf(0, m), 0, m, env, fuel);
  }

  // If C needs more than n + 2 iterations, the code has not returned after n steps.
  lemma BodyRunning(s: Stmt, env: Env, n: nat, m: State)
    requires NeedS(s) <= NUM_REGS && WellNested(s, 0) && FrameOk(env.Keys) && EnvRel(env, m.mem)
    requires Exec(s, env, n + 2).Timeout?
    ensures Running(BodyProgram(s), Conf(0, m), n)
  {
    hide Exec, GenS, EnvRel, FrameOk, Goes, Running;
    BodyGoes(s, env, n + 2, m);
    StillRunning(BodyProgram(s), Conf(0, m), n);
  }

  // for (;;) ; return 1;  never gets to its return.
  lemma EmptyLoopDiverges(env: Env, fuel: nat)
    ensures Exec(Block(Cons(For(None, None, None, Null), Cons(Return(Some(Num(1))), Nil))), env, fuel).Timeout?
  {
    EmptyLoopGoes(env, fuel);
    assert Exec(For(None, None, None, Null), env, fuel).Timeout?;
  }

  lemma {:induction false} EmptyLoopGoes(env: Env, fuel: nat)
    ensures ExecFor(For(None, None, None, Null), env, fuel).Timeout?
    decreases fuel
  {
    if fuel > 0 {
      EmptyLoopGoes(env, fuel - 1);
      assert Exec(Null, env, fuel - 1) == Done(Normal, env);
    }
  }
}
