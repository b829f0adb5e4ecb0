/** The induction over expressions. */
module ExprSimulation {
  import opened Words
  import opened Machine
  import opened Options
  import opened Source
  import opened CodegenSpec
  import opened ExprCorrect

  // The machine is about to run code generated in state g, with n registers free and the
  // locals holding env.
  ghost predicate Ready(n: nat, g: GState, p: Prog, c0: Conf, k: nat, s: State, env: Env) {
    && UniqueLabels(p) && FrameOk(env.Keys) && Fits(n, g)
    && Reaches(p, c0, Conf(k, s)) && EnvRel(env, s.mem)
  }

  // The state after one operand has been evaluated and its register freed.
  lemma AfterFree(m: nat, n: nat, g: GState, a: Gen)
    requires Fits(n, g) && Discipline(g, a) && m <= n
    ensures Free(a.g, a.r).code == []
    ensures Fits(m, Free(a.g, a.r).g) && Free(a.g, a.r).g.used == g.used
  {
    FreeFits(g, a);
    FitsSame(m, n, g, Free(a.g, a.r).g);
  }

  // One operation on the register of the only operand.
  lemma AfterOperation(g: GState, r: nat, env: Env, s: State, s1: State, s2: State)
    requires r !in g.used && EnvRel(env, s1.mem) && Kept(g.used, env.Keys, s, s1) && OnlyReg(r, s1, s2)
    ensures EnvRel(env, s2.mem) && Kept(g.used, env.Keys, s, s2)
  {
  }

  lemma NumRun(v: I32, g: GState, p: Prog, c0: Conf, k: nat, s: State, env: Env) returns (s1: State)
    requires Ready(1, g, p, c0, k, s, env) && At(p, k, GenE(Num(v), g).code)
    ensures Reaches(p, c0, Conf(k + |GenE(Num(v), g).code|, s1))
    ensures Computed(g.used, GenE(Num(v), g).r, Value(v, env), s, s1)
  {
    AllocFits(g);
    var code := GenE(Num(v), g).code;
    assert code == [Mov(NoSuffix, Imm(v), P32(Alloc(g).r))];
    AtLine(p, k, code, 0);
    s1 := Advance(p, c0, k, s, code[0]);
  }

  lemma VarRun(x: nat, g: GState, p: Prog, c0: Conf, k: nat, s: State, env: Env) returns (s1: State)
    requires Ready(1, g, p, c0, k, s, env) && At(p, k, GenE(Var(x), g).code) && x in env
    ensures Reaches(p, c0, Conf(k + |GenE(Var(x), g).code|, s1))
    ensures Computed(g.used, GenE(Var(x), g).r, Value(env[x], env), s, s1)
  {
    AllocFits(g);
    var code := GenE(Var(x), g).code;
    assert code == [Mov(SufL, Frame(x), P32(Alloc(g).r))];
    AtLine(p, k, code, 0);
    s1 := Advance(p, c0, k, s, code[0]);
  }

  lemma StoreRun(x: nat, r: nat, used: set<nat>, p: Prog, c0: Conf, k: nat, s: State, v: I32, env: Env) returns (s1: State)
    requires Reaches(p, c0, Conf(k, s)) && At(p, k, [Mov(NoSuffix, P32(r), Frame(x))])
    requires GetReg(s, Pool(r)) == Narrow(v) && FrameOk(env.Keys) && EnvRel(env, s.mem) && x in env
    ensures Reaches(p, c0, Conf(k + 1, s1))
    ensures Computed(used, r, Value(v, env[x := v]), s, s1)
  {
    hide Store32, Load32;
    var i := Mov(NoSuffix, P32(r), Frame(x));
    AtLine(p, k, [i], 0);
    s1 := Advance(p, c0, k, s, i);
    StoreLocal(env, s.mem, x, v);
    assert env[x := v].Keys == env.Keys;
  }

  // addl $1, (%ra) when ra holds the address of x.
  lemma BumpRun(x: nat, op: AluOp, ra: nat, p: Prog, c0: Conf, k: nat, s: State, env: Env) returns (s1: State)
    requires op.OAdd? || op.OSub?
    requires Reaches(p, c0, Conf(k, s)) && k < |p| && p[k] == Alu(SufL, op, Imm(1), Ind(Pool(ra)))
    requires GetReg(s, Pool(ra)) == Ptr(x) && x in env && EnvRel(env, s.mem)
    ensures Reaches(p, c0, Conf(k + 1, s1)) && s1.regs == s.regs
    ensures s1.mem == Store32(s.mem, Addr(x), Wrap32(AluInt(op, env[x], 1)))
  {
    hide Store32, Load32, Wrap32;
    var i := Alu(SufL, op, Imm(1), Ind(Pool(ra)));
    assert OpWidth(SufL, i.src, i.dst) == Some(W32);
    assert Read(s, i.dst, W32) == Some(Narrow(env[x]));
    s1 := Advance(p, c0, k, s, i);
  }

  // lea -x(%rbp), %ra; mov (%ra), %rb
  lemma FetchRun(x: nat, ra: nat, rb: nat, p: Prog, c0: Conf, k: nat, s: State, env: Env) returns (s1: State)
    requires ra != rb && Reaches(p, c0, Conf(k, s)) && k + 1 < |p|
    requires p[k] == Lea(x, Pool(ra)) && p[k + 1] == Mov(NoSuffix, Ind(Pool(ra)), P32(rb))
    requires x in env && EnvRel(env, s.mem)
    ensures Reaches(p, c0, Conf(k + 2, s1))
    ensures s1 == SetReg(SetReg(s, Pool(ra), Ptr(x)), Pool(rb), Narrow(env[x]))
  {
    hide Store32, Load32;
    s1 := Advance(p, c0, k, s, p[k]);
    assert Read(s1, Ind(Pool(ra)), W32) == Some(Narrow(env[x]));
    s1 := Advance(p, c0, k + 1, s1, p[k + 1]);
  }

  // x++ and x--: the address of x goes through a second register.
  lemma PostRun(x: nat, op: AluOp, g: GState, p: Prog, c0: Conf, k: nat, s: State, env: Env) returns (s1: State)
    requires op.OAdd? || op.OSub?
    requires Ready(2, g, p, c0, k, s, env) && At(p, k, GenPost(x, op, g).code) && x in env
    ensures Reaches(p, c0, Conf(k + |GenPost(x, op, g).code|, s1))
    ensures Computed(g.used, GenPost(x, op, g).r, Value(env[x], env[x := Wrap32(AluInt(op, env[x], 1))]), s, s1)
  {
    GenPostDiscipline(x, op, g);
    var code, ra, rb := GenPost(x, op, g).code, Alloc(g).r, Alloc(Alloc(g).g).r;
    AtLine(p, k, code, 0);
    AtLine(p, k, code, 1);
    AtLine(p, k, code, 2);
    var s2 := FetchRun(x, ra, rb, p, c0, k, s, env);
    s1 := BumpRun(x, op, ra, p, c0, k + 2, s2, env);
    PostKept(x, ra, rb, g.used, env, s, s2, s1, Wrap32(AluInt(op, env[x], 1)));
  }

  lemma PostKept(x: nat, ra: nat, rb: nat, used: set<nat>, env: Env, s: State, s2: State, s1: State, v: I32)
    requires ra != rb && ra !in used && rb !in used && x in env && FrameOk(env.Keys) && EnvRel(env, s.mem)
    requires s2 == SetReg(SetReg(s, Pool(ra), Ptr(x)), Pool(rb), Narrow(env[x]))
    requires s1.regs == s2.regs && s1.mem == Store32(s2.mem, Addr(x), v)
    ensures Computed(used, rb, Value(env[x], env[x := v]), s, s1)
  {
    StoreLocal(env, s.mem, x, v);
    assert env[x := v].Keys == env.Keys;
  }

  // The code of a logical operator, with the empty pieces left out.
  lemma LogicalCode(isAnd: bool, c: nat, g: GState, g0: GState, a: Gen, b: Gen)
    requires Fits(1, g) && Discipline(g, a) && g0 == Free(a.g, a.r).g && Discipline(g0, b)
    ensures var end := Label(LEnd, c);
      var d := JoinLogical(isAnd, c, a, b);
      d.r !in g.used &&
      d.code == a.code
        + ([Alu(NoSuffix, OCmp, Imm(0), P32(a.r)), MovbImm(if isAnd then 0 else 1, SPILL_LOGAND),
            Jcc(if isAnd then CE else CNE, end)]
           + (b.code
              + [Alu(NoSuffix, OCmp, Imm(0), P32(b.r)), Setcc(CNE), MovbAl(SPILL_LOGAND), Lab(end),
                 MovzblFrame(SPILL_LOGAND, Pool(d.r))]))
  {
    hide Need;
    FreeFits(g, a);
    FreeFits(g0, b);
    AllocFits(Free(b.g, b.r).g);
    var end := Label(LEnd, c);
    var d := JoinLogical(isAnd, c, a, b);
    var mid := [Alu(NoSuffix, OCmp, Imm(0), P32(b.r)), Setcc(CNE), MovbAl(SPILL_LOGAND)];
    var last := [MovzblFrame(SPILL_LOGAND, Pool(d.r))];
    assert mid + ([] + ([Lab(end)] + ([] + last))) == mid + [Lab(end)] + last;
    assert [] + (b.code + (mid + ([] + ([Lab(end)] + ([] + last))))) == b.code + (mid + [Lab(end)] + last);
  }

  function ShortTest(isAnd: bool, r: nat, end: Label): Prog {
    [Alu(NoSuffix, OCmp, Imm(0), P32(r)), MovbImm(if isAnd then 0 else 1, SPILL_LOGAND), Jcc(if isAnd then CE else CNE, end)]
  }

  function LogicalTail(r: nat, end: Label, d: nat): Prog {
    [Alu(NoSuffix, OCmp, Imm(0), P32(r)), Setcc(CNE), MovbAl(SPILL_LOGAND), Lab(end),
     MovzblFrame(SPILL_LOGAND, Pool(d))]
  }

  predicate ShortCircuits(isAnd: bool, v: I32) { if isAnd then v == 0 else v != 0 }

  // The memory and the pool registers after the && byte has been written.
  lemma FlagByteKept(used: set<nat>, env: Env, b: Byte, s: State, s1: State)
    requires FrameOk(env.Keys) && EnvRel(env, s.mem)
    requires s1.mem == s.mem[Addr(SPILL_LOGAND) := b] && (forall i: nat :: GetReg(s1, Pool(i)) == GetReg(s, Pool(i)))
    ensures EnvRel(env, s1.mem) && Kept(used, env.Keys, s, s1) && GetByte(s1.mem, Addr(SPILL_LOGAND)) == b
  {
    StoreFlagByte(env, s.mem, b);
  }

  lemma MovbRun(b: Byte, used: set<nat>, env: Env, p: Prog, c0: Conf, k: nat, s: State) returns (s1: State)
    requires Reaches(p, c0, Conf(k, s)) && k < |p| && p[k] == MovbImm(b, SPILL_LOGAND)
    requires FrameOk(env.Keys) && EnvRel(env, s.mem)
    ensures Reaches(p, c0, Conf(k + 1, s1)) && s1.flags == s.flags
    ensures EnvRel(env, s1.mem) && Kept(used, env.Keys, s, s1) && GetByte(s1.mem, Addr(SPILL_LOGAND)) == b
  {
    hide Reaches, EnvRel, SameOutside, FrameOk;
    s1 := Advance(p, c0, k, s, p[k]);
    FlagByteKept(used, env, b, s, s1);
  }

  // Test of the left operand: the && byte holds the short-circuit answer, and control is at the
  // end label or at the right operand.
  lemma ShortRun(isAnd: bool, r: nat, end: Label, t: nat, used: set<nat>, v: I32, env: Env,
                 p: Prog, c0: Conf, k: nat, s: State) returns (s1: State)
    requires UniqueLabels(p) && Reaches(p, c0, Conf(k, s)) && At(p, k, ShortTest(isAnd, r, end))
    requires t < |p| && p[t] == Lab(end)
    requires GetReg(s, Pool(r)) == Narrow(v) && FrameOk(env.Keys) && EnvRel(env, s.mem)
    ensures Reaches(p, c0, Conf(if ShortCircuits(isAnd, v) then t + 1 else k + 3, s1))
    ensures EnvRel(env, s1.mem) && Kept(used, env.Keys, s, s1)
    ensures GetByte(s1.mem, Addr(SPILL_LOGAND)) == if isAnd then 0 else 1
  {
    hide Reaches, UniqueLabels, EnvRel, Kept, FrameOk, CmpFlags, Holds, At, GetByte;
    var code := ShortTest(isAnd, r, end);
    AtLine(p, k, code, 0);
    AtLine(p, k, code, 1);
    AtLine(p, k, code, 2);
    var s2 := TestZero(p, c0, k, s, r, v);
    KeptFlags(used, env.Keys, s, s2.flags);
    var b: Byte := if isAnd then 0 else 1;
    s1 := MovbRun(b, used, env, p, c0, k + 1, s2);
    KeptTrans(used, used, env.Keys, s, s2, s1);
    if ShortCircuits(isAnd, v) {
      TakeJump(p, c0, k + 2, s1, t);
    } else {
      SkipJump(p, c0, k + 2, s1);
    }
  }

  // cmp $0, r; setne %al; movb %al to the && byte
  lemma TruthRun(r: nat, v: I32, p: Prog, c0: Conf, k: nat, s: State) returns (s1: State)
    requires Reaches(p, c0, Conf(k, s)) && k + 2 < |p| && GetReg(s, Pool(r)) == Narrow(v)
    requires p[k] == Alu(NoSuffix, OCmp, Imm(0), P32(r)) && p[k + 1] == Setcc(CNE) && p[k + 2] == MovbAl(SPILL_LOGAND)
    ensures Reaches(p, c0, Conf(k + 3, s1)) && s1.mem == s.mem[Addr(SPILL_LOGAND) := Bool(v != 0)]
    ensures forall i: nat :: GetReg(s1, Pool(i)) == GetReg(s, Pool(i))
  {
    hide Reaches;
    var s2 := TestZero(p, c0, k, s, r, v);
    hide CmpFlags, Holds;
    s2 := Advance(p, c0, k + 1, s2, Setcc(CNE));
    s1 := Advance(p, c0, k + 2, s2, MovbAl(SPILL_LOGAND));
  }

  lemma FlagByteRun(d: nat, used: set<nat>, b: I32, env: Env, p: Prog, c0: Conf, k: nat, s: State) returns (s1: State)
    requires d !in used && Reaches(p, c0, Conf(k, s)) && k < |p| && p[k] == MovzblFrame(SPILL_LOGAND, Pool(d))
    requires GetByte(s.mem, Addr(SPILL_LOGAND)) == b && EnvRel(env, s.mem)
    ensures Reaches(p, c0, Conf(k + 1, s1))
    ensures Computed(used, d, Value(b, env), s, s1)
  {
    hide EnvRel;
    s1 := Advance(p, c0, k, s, p[k]);
  }

  // The right operand becomes 0 or 1 in the && byte and from there in register d.
  lemma TailRun(r: nat, end: Label, d: nat, used: set<nat>, v: Value, p: Prog, c0: Conf, k: nat, s: State)
    returns (s1: State)
    requires Reaches(p, c0, Conf(k, s)) && At(p, k, LogicalTail(r, end, d)) && d !in used
    requires GetReg(s, Pool(r)) == Narrow(v.v) && FrameOk(v.env.Keys) && EnvRel(v.env, s.mem)
    ensures Reaches(p, c0, Conf(k + 5, s1))
    ensures Computed(used, d, Value(Bool(v.v != 0), v.env), s, s1)
  {
    hide Reaches, EnvRel, SameOutside, FrameOk;
    var code := LogicalTail(r, end, d);
    AtLine(p, k, code, 0);
    AtLine(p, k, code, 1);
    AtLine(p, k, code, 2);
    AtLine(p, k, code, 3);
    AtLine(p, k, code, 4);
    var t := TruthRun(r, v.v, p, c0, k, s);
    FlagByteKept(used, v.env, Bool(v.v != 0), s, t);
    LabelRun(p, c0, k + 3, t);
    s1 := FlagByteRun(d, used, Bool(v.v != 0), v.env, p, c0, k + 4, t);
    KeptTrans(used, used, v.env.Keys, s, t, s1);
  }

  lemma LabelRun(p: Prog, c0: Conf, k: nat, s: State)
    requires Reaches(p, c0, Conf(k, s)) && k < |p| && p[k].Lab?
    ensures Reaches(p, c0, Conf(k + 1, s))
  {
    ReachThen(p, c0, Conf(k, s));
  }

  // Where the parts of a logical operator stand.
  lemma LogicalParts(isAnd: bool, end: Label, a: Prog, ra: nat, b: Prog, rb: nat, d: nat, p: Prog, k: nat) returns (k2: nat)
    requires At(p, k, a + (ShortTest(isAnd, ra, end) + (b + LogicalTail(rb, end, d))))
    ensures At(p, k, a) && At(p, k + |a|, ShortTest(isAnd, ra, end)) && At(p, k + |a| + 3, b)
    ensures k2 == k + |a| + 3 + |b| && At(p, k2, LogicalTail(rb, end, d))
    ensures k2 + 4 < |p| && p[k2 + 3] == Lab(end) && p[k2 + 4] == MovzblFrame(SPILL_LOGAND, Pool(d))
  {
    var test, tail := ShortTest(isAnd, ra, end), LogicalTail(rb, end, d);
    AtSplit(p, k, a, test + (b + tail));
    AtSplit(p, k + |a|, test, b + tail);
    AtSplit(p, k + |a| + 3, b, tail);
    k2 := k + |a| + 3 + |b|;
    AtLine(p, k2, tail, 3);
    AtLine(p, k2, tail, 4);
  }

  function Logical(isAnd: bool, lhs: Expr, rhs: Expr): Expr { if isAnd then LogAnd(lhs, rhs) else LogOr(lhs, rhs) }

  lemma {:induction false} EvalAnd(lhs: Expr, rhs: Expr, env: Env)
    requires Eval(LogAnd(lhs, rhs), env).Some?
    ensures Eval(lhs, env).Some?
    ensures var a := Eval(lhs, env).value;
      if a.v == 0 then Eval(LogAnd(lhs, rhs), env) == Some(Value(0, a.env))
      else Eval(rhs, a.env).Some? && var b := Eval(rhs, a.env).value;
        Eval(LogAnd(lhs, rhs), env) == Some(Value(Bool(b.v != 0), b.env))
  {
  }

  lemma {:induction false} EvalOr(lhs: Expr, rhs: Expr, env: Env)
    requires Eval(LogOr(lhs, rhs), env).Some?
    ensures Eval(lhs, env).Some?
    ensures var a := Eval(lhs, env).value;
      if a.v != 0 then Eval(LogOr(lhs, rhs), env) == Some(Value(1, a.env))
      else Eval(rhs, a.env).Some? && var b := Eval(rhs, a.env).value;
        Eval(LogOr(lhs, rhs), env) == Some(Value(Bool(b.v != 0), b.env))
  {
  }

  lemma EvalLogical(isAnd: bool, lhs: Expr, rhs: Expr, env: Env)
    requires Eval(Logical(isAnd, lhs, rhs), env).Some?
    ensures Eval(lhs, env).Some?
    ensures var a := Eval(lhs, env).value;
      if ShortCircuits(isAnd, a.v) then Eval(Logical(isAnd, lhs, rhs), env) == Some(Value(if isAnd then 0 else 1, a.env))
      else Eval(rhs, a.env).Some? && var b := Eval(rhs, a.env).value;
        Eval(Logical(isAnd, lhs, rhs), env) == Some(Value(Bool(b.v != 0), b.env))
  {
    hide Eval;
    if isAnd {
      EvalAnd(lhs, rhs, env);
    } else {
      EvalOr(lhs, rhs, env);
    }
  }

  // The code generated for a logical operator, and the states its parts are generated in.
  lemma LogicalShape(isAnd: bool, lhs: Expr, rhs: Expr, g: GState) returns (gl: GState, a: Gen, gm: GState, b: Gen, end: Label)
    requires Fits(Need(Logical(isAnd, lhs, rhs)), g)
    ensures a == GenE(lhs, gl) && b == GenE(rhs, gm) && gl.used == gm.used == g.used
    ensures Fits(Need(lhs), gl) && Fits(Need(rhs), gm)
    ensures var d := GenE(Logical(isAnd, lhs, rhs), g);
      d.r !in g.used && d.code == a.code + (ShortTest(isAnd, a.r, end) + (b.code + LogicalTail(b.r, end, d.r))) &&
      |d.code| == |a.code| + |b.code| + 8
  {
    var n := Need(Logical(isAnd, lhs, rhs));
    gl := FreshLabel(g);
    end := Label(LEnd, gl.labels);
    GenDiscipline(lhs, gl);
    a := GenE(lhs, gl);
    AfterFree(n, n, gl, a);
    gm := Free(a.g, a.r).g;
    GenDiscipline(rhs, gm);
    b := GenE(rhs, gm);
    LogicalCode(isAnd, gl.labels, gl, gm, a, b);
  }

  lemma {:induction false} LogicalRun(isAnd: bool, lhs: Expr, rhs: Expr, g: GState, p: Prog, c0: Conf, k: nat, s: State, env: Env)
    returns (s1: State)
    requires var e := Logical(isAnd, lhs, rhs);
      Ready(Need(e), g, p, c0, k, s, env) && At(p, k, GenE(e, g).code) && Eval(e, env).Some?
    ensures var e := Logical(isAnd, lhs, rhs);
      Reaches(p, c0, Conf(k + |GenE(e, g).code|, s1)) && Computed(g.used, GenE(e, g).r, Eval(e, env).value, s, s1)
    decreases Logical(isAnd, lhs, rhs), 0
  {
    hide Reaches, At, UniqueLabels, FrameOk, EnvRel, Kept, Effect, Fits, Logical, GenE, Need, Eval, ShortTest, LogicalTail;
    assert lhs < Logical(isAnd, lhs, rhs) && rhs < Logical(isAnd, lhs, rhs) by { LogicalSmaller(isAnd, lhs, rhs); }
    var gl, a, gm, b, end := LogicalShape(isAnd, lhs, rhs, g);
    var d, vars := GenE(Logical(isAnd, lhs, rhs), g).r, env.Keys;
    var k2 := LogicalParts(isAnd, end, a.code, a.r, b.code, b.r, d, p, k);
    EvalLogical(isAnd, lhs, rhs, env);
    var va := Eval(lhs, env).value;
    EvalKeys(lhs, env);
    var t := ExprRun(lhs, gl, p, c0, k, s, env);
    var u := ShortRun(isAnd, a.r, end, k2 + 3, g.used, va.v, va.env, p, c0, k + |a.code|, t);
    KeptTrans(g.used, g.used, vars, s, t, u);
    if ShortCircuits(isAnd, va.v) {
      s1 := FlagByteRun(d, g.used, if isAnd then 0 else 1, va.env, p, c0, k2 + 4, u);
      KeptTrans(g.used, g.used, vars, s, u, s1);
    } else {
      var vb := Eval(rhs, va.env).value;
      EvalKeys(rhs, va.env);
      var w := ExprRun(rhs, gm, p, c0, k + |a.code| + 3, u, va.env);
      KeptTrans(g.used, g.used, vars, s, u, w);
      s1 := TailRun(b.r, end, d, g.used, vb, p, c0, k2, w);
      KeptTrans(g.used, g.used, vars, s, w, s1);
    }
  }

  lemma LogicalSmaller(isAnd: bool, lhs: Expr, rhs: Expr)
    ensures lhs < Logical(isAnd, lhs, rhs) && rhs < Logical(isAnd, lhs, rhs)
  {
  }

  // Whenever the code of e stands at k, running it computes the C value of e.
  lemma {:induction false} ExprRun(e: Expr, g: GState, p: Prog, c0: Conf, k: nat, s: State, env: Env) returns (s1: State)
    requires Ready(Need(e), g, p, c0, k, s, env) && At(p, k, GenE(e, g).code) && Eval(e, env).Some?
    ensures Reaches(p, c0, Conf(k + |GenE(e, g).code|, s1))
    ensures Computed(g.used, GenE(e, g).r, Eval(e, env).value, s, s1)
    decreases e, 1
  {
    hide Reaches, At, UniqueLabels, FrameOk, EnvRel, SameOutside, Effect, Fits, Kept, Computed, Ready, Free, Alloc, JoinBin, JoinCond, JoinLogical;
    match e
    case Num(v) => s1 := NumRun(v, g, p, c0, k, s, env);
    case Var(x) => s1 := VarRun(x, g, p, c0, k, s, env);
    case Assign(x, rhs) => s1 := AssignRun(x, rhs, g, p, c0, k, s, env);
    case Bin(op, lhs, rhs) =>
      if UsesImmediate(op, rhs) {
        s1 := BinaryImmRun(op, lhs, rhs, g, p, c0, k, s, env);
      } else {
        s1 := BinaryRegRun(op, lhs, rhs, g, p, c0, k, s, env);
      }
    case Neg(e1) => s1 := NegRun(e1, g, p, c0, k, s, env);
    case BitNot(e1) => s1 := BitNotRun(e1, g, p, c0, k, s, env);
    case Not(e1) => s1 := NotRun(e1, g, p, c0, k, s, env);
    case LogAnd(lhs, rhs) => s1 := LogicalRun(true, lhs, rhs, g, p, c0, k, s, env);
    case LogOr(lhs, rhs) => s1 := LogicalRun(false, lhs, rhs, g, p, c0, k, s, env);
    case Cond(c, t, f) => s1 := CondRun(c, t, f, g, p, c0, k, s, env);
    case Comma(lhs, rhs) => s1 := CommaRun(lhs, rhs, g, p, c0, k, s, env);
    case PostInc(x) => s1 := PostRun(x, OAdd, g, p, c0, k, s, env);
    case PostDec(x) => s1 := PostRun(x, OSub, g, p, c0, k, s, env);
  }

  lemma {:induction false} AssignRun(x: nat, rhs: Expr, g: GState, p: Prog, c0: Conf, k: nat, s: State, env: Env)
    returns (s1: State)
    requires Ready(Need(rhs), g, p, c0, k, s, env) && At(p, k, GenE(Assign(x, rhs), g).code) && Eval(Assign(x, rhs), env).Some?
    ensures Reaches(p, c0, Conf(k + |GenE(Assign(x, rhs), g).code|, s1))
    ensures Computed(g.used, GenE(Assign(x, rhs), g).r, Eval(Assign(x, rhs), env).value, s, s1)
    decreases Assign(x, rhs), 0
  {
    hide Alloc, Free, JoinBin, JoinCond, JoinLogical, GenPost;
    hide Reaches, At, UniqueLabels, FrameOk, EnvRel, Kept, Effect, Fits;
    var a, va := GenE(rhs, g), Eval(rhs, env).value;
    GenDiscipline(rhs, g);
    EvalKeys(rhs, env);
    AtSplit(p, k, a.code, [Mov(NoSuffix, P32(a.r), Frame(x))]);
    var t := ExprRun(rhs, g, p, c0, k, s, env);
    s1 := StoreRun(x, a.r, g.used, p, c0, k + |a.code|, t, va.v, va.env);
    assert va.env[x := va.v].Keys == va.env.Keys;
    KeptTrans(g.used, g.used, env.Keys, s, t, s1);
  }

  lemma CommaShape(lhs: Expr, rhs: Expr, g: GState) returns (a: Gen, gm: GState, b: Gen)
    requires Fits(Need(Comma(lhs, rhs)), g)
    ensures a == GenE(lhs, g) && b == GenE(rhs, gm) && gm.used == g.used
    ensures Fits(Need(lhs), g) && Fits(Need(rhs), gm)
    ensures GenE(Comma(lhs, rhs), g).code == a.code + b.code && GenE(Comma(lhs, rhs), g).r == b.r
  {
    hide Free, Alloc, JoinBin, JoinCond, JoinLogical, GenPost, Fits;
    var n := Need(Comma(lhs, rhs));
    FitsSame(Need(lhs), n, g, g);
    a := GenE(lhs, g);
    GenDiscipline(lhs, g);
    AfterFree(Need(rhs), n, g, a);
    gm := Free(a.g, a.r).g;
    b := GenE(rhs, gm);
    assert [] + b.code == b.code;
  }

  lemma {:induction false} CommaRun(lhs: Expr, rhs: Expr, g: GState, p: Prog, c0: Conf, k: nat, s: State, env: Env)
    returns (s1: State)
    requires Ready(Need(Comma(lhs, rhs)), g, p, c0, k, s, env)
    requires At(p, k, GenE(Comma(lhs, rhs), g).code) && Eval(Comma(lhs, rhs), env).Some?
    ensures Reaches(p, c0, Conf(k + |GenE(Comma(lhs, rhs), g).code|, s1))
    ensures Computed(g.used, GenE(Comma(lhs, rhs), g).r, Eval(Comma(lhs, rhs), env).value, s, s1)
    decreases Comma(lhs, rhs), 0
  {
    hide Reaches, At, UniqueLabels, FrameOk, EnvRel, Kept, Effect, Fits, GenE, Need;
    var a, gm, b := CommaShape(lhs, rhs, g);
    var va := Eval(lhs, env).value;
    AtSplit(p, k, a.code, b.code);
    EvalKeys(lhs, env);
    EvalKeys(rhs, va.env);
    var t := ExprRun(lhs, g, p, c0, k, s, env);
    s1 := ExprRun(rhs, gm, p, c0, k + |a.code|, t, va.env);
    KeptTrans(g.used, g.used, env.Keys, s, t, s1);
  }

  lemma OneLineRun(i: Instr, r: nat, v: I32, p: Prog, c0: Conf, k: nat, s: State) returns (s1: State)
    requires (i == NegR(Pool(r)) || i == NotR(Pool(r))) && Reaches(p, c0, Conf(k, s)) && At(p, k, [i])
    requires GetReg(s, Pool(r)) == Narrow(v)
    ensures Reaches(p, c0, Conf(k + 1, s1)) && OnlyReg(r, s, s1)
    ensures GetReg(s1, Pool(r)) == Narrow(if i.NegR? then Wrap32(0 - v) else -1 - v)
  {
    AtLine(p, k, [i], 0);
    s1 := Advance(p, c0, k, s, i);
  }

  // -e and ~e: one line on the register of e.
  lemma {:induction false} NegRun(e: Expr, g: GState, p: Prog, c0: Conf, k: nat, s: State, env: Env) returns (s1: State)
    requires Ready(Need(e), g, p, c0, k, s, env) && At(p, k, GenE(Neg(e), g).code) && Eval(e, env).Some?
    ensures Reaches(p, c0, Conf(k + |GenE(Neg(e), g).code|, s1))
    ensures Computed(g.used, GenE(Neg(e), g).r, Eval(Neg(e), env).value, s, s1)
    decreases Neg(e), 0
  {
    hide Alloc, Free, JoinBin, JoinCond, JoinLogical, GenPost;
    hide Reaches, At, UniqueLabels, FrameOk, EnvRel, Kept, Effect, Fits, OnlyReg, Wrap32;
    var a := GenE(e, g);
    GenDiscipline(e, g);
    AtSplit(p, k, a.code, [NegR(Pool(a.r))]);
    var t := ExprRun(e, g, p, c0, k, s, env);
    s1 := OneLineRun(NegR(Pool(a.r)), a.r, Eval(e, env).value.v, p, c0, k + |a.code|, t);
    AfterOperation(g, a.r, Eval(e, env).value.env, s, t, s1);
  }

  lemma {:induction false} BitNotRun(e: Expr, g: GState, p: Prog, c0: Conf, k: nat, s: State, env: Env) returns (s1: State)
    requires Ready(Need(e), g, p, c0, k, s, env) && At(p, k, GenE(BitNot(e), g).code) && Eval(e, env).Some?
    ensures Reaches(p, c0, Conf(k + |GenE(BitNot(e), g).code|, s1))
    ensures Computed(g.used, GenE(BitNot(e), g).r, Eval(BitNot(e), env).value, s, s1)
    decreases BitNot(e), 0
  {
    hide Alloc, Free, JoinBin, JoinCond, JoinLogical, GenPost;
    hide Reaches, At, UniqueLabels, FrameOk, EnvRel, Kept, Effect, Fits, OnlyReg, Wrap32;
    var a := GenE(e, g);
    GenDiscipline(e, g);
    AtSplit(p, k, a.code, [NotR(Pool(a.r))]);
    var t := ExprRun(e, g, p, c0, k, s, env);
    s1 := OneLineRun(NotR(Pool(a.r)), a.r, Eval(e, env).value.v, p, c0, k + |a.code|, t);
    AfterOperation(g, a.r, Eval(e, env).value.env, s, t, s1);
  }

  // cmp $0, r; sete %al; movzbl %al, r
  lemma ZeroRun(r: nat, v: I32, p: Prog, c0: Conf, k: nat, s: State) returns (s1: State)
    requires Reaches(p, c0, Conf(k, s)) && At(p, k, [Alu(NoSuffix, OCmp, Imm(0), P32(r)), Setcc(CE), MovzblAl(Pool(r))])
    requires GetReg(s, Pool(r)) == Narrow(v)
    ensures Reaches(p, c0, Conf(k + 3, s1)) && OnlyReg(r, s, s1)
    ensures GetReg(s1, Pool(r)) == Narrow(Bool(v == 0))
  {
    hide Reaches;
    var op := [Alu(NoSuffix, OCmp, Imm(0), P32(r)), Setcc(CE), MovzblAl(Pool(r))];
    assert op == op[..1] + SetCode(Eq, r);
    AtSplit(p, k, op[..1], SetCode(Eq, r));
    AtLine(p, k, op, 0);
    var u := TestZero(p, c0, k, s, r, v);
    s1 := SetRun(Eq, p, c0, k + 1, u, r, v, 0);
  }

  lemma {:induction false} NotRun(e: Expr, g: GState, p: Prog, c0: Conf, k: nat, s: State, env: Env) returns (s1: State)
    requires Ready(Need(e), g, p, c0, k, s, env) && At(p, k, GenE(Not(e), g).code) && Eval(e, env).Some?
    ensures Reaches(p, c0, Conf(k + |GenE(Not(e), g).code|, s1))
    ensures Computed(g.used, GenE(Not(e), g).r, Eval(Not(e), env).value, s, s1)
    decreases Not(e), 0
  {
    hide Alloc, Free, JoinBin, JoinCond, JoinLogical, GenPost;
    hide Reaches, At, UniqueLabels, FrameOk, EnvRel, Kept, Effect, Fits, OnlyReg;
    var a := GenE(e, g);
    GenDiscipline(e, g);
    AtSplit(p, k, a.code, [Alu(NoSuffix, OCmp, Imm(0), P32(a.r)), Setcc(CE), MovzblAl(Pool(a.r))]);
    var t := ExprRun(e, g, p, c0, k, s, env);
    s1 := ZeroRun(a.r, Eval(e, env).value.v, p, c0, k + |a.code|, t);
    AfterOperation(g, a.r, Eval(e, env).value.env, s, t, s1);
  }

  lemma BinShape(op: BinOp, lhs: Expr, rhs: Expr, g: GState) returns (a: Gen, b: Gen)
    requires Fits(Need(Bin(op, lhs, rhs)), g) && !UsesImmediate(op, rhs)
    ensures a == GenE(lhs, g) && b == GenE(rhs, a.g) && a.g.used == g.used + {a.r} && a.r !in g.used
    ensures Fits(Need(lhs), g) && Fits(Need(rhs), a.g)
    ensures GenE(Bin(op, lhs, rhs), g).r == a.r
    ensures GenE(Bin(op, lhs, rhs), g).code == a.code + (b.code + (BinCode(op, a.r, b.r) + SetCode(op, a.r)))
  {
    a := GenE(lhs, g);
    GenDiscipline(lhs, g);
    FitsAfter(Need(rhs), g, a);
    b := GenE(rhs, a.g);
    GenDiscipline(rhs, a.g);
    AfterFree(0, Need(rhs), a.g, b);
    assert [] + SetCode(op, a.r) == SetCode(op, a.r);
  }

  lemma {:induction false} BinaryImmRun(op: BinOp, lhs: Expr, rhs: Expr, g: GState, p: Prog, c0: Conf, k: nat, s: State, env: Env)
    returns (s1: State)
    requires Ready(Need(Bin(op, lhs, rhs)), g, p, c0, k, s, env) && UsesImmediate(op, rhs)
    requires At(p, k, GenE(Bin(op, lhs, rhs), g).code) && Eval(Bin(op, lhs, rhs), env).Some?
    ensures Reaches(p, c0, Conf(k + |GenE(Bin(op, lhs, rhs), g).code|, s1))
    ensures Computed(g.used, GenE(Bin(op, lhs, rhs), g).r, Eval(Bin(op, lhs, rhs), env).value, s, s1)
    decreases lhs, 2
  {
    hide Alloc, Free, JoinBin, JoinCond, JoinLogical, GenPost;
    hide Reaches, At, UniqueLabels, FrameOk, EnvRel, Kept, Effect, Fits, OnlyReg, BinVal, ConstCode;
    var a, va := GenE(lhs, g), Eval(lhs, env).value;
    GenDiscipline(lhs, g);
    AtSplit(p, k, a.code, ConstCode(op, rhs.v, a.r));
    var t := ExprRun(lhs, g, p, c0, k, s, env);
    s1 := ConstRun(op, p, c0, k + |a.code|, t, a.r, va.v, rhs.v);
    AfterOperation(g, a.r, va.env, s, t, s1);
  }

  lemma {:induction false} BinaryRegRun(op: BinOp, lhs: Expr, rhs: Expr, g: GState, p: Prog, c0: Conf, k: nat, s: State, env: Env)
    returns (s1: State)
    requires Ready(Need(Bin(op, lhs, rhs)), g, p, c0, k, s, env) && !UsesImmediate(op, rhs)
    requires At(p, k, GenE(Bin(op, lhs, rhs), g).code) && Eval(Bin(op, lhs, rhs), env).Some?
    ensures Reaches(p, c0, Conf(k + |GenE(Bin(op, lhs, rhs), g).code|, s1))
    ensures Computed(g.used, GenE(Bin(op, lhs, rhs), g).r, Eval(Bin(op, lhs, rhs), env).value, s, s1)
    decreases Bin(op, lhs, rhs), 0
  {
    hide Reaches, At, UniqueLabels, FrameOk, EnvRel, Kept, Effect, Fits, OnlyReg, BinVal, BinCode, SetCode, GenE, Need;
    var a, b := BinShape(op, lhs, rhs, g);
    var va, vars, k1 := Eval(lhs, env).value, env.Keys, k + |a.code|;
    var vb := Eval(rhs, va.env).value;
    EvalKeys(lhs, env);
    EvalKeys(rhs, va.env);
    var bin, sets := BinCode(op, a.r, b.r), SetCode(op, a.r);
    AtSplit(p, k, a.code, b.code + (bin + sets));
    AtSplit(p, k1, b.code, bin + sets);
    AtSplit(p, k1 + |b.code|, bin, sets);
    var t := ExprRun(lhs, g, p, c0, k, s, env);
    var u := ExprRun(rhs, a.g, p, c0, k1, t, va.env);
    KeptTrans(g.used, a.g.used, vars, s, t, u);
    KeptReg(a.g.used, vars, t, u, a.r);
    s1 := BinRun(op, p, c0, k1 + |b.code|, u, a.r, b.r, va.v, vb.v);
    AfterOperation(g, a.r, vb.env, s, u, s1);
  }

  function CondTest(r: nat, els: Label): Prog { [Alu(NoSuffix, OCmp, Imm(0), P32(r)), Jcc(CE, els)] }
  function CondJoin(r: nat, d: nat, els: Label, end: Label): Prog { [Mov(NoSuffix, P64(r), P64(d)), Jmp(end), Lab(els)] }
  function CondLast(r: nat, d: nat, end: Label): Prog { [Mov(NoSuffix, P64(r), P64(d)), Lab(end)] }

  // The code of a conditional expression, with the empty pieces left out.
  lemma CondCode(c: nat, d: Gen, a: Gen, x: Gen, y: Gen)
    requires d.code == [] && Free(a.g, a.r).code == [] && Free(x.g, x.r).code == [] && Free(y.g, y.r).code == []
    ensures var els, end := Label(LElse, c), Label(LEnd, c);
      JoinCond(c, d, a, x, y).code ==
      a.code + (CondTest(a.r, els) + (x.code + (CondJoin(x.r, d.r, els, end) + (y.code + CondLast(y.r, d.r, end)))))
  {
    hide Free;
    var els, end := Label(LElse, c), Label(LEnd, c);
    var m1, m2 := [Mov(NoSuffix, P64(x.r), P64(d.r))], [Mov(NoSuffix, P64(y.r), P64(d.r))];
    var tail := y.code + (m2 + ([] + [Lab(end)]));
    assert m2 + ([] + [Lab(end)]) == CondLast(y.r, d.r, end);
    assert m1 + ([] + ([Jmp(end), Lab(els)] + tail)) == CondJoin(x.r, d.r, els, end) + tail;
    assert forall q: Prog :: [] + q == q;
  }

  // The code generated for c ? t : f, and the states its parts are generated in.
  lemma CondShape(c: Expr, t: Expr, f: Expr, g: GState)
    returns (a: Gen, g1: GState, x: Gen, g2: GState, y: Gen, g3: GState, els: Label, end: Label)
    requires Fits(Need(Cond(c, t, f)), g)
    ensures a == GenE(c, g1) && x == GenE(t, g2) && y == GenE(f, g3)
    ensures var d := GenE(Cond(c, t, f), g);
      && d.r !in g.used && g1.used == g2.used == g3.used == g.used + {d.r}
      && d.code == a.code + (CondTest(a.r, els) + (x.code + (CondJoin(x.r, d.r, els, end) + (y.code + CondLast(y.r, d.r, end)))))
    ensures Fits(Need(c), g1) && Fits(Need(t), g2) && Fits(Need(f), g3)
  {
    hide Free, Alloc, JoinCond, Fits;
    var n, gl := Need(Cond(c, t, f)), FreshLabel(g);
    els, end := Label(LElse, gl.labels), Label(LEnd, gl.labels);
    FitsSame(1, n, g, gl);
    AllocFits(gl);
    var d := Alloc(gl);
    g1 := d.g;
    FitsSame(n, n, g, gl);
    FitsAfter(n - 1, gl, d);
    FitsSame(Need(c), n - 1, g1, g1);
    GenDiscipline(c, g1);
    a := GenE(c, g1);
    AfterFree(n - 1, n - 1, g1, a);
    g2 := Free(a.g, a.r).g;
    FitsSame(Need(t), n - 1, g2, g2);
    GenDiscipline(t, g2);
    x := GenE(t, g2);
    AfterFree(n - 1, n - 1, g2, x);
    g3 := Free(x.g, x.r).g;
    FitsSame(Need(f), n - 1, g3, g3);
    GenDiscipline(f, g3);
    y := GenE(f, g3);
    AfterFree(0, n - 1, g3, y);
    CondCode(gl.labels, d, a, x, y);
    assert GenE(Cond(c, t, f), g) == JoinCond(gl.labels, d, a, x, y);
    CondResult(gl.labels, d, a, x, y);
  }

  lemma CondResult(c: nat, d: Gen, a: Gen, x: Gen, y: Gen)
    ensures JoinCond(c, d, a, x, y).r == d.r
  {
  }

  // Where the parts of a conditional expression stand.
  lemma CondParts(els: Label, end: Label, a: Prog, ra: nat, x: Prog, rx: nat, y: Prog, ry: nat, d: nat, p: Prog, k: nat)
    returns (k2: nat, k3: nat)
    requires At(p, k, a + (CondTest(ra, els) + (x + (CondJoin(rx, d, els, end) + (y + CondLast(ry, d, end))))))
    ensures At(p, k, a) && k2 == k + |a| + 2 + |x| && k3 == k2 + 3 + |y| && k3 + 1 < |p|
    ensures p[k + |a|] == Alu(NoSuffix, OCmp, Imm(0), P32(ra)) && p[k + |a| + 1] == Jcc(CE, els)
    ensures At(p, k + |a| + 2, x) && At(p, k2 + 3, y)
    ensures p[k2] == Mov(NoSuffix, P64(rx), P64(d)) && p[k2 + 1] == Jmp(end) && p[k2 + 2] == Lab(els)
    ensures p[k3] == Mov(NoSuffix, P64(ry), P64(d)) && p[k3 + 1] == Lab(end)
  {
    hide At;
    var test, join, last := CondTest(ra, els), CondJoin(rx, d, els, end), CondLast(ry, d, end);
    AtSplit(p, k, a, test + (x + (join + (y + last))));
    var k1 := k + |a|;
    AtSplit(p, k1, test, x + (join + (y + last)));
    AtSplit(p, k1 + 2, x, join + (y + last));
    k2 := k1 + 2 + |x|;
    AtSplit(p, k2, join, y + last);
    AtSplit(p, k2 + 3, y, last);
    k3 := k2 + 3 + |y|;
    AtLine(p, k1, test, 0);
    AtLine(p, k1, test, 1);
    AtLine(p, k2, join, 0);
    AtLine(p, k2, join, 1);
    AtLine(p, k2, join, 2);
    AtLine(p, k3, last, 0);
    AtLine(p, k3, last, 1);
  }

  // The chosen arm, computed into register r, is copied to the result register d.
  lemma ArmRun(r: nat, d: nat, used: set<nat>, v: Value, p: Prog, c0: Conf, k: nat, s: State) returns (s1: State)
    requires Reaches(p, c0, Conf(k, s)) && k < |p| && p[k] == Mov(NoSuffix, P64(r), P64(d))
    requires GetReg(s, Pool(r)) == Narrow(v.v) && EnvRel(v.env, s.mem) && d !in used
    ensures Reaches(p, c0, Conf(k + 1, s1))
    ensures Computed(used, d, v, s, s1)
  {
    hide Reaches, EnvRel;
    s1 := Advance(p, c0, k, s, p[k]);
  }

  // The branch on the condition: to the first arm, or past the else label.
  lemma BranchRun(r: nat, v: I32, t: nat, used: set<nat>, env: Env, p: Prog, c0: Conf, k: nat, s: State) returns (s1: State)
    requires UniqueLabels(p) && Reaches(p, c0, Conf(k, s)) && k + 1 < |p| && t < |p|
    requires p[k] == Alu(NoSuffix, OCmp, Imm(0), P32(r)) && p[k + 1].Jcc? && p[k + 1].cc == CE && p[t] == Lab(p[k + 1].l)
    requires GetReg(s, Pool(r)) == Narrow(v) && EnvRel(env, s.mem)
    ensures Reaches(p, c0, Conf(if v == 0 then t + 1 else k + 2, s1))
    ensures EnvRel(env, s1.mem) && Kept(used, env.Keys, s, s1)
  {
    hide Reaches, UniqueLabels, EnvRel, Kept, CmpFlags, Holds;
    s1 := TestZero(p, c0, k, s, r, v);
    KeptFlags(used, env.Keys, s, s1.flags);
    if v == 0 {
      TakeJump(p, c0, k + 1, s1, t);
    } else {
      SkipJump(p, c0, k + 1, s1);
    }
  }

  lemma {:induction false} CondRun(c: Expr, t: Expr, f: Expr, g: GState, p: Prog, c0: Conf, k: nat, s: State, env: Env)
    returns (s1: State)
    requires Ready(Need(Cond(c, t, f)), g, p, c0, k, s, env)
    requires At(p, k, GenE(Cond(c, t, f), g).code) && Eval(Cond(c, t, f), env).Some?
    ensures Reaches(p, c0, Conf(k + |GenE(Cond(c, t, f), g).code|, s1))
    ensures Computed(g.used, GenE(Cond(c, t, f), g).r, Eval(Cond(c, t, f), env).value, s, s1)
    decreases Cond(c, t, f), 0
  {
    hide Reaches, At, UniqueLabels, FrameOk, EnvRel, Kept, Effect, Fits, GenE, Need;
    var a, g1, x, g2, y, g3, els, end := CondShape(c, t, f, g);
    var d, vars := GenE(Cond(c, t, f), g).r, env.Keys;
    var k2, k3 := CondParts(els, end, a.code, a.r, x.code, x.r, y.code, y.r, d, p, k);
    var k1, va := k + |a.code|, Eval(c, env).value;
    EvalKeys(c, env);
    var t1 := ExprRun(c, g1, p, c0, k, s, env);
    var u := BranchRun(a.r, va.v, k2 + 2, g1.used, va.env, p, c0, k1, t1);
    KeptTrans(g1.used, g1.used, vars, s, t1, u);
    var gv, vv, arm, ks, ka := if va.v != 0 then g2 else g3, Eval(if va.v != 0 then t else f, va.env).value,
      if va.v != 0 then x else y, if va.v != 0 then k1 + 2 else k2 + 3, if va.v != 0 then k2 else k3;
    EvalKeys(if va.v != 0 then t else f, va.env);
    var w := ExprRun(if va.v != 0 then t else f, gv, p, c0, ks, u, va.env);
    KeptTrans(g1.used, g1.used, vars, s, u, w);
    s1 := ArmRun(arm.r, d, g.used, vv, p, c0, ka, w);
    KeptLess(g.used, g1.used, vars, s, w);
    KeptTrans(g.used, g.used, vars, s, w, s1);
    if va.v != 0 {
      TakeJump(p, c0, k2 + 1, s1, k3 + 1);
    } else {
      LabelRun(p, c0, k3 + 1, s1);
    }
  }

  lemma KeptLess(used: set<nat>, more: set<nat>, vars: set<nat>, s: State, s1: State)
    requires Kept(more, vars, s, s1) && used <= more
    ensures Kept(used, vars, s, s1)
  {
  }
}
