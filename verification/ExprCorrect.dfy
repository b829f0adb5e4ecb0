/** Expression compilation is correct: wherever the code of an expression stands in a program,
    running it puts the C value into a previously free register. */
module ExprCorrect {
  import opened Words
  import opened Machine
  import opened Options
  import opened Source
  import opened CodegenSpec

  // ----- code in place -----

  ghost predicate At(p: Prog, k: nat, code: Prog) {
    k + |code| <= |p| && p[k..k + |code|] == code
  }

  lemma AtSplit(p: Prog, k: nat, a: Prog, b: Prog)
    requires At(p, k, a + b)
    ensures At(p, k, a) && At(p, k + |a|, b)
  {
    assert p[k..k + |a|] == (a + b)[..|a|] by { assert p[k..k + |a|] == p[k..k + |a + b|][..|a|]; }
    assert p[k + |a|..k + |a| + |b|] == (a + b)[|a|..] by { assert p[k + |a|..k + |a| + |b|] == p[k..k + |a + b|][|a|..]; }
  }

  lemma AtLine(p: Prog, k: nat, code: Prog, i: nat)
    requires At(p, k, code) && i < |code|
    ensures k + i < |p| && p[k + i] == code[i]
  {
    assert p[k..k + |code|][i] == p[k + i];
  }

  // ----- the frame -----

  // Locals lie below the && byte and do not overlap.
  ghost predicate FrameOk(vars: set<nat>) {
    && (forall x :: x in vars ==> x >= 84)
    && (forall x, y :: x in vars && y in vars && x < y ==> y - x >= 4)
  }

  ghost predicate EnvRel(env: Env, m: Memory) {
    forall x :: x in env ==> Load32(m, Addr(x)) == env[x]
  }

  // m and m' agree except on the locals and on the && byte.
  ghost predicate SameOutside(vars: set<nat>, m: Memory, m': Memory) {
    forall a :: a != Addr(SPILL_LOGAND) && (forall x :: x in vars ==> a < Addr(x) || a >= Addr(x) + 4) ==> GetByte(m', a) == GetByte(m, a)
  }

  lemma StoreKeepsOutside(vars: set<nat>, m: Memory, x: nat, v: I32)
    requires x in vars
    ensures SameOutside(vars, m, Store32(m, Addr(x), v))
  {
    var m' := Store32(m, Addr(x), v);
    forall a | forall y :: y in vars ==> a < Addr(y) || a >= Addr(y) + 4
      ensures GetByte(m', a) == GetByte(m, a)
    {
      assert a < Addr(x) || a >= Addr(x) + 4;
    }
  }

  lemma StoreLocal(env: Env, m: Memory, x: nat, v: I32)
    requires FrameOk(env.Keys) && EnvRel(env, m) && x in env
    ensures EnvRel(env[x := v], Store32(m, Addr(x), v))
    ensures SameOutside(env.Keys, m, Store32(m, Addr(x), v))
  {
    StoreKeepsOutside(env.Keys, m, x, v);
    forall y | y in env[x := v]
      ensures Load32(Store32(m, Addr(x), v), Addr(y)) == env[x := v][y]
    {
      if y == x {
        LoadStore32(m, Addr(x), v);
      } else {
        assert x in env.Keys && y in env.Keys;
        LoadStore32Other(m, Addr(x), v, Addr(y));
      }
    }
  }

  lemma StoreFlagByte(env: Env, m: Memory, b: Byte)
    requires FrameOk(env.Keys) && EnvRel(env, m)
    ensures EnvRel(env, m[Addr(SPILL_LOGAND) := b])
    ensures SameOutside(env.Keys, m, m[Addr(SPILL_LOGAND) := b])
  {
  }

  lemma {:induction false} EvalKeys(e: Expr, env: Env)
    requires Eval(e, env).Some?
    ensures Eval(e, env).value.env.Keys == env.Keys
  {
    match e
    case Num(_) =>
    case Var(_) =>
    case Assign(_, rhs) => EvalKeys(rhs, env);
    case Bin(_, lhs, rhs) => EvalKeys(lhs, env); EvalKeys(rhs, Eval(lhs, env).value.env);
    case Neg(e1) => EvalKeys(e1, env);
    case BitNot(e1) => EvalKeys(e1, env);
    case Not(e1) => EvalKeys(e1, env);
    case LogAnd(lhs, rhs) =>
      EvalKeys(lhs, env);
      if Eval(lhs, env).value.v != 0 { EvalKeys(rhs, Eval(lhs, env).value.env); }
    case LogOr(lhs, rhs) =>
      EvalKeys(lhs, env);
      if Eval(lhs, env).value.v == 0 { EvalKeys(rhs, Eval(lhs, env).value.env); }
    case Cond(c, t, f) =>
      EvalKeys(c, env);
      EvalKeys(if Eval(c, env).value.v != 0 then t else f, Eval(c, env).value.env);
    case Comma(lhs, rhs) => EvalKeys(lhs, env); EvalKeys(rhs, Eval(lhs, env).value.env);
    case PostInc(_) =>
    case PostDec(_) =>
  }

  // ----- runs -----

  // One line that does not jump.
  lemma Advance(p: Prog, c0: Conf, k: nat, s: State, i: Instr) returns (s1: State)
    requires Reaches(p, c0, Conf(k, s))
    requires k < |p| && p[k] == i && Effect(i, s).Some?
    ensures s1 == Effect(i, s).value
    ensures Reaches(p, c0, Conf(k + 1, s1))
  {
    s1 := Effect(i, s).value;
    ReachThen(p, c0, Conf(k, s));
  }

  // From s, code computed the value a into register r, leaving the registers in use alone.
  ghost predicate Computed(used: set<nat>, r: nat, a: Value, s: State, s1: State) {
    && GetReg(s1, Pool(r)) == Narrow(a.v)
    && EnvRel(a.env, s1.mem)
    && Kept(used, a.env.Keys, s, s1)
  }

  ghost predicate Kept(used: set<nat>, vars: set<nat>, s: State, s1: State) {
    && (forall i :: i in used ==> GetReg(s1, Pool(i)) == GetReg(s, Pool(i)))
    && SameOutside(vars, s.mem, s1.mem)
  }

  lemma KeptTrans(used: set<nat>, more: set<nat>, vars: set<nat>, s: State, s1: State, s2: State)
    requires Kept(used, vars, s, s1) && Kept(more, vars, s1, s2) && used <= more
    ensures Kept(used, vars, s, s2)
  {
  }

  lemma KeptFlags(used: set<nat>, vars: set<nat>, s: State, f: Flags)
    ensures Kept(used, vars, s, s.(flags := f))
  {
  }

  lemma KeptReg(used: set<nat>, vars: set<nat>, s: State, s1: State, i: nat)
    requires Kept(used, vars, s, s1) && i in used
    ensures GetReg(s1, Pool(i)) == GetReg(s, Pool(i))
  {
  }

  // The test of register r against zero.
  lemma TestZero(p: Prog, c0: Conf, k: nat, s: State, r: nat, v: I32) returns (s1: State)
    requires Reaches(p, c0, Conf(k, s))
    requires k < |p| && p[k] == Alu(NoSuffix, OCmp, Imm(0), P32(r)) && GetReg(s, Pool(r)) == Narrow(v)
    ensures s1 == s.(flags := CmpFlags(W32, Narrow(v), Narrow(0)))
    ensures Reaches(p, c0, Conf(k + 1, s1))
    ensures s1.flags.Flags? && Holds(CE, s1.flags) == (v == 0) && Holds(CNE, s1.flags) == (v != 0)
  {
    s1 := Advance(p, c0, k, s, p[k]);
    FlagsCompare(CE, v, 0);
    FlagsCompare(CNE, v, 0);
  }

  // A conditional jump whose condition is known to be taken or not.
  lemma TakeJump(p: Prog, c0: Conf, k: nat, s: State, t: nat)
    requires UniqueLabels(p) && Reaches(p, c0, Conf(k, s)) && k < |p| && t < |p|
    requires (p[k].Jcc? && s.flags.Flags? && Holds(p[k].cc, s.flags)) || p[k].Jmp?
    requires p[t] == Lab(p[k].l)
    ensures Reaches(p, c0, Conf(t + 1, s))
  {
    TargetAt(p, p[k].l, t);
    ReachThen(p, c0, Conf(k, s));
    ReachThen(p, c0, Conf(t, s));
  }

  lemma SkipJump(p: Prog, c0: Conf, k: nat, s: State)
    requires Reaches(p, c0, Conf(k, s)) && k < |p|
    requires p[k].Jcc? && s.flags.Flags? && !Holds(p[k].cc, s.flags)
    ensures Reaches(p, c0, Conf(k + 1, s))
  {
    ReachThen(p, c0, Conf(k, s));
  }

  // ----- operators on registers -----

  // Only pool register r, the scratch registers and the flags may differ.
  ghost predicate OnlyReg(r: nat, s: State, s1: State) {
    && (forall i: nat :: i != r ==> GetReg(s1, Pool(i)) == GetReg(s, Pool(i)))
    && s1.mem == s.mem
  }

  lemma AluMeaning(op: BinOp, a: I32, b: I32)
    requires !IsComparison(op) && !op.Div? && !op.Mod? && !op.Shl32? && !op.Shr32?
    ensures BinVal(op, a, b) == Some(Wrap32(AluInt(AluOf(op), a, b)))
  {
  }

  lemma WrapInRange(x: I32)
    ensures Wrap32(x) == x
  {
  }

  // The operations gen leaves out compute what the operator computes.
  lemma IdentityMeaning(op: BinOp, a: I32, imm: I32)
    requires IsIdentity(op, imm)
    ensures BinVal(op, a, imm) == Some(a)
  {
    WrapInRange(a);
    match op
    case BitOr => BitwiseZero(BOr, a);
    case BitXor => BitwiseZero(BXor, a);
    case Mul => assert Words.Mul(a, imm) == a;
    case _ =>
  }

  // A constant on the right takes no register, except in a division.
  lemma ConstantInPlace(op: BinOp, lhs: Expr, v: I32, g: GState)
    requires !op.Div? && !op.Mod?
    ensures var a := GenE(lhs, g);
      GenE(Bin(op, lhs, Num(v)), g) == Gen(a.code + ConstCode(op, v, a.r), a.r, a.g)
  {
  }

  // Of these five operators, gen leaves out exactly the operations that change no operand.
  lemma NothingEmittedIff(op: BinOp, imm: I32, r: nat)
    requires op in {Add, Sub, Mul, BitOr, BitXor}
    ensures ImmCode(op, imm, r) == [] <==> forall a: I32 :: BinVal(op, a, imm) == Some(a)
  {
    if IsIdentity(op, imm) {
      forall a: I32 ensures BinVal(op, a, imm) == Some(a) {
        IdentityMeaning(op, a, imm);
      }
    } else {
      Changed(op, imm);
      assert BinVal(op, if op.Mul? then 1 else 0, imm) != Some(if op.Mul? then 1 else 0);
    }
  }

  lemma Changed(op: BinOp, imm: I32)
    requires op in {Add, Sub, Mul, BitOr, BitXor} && !IsIdentity(op, imm)
    ensures BinVal(op, if op.Mul? then 1 else 0, imm) != Some(if op.Mul? then 1 else 0)
  {
    WrapInRange(imm);
    match op
    case BitOr => BitwiseZeroLeft(BOr, imm);
    case BitXor => BitwiseZeroLeft(BXor, imm);
    case Mul => assert Words.Mul(1, imm) == imm;
    case _ =>
  }

  lemma {:induction false} BitwiseZeroLeft(op: BitOp, x: I32)
    requires op.BOr? || op.BXor?
    ensures Bits32(op, 0, x) == x
  {
    BitwiseLeft(op, x);
    WrapInRange(x);
  }

  lemma {:induction false} BitwiseLeft(op: BitOp, x: int)
    requires op.BOr? || op.BXor?
    ensures Bitwise(op, 0, x) == x
    decreases Abs(x)
  {
    if x != 0 && x != -1 {
      BitwiseLeft(op, x / 2);
    }
  }

  // A multiplication by a constant is a shift exactly if the constant is a power of two above 1.
  lemma ShiftEmittedIff(imm: I32, r: nat)
    ensures (exists k: nat :: k > 0 && imm == Pow2(k)) <==> |ImmCode(Mul, imm, r)| == 1 && ImmCode(Mul, imm, r)[0].ShiftImm?
  {
    hide Bitwise;
    if imm > 1 && Bitwise(BAnd, imm, imm - 1) == 0 {
      PowerFound(imm);
    }
    if k: nat :| k > 0 && imm == Pow2(k) {
      PowerOfTwoPasses(k);
      PowerOfTwoPasses(k - 1);
      assert imm == 2 * Pow2(k - 1);
    }
  }

  lemma PowerFound(imm: int)
    requires imm > 1 && Bitwise(BAnd, imm, imm - 1) == 0
    ensures exists k: nat :: k > 0 && imm == Pow2(k)
  {
    PowerOfTwoTest(imm);
    assert Pow2(0) == 1;
  }

  // A multiplication by a power of two is a shift.
  lemma StrengthReduction(op: BinOp, a: I32, imm: I32)
    requires IsShiftable(op, imm)
    ensures BinVal(op, a, imm) == Some(Shift(OShl, a, Log2(imm)))
  {
    hide Wrap32, Pow2, Log2, Bitwise, Words.Mul;
    PowerOfTwoTest(imm);
    Log2Int(imm);
    assert Log2(imm) % 32 == Log2(imm);
  }

  lemma ShiftMeaning(op: BinOp, a: I32, b: I32)
    requires (op.Shl32? || op.Shr32?) && BinVal(op, a, b).Some?
    ensures BinVal(op, a, b) == Some(Shift(ShiftOf(op), a, b)) && b >= 0
  {
    assert b % 32 == b;
  }

  // setcc %al; movzbl %al, r -- after a comparison of a with b.
  lemma SetRun(op: BinOp, p: Prog, c0: Conf, k: nat, s: State, r: nat, a: I32, b: I32) returns (s1: State)
    requires IsComparison(op) && Reaches(p, c0, Conf(k, s)) && At(p, k, SetCode(op, r))
    requires s.flags == CmpFlags(W32, Narrow(a), Narrow(b))
    ensures Reaches(p, c0, Conf(k + 2, s1)) && OnlyReg(r, s, s1)
    ensures BinVal(op, a, b).Some? && GetReg(s1, Pool(r)) == Narrow(BinVal(op, a, b).value)
  {
    var code := SetCode(op, r);
    AtLine(p, k, code, 0);
    AtLine(p, k, code, 1);
    FlagsCompare(CcOf(op), a, b);
    s1 := Advance(p, c0, k, s, code[0]);
    s1 := Advance(p, c0, k + 1, s1, code[1]);
  }

  // A right operand that denotes the int b: an immediate or a register.
  ghost predicate Denotes(s: State, o: Operand, b: I32) {
    o == Imm(b) || (o.R? && o.w.W32? && GetReg(s, o.r) == Narrow(b))
  }

  lemma AluRun(op: AluOp, p: Prog, c0: Conf, k: nat, s: State, r: nat, o: Operand, a: I32, b: I32) returns (s1: State)
    requires Reaches(p, c0, Conf(k, s)) && k < |p| && p[k] == Alu(NoSuffix, op, o, P32(r))
    requires GetReg(s, Pool(r)) == Narrow(a) && Denotes(s, o, b)
    ensures Reaches(p, c0, Conf(k + 1, s1)) && OnlyReg(r, s, s1)
    ensures op.OCmp? ==> s1 == s.(flags := CmpFlags(W32, Narrow(a), Narrow(b)))
    ensures !op.OCmp? ==> GetReg(s1, Pool(r)) == Narrow(Wrap32(AluInt(op, a, b)))
  {
    assert Read(s, o, W32) == Some(Narrow(b));
    s1 := Advance(p, c0, k, s, p[k]);
  }

  lemma ShiftImmRun(sop: ShiftOp, p: Prog, c0: Conf, k: nat, s: State, r: nat, a: I32, n: nat) returns (s1: State)
    requires Reaches(p, c0, Conf(k, s)) && k < |p| && p[k] == ShiftImm(sop, n, Pool(r))
    requires GetReg(s, Pool(r)) == Narrow(a)
    ensures Reaches(p, c0, Conf(k + 1, s1)) && OnlyReg(r, s, s1)
    ensures GetReg(s1, Pool(r)) == Narrow(Shift(sop, a, n))
  {
    s1 := Advance(p, c0, k, s, p[k]);
  }

  lemma ConstRun(op: BinOp, p: Prog, c0: Conf, k: nat, s: State, r: nat, a: I32, imm: I32) returns (s1: State)
    requires !op.Div? && !op.Mod?
    requires Reaches(p, c0, Conf(k, s)) && At(p, k, ConstCode(op, imm, r))
    requires GetReg(s, Pool(r)) == Narrow(a) && BinVal(op, a, imm).Some?
    ensures Reaches(p, c0, Conf(k + |ConstCode(op, imm, r)|, s1)) && OnlyReg(r, s, s1)
    ensures GetReg(s1, Pool(r)) == Narrow(BinVal(op, a, imm).value)
  {
    var code := ConstCode(op, imm, r);
    if op.Shl32? || op.Shr32? {
      ShiftMeaning(op, a, imm);
      AtLine(p, k, code, 0);
      s1 := ShiftImmRun(ShiftOf(op), p, c0, k, s, r, a, imm);
    } else {
      AtSplit(p, k, ImmCode(op, imm, r), SetCode(op, r));
      s1 := ImmRun(op, p, c0, k, s, r, a, imm);
    }
  }

  lemma ImmRun(op: BinOp, p: Prog, c0: Conf, k: nat, s: State, r: nat, a: I32, imm: I32) returns (s1: State)
    requires !op.Div? && !op.Mod? && !op.Shl32? && !op.Shr32?
    requires Reaches(p, c0, Conf(k, s))
    requires At(p, k, ImmCode(op, imm, r)) && At(p, k + |ImmCode(op, imm, r)|, SetCode(op, r))
    requires GetReg(s, Pool(r)) == Narrow(a) && BinVal(op, a, imm).Some?
    ensures Reaches(p, c0, Conf(k + |ImmCode(op, imm, r)| + |SetCode(op, r)|, s1)) && OnlyReg(r, s, s1)
    ensures GetReg(s1, Pool(r)) == Narrow(BinVal(op, a, imm).value)
  {
    hide Reaches, BinVal, Shift, Bitwise, Log2;
    if IsIdentity(op, imm) {
      IdentityMeaning(op, a, imm);
      s1 := s;
    } else {
      AtLine(p, k, ImmCode(op, imm, r), 0);
      if IsShiftable(op, imm) {
        StrengthReduction(op, a, imm);
        s1 := ShiftImmRun(OShl, p, c0, k, s, r, a, Log2(imm));
      } else {
        s1 := AluRun(AluOf(op), p, c0, k, s, r, Imm(imm), a, imm);
        if IsComparison(op) {
          s1 := SetRun(op, p, c0, k + 1, s1, r, a, imm);
        } else {
          AluMeaning(op, a, imm);
        }
      }
    }
  }

  lemma DivRun(op: BinOp, p: Prog, c0: Conf, k: nat, s: State, r: nat, q: nat, a: I32, b: I32) returns (s1: State)
    requires op.Div? || op.Mod?
    requires Reaches(p, c0, Conf(k, s)) && At(p, k, DivCode(op, r, q))
    requires GetReg(s, Pool(r)) == Narrow(a) && GetReg(s, Pool(q)) == Narrow(b) && BinVal(op, a, b).Some?
    ensures Reaches(p, c0, Conf(k + 4, s1)) && OnlyReg(r, s, s1)
    ensures GetReg(s1, Pool(r)) == Narrow(BinVal(op, a, b).value)
  {
    hide Reaches, At, Sdiv, Smod, Wrap32;
    var code := DivCode(op, r, q);
    AtLine(p, k, code, 0);
    AtLine(p, k, code, 1);
    AtLine(p, k, code, 2);
    AtLine(p, k, code, 3);
    s1 := Advance(p, c0, k, s, code[0]);
    s1 := Advance(p, c0, k + 1, s1, code[1]);
    s1 := Advance(p, c0, k + 2, s1, code[2]);
    s1 := Advance(p, c0, k + 3, s1, code[3]);
  }

  lemma ShiftRun(op: BinOp, p: Prog, c0: Conf, k: nat, s: State, r: nat, q: nat, a: I32, b: I32) returns (s1: State)
    requires op.Shl32? || op.Shr32?
    requires Reaches(p, c0, Conf(k, s)) && At(p, k, ShiftCode(op, r, q))
    requires GetReg(s, Pool(r)) == Narrow(a) && GetReg(s, Pool(q)) == Narrow(b) && BinVal(op, a, b).Some?
    ensures Reaches(p, c0, Conf(k + 2, s1)) && OnlyReg(r, s, s1)
    ensures GetReg(s1, Pool(r)) == Narrow(BinVal(op, a, b).value)
  {
    hide Reaches, At, Shl, Sar, Wrap32;
    var code := ShiftCode(op, r, q);
    ShiftMeaning(op, a, b);
    AtLine(p, k, code, 0);
    AtLine(p, k, code, 1);
    s1 := Advance(p, c0, k, s, code[0]);
    s1 := Advance(p, c0, k + 1, s1, code[1]);
  }

  lemma BinRun(op: BinOp, p: Prog, c0: Conf, k: nat, s: State, r: nat, q: nat, a: I32, b: I32) returns (s1: State)
    requires Reaches(p, c0, Conf(k, s))
    requires At(p, k, BinCode(op, r, q)) && At(p, k + |BinCode(op, r, q)|, SetCode(op, r))
    requires GetReg(s, Pool(r)) == Narrow(a) && GetReg(s, Pool(q)) == Narrow(b) && BinVal(op, a, b).Some?
    ensures Reaches(p, c0, Conf(k + |BinCode(op, r, q)| + |SetCode(op, r)|, s1)) && OnlyReg(r, s, s1)
    ensures GetReg(s1, Pool(r)) == Narrow(BinVal(op, a, b).value)
  {
    hide Reaches, At, Effect, BinVal, AluInt, Wrap32;
    if op.Div? || op.Mod? {
      s1 := DivRun(op, p, c0, k, s, r, q, a, b);
    } else if op.Shl32? || op.Shr32? {
      s1 := ShiftRun(op, p, c0, k, s, r, q, a, b);
    } else {
      AtLine(p, k, BinCode(op, r, q), 0);
      s1 := AluRun(AluOf(op), p, c0, k, s, r, P32(q), a, b);
      if IsComparison(op) {
        s1 := SetRun(op, p, c0, k + 1, s1, r, a, b);
      } else {
        AluMeaning(op, a, b);
      }
    }
  }
}
