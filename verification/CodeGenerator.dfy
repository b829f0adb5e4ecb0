/** The code generator itself: an object that hands out registers and labels and appends lines to
    its output as it walks the tree.  Every method is proved against the functions of
    CodegenSpec and StmtSpec, about which the correctness theorems are. */
module CodeGenerator {
  import opened Words
  import opened Machine
  import opened Options
  import opened Source
  import opened CodegenSpec
  import opened StmtSpec

  const MAX_DEPTH: nat := 128

  // How deep s nests loops.
  function LoopDepth(s: Stmt): nat {
    match s
    case Block(body) => LoopDepthList(body)
    case If(_, t, f) => Max(LoopDepth(t), if f.Some? then LoopDepth(f.value) else 0)
    case For(_, _, _, body) => 1 + LoopDepth(body)
    case Do(body, _) => 1 + LoopDepth(body)
    case _ => 0
  }

  function LoopDepthList(l: StmtList): nat {
    match l
    case Nil => 0
    case Cons(s, tail) => Max(LoopDepth(s), LoopDepthList(tail))
  }

  // Appending to the output stream.
  function Cat(a: Prog, b: Prog): Prog { a + b }

  lemma Assoc(o: Prog, a: Prog, rest: Prog)
    ensures Cat(Cat(o, a), rest) == Cat(o, a + rest)
  {
  }

  lemma Assoc3(o: Prog, a: Prog, b: Prog, c: Prog)
    ensures Cat(Cat(Cat(o, a), b), c) == Cat(o, a + (b + c))
  {
    Assoc(Cat(o, a), b, c);
    Assoc(o, a, b + c);
  }

  lemma Assoc4(o: Prog, a: Prog, b: Prog, c: Prog, d: Prog)
    ensures Cat(Cat(Cat(Cat(o, a), b), c), d) == Cat(o, a + (b + (c + d)))
  {
    Assoc3(Cat(o, a), b, c, d);
    Assoc(o, a, b + (c + d));
  }

  lemma Assoc5(o: Prog, a: Prog, b: Prog, c: Prog, d: Prog, e: Prog)
    ensures Cat(Cat(Cat(Cat(Cat(o, a), b), c), d), e) == Cat(o, a + (b + (c + (d + e))))
  {
    Assoc4(Cat(o, a), b, c, d, e);
    Assoc(o, a, b + (c + (d + e)));
  }

  lemma CatNil(o: Prog)
    ensures Cat(o, []) == o
  {
  }

  lemma Assoc6(o: Prog, a: Prog, b: Prog, c: Prog, d: Prog, e: Prog, f: Prog)
    ensures Cat(Cat(Cat(Cat(Cat(Cat(o, a), b), c), d), e), f) == Cat(o, a + (b + (c + (d + (e + f)))))
  {
    Assoc4(Cat(Cat(o, a), b), c, d, e, f);
    Assoc3(o, a, b, c + (d + (e + f)));
  }

  // Code for e, then a comparison with 0, the given lines, and the release of the register.
  function TestCode(a: Gen, lines: Prog): Prog {
    a.code + ([Alu(NoSuffix, OCmp, Imm(0), P32(a.r))] + lines + Free(a.g, a.r).code)
  }

  // Code for e, moved to register d.
  function MoveCode(a: Gen, d: nat): Prog {
    a.code + ([Mov(NoSuffix, P64(a.r), P64(d))] + Free(a.g, a.r).code)
  }

  // The output after the pieces of a logical operator.
  lemma LogicalOut(o: Prog, isAnd: bool, c: nat, a: Gen, b: Gen)
    ensures var end, fb := Label(LEnd, c), Free(b.g, b.r);
      var d, j := Alloc(fb.g), JoinLogical(isAnd, c, a, b);
      && Cat(Cat(Cat(Cat(Cat(o, TestCode(a, [MovbImm(if isAnd then 0 else 1, SPILL_LOGAND), Jcc(if isAnd then CE else CNE, end)])),
                         TestCode(b, [Setcc(CNE), MovbAl(SPILL_LOGAND)])), [Lab(end)]), d.code),
             [MovzblFrame(SPILL_LOGAND, Pool(d.r))]) == Cat(o, j.code)
      && j.r == d.r && j.g == d.g
  {
    hide Free, Alloc, Cat;
    var end := Label(LEnd, c);
    var head := [MovbImm(if isAnd then 0 else 1, SPILL_LOGAND), Jcc(if isAnd then CE else CNE, end)];
    var mid := [Setcc(CNE), MovbAl(SPILL_LOGAND)];
    var d := Alloc(Free(b.g, b.r).g);
    var last := [MovzblFrame(SPILL_LOGAND, Pool(d.r))];
    var test := [Alu(NoSuffix, OCmp, Imm(0), P32(a.r)), head[0], head[1]];
    var test2 := [Alu(NoSuffix, OCmp, Imm(0), P32(b.r)), mid[0], mid[1]];
    var fa, fb := Free(a.g, a.r).code, Free(b.g, b.r).code;
    var tail := [Lab(end)] + (d.code + last);
    Assoc5(o, TestCode(a, head), TestCode(b, mid), [Lab(end)], d.code, last);
    assert TestCode(b, mid) + tail == b.code + (test2 + (fb + tail));
    assert TestCode(a, head) + (TestCode(b, mid) + tail) == a.code + (test + (fa + (TestCode(b, mid) + tail)));
  }

  // The output after the pieces of a conditional expression.
  lemma CondOut(o: Prog, c: nat, d: Gen, a: Gen, x: Gen, y: Gen)
    ensures var els, end, j := Label(LElse, c), Label(LEnd, c), JoinCond(c, d, a, x, y);
      && Cat(Cat(Cat(Cat(Cat(Cat(o, d.code), TestCode(a, [Jcc(CE, els)])), MoveCode(x, d.r)), [Jmp(end), Lab(els)]),
                 MoveCode(y, d.r)), [Lab(end)]) == Cat(o, j.code)
      && j.r == d.r && j.g == Free(y.g, y.r).g
  {
    hide Free, Cat;
    var els, end := Label(LElse, c), Label(LEnd, c);
    var test, mid := [Alu(NoSuffix, OCmp, Imm(0), P32(a.r)), Jcc(CE, els)], [Jmp(end), Lab(els)];
    var m1, m2 := [Mov(NoSuffix, P64(x.r), P64(d.r))], [Mov(NoSuffix, P64(y.r), P64(d.r))];
    var fa, fx, fy := Free(a.g, a.r).code, Free(x.g, x.r).code, Free(y.g, y.r).code;
    Assoc6(o, d.code, TestCode(a, [Jcc(CE, els)]), MoveCode(x, d.r), mid, MoveCode(y, d.r), [Lab(end)]);
    var t1 := MoveCode(y, d.r) + [Lab(end)];
    assert t1 == y.code + (m2 + (fy + [Lab(end)]));
    assert MoveCode(x, d.r) + (mid + t1) == x.code + (m1 + (fx + (mid + t1)));
    var t2 := MoveCode(x, d.r) + (mid + t1);
    assert TestCode(a, [Jcc(CE, els)]) + t2 == a.code + (test + (fa + t2));
  }

  class Generator {
    var usedRegs: set<nat>              // bitmasks
    var everUsedRegs: set<nat>
    var spilledRegs: set<nat>
    const spillSlot: array<nat>         // 0: no slot yet
    var nextSpillSlot: nat
    var labelCount: nat
    const breakStack: array<nat>
    const continueStack: array<nat>
    var ctrlDepth: nat
    var failed: bool                    // error() was called
    var out: Prog                       // the output stream

    ghost predicate Valid()
      reads this, spillSlot
    {
      && spillSlot.Length == NUM_REGS && breakStack.Length == MAX_DEPTH && continueStack.Length == MAX_DEPTH
      && ctrlDepth <= MAX_DEPTH && nextSpillSlot > 0
      && breakStack != continueStack && breakStack != spillSlot && continueStack != spillSlot
      && spilledRegs <= ALL_REGS
    }

    ghost function State(): GState
      requires Valid()
      reads this, spillSlot, breakStack, continueStack
    {
      GState(usedRegs, everUsedRegs, spilledRegs, map r: nat | r < NUM_REGS && spillSlot[r] != 0 :: spillSlot[r],
             nextSpillSlot, labelCount, breakStack[..ctrlDepth], continueStack[..ctrlDepth], failed)
    }

    constructor ()
      ensures Valid() && State() == INITIAL && out == []
      ensures fresh(spillSlot) && fresh(breakStack) && fresh(continueStack)
    {
      usedRegs, everUsedRegs, spilledRegs := {}, {}, {};
      nextSpillSlot, labelCount, ctrlDepth, failed, out := 24, 0, 0, false, [];
      spillSlot := new nat[NUM_REGS](_ => 0);
      breakStack := new nat[MAX_DEPTH](_ => 0);
      continueStack := new nat[MAX_DEPTH](_ => 0);
    }

    method Emit(code: Prog)
      requires Valid()
      modifies this`out
      ensures Valid() && State() == old(State()) && out == Cat(old(out), code)
    {
      out := out + code;
    }

    // spill_offset: the slot of register r, allocated on first use.
    method SpillOffset(r: nat) returns (off: nat)
      requires Valid() && r < NUM_REGS
      modifies this`nextSpillSlot, spillSlot
      ensures Valid() && State() == SpillSlot(old(State()), r) && off == State().slots[r]
      ensures out == old(out)
    {
      if spillSlot[r] == 0 {
        spillSlot[r] := nextSpillSlot;
        nextSpillSlot := nextSpillSlot + 8;
      }
      off := spillSlot[r];
    }

    method AllocReg() returns (r: nat)
      requires Valid()
      modifies this, spillSlot
      ensures ctrlDepth == old(ctrlDepth)
      ensures Valid() && r < NUM_REGS
      ensures State() == Alloc(old(State())).g && r == Alloc(old(State())).r
      ensures out == Cat(old(out), Alloc(old(State())).code)
    {
      for i := 0 to NUM_REGS
        invariant Valid() && State() == old(State()) && out == old(out)
        invariant forall j :: 0 <= j < i ==> j in usedRegs
      {
        if i !in usedRegs {
          usedRegs := usedRegs + {i};
          everUsedRegs := everUsedRegs + {i};
          FirstFreeIs(old(usedRegs), i);
          return i;
        }
      }
      r := NUM_REGS - 1;
      var off := SpillOffset(r);
      Emit([Mov(NoSuffix, P64(r), Frame(off))]);
      spilledRegs := spilledRegs + {r};
      everUsedRegs := everUsedRegs + {r};
    }

    method FreeReg(r: nat)
      requires Valid()
      modifies this, spillSlot
      ensures ctrlDepth == old(ctrlDepth)
      ensures Valid() && State() == Free(old(State()), r).g && out == Cat(old(out), Free(old(State()), r).code)
    {
      if r in spilledRegs {
        var off := SpillOffset(r);
        Emit([Mov(NoSuffix, Frame(off), P64(r))]);
        spilledRegs := spilledRegs - {r};
      }
      usedRegs := usedRegs - {r};
    }

    // ++rcc_label_count
    method NewLabel() returns (c: nat)
      requires Valid()
      modifies this`labelCount
      ensures Valid() && State() == FreshLabel(old(State())) && c == State().labels && out == old(out)
    {
      labelCount := labelCount + 1;
      c := labelCount;
    }

    // ----- expressions -----

    // The shift count that replaces a multiplication by imm.
    method ShiftCount(imm: I32) returns (shift: nat)
      ensures shift == Log2(imm)
    {
      shift := 0;
      var tmp: int := imm;
      while tmp > 1
        invariant shift + Log2(tmp) == Log2(imm)
      {
        shift := shift + 1;
        tmp := tmp / 2;
      }
    }

    // A binary operator with a constant right operand, on register r.
    method EmitConst(op: BinOp, imm: I32, r: nat)
      requires Valid() && !op.Div? && !op.Mod?
      modifies this`out
      ensures Valid() && State() == old(State()) && out == Cat(old(out), ConstCode(op, imm, r))
    {
      if op.Shl32? || op.Shr32? {
        Emit([ShiftImm(ShiftOf(op), imm, Pool(r))]);
      } else {
        if IsIdentity(op, imm) {
          CatNil(out);
        } else if IsShiftable(op, imm) {
          var shift := ShiftCount(imm);
          Emit([ShiftImm(OShl, shift, Pool(r))]);
        } else {
          Emit([Alu(NoSuffix, AluOf(op), Imm(imm), P32(r))]);
        }
        assert out == Cat(old(out), ImmCode(op, imm, r));
        Emit(SetCode(op, r));
        Assoc(old(out), ImmCode(op, imm, r), SetCode(op, r));
      }
    }

    // Evaluate e, compare it with 0, emit the lines that use the flags, release its register.
    method GenZeroTest(e: Expr, lines: Prog)
      requires Valid()
      modifies this, spillSlot
      ensures ctrlDepth == old(ctrlDepth)
      ensures Valid()
      ensures var a := GenE(e, old(State()));
        State() == Free(a.g, a.r).g && out == Cat(old(out), TestCode(a, lines))
      decreases e, 3
    {
      hide State, Valid, Cat, GenE, Free;
      ghost var o, a := out, GenE(e, State());
      var r := GenExpr(e);
      var test := [Alu(NoSuffix, OCmp, Imm(0), P32(r))] + lines;
      Emit(test);
      ghost var f := Free(State(), r);
      FreeReg(r);
      Assoc3(o, a.code, test, f.code);
    }

    // Evaluate e, move its value to register d, release its register.
    method GenMove(e: Expr, d: nat)
      requires Valid()
      modifies this, spillSlot
      ensures ctrlDepth == old(ctrlDepth)
      ensures Valid()
      ensures var a := GenE(e, old(State()));
        State() == Free(a.g, a.r).g && out == Cat(old(out), MoveCode(a, d))
      decreases e, 3
    {
      hide State, Valid, Cat, GenE, Free;
      ghost var o, a := out, GenE(e, State());
      var r := GenExpr(e);
      var mov := [Mov(NoSuffix, P64(r), P64(d))];
      Emit(mov);
      ghost var f := Free(State(), r);
      FreeReg(r);
      Assoc3(o, a.code, mov, f.code);
    }

    method GenLogical(e: Expr) returns (r: nat)
      requires Valid() && (e.LogAnd? || e.LogOr?)
      modifies this, spillSlot
      ensures ctrlDepth == old(ctrlDepth)
      ensures Valid()
      ensures var g0 := FreshLabel(old(State()));
        var a := GenE(e.lhs, g0);
        var s := JoinLogical(e.LogAnd?, g0.labels, a, GenE(e.rhs, Free(a.g, a.r).g));
        State() == s.g && r == s.r && out == Cat(old(out), s.code)
      decreases e, 1
    {
      hide *;
      ghost var o := out;
      var isAnd := e.LogAnd?;
      var c := NewLabel();
      var end := Label(LEnd, c);
      ghost var a := GenE(e.lhs, State());
      GenZeroTest(e.lhs, [MovbImm(if isAnd then 0 else 1, SPILL_LOGAND), Jcc(if isAnd then CE else CNE, end)]);
      ghost var b := GenE(e.rhs, State());
      GenZeroTest(e.rhs, [Setcc(CNE), MovbAl(SPILL_LOGAND)]);
      Emit([Lab(end)]);
      r := AllocReg();
      Emit([MovzblFrame(SPILL_LOGAND, Pool(r))]);
      LogicalOut(o, isAnd, c, a, b);
    }

    method GenCond(c: Expr, t: Expr, f: Expr) returns (r: nat)
      requires Valid()
      modifies this, spillSlot
      ensures ctrlDepth == old(ctrlDepth)
      ensures Valid()
      ensures var g0 := FreshLabel(old(State()));
        var d := Alloc(g0);
        var a := GenE(c, d.g);
        var x := GenE(t, Free(a.g, a.r).g);
        var s := JoinCond(g0.labels, d, a, x, GenE(f, Free(x.g, x.r).g));
        State() == s.g && r == s.r && out == Cat(old(out), s.code)
      decreases Cond(c, t, f), 1
    {
      hide *;
      ghost var o := out;
      var n := NewLabel();
      var els, end := Label(LElse, n), Label(LEnd, n);
      ghost var d := Alloc(State());
      r := AllocReg();
      ghost var a := GenE(c, State());
      GenZeroTest(c, [Jcc(CE, els)]);
      ghost var x := GenE(t, State());
      GenMove(t, r);
      Emit([Jmp(end), Lab(els)]);
      ghost var y := GenE(f, State());
      GenMove(f, r);
      Emit([Lab(end)]);
      CondOut(o, n, d, a, x, y);
    }

    method GenPostOp(x: nat, op: AluOp) returns (r: nat)
      requires Valid()
      modifies this, spillSlot
      ensures ctrlDepth == old(ctrlDepth)
      ensures Valid()
      ensures var s := GenPost(x, op, old(State())); State() == s.g && r == s.r && out == Cat(old(out), s.code)
    {
      hide State, Valid, Cat, Alloc, Free;
      ghost var o, ga := out, Alloc(State());
      var a := AllocReg();
      Emit([Lea(x, Pool(a))]);
      ghost var gb := Alloc(State());
      r := AllocReg();
      var bump := [Mov(NoSuffix, Ind(Pool(a)), P32(r)), Alu(SufL, op, Imm(1), Ind(Pool(a)))];
      Emit(bump);
      ghost var fa := Free(State(), a);
      FreeReg(a);
      Assoc5(o, ga.code, [Lea(x, Pool(a))], gb.code, bump, fa.code);
    }

    // gen on an expression node: appends its code and returns the register of its value.
    method GenExpr(e: Expr) returns (r: nat)
      requires Valid()
      modifies this, spillSlot
      ensures ctrlDepth == old(ctrlDepth)
      ensures Valid()
      ensures State() == GenE(e, old(State())).g && r == GenE(e, old(State())).r
      ensures out == Cat(old(out), GenE(e, old(State())).code)
      decreases e, 2
    {
      hide State, Valid, Cat, Alloc, Free, ConstCode, JoinLogical, JoinCond, GenPost;
      ghost var o, g := out, State();
      match e
      case Num(v) =>
        r := AllocReg();
        Emit([Mov(NoSuffix, Imm(v), P32(r))]);
        Assoc(o, Alloc(g).code, [Mov(NoSuffix, Imm(v), P32(r))]);
      case Var(x) =>
        r := AllocReg();
        Emit([Mov(SufL, Frame(x), P32(r))]);
        Assoc(o, Alloc(g).code, [Mov(SufL, Frame(x), P32(r))]);
      case Assign(x, rhs) =>
        r := GenExpr(rhs);
        Emit([Mov(NoSuffix, P32(r), Frame(x))]);
        Assoc(o, GenE(rhs, g).code, [Mov(NoSuffix, P32(r), Frame(x))]);
      case Bin(op, lhs, rhs) =>
        r := GenExpr(lhs);
        ghost var a := GenE(lhs, g).code;
        if rhs.Num? && !op.Div? && !op.Mod? {
          EmitConst(op, rhs.v, r);
          Assoc(o, a, ConstCode(op, rhs.v, r));
        } else {
          ghost var b := GenE(rhs, State());
          var q := GenExpr(rhs);
          Emit(BinCode(op, r, q));
          ghost var f := Free(State(), q);
          FreeReg(q);
          Emit(SetCode(op, r));
          Assoc5(o, a, b.code, BinCode(op, r, q), f.code, SetCode(op, r));
        }
      case Neg(e1) =>
        r := GenExpr(e1);
        Emit([NegR(Pool(r))]);
        Assoc(o, GenE(e1, g).code, [NegR(Pool(r))]);
      case BitNot(e1) =>
        r := GenExpr(e1);
        Emit([NotR(Pool(r))]);
        Assoc(o, GenE(e1, g).code, [NotR(Pool(r))]);
      case Not(e1) =>
        r := GenExpr(e1);
        var test := [Alu(NoSuffix, OCmp, Imm(0), P32(r)), Setcc(CE), MovzblAl(Pool(r))];
        Emit(test);
        Assoc(o, GenE(e1, g).code, test);
      case LogAnd(_, _) => r := GenLogical(e);
      case LogOr(_, _) => r := GenLogical(e);
      case Cond(c, t, f) => r := GenCond(c, t, f);
      case Comma(lhs, rhs) =>
        var a := GenExpr(lhs);
        ghost var ga, fa := GenE(lhs, g), Free(State(), a);
        FreeReg(a);
        ghost var gb := GenE(rhs, State());
        r := GenExpr(rhs);
        Assoc3(o, ga.code, fa.code, gb.code);
      case PostInc(x) => r := GenPostOp(x, OAdd);
      case PostDec(x) => r := GenPostOp(x, OSub);
    }

    // ----- statements -----

    method GenForEffect(e: Option<Expr>)
      requires Valid()
      modifies this, spillSlot
      ensures ctrlDepth == old(ctrlDepth)
      ensures Valid() && State() == GenEffect(e, old(State())).g && out == Cat(old(out), GenEffect(e, old(State())).code)
    {
      hide State, Valid, Cat, GenE, Free;
      CatNil(out);
      if e.Some? {
        ghost var o, a := out, GenE(e.value, State());
        var r := GenExpr(e.value);
        ghost var f := Free(State(), r);
        FreeReg(r);
        Assoc(o, a.code, f.code);
      }
    }

    // gen_cond_branch_inv
    method GenCondBranchInv(c: Expr, l: Label)
      requires Valid()
      modifies this, spillSlot
      ensures ctrlDepth == old(ctrlDepth)
      ensures Valid() && State() == GenBranchInv(c, l, old(State())).g
      ensures out == Cat(old(out), GenBranchInv(c, l, old(State())).code)
    {
      hide State, Valid, Cat, GenE, Free;
      ghost var o := out;
      if c.Bin? && IsComparison(c.op) {
        ghost var a := GenE(c.lhs, State());
        var r := GenExpr(c.lhs);
        var jump := [Jcc(Negate(CcOf(c.op)), l)];
        if c.rhs.Num? {
          var cmp := [Alu(NoSuffix, OCmp, Imm(c.rhs.v), P32(r))];
          Emit(cmp);
          ghost var f := Free(State(), r);
          FreeReg(r);
          Emit(jump);
          Assoc4(o, a.code, cmp, f.code, jump);
        } else {
          ghost var b := GenE(c.rhs, State());
          var q := GenExpr(c.rhs);
          var cmp := [Alu(NoSuffix, OCmp, P32(q), P32(r))];
          Emit(cmp);
          ghost var fb := Free(State(), q);
          FreeReg(q);
          ghost var fa := Free(State(), r);
          FreeReg(r);
          Emit(jump);
          Assoc6(o, a.code, b.code, cmp, fb.code, fa.code, jump);
        }
      } else {
        ghost var a := GenE(c, State());
        var r := GenExpr(c);
        var cmp := [Alu(NoSuffix, OCmp, Imm(0), P32(r))];
        Emit(cmp);
        ghost var f := Free(State(), r);
        FreeReg(r);
        Emit([Jcc(CE, l)]);
        Assoc4(o, a.code, cmp, f.code, [Jcc(CE, l)]);
      }
    }

    method PushLoop(c: nat)
      requires Valid() && ctrlDepth < MAX_DEPTH
      modifies this`ctrlDepth, breakStack, continueStack
      ensures Valid() && State() == Push(old(State()), c) && out == old(out) && ctrlDepth == old(ctrlDepth) + 1
    {
      breakStack[ctrlDepth] := c;
      continueStack[ctrlDepth] := c;
      ctrlDepth := ctrlDepth + 1;
    }

    method PopLoop()
      requires Valid() && ctrlDepth > 0
      modifies this`ctrlDepth
      ensures Valid() && State() == Pop(old(State())) && out == old(out) && ctrlDepth == old(ctrlDepth) - 1
    {
      ctrlDepth := ctrlDepth - 1;
    }

    // gen on a statement node: appends its code.
    method GenStatement(s: Stmt)
      requires Valid() && ctrlDepth + LoopDepth(s) <= MAX_DEPTH
      modifies this, spillSlot, breakStack, continueStack
      ensures ctrlDepth == old(ctrlDepth)
      ensures Valid() && State() == GenS(s, old(State())).g && out == Cat(old(out), GenS(s, old(State())).code)
      decreases s, 2
    {
      hide GenE, Free, GenEffect, GenBranchInv, JoinIfElse, JoinFor, JoinDo, GenTest;
      ghost var o := out;
      match s
      case Null =>
      case ExprStmt(e) => GenForEffect(Some(e));
      case Block(body) => GenBlock(body);
      case If(c, t, f) => GenIf(c, t, f);
      case For(_, _, _, _) => GenFor(s);
      case Do(_, _) => GenDo(s);
      case Break =>
        if ctrlDepth == 0 {
          failed := true;
        } else {
          Emit([Jmp(Label(LEnd, breakStack[ctrlDepth - 1]))]);
        }
      case Continue =>
        if ctrlDepth == 0 {
          failed := true;
        } else {
          Emit([Jmp(Label(LContinue, continueStack[ctrlDepth - 1]))]);
        }
      case Return(v) =>
        if v.Some? {
          ghost var a := GenE(v.value, State());
          var r := GenExpr(v.value);
          var mov := [Mov(SufQ, P64(r), R(RAX, W64))];
          Emit(mov);
          ghost var f := Free(State(), r);
          FreeReg(r);
          Emit([Jmp(RETURN_LABEL)]);
          Assoc4(o, a.code, mov, f.code, [Jmp(RETURN_LABEL)]);
        } else {
          Emit([Jmp(RETURN_LABEL)]);
        }
    }

    method GenBlock(l: StmtList)
      requires Valid() && ctrlDepth + LoopDepthList(l) <= MAX_DEPTH
      modifies this, spillSlot, breakStack, continueStack
      ensures ctrlDepth == old(ctrlDepth)
      ensures Valid() && State() == GenList(l, old(State())).g && out == Cat(old(out), GenList(l, old(State())).code)
      decreases l, 2
    {
      hide State, Valid, Cat, GenS;
      ghost var o, g := out, State();
      CatNil(out);
      if l.Cons? {
        GenStatement(l.head);
        ghost var x := GenS(l.head, g);
        GenBlock(l.tail);
        Assoc(o, x.code, GenList(l.tail, x.g).code);
      }
    }

    method GenIf(c: Expr, t: Stmt, f: Option<Stmt>)
      requires Valid() && ctrlDepth + LoopDepth(If(c, t, f)) <= MAX_DEPTH
      modifies this, spillSlot, breakStack, continueStack
      ensures ctrlDepth == old(ctrlDepth)
      ensures Valid() && State() == GenS(If(c, t, f), old(State())).g && out == Cat(old(out), GenS(If(c, t, f), old(State())).code)
      decreases If(c, t, f), 1
    {
      hide State, Valid, Cat, GenE, Free, GenBranchInv;
      ghost var o := out;
      CatNil(out);
      if c.Num? {
        if c.v != 0 {
          GenStatement(t);
        } else if f.Some? {
          GenStatement(f.value);
        }
        return;
      }
      var n := NewLabel();
      var els, end := Label(LElse, n), Label(LEnd, n);
      var to := if f.Some? then els else end;
      ghost var b := GenBranchInv(c, to, State());
      GenCondBranchInv(c, to);
      ghost var x := GenS(t, State());
      GenStatement(t);
      if f.Some? {
        var mid := [Jmp(end), Lab(els)];
        Emit(mid);
        ghost var y := GenS(f.value, State());
        GenStatement(f.value);
        Emit([Lab(end)]);
        Assoc5(o, b.code, x.code, mid, y.code, [Lab(end)]);
      } else {
        Emit([Lab(end)]);
        Assoc3(o, b.code, x.code, [Lab(end)]);
      }
    }

    method GenFor(s: Stmt)
      requires Valid() && s.For? && ctrlDepth + LoopDepth(s) <= MAX_DEPTH
      modifies this, spillSlot, breakStack, continueStack
      ensures ctrlDepth == old(ctrlDepth)
      ensures Valid()
      ensures var g0 := FreshLabel(old(State()));
        var i := GenEffect(s.init, g0);
        var b := GenTest(s.test, Label(LEnd, g0.labels), Push(i.g, g0.labels));
        var x := GenS(s.body1, b.g);
        var f := JoinFor(g0.labels, i, b, x, GenEffect(s.inc, x.g));
        State() == f.g && out == Cat(old(out), f.code)
      decreases s, 1
    {
      hide State, Valid, Cat, GenE, Free, GenBranchInv, GenEffect, GenS;
      ghost var o := out;
      var c := NewLabel();
      var begin, cont, end := Label(LBegin, c), Label(LContinue, c), Label(LEnd, c);
      ghost var i := GenEffect(s.init, State());
      GenForEffect(s.init);
      PushLoop(c);
      Emit([Lab(begin)]);
      ghost var b := GenTest(s.test, end, State());
      CatNil(out);
      if s.test.Some? {
        GenCondBranchInv(s.test.value, end);
      }
      ghost var x := GenS(s.body1, State());
      GenStatement(s.body1);
      Emit([Lab(cont)]);
      ghost var n := GenEffect(s.inc, State());
      GenForEffect(s.inc);
      var last := [Jmp(begin), Lab(end)];
      Emit(last);
      PopLoop();
      Assoc(Cat(Cat(Cat(Cat(Cat(o, i.code), [Lab(begin)]), b.code), x.code), [Lab(cont)]), n.code, last);
      Assoc6(o, i.code, [Lab(begin)], b.code, x.code, [Lab(cont)], n.code + last);
    }

    method GenDo(s: Stmt)
      requires Valid() && s.Do? && ctrlDepth + LoopDepth(s) <= MAX_DEPTH
      modifies this, spillSlot, breakStack, continueStack
      ensures ctrlDepth == old(ctrlDepth)
      ensures Valid()
      ensures var g0 := FreshLabel(old(State()));
        var x := GenS(s.body1, Push(g0, g0.labels));
        var f := JoinDo(g0.labels, x, GenE(s.cond, x.g));
        State() == f.g && out == Cat(old(out), f.code)
      decreases s, 1
    {
      hide State, Valid, Cat, GenE, Free, GenS;
      ghost var o := out;
      var c := NewLabel();
      var begin, cont, end := Label(LBegin, c), Label(LContinue, c), Label(LEnd, c);
      Emit([Lab(begin)]);
      PushLoop(c);
      ghost var x := GenS(s.body1, State());
      GenStatement(s.body1);
      Emit([Lab(cont)]);
      ghost var a := GenE(s.cond, State());
      var r := GenExpr(s.cond);
      var cmp := [Alu(NoSuffix, OCmp, Imm(0), P32(r))];
      Emit(cmp);
      ghost var f := Free(State(), r);
      FreeReg(r);
      var last := [Jcc(CNE, begin), Lab(end)];
      Emit(last);
      PopLoop();
      Assoc(Cat(Cat(Cat(Cat(Cat(o, [Lab(begin)]), x.code), [Lab(cont)]), a.code), cmp), f.code, last);
      Assoc6(o, [Lab(begin)], x.code, [Lab(cont)], a.code, cmp, f.code + last);
    }
  }

  lemma {:induction false} FirstFreeFrom(used: set<nat>, i: nat, k: nat)
    requires k <= i < NUM_REGS && i !in used && forall j :: 0 <= j < i ==> j in used
    ensures FirstFree(used, k) == i
    decreases i - k
  {
    if k < i {
      FirstFreeFrom(used, i, k + 1);
    }
  }

  lemma FirstFreeIs(used: set<nat>, i: nat)
    requires i < NUM_REGS && i !in used && forall j :: 0 <= j < i ==> j in used
    ensures FirstFree(used) == i
  {
    FirstFreeFrom(used, i, 0);
  }
}
