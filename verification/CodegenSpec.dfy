/** What gen emits, as functions of the code generator's state. */
module CodegenSpec {
  import opened Words
  import opened Machine
  import opened Source

  const NUM_REGS: nat := 8
  const SPILL_LOGAND: nat := 8         // the byte at -8(%rbp) shared by all && and ||
  const RETURN_LABEL := Label(LReturn, 0)

  // used, everUsed, spilled are the register bitmasks; slots the spill_slot array;
  // breaks and continues the label stacks, innermost last; failed records a call of error().
  datatype GState = GState(used: set<nat>, everUsed: set<nat>, spilled: set<nat>, slots: map<nat, nat>,
                           nextSlot: nat, labels: nat, breaks: seq<nat>, continues: seq<nat>, failed: bool)

  datatype Gen = Gen(code: Prog, r: nat, g: GState)

  // init_spill_slots has handed out the && byte and the atomics slot.
  const INITIAL := GState({}, {}, {}, map[], 24, 0, [], [], false)

  function P32(r: nat): Operand { R(Pool(r), W32) }
  function P64(r: nat): Operand { R(Pool(r), W64) }

  // ----- registers -----

  function FirstFree(used: set<nat>, i: nat := 0): (r: nat)
    requires i <= NUM_REGS
    ensures i <= r <= NUM_REGS
    ensures r < NUM_REGS ==> r !in used
    ensures forall j :: i <= j < r ==> j in used
    decreases NUM_REGS - i
  {
    if i == NUM_REGS || i !in used then i else FirstFree(used, i + 1)
  }

  function SpillSlot(g: GState, r: nat): GState {
    if r in g.slots then g else g.(slots := g.slots[r := g.nextSlot], nextSlot := g.nextSlot + 8)
  }

  // alloc_reg: the first free register, or the last one after saving it.
  function Alloc(g: GState): Gen {
    var i := FirstFree(g.used);
    if i < NUM_REGS then
      Gen([], i, g.(used := g.used + {i}, everUsed := g.everUsed + {i}))
    else
      var g1 := SpillSlot(g, NUM_REGS - 1);
      Gen([Mov(NoSuffix, P64(NUM_REGS - 1), Frame(g1.slots[NUM_REGS - 1]))], NUM_REGS - 1,
          g1.(spilled := g1.spilled + {NUM_REGS - 1}, everUsed := g1.everUsed + {NUM_REGS - 1}))
  }

  function Free(g: GState, r: nat): Gen {
    if r in g.spilled then
      var g1 := SpillSlot(g, r);
      Gen([Mov(NoSuffix, Frame(g1.slots[r]), P64(r))], r, g1.(spilled := g1.spilled - {r}, used := g1.used - {r}))
    else Gen([], r, g.(used := g.used - {r}))
  }

  function FreshLabel(g: GState): GState { g.(labels := g.labels + 1) }

  // ----- expressions -----

  function AluOf(op: BinOp): AluOp {
    match op
    case Add => OAdd
    case Sub => OSub
    case Mul => OImul
    case BitAnd => OAnd
    case BitXor => OXor
    case BitOr => OOr
    case _ => OCmp
  }

  function CcOf(op: BinOp): Cc {
    match op
    case Eq => CE
    case Ne => CNE
    case Lt => CL
    case _ => CLE
  }

  function Negate(cc: Cc): Cc {
    match cc
    case CE => CNE
    case CNE => CE
    case CL => CGE
    case CLE => CG
    case CG => CLE
    case CGE => CL
  }

  predicate IsIdentity(op: BinOp, imm: I32) {
    (op.Mul? && imm == 1) || ((op.Add? || op.Sub? || op.BitOr? || op.BitXor?) && imm == 0)
  }

  predicate IsShiftable(op: BinOp, imm: I32) {
    op.Mul? && imm > 0 && Bitwise(BAnd, imm, imm - 1) == 0
  }

  // The operation on register r with a constant right operand.
  function ImmCode(op: BinOp, imm: I32, r: nat): Prog {
    if IsIdentity(op, imm) then []
    else if IsShiftable(op, imm) then [ShiftImm(OShl, Log2(imm), Pool(r))]
    else [Alu(NoSuffix, AluOf(op), Imm(imm), P32(r))]
  }

  // A comparison leaves its result in the flags; move it to r.
  function SetCode(op: BinOp, r: nat): Prog {
    if IsComparison(op) then [Setcc(CcOf(op)), MovzblAl(Pool(r))] else []
  }

  function DivCode(op: BinOp, a: nat, b: nat): Prog {
    [Mov(NoSuffix, P32(a), R(RAX, W32)), Cdq, Idiv(Pool(b)),
     Mov(NoSuffix, R(if op.Div? then RAX else RDX, W32), P32(a))]
  }

  function ShiftOf(op: BinOp): ShiftOp { if op.Shl32? then OShl else OSar }

  function ShiftCode(op: BinOp, a: nat, b: nat): Prog {
    [Mov(SufL, P32(b), R(RCX, W32)), ShiftCl(ShiftOf(op), Pool(a))]
  }

  // The code combining register a with register b.
  function BinCode(op: BinOp, a: nat, b: nat): Prog {
    if op.Div? || op.Mod? then DivCode(op, a, b)
    else if op.Shl32? || op.Shr32? then ShiftCode(op, a, b)
    else [Alu(NoSuffix, AluOf(op), P32(b), P32(a))]
  }

  predicate UsesImmediate(op: BinOp, rhs: Expr) {
    rhs.Num? && !op.Div? && !op.Mod?
  }

  function ConstCode(op: BinOp, imm: I32, r: nat): Prog {
    if op.Shl32? || op.Shr32? then [ShiftImm(ShiftOf(op), imm, Pool(r))]
    else ImmCode(op, imm, r) + SetCode(op, r)
  }

  // The parts of a compound expression, joined.  Each later part was generated in the state
  // the earlier ones left behind, after their registers were freed.

  function JoinBin(op: BinOp, a: Gen, b: Gen): Gen {
    var f := Free(b.g, b.r);
    Gen(a.code + (b.code + (BinCode(op, a.r, b.r) + (f.code + SetCode(op, a.r)))), a.r, f.g)
  }

  // isAnd selects && or ||; c is the label number.
  function JoinLogical(isAnd: bool, c: nat, a: Gen, b: Gen): Gen {
    var end := Label(LEnd, c);
    var fb := Free(b.g, b.r);
    var d := Alloc(fb.g);
    Gen(a.code
        + ([Alu(NoSuffix, OCmp, Imm(0), P32(a.r)), MovbImm(if isAnd then 0 else 1, SPILL_LOGAND),
            Jcc(if isAnd then CE else CNE, end)]
           + (Free(a.g, a.r).code
              + (b.code
                 + ([Alu(NoSuffix, OCmp, Imm(0), P32(b.r)), Setcc(CNE), MovbAl(SPILL_LOGAND)]
                    + (fb.code
                       + ([Lab(end)] + (d.code + [MovzblFrame(SPILL_LOGAND, Pool(d.r))]))))))),
        d.r, d.g)
  }

  // d is the result register, allocated before the condition a.
  function JoinCond(c: nat, d: Gen, a: Gen, x: Gen, y: Gen): Gen {
    var els, end := Label(LElse, c), Label(LEnd, c);
    var fy := Free(y.g, y.r);
    Gen(d.code
        + (a.code
           + ([Alu(NoSuffix, OCmp, Imm(0), P32(a.r)), Jcc(CE, els)]
              + (Free(a.g, a.r).code
                 + (x.code
                    + ([Mov(NoSuffix, P64(x.r), P64(d.r))]
                       + (Free(x.g, x.r).code
                          + ([Jmp(end), Lab(els)]
                             + (y.code
                                + ([Mov(NoSuffix, P64(y.r), P64(d.r))] + (fy.code + [Lab(end)])))))))))),
        d.r, fy.g)
  }

  function GenPost(x: nat, op: AluOp, g: GState): Gen {
    var a := Alloc(g);
    var b := Alloc(a.g);
    var fa := Free(b.g, a.r);
    Gen(a.code
        + ([Lea(x, Pool(a.r))]
           + (b.code
              + ([Mov(NoSuffix, Ind(Pool(a.r)), P32(b.r)), Alu(SufL, op, Imm(1), Ind(Pool(a.r)))] + fa.code))),
        b.r, fa.g)
  }

  function Append(a: Gen, code: Prog): Gen { Gen(a.code + code, a.r, a.g) }

  // gen on an expression node: the code, the register that holds the value, the new state.
  function GenE(e: Expr, g: GState): Gen {
    match e
    case Num(v) => var a := Alloc(g); Append(a, [Mov(NoSuffix, Imm(v), P32(a.r))])
    case Var(x) => var a := Alloc(g); Append(a, [Mov(SufL, Frame(x), P32(a.r))])
    case Assign(x, rhs) => var a := GenE(rhs, g); Append(a, [Mov(NoSuffix, P32(a.r), Frame(x))])
    case Bin(op, lhs, rhs) =>
      var a := GenE(lhs, g);
      if UsesImmediate(op, rhs) then Append(a, ConstCode(op, rhs.v, a.r))
      else JoinBin(op, a, GenE(rhs, a.g))
    case Neg(e1) => var a := GenE(e1, g); Append(a, [NegR(Pool(a.r))])
    case BitNot(e1) => var a := GenE(e1, g); Append(a, [NotR(Pool(a.r))])
    case Not(e1) =>
      var a := GenE(e1, g);
      Append(a, [Alu(NoSuffix, OCmp, Imm(0), P32(a.r)), Setcc(CE), MovzblAl(Pool(a.r))])
    case LogAnd(lhs, rhs) =>
      var a := GenE(lhs, FreshLabel(g));
      JoinLogical(true, FreshLabel(g).labels, a, GenE(rhs, Free(a.g, a.r).g))
    case LogOr(lhs, rhs) =>
      var a := GenE(lhs, FreshLabel(g));
      JoinLogical(false, FreshLabel(g).labels, a, GenE(rhs, Free(a.g, a.r).g))
    case Cond(c, t, f) =>
      var d := Alloc(FreshLabel(g));
      var a := GenE(c, d.g);
      var x := GenE(t, Free(a.g, a.r).g);
      JoinCond(FreshLabel(g).labels, d, a, x, GenE(f, Free(x.g, x.r).g))
    case Comma(lhs, rhs) =>
      var a := GenE(lhs, g);
      var fa := Free(a.g, a.r);
      var b := GenE(rhs, fa.g);
      Gen(a.code + (fa.code + b.code), b.r, b.g)
    case PostInc(x) => GenPost(x, OAdd, g)
    case PostDec(x) => GenPost(x, OSub, g)
  }

  // Registers that must be free for e to be generated without spilling.
  function Need(e: Expr): (n: nat)
    ensures n >= 1
  {
    match e
    case Num(_) => 1
    case Var(_) => 1
    case Assign(_, rhs) => Need(rhs)
    case Bin(op, lhs, rhs) => if UsesImmediate(op, rhs) then Need(lhs) else Max(Need(lhs), 1 + Need(rhs))
    case Neg(e1) => Need(e1)
    case BitNot(e1) => Need(e1)
    case Not(e1) => Need(e1)
    case LogAnd(lhs, rhs) => Max(Need(lhs), Need(rhs))
    case LogOr(lhs, rhs) => Max(Need(lhs), Need(rhs))
    case Cond(c, t, f) => 1 + Max(Need(c), Max(Need(t), Need(f)))
    case Comma(lhs, rhs) => Max(Need(lhs), Need(rhs))
    case PostInc(_) => 2
    case PostDec(_) => 2
  }

  // ----- register discipline -----

  const ALL_REGS := set i: nat | i < NUM_REGS

  ghost predicate Fits(n: nat, g: GState) {
    g.used <= ALL_REGS && g.spilled == {} && n + |g.used| <= NUM_REGS
  }

  // What generating one expression does to the state: one free register becomes used, labels
  // are only ever drawn, nothing is spilled and nothing else changes.
  ghost predicate Discipline(g: GState, a: Gen) {
    && a.r < NUM_REGS && a.r !in g.used
    && a.g.used == g.used + {a.r}
    && a.g.spilled == {} && a.g.slots == g.slots && a.g.nextSlot == g.nextSlot
    && a.g.labels >= g.labels
    && a.g.breaks == g.breaks && a.g.continues == g.continues && a.g.failed == g.failed
  }

  lemma AllRegsSize()
    ensures |ALL_REGS| == NUM_REGS
  {
    assert ALL_REGS == {0, 1, 2, 3, 4, 5, 6, 7};
  }

  lemma SubsetSize<T>(a: set<T>, b: set<T>)
    requires a <= b
    ensures |a| <= |b|
  {
    if a != {} {
      var x :| x in a;
      SubsetSize(a - {x}, b - {x});
    }
  }

  lemma AllocFits(g: GState)
    requires Fits(1, g)
    ensures Alloc(g).code == [] && Discipline(g, Alloc(g)) && Alloc(g).g.labels == g.labels
  {
    if FirstFree(g.used) == NUM_REGS {
      assert ALL_REGS <= g.used;
      SubsetSize(ALL_REGS, g.used);
      AllRegsSize();
    }
  }

  // Freeing a register that was handed out restores the state but for the labels.
  lemma FreeFits(g: GState, a: Gen)
    requires g.spilled == {} && Discipline(g, a)
    ensures Free(a.g, a.r).code == []
    ensures Free(a.g, a.r).g == g.(labels := a.g.labels, everUsed := a.g.everUsed)
  {
    assert g.used + {a.r} - {a.r} == g.used;
  }

  lemma FitsSame(m: nat, n: nat, g: GState, g1: GState)
    requires Fits(n, g) && m <= n && g1.used == g.used && g1.spilled == g.spilled
    ensures Fits(m, g1)
  {
  }

  lemma FitsAfter(n: nat, g: GState, a: Gen)
    requires Fits(n + 1, g) && Discipline(g, a)
    ensures Fits(n, a.g) && g.spilled == {}
  {
  }

  // With enough free registers gen never spills.
  lemma {:induction false} GenDiscipline(e: Expr, g: GState)
    requires Fits(Need(e), g)
    ensures Discipline(g, GenE(e, g))
    decreases e, 1
  {
    hide Free, Alloc, JoinBin, JoinCond, JoinLogical, ConstCode, Fits;
    match e
    case Num(_) => AllocFits(g);
    case Var(_) => AllocFits(g);
    case Assign(_, rhs) => GenDiscipline(rhs, g);
    case Bin(_, _, _) => BinDiscipline(e, g);
    case Neg(e1) => GenDiscipline(e1, g);
    case BitNot(e1) => GenDiscipline(e1, g);
    case Not(e1) => GenDiscipline(e1, g);
    case LogAnd(_, _) => LogicalDiscipline(e, g);
    case LogOr(_, _) => LogicalDiscipline(e, g);
    case Cond(_, _, _) => CondDiscipline(e, g);
    case Comma(lhs, rhs) =>
      FitsSame(Need(lhs), Need(e), g, g);
      GenDiscipline(lhs, g);
      var a := GenE(lhs, g);
      FreeFits(g, a);
      FitsSame(Need(rhs), Need(e), g, Free(a.g, a.r).g);
      GenDiscipline(rhs, Free(a.g, a.r).g);
    case PostInc(x) => GenPostDiscipline(x, OAdd, g);
    case PostDec(x) => GenPostDiscipline(x, OSub, g);
  }

  lemma {:induction false} BinDiscipline(e: Expr, g: GState)
    requires e.Bin? && Fits(Need(e), g)
    ensures Discipline(g, GenE(e, g))
    decreases e, 0
  {
    GenDiscipline(e.lhs, g);
    if !UsesImmediate(e.op, e.rhs) {
      var a := GenE(e.lhs, g);
      GenDiscipline(e.rhs, a.g);
      FreeFits(a.g, GenE(e.rhs, a.g));
    }
  }

  lemma {:induction false} CondDiscipline(e: Expr, g: GState)
    requires e.Cond? && Fits(Need(e), g)
    ensures Discipline(g, GenE(e, g))
    decreases e, 0
  {
    hide Free;
    var d := Alloc(FreshLabel(g));
    AllocFits(FreshLabel(g));
    GenDiscipline(e.cond, d.g);
    var a := GenE(e.cond, d.g);
    FreeFits(d.g, a);
    var g1 := Free(a.g, a.r).g;
    GenDiscipline(e.thn, g1);
    var x := GenE(e.thn, g1);
    FreeFits(g1, x);
    var g2 := Free(x.g, x.r).g;
    GenDiscipline(e.els, g2);
    FreeFits(g2, GenE(e.els, g2));
  }

  lemma {:induction false} LogicalDiscipline(e: Expr, g: GState)
    requires (e.LogAnd? || e.LogOr?) && Fits(Need(e), g)
    ensures Discipline(g, GenE(e, g))
    decreases e, 0
  {
    hide Free;
    var g0 := FreshLabel(g);
    GenDiscipline(e.lhs, g0);
    var a := GenE(e.lhs, g0);
    FreeFits(g0, a);
    var g1 := Free(a.g, a.r).g;
    GenDiscipline(e.rhs, g1);
    var b := GenE(e.rhs, g1);
    FreeFits(g1, b);
    AllocFits(Free(b.g, b.r).g);
  }

  lemma GenPostDiscipline(x: nat, op: AluOp, g: GState)
    requires Fits(2, g)
    ensures Discipline(g, GenPost(x, op, g))
    ensures GenPost(x, op, g).r == Alloc(Alloc(g).g).r
    ensures Discipline(g, Alloc(g)) && Discipline(Alloc(g).g, Alloc(Alloc(g).g))
    ensures GenPost(x, op, g).code == [Lea(x, Pool(Alloc(g).r)),
        Mov(NoSuffix, Ind(Pool(Alloc(g).r)), P32(Alloc(Alloc(g).g).r)), Alu(SufL, op, Imm(1), Ind(Pool(Alloc(g).r)))]
  {
    AllocFits(g);
    var a := Alloc(g);
    FitsAfter(1, g, a);
    AllocFits(a.g);
    var b := Alloc(a.g);
    assert b.g.used - {a.r} == g.used + {b.r};
  }
}
