/** The part of x86-64 that the code generator uses for int-typed function bodies.

    A program is a sequence of lines; a label is a line, and so is the empty line that the
    peephole optimizer leaves behind when it deletes an instruction.

    The semantics is checked: a line whose effect depends on something the machine does not
    promise has no successor state.  In particular
      - a 32-bit result is Narrow: its upper half may be copied along but never used,
      - only a comparison defines the flags, and reading undefined flags is an error,
      - setcc defines one byte of rax, which only a byte move may read.
    Every run of this machine is a run of the processor.
 */
module Machine {
  import opened Options
  import opened Words

  // Pool(i) is the i-th allocatable register: r10 r11 rbx r12 r13 r14 r15 rsi.
  datatype Reg = Pool(i: nat) | RAX | RCX | RDX
  datatype Width = W32 | W64
  datatype Suffix = NoSuffix | SufL | SufQ
  datatype LabelKind = LBegin | LEnd | LElse | LContinue | LReturn
  datatype Label = Label(kind: LabelKind, id: nat)
  datatype AluOp = OAdd | OSub | OImul | OAnd | OOr | OXor | OCmp
  datatype ShiftOp = OShl | OSar
  datatype Cc = CE | CNE | CL | CLE | CG | CGE

  datatype Operand =
    | R(r: Reg, w: Width)
    | Imm(v: I32)
    | Frame(off: int)          // -off(%rbp)
    | Ind(base: Reg)           // (%base)

  datatype Instr =
    | Blank
    | Lab(l: Label)
    | Jmp(l: Label)
    | Jcc(cc: Cc, l: Label)
    | Mov(sfx: Suffix, src: Operand, dst: Operand)
    | MovbImm(b: Byte, off: int)            // movb $b, -off(%rbp)
    | MovbAl(off: int)                      // movb %al, -off(%rbp)
    | MovzblFrame(off: int, rd: Reg)        // movzbl -off(%rbp), %rd
    | MovzblAl(rd: Reg)                     // movzbl %al, %rd
    | Alu(sfx: Suffix, op: AluOp, src: Operand, dst: Operand)
    | ShiftImm(sop: ShiftOp, k: int, rd: Reg)
    | ShiftCl(sop: ShiftOp, rd: Reg)
    | NegR(rd: Reg)
    | NotR(rd: Reg)
    | Setcc(cc: Cc)                         // setcc %al
    | Cdq
    | Idiv(rs: Reg)
    | Lea(off: int, rd: Reg)                // lea -off(%rbp), %rd

  type Prog = seq<Instr>

  // ----- state -----

  type Byte = b: int | 0 <= b < 256

  // Low(b): only the low byte is known.  Ptr(o): the address rbp - o.
  datatype RegVal = Narrow(n: I32) | Wide(q: I64) | Low(b: Byte) | Ptr(o: int)
  datatype Flags = NoFlags | Flags(zf: bool, sf: bool, of: bool)
  type Memory = map<int, Byte>

  // Memory addresses are relative to rbp.
  datatype State = State(regs: map<Reg, RegVal>, flags: Flags, mem: Memory)
  datatype Conf = Conf(pc: nat, s: State)

  function GetReg(s: State, r: Reg): RegVal {
    if r in s.regs then s.regs[r] else Narrow(0)
  }

  function SetReg(s: State, r: Reg, v: RegVal): State {
    s.(regs := s.regs[r := v])
  }

  // Where the operand -off(%rbp) lives.
  function Addr(off: int): int { -off }

  function GetByte(m: Memory, a: int): Byte {
    if a in m then m[a] else 0
  }

  function Load32(m: Memory, a: int): I32 {
    Wrap32(GetByte(m, a) + 0x100 * GetByte(m, a + 1) + 0x1_0000 * GetByte(m, a + 2)
           + 0x100_0000 * GetByte(m, a + 3))
  }

  function Store32(m: Memory, a: int, v: I32): Memory {
    m[a := v % 0x100][a + 1 := v / 0x100 % 0x100][a + 2 := v / 0x100 / 0x100 % 0x100]
    [a + 3 := v / 0x100 / 0x100 / 0x100 % 0x100]
  }

  function Load64(m: Memory, a: int): I64 {
    Wrap64(Load32(m, a) % 0x1_0000_0000 + 0x1_0000_0000 * Load32(m, a + 4))
  }

  function Store64(m: Memory, a: int, v: I64): Memory {
    Store32(Store32(m, a, Wrap32(v)), a + 4, v / 0x1_0000_0000)
  }

  lemma RecombineBytes(v: I32)
    ensures Wrap32(v % 0x100 + 0x100 * (v / 0x100 % 0x100) + 0x1_0000 * (v / 0x100 / 0x100 % 0x100)
                   + 0x100_0000 * (v / 0x100 / 0x100 / 0x100 % 0x100)) == v
  {
    var q := v / 0x100 / 0x100 / 0x100 / 0x100;
    assert v % 0x100 + 0x100 * (v / 0x100 % 0x100) + 0x1_0000 * (v / 0x100 / 0x100 % 0x100)
           + 0x100_0000 * (v / 0x100 / 0x100 / 0x100 % 0x100) == v - 0x1_0000_0000 * q;
  }

  lemma LoadStore32(m: Memory, a: int, v: I32)
    ensures Load32(Store32(m, a, v), a) == v
  {
    RecombineBytes(v);
  }

  lemma LoadStore32Other(m: Memory, a: int, v: I32, b: int)
    requires b + 4 <= a || a + 4 <= b
    ensures Load32(Store32(m, a, v), b) == Load32(m, b)
  {
  }

  lemma RecombineWords(v: I64)
    ensures Wrap64(Wrap32(v) % 0x1_0000_0000 + 0x1_0000_0000 * (v / 0x1_0000_0000)) == v
  {
    assert Wrap32(v) % 0x1_0000_0000 == v % 0x1_0000_0000;
  }

  lemma LoadStore64(m: Memory, a: int, v: I64)
    ensures Load64(Store64(m, a, v), a) == v
    ensures Load32(Store64(m, a, v), a) == Wrap32(v)
  {
    var m1, hi := Store32(m, a, Wrap32(v)), v / 0x1_0000_0000;
    LoadStore32(m, a, Wrap32(v));
    LoadStore32Other(m1, a + 4, hi, a);
    LoadStore32(m1, a + 4, hi);
    RecombineWords(v);
  }

  // ----- operands -----

  function SuffixWidth(sfx: Suffix): Option<Width> {
    match sfx
    case NoSuffix => None
    case SufL => Some(W32)
    case SufQ => Some(W64)
  }

  // The operand width of a two-operand line, if the assembler accepts it.
  function OpWidth(sfx: Suffix, src: Operand, dst: Operand): Option<Width> {
    if dst.Imm? || (!src.R? && !src.Imm? && !dst.R?) then None
    else
      var a := if src.R? then Some(src.w) else None;
      var b := if dst.R? then Some(dst.w) else None;
      var c := SuffixWidth(sfx);
      var w := if a.Some? then a else if b.Some? then b else c;
      if w.None? || (a.Some? && a != w) || (b.Some? && b != w) || (c.Some? && c != w) then None else w
  }

  function Low32(v: RegVal): Option<RegVal> {
    match v
    case Narrow(_) => Some(v)
    case Wide(q) => Some(Narrow(Wrap32(q)))
    case _ => None
  }

  function LoadAt(m: Memory, a: int, w: Width): RegVal {
    if w.W32? then Narrow(Load32(m, a)) else Wide(Load64(m, a))
  }

  function Read(s: State, o: Operand, w: Width): Option<RegVal> {
    match o
    case R(r, _) => if w.W32? then Low32(GetReg(s, r)) else Some(GetReg(s, r))
    case Imm(v) => Some(if w.W32? then Narrow(v) else Wide(v))
    case Frame(off) => Some(LoadAt(s.mem, Addr(off), w))
    case Ind(b) => var p := GetReg(s, b); if p.Ptr? then Some(LoadAt(s.mem, Addr(p.o), w)) else None
  }

  function StoreAt(s: State, a: int, w: Width, v: RegVal): Option<State> {
    if w.W32? && v.Narrow? then Some(s.(mem := Store32(s.mem, a, v.n)))
    else if w.W64? && v.Wide? then Some(s.(mem := Store64(s.mem, a, v.q)))
    else None
  }

  function Write(s: State, o: Operand, w: Width, v: RegVal): Option<State> {
    match o
    case R(r, _) => if v.Low? then None else Some(SetReg(s, r, v))
    case Imm(_) => None
    case Frame(off) => StoreAt(s, Addr(off), w, v)
    case Ind(b) => var p := GetReg(s, b); if p.Ptr? then StoreAt(s, Addr(p.o), w, v) else None
  }

  // ----- arithmetic and flags -----

  function AluInt(op: AluOp, d: int, s: int): int {
    match op
    case OAdd => d + s
    case OSub => d - s
    case OImul => Mul(d, s)
    case OAnd => Bitwise(BAnd, d, s)
    case OOr => Bitwise(BOr, d, s)
    case OXor => Bitwise(BXor, d, s)
    case OCmp => d
  }

  function AluVal(op: AluOp, w: Width, d: RegVal, s: RegVal): Option<RegVal> {
    if w.W32? && d.Narrow? && s.Narrow? then Some(Narrow(Wrap32(AluInt(op, d.n, s.n))))
    else if w.W64? && d.Wide? && s.Wide? then Some(Wide(Wrap64(AluInt(op, d.q, s.q))))
    else None
  }

  function CmpFlags(w: Width, d: RegVal, s: RegVal): Flags {
    if w.W32? && d.Narrow? && s.Narrow? then
      var r := Wrap32(d.n - s.n); Flags(r == 0, r < 0, r != d.n - s.n)
    else if w.W64? && d.Wide? && s.Wide? then
      var r := Wrap64(d.q - s.q); Flags(r == 0, r < 0, r != d.q - s.q)
    else NoFlags
  }

  predicate Holds(cc: Cc, f: Flags)
    requires f.Flags?
  {
    match cc
    case CE => f.zf
    case CNE => !f.zf
    case CL => f.sf != f.of
    case CLE => f.zf || f.sf != f.of
    case CG => !f.zf && f.sf == f.of
    case CGE => f.sf == f.of
  }

  predicate Compare(cc: Cc, d: int, s: int) {
    match cc
    case CE => d == s
    case CNE => d != s
    case CL => d < s
    case CLE => d <= s
    case CG => d > s
    case CGE => d >= s
  }

  // After cmp, the condition codes compare the two operands as signed integers.
  lemma FlagsCompare(cc: Cc, d: I32, s: I32)
    ensures Holds(cc, CmpFlags(W32, Narrow(d), Narrow(s))) == Compare(cc, d, s)
  {
    var r := d - s;
    assert Wrap32(r) == if r < -0x8000_0000 then r + 0x1_0000_0000 else if r > 0x7fff_ffff then r - 0x1_0000_0000 else r;
  }

  // ----- one step -----

  // Position of the first occurrence of label l at or after k, or |p|.
  function Target(p: Prog, l: Label, k: nat := 0): (t: nat)
    requires k <= |p|
    ensures k <= t <= |p|
    ensures t < |p| ==> p[t] == Lab(l)
    decreases |p| - k
  {
    if k == |p| || p[k] == Lab(l) then k else Target(p, l, k + 1)
  }

  function Goto(p: Prog, l: Label, s: State): Option<Conf> {
    var t := Target(p, l);
    if t < |p| then Some(Conf(t, s)) else None
  }

  function Narrow32(s: State, r: Reg): Option<I32> {
    match Low32(GetReg(s, r))
    case Some(v) => Some(v.n)
    case None => None
  }

  function Shift(sop: ShiftOp, x: I32, k: int): I32 {
    if sop.OShl? then Shl(x, k % 32) else Sar(x, k % 32)
  }

  function Next(c: Conf, s: Option<State>): Option<Conf> {
    match s
    case Some(t) => Some(Conf(c.pc + 1, t))
    case None => None
  }

  // The effect of a line that does not jump.
  function Effect(i: Instr, s: State): Option<State> {
    match i
    case Blank => Some(s)
    case Lab(_) => Some(s)
    case Jmp(_) => None
    case Jcc(_, _) => None
    case Mov(sfx, src, dst) =>
      var w := OpWidth(sfx, src, dst);
      if w.None? then None else
      var v := Read(s, src, w.value);
      if v.None? then None else Write(s, dst, w.value, v.value)
    case MovbImm(b, off) => Some(s.(mem := s.mem[Addr(off) := b]))
    case MovbAl(off) =>
      var v := GetReg(s, RAX);
      if v.Low? then Some(s.(mem := s.mem[Addr(off) := v.b])) else None
    case MovzblFrame(off, rd) => Some(SetReg(s, rd, Narrow(GetByte(s.mem, Addr(off)))))
    case MovzblAl(rd) =>
      var v := GetReg(s, RAX);
      if v.Low? then Some(SetReg(s, rd, Narrow(v.b))) else None
    case Alu(sfx, op, src, dst) =>
      var w := OpWidth(sfx, src, dst);
      if w.None? then None else
      var a, d := Read(s, src, w.value), Read(s, dst, w.value);
      if a.None? || d.None? then None else
      var r := AluVal(op, w.value, d.value, a.value);
      if r.None? then None
      else if op.OCmp? then Some(s.(flags := CmpFlags(w.value, d.value, a.value)))
      else Write(s.(flags := NoFlags), dst, w.value, r.value)
    case ShiftImm(sop, k, rd) =>
      var x := Narrow32(s, rd);
      if x.None? || k < 0 then None
      else Some(SetReg(s.(flags := NoFlags), rd, Narrow(Shift(sop, x.value, k))))
    case ShiftCl(sop, rd) =>
      var x, k := Narrow32(s, rd), Narrow32(s, RCX);
      if x.None? || k.None? then None
      else Some(SetReg(s.(flags := NoFlags), rd, Narrow(Shift(sop, x.value, k.value))))
    case NegR(rd) =>
      var x := Narrow32(s, rd);
      if x.None? then None else Some(SetReg(s.(flags := NoFlags), rd, Narrow(Wrap32(0 - x.value))))
    case NotR(rd) =>
      var x := Narrow32(s, rd);
      if x.None? then None else Some(SetReg(s, rd, Narrow(-1 - x.value)))
    case Setcc(cc) =>
      if s.flags.NoFlags? then None
      else Some(SetReg(s, RAX, Low(if Holds(cc, s.flags) then 1 else 0)))
    case Cdq =>
      var x := Narrow32(s, RAX);
      if x.None? then None else Some(SetReg(s, RDX, Narrow(if x.value < 0 then -1 else 0)))
    case Idiv(rs) =>
      // edx:eax must be the sign extension of eax, and the quotient must fit.
      var a, hi, b := Narrow32(s, RAX), Narrow32(s, RDX), Narrow32(s, rs);
      if a.None? || hi.None? || b.None? then None
      else if hi.value != (if a.value < 0 then -1 else 0) || !DivDefined(a.value, b.value) then None
      else Some(SetReg(SetReg(s.(flags := NoFlags), RAX, Narrow(Sdiv(a.value, b.value))),
                       RDX, Narrow(Smod(a.value, b.value))))
    case Lea(off, rd) => Some(SetReg(s, rd, Ptr(off)))
  }

  function Step(p: Prog, c: Conf): Option<Conf> {
    if c.pc >= |p| then None
    else
      match p[c.pc]
      case Jmp(l) => Goto(p, l, c.s)
      case Jcc(cc, l) =>
        if c.s.flags.NoFlags? then None
        else if Holds(cc, c.s.flags) then Goto(p, l, c.s) else Some(Conf(c.pc + 1, c.s))
      case i => Next(c, Effect(i, c.s))
  }

  // ----- runs -----

  function Steps(p: Prog, c: Conf, n: nat): Option<Conf>
    decreases n
  {
    if n == 0 then Some(c)
    else
      match Step(p, c)
      case Some(c') => Steps(p, c', n - 1)
      case None => None
  }

  ghost predicate Reaches(p: Prog, c: Conf, c': Conf) {
    exists n: nat :: Steps(p, c, n) == Some(c')
  }

  lemma {:induction false} StepsAdd(p: Prog, c: Conf, m: nat, n: nat)
    requires Steps(p, c, m).Some?
    ensures Steps(p, c, m + n) == Steps(p, Steps(p, c, m).value, n)
    decreases m
  {
    if m > 0 {
      StepsAdd(p, Step(p, c).value, m - 1, n);
    }
  }

  lemma ReachSelf(p: Prog, c: Conf)
    ensures Reaches(p, c, c)
  {
    assert Steps(p, c, 0) == Some(c);
  }

  lemma ReachStep(p: Prog, c: Conf)
    requires Step(p, c).Some?
    ensures Reaches(p, c, Step(p, c).value)
  {
    assert Steps(p, Step(p, c).value, 0) == Step(p, c);
    assert Steps(p, c, 1) == Step(p, c);
  }

  lemma ReachTrans(p: Prog, a: Conf, b: Conf, c: Conf)
    requires Reaches(p, a, b) && Reaches(p, b, c)
    ensures Reaches(p, a, c)
  {
    var m: nat :| Steps(p, a, m) == Some(b);
    var n: nat :| Steps(p, b, n) == Some(c);
    StepsAdd(p, a, m, n);
  }

  lemma ReachThen(p: Prog, a: Conf, b: Conf)
    requires Reaches(p, a, b) && Step(p, b).Some?
    ensures Reaches(p, a, Step(p, b).value)
  {
    ReachStep(p, b);
    ReachTrans(p, a, b, Step(p, b).value);
  }

  // ----- runs of at least n steps -----

  // The machine makes n steps from c.
  ghost predicate Goes(p: Prog, c: Conf, n: nat) { Steps(p, c, n).Some? }

  lemma {:induction false} GoesLess(p: Prog, c: Conf, m: nat, n: nat)
    requires Goes(p, c, n) && m <= n
    ensures Goes(p, c, m)
    decreases m
  {
    if m > 0 {
      GoesLess(p, Step(p, c).value, m - 1, n - 1);
    }
  }

  // What c gets to counts for c, and for one step more if it is on another line.
  lemma GoesFrom(p: Prog, c: Conf, d: Conf, n: nat)
    requires Reaches(p, c, d) && Goes(p, d, n)
    ensures Goes(p, c, n) && (c.pc != d.pc ==> Goes(p, c, n + 1))
  {
    var m: nat :| Steps(p, c, m) == Some(d);
    StepsAdd(p, c, m, n);
    GoesLess(p, c, n, m + n);
    if c.pc != d.pc {
      GoesLess(p, c, n + 1, m + n);
    }
  }

  lemma NoSteps(p: Prog, c: Conf)
    ensures Goes(p, c, 0)
  {
  }

  // ----- labels -----

  ghost predicate UniqueLabels(p: Prog) {
    forall i, j :: 0 <= i < j < |p| && p[i].Lab? && p[j].Lab? ==> p[i].l != p[j].l
  }

  lemma {:induction false} TargetBefore(p: Prog, l: Label, t: nat, k: nat)
    requires k <= t < |p| && p[t] == Lab(l)
    ensures Target(p, l, k) <= t
    decreases t - k
  {
    if p[k] != Lab(l) {
      TargetBefore(p, l, t, k + 1);
    }
  }

  lemma TargetAt(p: Prog, l: Label, t: nat)
    requires UniqueLabels(p) && t < |p| && p[t] == Lab(l)
    ensures Target(p, l) == t
  {
    TargetBefore(p, l, t, 0);
  }
}
