/** The peephole optimizer preserves the meaning of the code it rewrites. */
module PeepholeCorrect {
  import opened Words
  import opened Machine
  import opened Options
  import opened Peephole

  // ----- agreement of machine states -----

  // v' is v, or v is a 32-bit result and v' has it as its low half.
  predicate ValLe(v: RegVal, v': RegVal) {
    if v.Narrow? then Low32(v') == Some(v) else v == v'
  }

  ghost predicate SameBytes(m: Memory, m': Memory) {
    forall a: int :: GetByte(m, a) == GetByte(m', a)
  }

  ghost predicate RegsLe(s: State, s': State) {
    forall r: Reg :: ValLe(GetReg(s, r), GetReg(s', r))
  }

  // s' agrees with s on everything the machine defines in s.
  ghost predicate StateLe(s: State, s': State) {
    RegsLe(s, s') && (s.flags.NoFlags? || s.flags == s'.flags) && SameBytes(s.mem, s'.mem)
  }

  lemma StateLeTrans(s: State, t: State, u: State)
    requires StateLe(s, t) && StateLe(t, u)
    ensures StateLe(s, u)
  {
    forall r: Reg
      ensures ValLe(GetReg(s, r), GetReg(u, r))
    {
      assert ValLe(GetReg(s, r), GetReg(t, r)) && ValLe(GetReg(t, r), GetReg(u, r));
    }
  }

  lemma SetRegLe(s: State, s': State, r: Reg, v: RegVal, v': RegVal)
    requires StateLe(s, s') && ValLe(v, v')
    ensures StateLe(SetReg(s, r, v), SetReg(s', r, v'))
  {
    forall q: Reg
      ensures ValLe(GetReg(SetReg(s, r, v), q), GetReg(SetReg(s', r, v'), q))
    {
      assert ValLe(GetReg(s, q), GetReg(s', q));
    }
  }

  lemma FlagsLe(s: State, s': State, f: Flags)
    requires StateLe(s, s')
    ensures StateLe(s.(flags := f), s'.(flags := f))
    ensures StateLe(s.(flags := NoFlags), s')
  {
    forall q: Reg
      ensures ValLe(GetReg(s.(flags := f), q), GetReg(s'.(flags := f), q))
      ensures ValLe(GetReg(s.(flags := NoFlags), q), GetReg(s', q))
    {
      assert ValLe(GetReg(s, q), GetReg(s', q));
    }
  }

  lemma MemLe(s: State, s': State, m: Memory, m': Memory)
    requires StateLe(s, s') && SameBytes(m, m')
    ensures StateLe(s.(mem := m), s'.(mem := m'))
  {
    forall q: Reg
      ensures ValLe(GetReg(s.(mem := m), q), GetReg(s'.(mem := m'), q))
    {
      assert ValLe(GetReg(s, q), GetReg(s', q));
    }
  }

  lemma LoadSame(m: Memory, m': Memory, a: int, w: Width)
    requires SameBytes(m, m')
    ensures LoadAt(m, a, w) == LoadAt(m', a, w)
  {
    hide GetByte, Wrap32;
    assert forall b :: GetByte(m, b) == GetByte(m', b);
  }

  lemma Store32Same(m: Memory, m': Memory, a: int, v: I32)
    requires SameBytes(m, m')
    ensures SameBytes(Store32(m, a, v), Store32(m', a, v))
  {
    forall b: int
      ensures GetByte(Store32(m, a, v), b) == GetByte(Store32(m', a, v), b)
    {
      assert GetByte(m, b) == GetByte(m', b);
    }
  }

  lemma Store64Same(m: Memory, m': Memory, a: int, v: I64)
    requires SameBytes(m, m')
    ensures SameBytes(Store64(m, a, v), Store64(m', a, v))
  {
    hide Store32, SameBytes;
    Store32Same(m, m', a, Wrap32(v));
    Store32Same(Store32(m, a, Wrap32(v)), Store32(m', a, Wrap32(v)), a + 4, v / 0x1_0000_0000);
  }

  lemma StoreByteSame(m: Memory, m': Memory, a: int, b: Byte)
    requires SameBytes(m, m')
    ensures SameBytes(m[a := b], m'[a := b])
  {
    var n, n' := m[a := b], m'[a := b];
    forall c: int
      ensures GetByte(n, c) == GetByte(n', c)
    {
      assert GetByte(m, c) == GetByte(m', c);
    }
  }

  lemma StoreLe(s: State, s': State, a: int, w: Width, v: RegVal, v': RegVal)
    requires StateLe(s, s') && ValLe(v, v') && StoreAt(s, a, w, v).Some? && (w.W32? ==> v' == v)
    ensures StoreAt(s', a, w, v').Some? && StateLe(StoreAt(s, a, w, v).value, StoreAt(s', a, w, v').value)
  {
    hide Store32, Store64;
    if w.W32? {
      Store32Same(s.mem, s'.mem, a, v.n);
      MemLe(s, s', Store32(s.mem, a, v.n), Store32(s'.mem, a, v.n));
    } else {
      Store64Same(s.mem, s'.mem, a, v.q);
      MemLe(s, s', Store64(s.mem, a, v.q), Store64(s'.mem, a, v.q));
    }
  }

  lemma ReadLe(s: State, s': State, o: Operand, w: Width)
    requires StateLe(s, s') && Read(s, o, w).Some?
    ensures Read(s', o, w).Some? && ValLe(Read(s, o, w).value, Read(s', o, w).value)
    ensures w.W32? || !Read(s, o, w).value.Narrow? ==> Read(s', o, w) == Read(s, o, w)
  {
    hide LoadAt;
    match o
    case R(r, _) => assert ValLe(GetReg(s, r), GetReg(s', r));
    case Imm(_) =>
    case Frame(off) => LoadSame(s.mem, s'.mem, Addr(off), w);
    case Ind(b) =>
      assert ValLe(GetReg(s, b), GetReg(s', b));
      LoadSame(s.mem, s'.mem, Addr(GetReg(s, b).o), w);
  }

  lemma WriteLe(s: State, s': State, o: Operand, w: Width, v: RegVal, v': RegVal)
    requires StateLe(s, s') && ValLe(v, v') && Write(s, o, w, v).Some? && (w.W32? ==> v' == v)
    ensures Write(s', o, w, v').Some? && StateLe(Write(s, o, w, v).value, Write(s', o, w, v').value)
  {
    hide StoreAt;
    match o
    case R(r, _) => SetRegLe(s, s', r, v, v');
    case Frame(off) => StoreLe(s, s', Addr(off), w, v, v');
    case Ind(b) =>
      assert ValLe(GetReg(s, b), GetReg(s', b));
      StoreLe(s, s', Addr(GetReg(s, b).o), w, v, v');
  }

  lemma MovLe(sfx: Suffix, src: Operand, dst: Operand, s: State, s': State)
    requires StateLe(s, s') && Effect(Mov(sfx, src, dst), s).Some?
    ensures Effect(Mov(sfx, src, dst), s').Some?
    ensures StateLe(Effect(Mov(sfx, src, dst), s).value, Effect(Mov(sfx, src, dst), s').value)
  {
    hide Read, Write, StateLe;
    var w := OpWidth(sfx, src, dst).value;
    ReadLe(s, s', src, w);
    WriteLe(s, s', dst, w, Read(s, src, w).value, Read(s', src, w).value);
  }

  lemma AluLe(sfx: Suffix, op: AluOp, src: Operand, dst: Operand, s: State, s': State)
    requires StateLe(s, s') && Effect(Alu(sfx, op, src, dst), s).Some?
    ensures Effect(Alu(sfx, op, src, dst), s').Some?
    ensures StateLe(Effect(Alu(sfx, op, src, dst), s).value, Effect(Alu(sfx, op, src, dst), s').value)
  {
    hide Write, StateLe, AluInt, Bitwise;
    var w := OpWidth(sfx, src, dst).value;
    ReadLe(s, s', src, w);
    ReadLe(s, s', dst, w);
    if op.OCmp? {
      FlagsLe(s, s', CmpFlags(w, Read(s, dst, w).value, Read(s, src, w).value));
    } else {
      FlagsLe(s, s', NoFlags);
      var v := AluVal(op, w, Read(s, dst, w).value, Read(s, src, w).value).value;
      WriteLe(s.(flags := NoFlags), s'.(flags := NoFlags), dst, w, v, v);
    }
  }

  lemma Narrow32Le(s: State, s': State, r: Reg)
    requires StateLe(s, s') && Narrow32(s, r).Some?
    ensures Narrow32(s', r) == Narrow32(s, r)
  {
    assert ValLe(GetReg(s, r), GetReg(s', r));
  }

  lemma RegLe(s: State, s': State, r: Reg)
    requires StateLe(s, s')
    ensures ValLe(GetReg(s, r), GetReg(s', r))
  {
  }

  lemma ByteLe(s: State, s': State, off: int)
    requires StateLe(s, s')
    ensures GetByte(s.mem, Addr(off)) == GetByte(s'.mem, Addr(off))
  {
  }

  lemma StoreByteLe(s: State, s': State, off: int, b: Byte)
    requires StateLe(s, s')
    ensures StateLe(s.(mem := s.mem[Addr(off) := b]), s'.(mem := s'.mem[Addr(off) := b]))
  {
    StoreByteSame(s.mem, s'.mem, Addr(off), b);
    MemLe(s, s', s.mem[Addr(off) := b], s'.mem[Addr(off) := b]);
  }

  lemma SetNarrowLe(s: State, s': State, r: Reg, n: I32)
    requires StateLe(s, s')
    ensures StateLe(SetReg(s, r, Narrow(n)), SetReg(s', r, Narrow(n)))
    ensures StateLe(SetReg(s.(flags := NoFlags), r, Narrow(n)), SetReg(s'.(flags := NoFlags), r, Narrow(n)))
  {
    hide StateLe, SetReg;
    SetRegLe(s, s', r, Narrow(n), Narrow(n));
    FlagsLe(s, s', NoFlags);
    SetRegLe(s.(flags := NoFlags), s'.(flags := NoFlags), r, Narrow(n), Narrow(n));
  }

  lemma SetcLe(s: State, s': State, cc: Cc)
    requires StateLe(s, s') && Effect(Setcc(cc), s).Some?
    ensures Effect(Setcc(cc), s').Some? && StateLe(Effect(Setcc(cc), s).value, Effect(Setcc(cc), s').value)
  {
    hide SetReg;
    var b := if Holds(cc, s.flags) then 1 else 0;
    SetRegLe(s, s', RAX, Low(b), Low(b));
  }

  // A line does to s' what it does to s, on everything defined in s.
  lemma EffectLe(i: Instr, s: State, s': State)
    requires StateLe(s, s') && Effect(i, s).Some?
    ensures Effect(i, s').Some? && StateLe(Effect(i, s).value, Effect(i, s').value)
  {
    hide StateLe, SetReg, Narrow32, Shift, Sdiv, Smod;
    FlagsLe(s, s', NoFlags);
    match i
    case Mov(sfx, src, dst) => MovLe(sfx, src, dst, s, s');
    case Alu(sfx, op, src, dst) => AluLe(sfx, op, src, dst, s, s');
    case MovbImm(b, off) => StoreByteLe(s, s', off, b);
    case MovbAl(off) => RegLe(s, s', RAX); StoreByteLe(s, s', off, GetReg(s, RAX).b);
    case MovzblFrame(off, rd) => ByteLe(s, s', off); SetNarrowLe(s, s', rd, GetByte(s.mem, Addr(off)));
    case MovzblAl(rd) => RegLe(s, s', RAX); SetNarrowLe(s, s', rd, GetReg(s, RAX).b);
    case ShiftImm(sop, k, rd) => Narrow32Le(s, s', rd); SetNarrowLe(s, s', rd, Shift(sop, Narrow32(s, rd).value, k));
    case ShiftCl(sop, rd) =>
      Narrow32Le(s, s', rd);
      Narrow32Le(s, s', RCX);
      SetNarrowLe(s, s', rd, Shift(sop, Narrow32(s, rd).value, Narrow32(s, RCX).value));
    case NegR(rd) => Narrow32Le(s, s', rd); SetNarrowLe(s, s', rd, Wrap32(0 - Narrow32(s, rd).value));
    case NotR(rd) => Narrow32Le(s, s', rd); SetNarrowLe(s, s', rd, -1 - Narrow32(s, rd).value);
    case Setcc(cc) =>
      SetcLe(s, s', cc);
    case Cdq => Narrow32Le(s, s', RAX); SetNarrowLe(s, s', RDX, if Narrow32(s, RAX).value < 0 then -1 else 0);
    case Idiv(rs) =>
      Narrow32Le(s, s', RAX);
      Narrow32Le(s, s', RDX);
      Narrow32Le(s, s', rs);
      var a, b := Narrow32(s, RAX).value, Narrow32(s, rs).value;
      var t, t' := SetReg(s.(flags := NoFlags), RAX, Narrow(Sdiv(a, b))), SetReg(s'.(flags := NoFlags), RAX, Narrow(Sdiv(a, b)));
      SetRegLe(s.(flags := NoFlags), s'.(flags := NoFlags), RAX, Narrow(Sdiv(a, b)), Narrow(Sdiv(a, b)));
      SetRegLe(t, t', RDX, Narrow(Smod(a, b)), Narrow(Smod(a, b)));
    case Lea(off, rd) => SetRegLe(s, s', rd, Ptr(off), Ptr(off));
    case _ =>
  }

  // ----- a rewritten pair of lines does the same -----

  // What a move leaves behind: its destination holds its source.
  ghost predicate JustMoved(a: Instr, s: State) {
    && a.Mov? && OpWidth(a.sfx, a.src, a.dst).Some?
    && var w := OpWidth(a.sfx, a.src, a.dst).value;
      var v := Read(s, a.src, w);
      && v.Some?
      && (a.dst.R? ==> GetReg(s, a.dst.r) == v.value)
      && (a.dst.Frame? ==>
            && LoadAt(s.mem, Addr(a.dst.off), w) == v.value
            && (w.W64? ==> v.value.Wide? && Load32(s.mem, Addr(a.dst.off)) == Wrap32(v.value.q)))
  }

  lemma AfterMov(a: Instr, s0: State)
    requires a.Mov? && Effect(a, s0).Some?
    requires a.dst.Frame? || ((a.src.R? || a.src.Imm?) && a.src != a.dst)
    ensures JustMoved(a, Effect(a, s0).value)
  {
    hide Load32, Store32, Load64, Store64;
    var w := OpWidth(a.sfx, a.src, a.dst).value;
    var v := Read(s0, a.src, w).value;
    if a.dst.Frame? {
      if w.W32? {
        LoadStore32(s0.mem, Addr(a.dst.off), v.n);
      } else {
        LoadStore64(s0.mem, Addr(a.dst.off), v.q);
      }
    }
  }

  // Lines on which the optimizer can be trusted: an operation between a register and memory, if it is
  // one that the optimizer knows, names its width, and nothing is loaded from memory to memory.
  predicate LineOk(i: Instr) {
    && (KnownOp(i) && i.src.R? && !i.dst.R? ==> !i.sfx.NoSuffix?)
    && (IsLoad(i) ==> i.dst.R?)
  }

  // A dword store and a qword load of the same slot.
  predicate Mixed(a: Instr, b: Instr) {
    && IsStore(a) && OpWidth(a.sfx, a.src, a.dst) == Some(W32)
    && IsLoad(b) && b.sfx.SufQ? && b.src.off == a.dst.off
  }

  lemma CopyLocal(a: Instr, b: Instr, s: State)
    requires Pattern1(a, b).Some? && JustMoved(a, s) && Effect(b, s).Some?
    ensures Effect(Pattern1(a, b).value.b, s) == Effect(b, s)
  {
  }

  lemma LoadLocal(a: Instr, b: Instr, s: State)
    requires Pattern2(a, b).Some? && JustMoved(a, s) && Effect(b, s).Some? && LineOk(b) && !Mixed(a, b)
    ensures Effect(Pattern2(a, b).value.b, s) == Effect(b, s)
  {
    hide Load32, Load64;
  }

  lemma ImmediateLocal(a: Instr, b: Instr, s: State)
    requires Pattern4(a, b).Some? && JustMoved(a, s) && Effect(b, s).Some? && LineOk(b)
    requires !NoChange(b.op, a.src.v)
    ensures Effect(Pattern4(a, b).value.b, s) == Effect(b, s)
  {
    hide AluInt, Bitwise;
  }

  lemma NoChangeValue(op: AluOp, v: I32, x: int)
    requires NoChange(op, v)
    ensures AluInt(op, x, v) == x
  {
    match op
    case OOr => BitwiseZero(BOr, x);
    case OXor => BitwiseZero(BXor, x);
    case _ =>
  }

  lemma LoadBytes(m: Memory, a: int)
    ensures SameBytes(m, Store32(m, a, Load32(m, a)))
  {
    var b0, b1, b2, b3 := GetByte(m, a), GetByte(m, a + 1), GetByte(m, a + 2), GetByte(m, a + 3);
    var v := Load32(m, a);
    SplitBytes(b0, b1, b2, b3);
    forall b: int
      ensures GetByte(Store32(m, a, v), b) == GetByte(m, b)
    {
    }
  }

  lemma SplitBytes(b0: Byte, b1: Byte, b2: Byte, b3: Byte)
    ensures var v := Wrap32(b0 + 0x100 * b1 + 0x1_0000 * b2 + 0x100_0000 * b3);
      && v % 0x100 == b0 && v / 0x100 % 0x100 == b1 && v / 0x100 / 0x100 % 0x100 == b2
      && v / 0x100 / 0x100 / 0x100 % 0x100 == b3
  {
    var u := b0 + 0x100 * b1 + 0x1_0000 * b2 + 0x100_0000 * b3;
    var v := Wrap32(u);
    assert v == u || v == u - 0x1_0000_0000;
    var top := if v == u then b3 else b3 - 0x100;
    assert v / 0x100 == b1 + 0x100 * b2 + 0x1_0000 * top;
    assert v / 0x100 / 0x100 == b2 + 0x100 * top;
    assert v / 0x100 / 0x100 / 0x100 == top;
  }

  lemma SameBytesTrans(m: Memory, n: Memory, k: Memory)
    requires SameBytes(m, n) && SameBytes(n, k)
    ensures SameBytes(m, k)
  {
    forall a: int
      ensures GetByte(m, a) == GetByte(k, a)
    {
      assert GetByte(m, a) == GetByte(n, a) && GetByte(n, a) == GetByte(k, a);
    }
  }

  lemma LoadBytes64(m: Memory, a: int)
    ensures SameBytes(m, Store64(m, a, Load64(m, a)))
  {
    hide Load32, Store32, SameBytes, Wrap32, Wrap64;
    var lo, hi := Load32(m, a), Load32(m, a + 4);
    var v := Load64(m, a);
    SplitWords(lo, hi);
    LoadBytes(m, a);
    LoadBytes(m, a + 4);
    var m1 := Store32(m, a, lo);
    SameBytesLoad(m, m1, a + 4);
    LoadBytes(m1, a + 4);
    SameBytesTrans(m, m1, Store32(m1, a + 4, hi));
  }

  lemma SplitWords(lo: I32, hi: I32)
    ensures var v := Wrap64(lo % 0x1_0000_0000 + 0x1_0000_0000 * hi);
      Wrap32(v) == lo && v / 0x1_0000_0000 == hi
  {
  }

  lemma SameBytesLoad(m: Memory, m': Memory, a: int)
    requires SameBytes(m, m')
    ensures Load32(m, a) == Load32(m', a)
  {
    assert forall b :: GetByte(m, b) == GetByte(m', b);
  }

  // Writing back the value that is already there changes nothing that is defined.
  lemma WriteBack(s: State, o: Operand, w: Width)
    requires Read(s, o, w).Some? && !o.Imm? && Write(s, o, w, Read(s, o, w).value).Some?
    ensures StateLe(Write(s, o, w, Read(s, o, w).value).value, s)
  {
    hide Load32, Store32, Load64, Store64;
    match o
    case R(r, _) =>
    case Frame(off) => WriteBackAt(s, Addr(off), w);
    case Ind(b) => WriteBackAt(s, Addr(GetReg(s, b).o), w);
  }

  lemma WriteBackAt(s: State, a: int, w: Width)
    requires StoreAt(s, a, w, LoadAt(s.mem, a, w)).Some?
    ensures StateLe(StoreAt(s, a, w, LoadAt(s.mem, a, w)).value, s)
  {
    hide Load32, Store32, Load64, Store64;
    LoadBytes(s.mem, a);
    LoadBytes64(s.mem, a);
    var m1 := if w.W32? then Store32(s.mem, a, Load32(s.mem, a)) else Store64(s.mem, a, Load64(s.mem, a));
    SameBytesSym(s.mem, m1);
    StateLeRefl(s);
    MemLe(s, s, m1, s.mem);
  }

  lemma SameBytesSym(m: Memory, m': Memory)
    requires SameBytes(m, m')
    ensures SameBytes(m', m)
  {
  }

  lemma StateLeRefl(s: State)
    ensures StateLe(s, s)
  {
  }

  lemma DeleteLocal(a: Instr, b: Instr, s: State)
    requires Pattern4(a, b).Some? && JustMoved(a, s) && Effect(b, s).Some? && LineOk(b) && NoChange(b.op, a.src.v)
    ensures StateLe(Effect(b, s).value, s)
  {
    hide AluInt, Write, StateLe;
    var w := OpWidth(b.sfx, b.src, b.dst).value;
    var d := Read(s, b.dst, w).value;
    assert Read(s, b.src, w) == Some(if w.W32? then Narrow(a.src.v) else Wide(a.src.v));
    NoChangeValue(b.op, a.src.v, if w.W32? then d.n else d.q);
    StateLeRefl(s);
    FlagsLe(s, s, NoFlags);
    WriteBack(s.(flags := NoFlags), b.dst, w);
    StateLeTrans(Effect(b, s).value, s.(flags := NoFlags), s);
  }

  // The second line of a rewritten pair does what it did before.
  lemma PairLocal(a: Instr, b: Instr, s: State)
    requires PairRewrite(a, b).Some? && !Pattern3(a, b).Some? && JustMoved(a, s) && Effect(b, s).Some?
    requires LineOk(b) && !Mixed(a, b)
    ensures var b' := PairRewrite(a, b).value.b;
      Effect(b', s).Some? && StateLe(Effect(b, s).value, Effect(b', s).value)
  {
    hide JustMoved, StateLe;
    StateLeRefl(Effect(b, s).value);
    if Pattern1(a, b).Some? {
      CopyLocal(a, b, s);
    } else if Pattern2(a, b).Some? {
      LoadLocal(a, b, s);
    } else if NoChange(b.op, a.src.v) {
      DeleteLocal(a, b, s);
    } else {
      ImmediateLocal(a, b, s);
    }
  }

  // ----- the code, line by line -----

  // Three lines that pattern 5 does no harm to: they do not have its shape, or X is used behind them,
  // or the last one moves X to itself and the middle one is not propagated into it.
  predicate Fine5(a: Instr, b: Instr, c: Instr, rest: Prog) {
    || !Matches5(a, b, c)
    || (a.dst.R? && LiveInText(rest, a.dst.r))
    || (c.src == a.dst && Pattern1(b, c).None?)
  }

  ghost predicate NotMixed(p: Prog, i: nat, j: nat) { Adjacent(p, i, j) ==> !Mixed(p[i], p[j]) }

  // What is asked of the code, from line d on: no dword store stands right before a qword load of the
  // same slot, and pattern 5 does no harm to any three consecutive lines.
  ghost predicate CodeFrom(p: Prog, d: nat) {
    && (forall i :: 0 <= i < |p| ==> LineOk(p[i]))
    && (forall i: nat, j: nat :: d <= i ==> NotMixed(p, i, j))
    && (forall k :: d <= k && k + 2 < |p| ==> Fine5(p[k], p[k + 1], p[k + 2], p[k + 3..]))
  }

  ghost predicate CodeOk(p: Prog) { CodeFrom(p, 0) }

  // Rewriting a pair among three lines leaves them fine.
  lemma FineUpdate(p: Prog, d: nat, i: nat, j: nat, k: nat)
    requires Adjacent(p, i, j) && PairRewrite(p[i], p[j]).Some? && LineOk(p[j]) && d <= i && j < d + 3
    requires d <= k && k + 2 < |p| && Fine5(p[k], p[k + 1], p[k + 2], p[k + 3..])
    ensures var t := PairRewrite(p[i], p[j]).value;
      var q := p[i := t.a][j := t.b];
      Fine5(q[k], q[k + 1], q[k + 2], q[k + 3..])
  {
    hide LiveInText;
    var t := PairRewrite(p[i], p[j]).value;
    var q := p[i := t.a][j := t.b];
    assert q[k + 3..] == p[k + 3..];
  }

  // No rewriting makes a store or a load with a suffix, or takes away what stands between the two.
  lemma StoresStay(a: Instr, b: Instr, t: Two)
    requires PairRewrite(a, b) == Some(t) && LineOk(b)
    ensures t.a == a || (t.a.Blank? && a.Jmp? && t.b == b && b.Lab?)
    ensures (IsStore(t.b) ==> t.b == b) && (IsLoad(t.b) && t.b.sfx.SufQ? ==> t.b == b)
    ensures t.b.Blank? ==> t.a == a && !IsStore(a)
  {
  }

  lemma MixedUpdate(p: Prog, i: nat, j: nat, k: nat, l: nat)
    requires Adjacent(p, i, j) && PairRewrite(p[i], p[j]).Some? && LineOk(p[j])
    requires var t := PairRewrite(p[i], p[j]).value; var q := p[i := t.a][j := t.b];
      Adjacent(q, k, l) && Mixed(q[k], q[l])
    ensures Adjacent(p, k, l) && Mixed(p[k], p[l])
  {
    hide PairRewrite;
    var t := PairRewrite(p[i], p[j]).value;
    var q := p[i := t.a][j := t.b];
    StoresStay(p[i], p[j], t);
    assert q[k] == p[k] && q[l] == p[l];
    assert forall m :: i < m < j ==> q[m] == p[m];
    assert !(i < l < j) && !(i < k < j);
    assert t.a.Blank? ==> q[j] == t.b;
    assert t.a.Blank? ==> l != j && !(k < j < l);
    assert t.b.Blank? ==> q[i] == t.a;
    assert t.b.Blank? ==> k != i && !(k < i < l);
    forall m | k < m < l ensures p[m].Blank? {
      if m != i && m != j {
        assert q[m] == p[m];
      }
    }
  }

  lemma CodeOkUpdate(p: Prog, d: nat, i: nat, j: nat)
    requires CodeFrom(p, d) && Adjacent(p, i, j) && PairRewrite(p[i], p[j]).Some? && d <= i && j < d + 3
    ensures var t := PairRewrite(p[i], p[j]).value; CodeFrom(p[i := t.a][j := t.b], d)
  {
    hide Fine5, NotMixed;
    var t := PairRewrite(p[i], p[j]).value;
    var q := p[i := t.a][j := t.b];
    forall k | d <= k && k + 2 < |q| ensures Fine5(q[k], q[k + 1], q[k + 2], q[k + 3..]) {
      FineUpdate(p, d, i, j, k);
    }
    forall k: nat, l: nat | d <= k ensures NotMixed(q, k, l) {
      NotMixedUpdate(p, i, j, k, l);
    }
  }

  lemma NotMixedUpdate(p: Prog, i: nat, j: nat, k: nat, l: nat)
    requires Adjacent(p, i, j) && PairRewrite(p[i], p[j]).Some? && LineOk(p[j]) && NotMixed(p, k, l)
    ensures var t := PairRewrite(p[i], p[j]).value; NotMixed(p[i := t.a][j := t.b], k, l)
  {
    hide PairRewrite, Mixed;
    var t := PairRewrite(p[i], p[j]).value;
    var q := p[i := t.a][j := t.b];
    if Adjacent(q, k, l) && Mixed(q[k], q[l]) {
      MixedUpdate(p, i, j, k, l);
    }
  }

  // ----- runs of a program with one pair rewritten -----

  predicate Plain(i: Instr) { !i.Lab? && !i.Jmp? && !i.Jcc? }

  lemma {:induction false} TargetUpdate(p: Prog, j: nat, b: Instr, l: Label, k: nat)
    requires k <= |p| && j < |p| && !p[j].Lab? && !b.Lab?
    ensures Target(p[j := b], l, k) == Target(p, l, k)
    decreases |p| - k
  {
    if k < |p| && p[k] != Lab(l) {
      TargetUpdate(p, j, b, l, k + 1);
    }
  }

  // Matching configurations of the old and the new program.
  ghost predicate ConfLe(c: Conf, c': Conf) { c.pc == c'.pc && StateLe(c.s, c'.s) }

  // Between the two lines of the pair, the first one's effect is still there.
  ghost predicate Between(p: Prog, i: nat, j: nat, c: Conf)
    requires i < |p|
  {
    i < c.pc <= j ==> JustMoved(p[i], c.s)
  }

  // After m steps from c the machine is where d is.
  ghost predicate Lands(p: Prog, c: Conf, m: nat, d: Conf) { Steps(p, c, m).Some? && ConfLe(d, Steps(p, c, m).value) }

  lemma JumpLe(p: Prog, j: nat, b: Instr, c: Conf, c': Conf)
    requires j < |p| && !p[j].Lab? && !b.Lab? && c.pc != j && ConfLe(c, c') && Step(p, c).Some?
    ensures var d := Step(p[j := b], c'); d.Some? && ConfLe(Step(p, c).value, d.value)
  {
    hide Effect, StateLe;
    if Plain(p[c.pc]) || p[c.pc].Lab? {
      EffectLe(p[c.pc], c.s, c'.s);
    } else {
      TargetUpdate(p, j, b, p[c.pc].l, 0);
      assert c.s.flags.NoFlags? || c.s.flags == c'.s.flags by { FlagsAgree(c.s, c'.s); }
    }
  }

  lemma FlagsAgree(s: State, s': State)
    requires StateLe(s, s')
    ensures s.flags.NoFlags? || s.flags == s'.flags
  {
  }

  // Patterns 1, 2 and 4 replace the second line: one step of p is one step of the new program.
  lemma StepReplaced(p: Prog, i: nat, j: nat, c: Conf, c': Conf)
    requires Adjacent(p, i, j) && PairRewrite(p[i], p[j]).Some? && !Pattern3(p[i], p[j]).Some?
    requires LineOk(p[j]) && !Mixed(p[i], p[j])
    requires ConfLe(c, c') && Between(p, i, j, c) && Step(p, c).Some?
    ensures var d := Step(p[j := PairRewrite(p[i], p[j]).value.b], c');
      d.Some? && ConfLe(Step(p, c).value, d.value)
    ensures Between(p, i, j, Step(p, c).value)
  {
    hide Effect, StateLe, JustMoved, Target;
    var b := PairRewrite(p[i], p[j]).value.b;
    var d := Step(p, c).value;
    if c.pc == j {
      PairLocal(p[i], p[j], c.s);
      EffectLe(b, c.s, c'.s);
      StateLeTrans(Effect(p[j], c.s).value, Effect(b, c.s).value, Effect(b, c'.s).value);
    } else {
      JumpLe(p, j, b, c, c');
      if c.pc == i {
        AfterMov(p[i], c.s);
      } else if i < c.pc < j {
        BlankEffect(c.s);
      }
    }
  }

  lemma BlankEffect(s: State)
    ensures Effect(Blank, s) == Some(s)
  {
  }

  lemma {:induction false} BlankRun(p: Prog, i: nat, j: nat, s: State)
    requires i <= j <= |p| && forall m :: i <= m < j ==> p[m].Blank?
    ensures Steps(p, Conf(i, s), j - i) == Some(Conf(j, s))
    decreases j - i
  {
    if i < j {
      BlankRun(p, i + 1, j, s);
    }
  }

  // Pattern 3 deletes a jump to the next line: falling through takes its place.
  lemma StepDeletedJump(p: Prog, i: nat, j: nat, c: Conf, c': Conf) returns (m: nat)
    requires UniqueLabels(p) && Adjacent(p, i, j) && Pattern3(p[i], p[j]).Some?
    requires ConfLe(c, c') && Step(p, c).Some?
    ensures m > 0 && Lands(p[i := Blank], c', m, Step(p, c).value)
  {
    hide StateLe, UniqueLabels, Effect;
    var q := p[i := Blank];
    if c.pc == i {
      TargetAt(p, p[i].l, j);
      BlankRun(q, i, j, c'.s);
      m := j - i;
    } else {
      JumpLe(p, i, Blank, c, c');
      OneStep(q, c');
      m := 1;
    }
  }

  lemma OneStep(p: Prog, c: Conf)
    ensures Steps(p, c, 1) == Step(p, c)
  {
    if Step(p, c).Some? {
      assert Steps(p, Step(p, c).value, 0) == Step(p, c);
    }
  }

  // A run of p is matched by one of the program with one pair rewritten, with as many steps or more.
  lemma {:induction false} PairRun(p: Prog, i: nat, j: nat, c: Conf, c': Conf, n: nat) returns (m: nat)
    requires UniqueLabels(p) && Adjacent(p, i, j) && PairRewrite(p[i], p[j]).Some?
    requires LineOk(p[j]) && !Mixed(p[i], p[j])
    requires ConfLe(c, c') && (Pattern3(p[i], p[j]).None? ==> Between(p, i, j, c)) && Steps(p, c, n).Some?
    ensures var t := PairRewrite(p[i], p[j]).value;
      m >= n && Lands(p[i := t.a][j := t.b], c', m, Steps(p, c, n).value)
    decreases n
  {
    hide StateLe, UniqueLabels, Between, LineOk, Mixed, Step;
    var t := PairRewrite(p[i], p[j]).value;
    var q := p[i := t.a][j := t.b];
    PairShape(p, i, j);
    m := 0;
    if n > 0 {
      var k := 1;
      if Pattern3(p[i], p[j]).Some? {
        k := StepDeletedJump(p, i, j, c, c');
      } else {
        StepReplaced(p, i, j, c, c');
        OneStep(q, c');
      }
      var l := PairRun(p, i, j, Step(p, c).value, Steps(q, c', k).value, n - 1);
      StepsAdd(q, c', k, l);
      m := k + l;
    }
  }

  lemma PairShape(p: Prog, i: nat, j: nat)
    requires i < j < |p| && PairRewrite(p[i], p[j]).Some?
    ensures var t := PairRewrite(p[i], p[j]).value;
      p[i := t.a][j := t.b] == if Pattern3(p[i], p[j]).Some? then p[i := Blank] else p[j := t.b]
  {
  }

  // ----- whole programs -----

  // Every run of p from its start is matched by a run of q, with as many steps or more, that gets to
  // the same line in a state that agrees with it.
  ghost predicate Refined(p: Prog, q: Prog) {
    forall s: State, s': State, n: nat :: StateLe(s, s') && Steps(p, Conf(0, s), n).Some? ==>
      Matched(q, Conf(0, s'), Steps(p, Conf(0, s), n).value, n)
  }

  ghost predicate Matched(q: Prog, c: Conf, d: Conf, n: nat) {
    exists m: nat :: m >= n && Lands(q, c, m, d)
  }

  lemma RefinedSelf(p: Prog)
    ensures Refined(p, p)
  {
    forall s: State, s': State, n: nat | StateLe(s, s') && Steps(p, Conf(0, s), n).Some?
      ensures Matched(p, Conf(0, s'), Steps(p, Conf(0, s), n).value, n)
    {
      RunLe(p, Conf(0, s), Conf(0, s'), n);
    }
  }

  lemma {:induction false} RunLe(p: Prog, c: Conf, c': Conf, n: nat)
    requires ConfLe(c, c') && Steps(p, c, n).Some?
    ensures Lands(p, c', n, Steps(p, c, n).value)
    decreases n
  {
    hide StateLe, Effect;
    if n > 0 {
      var i := p[c.pc];
      if Plain(i) || i.Lab? {
        EffectLe(i, c.s, c'.s);
      } else {
        FlagsAgree(c.s, c'.s);
      }
      RunLe(p, Step(p, c).value, Step(p, c').value, n - 1);
    }
  }

  lemma RefinedTrans(p: Prog, q: Prog, r: Prog)
    requires Refined(p, q) && Refined(q, r)
    ensures Refined(p, r)
  {
    hide StateLe;
    forall s: State, s': State, n: nat | StateLe(s, s') && Steps(p, Conf(0, s), n).Some?
      ensures Matched(r, Conf(0, s'), Steps(p, Conf(0, s), n).value, n)
    {
      var d := Steps(p, Conf(0, s), n).value;
      assert Matched(q, Conf(0, s'), d, n);
      var m: nat :| m >= n && Lands(q, Conf(0, s'), m, d);
      var e := Steps(q, Conf(0, s'), m).value;
      StateLeRefl(s');
      assert Matched(r, Conf(0, s'), e, m);
      var l: nat :| l >= m && Lands(r, Conf(0, s'), l, e);
      StateLeTrans(d.s, e.s, Steps(r, Conf(0, s'), l).value.s);
      assert l >= n && Lands(r, Conf(0, s'), l, d);
    }
  }

  lemma PairRefined(p: Prog, i: nat, j: nat)
    requires UniqueLabels(p) && Adjacent(p, i, j) && PairRewrite(p[i], p[j]).Some?
    requires LineOk(p[j]) && !Mixed(p[i], p[j])
    ensures var t := PairRewrite(p[i], p[j]).value; Refined(p, p[i := t.a][j := t.b])
  {
    hide StateLe, UniqueLabels, LineOk, Mixed, PairRewrite;
    var q := p[i := PairRewrite(p[i], p[j]).value.a][j := PairRewrite(p[i], p[j]).value.b];
    forall s: State, s': State, n: nat | StateLe(s, s') && Steps(p, Conf(0, s), n).Some?
      ensures Matched(q, Conf(0, s'), Steps(p, Conf(0, s), n).value, n)
    {
      var m := PairRun(p, i, j, Conf(0, s), Conf(0, s'), n);
    }
  }

  // ----- one line replaced by one that does at least as much -----

  ghost predicate DoesLine(i: Instr, x: Instr, s: State) {
    Effect(i, s).Some? ==> Effect(x, s).Some? && StateLe(Effect(i, s).value, Effect(x, s).value)
  }

  lemma {:induction false} LineRun(p: Prog, i: nat, x: Instr, c: Conf, c': Conf, n: nat)
    requires i < |p| && Plain(p[i]) && Plain(x) && (forall s: State :: DoesLine(p[i], x, s))
    requires ConfLe(c, c') && Steps(p, c, n).Some?
    ensures Lands(p[i := x], c', n, Steps(p, c, n).value)
    decreases n
  {
    hide StateLe, Effect, Target;
    var q := p[i := x];
    if n > 0 {
      if c.pc == i {
        assert DoesLine(p[i], x, c.s);
        EffectLe(x, c.s, c'.s);
        StateLeTrans(Effect(p[i], c.s).value, Effect(x, c.s).value, Effect(x, c'.s).value);
      } else {
        JumpLe(p, i, x, c, c');
      }
      LineRun(p, i, x, Step(p, c).value, Step(q, c').value, n - 1);
    }
  }

  lemma LineRefined(p: Prog, i: nat, x: Instr)
    requires i < |p| && Plain(p[i]) && Plain(x) && (forall s: State :: DoesLine(p[i], x, s))
    ensures Refined(p, p[i := x])
  {
    hide StateLe, DoesLine;
    forall s: State, s': State, n: nat | StateLe(s, s') && Steps(p, Conf(0, s), n).Some?
      ensures Matched(p[i := x], Conf(0, s'), Steps(p, Conf(0, s), n).value, n)
    {
      LineRun(p, i, x, Conf(0, s), Conf(0, s'), n);
    }
  }

  // ----- the window -----

  lemma UniqueUpdate(p: Prog, i: nat, a: Instr)
    requires UniqueLabels(p) && i < |p| && !p[i].Lab? && !a.Lab?
    ensures UniqueLabels(p[i := a])
  {
  }

  lemma PairUnique(p: Prog, i: nat, j: nat)
    requires UniqueLabels(p) && i < j < |p| && PairRewrite(p[i], p[j]).Some?
    ensures var t := PairRewrite(p[i], p[j]).value; UniqueLabels(p[i := t.a][j := t.b])
  {
    hide UniqueLabels;
    PairShape(p, i, j);
    var t := PairRewrite(p[i], p[j]).value;
    if Pattern3(p[i], p[j]).Some? {
      UniqueUpdate(p, i, Blank);
    } else {
      UniqueUpdate(p, j, t.b);
    }
  }

  lemma InWhole(done: Prog, win: Prog, rest: Prog, k: nat, a: Instr)
    requires k < |win|
    ensures (done + win + rest)[|done| + k] == win[k]
    ensures (done + win + rest)[|done| + k := a] == done + win[k := a] + rest
  {
  }

  // The program around the window.
  function Whole(done: Prog, win: Prog, rest: Prog, tail: Prog): Prog { done + win + rest + tail }

  ghost predicate Sound(done: Prog, win: Prog, rest: Prog, tail: Prog) {
    CodeFrom(done + win + rest, |done|) && UniqueLabels(Whole(done, win, rest, tail))
  }

  lemma {:induction false} RewriteRefined(done: Prog, win: Prog, rest: Prog, tail: Prog, ii: nat)
    requires ii <= |win| <= 3 && Rewrite(win, rest, ii).Some? && Sound(done, win, rest, tail)
    ensures var w1 := Rewrite(win, rest, ii).value;
      Refined(Whole(done, win, rest, tail), Whole(done, w1, rest, tail)) && Sound(done, w1, rest, tail)
    decreases |win| - ii
  {
    hide CodeFrom, UniqueLabels, Refined, PairRewrite, Pattern5;
    if win[ii].Blank? {
      RewriteRefined(done, win, rest, tail, ii + 1);
    } else {
      var jj := NextLine(win, ii + 1);
      var kk := NextLine(win, jj + 1);
      if PairRewrite(win[ii], win[jj]).Some? {
        PairInWindow(done, win, rest, tail, ii, jj);
      } else if kk < |win| && Pattern5(win[ii], win[jj], win[kk], rest).Some? {
        TripleInWindow(done, win, rest, tail);
      } else {
        RewriteRefined(done, win, rest, tail, ii + 1);
      }
    }
  }

  // Where pattern 5 fires on fine lines, the first only loses its suffix and the last one goes.
  lemma FineFires(a: Instr, b: Instr, c: Instr, rest: Prog)
    requires Fine5(a, b, c, rest) && Pattern5(a, b, c, rest).Some?
    ensures a.Mov? && a.dst.R? && c.Mov? && c.src == c.dst == a.dst && !a.src.R? && c.sfx.NoSuffix? && SecondOperand(b) == Some(a.dst)
    ensures Pattern5(a, b, c, rest).value == Three(Mov(NoSuffix, a.src, a.dst), b, Blank)
  {
  }

  lemma TripleUpdate(p: Prog, d: nat)
    requires CodeFrom(p, d) && d + 2 < |p| && p[d].Mov? && p[d].dst.R? && SecondOperand(p[d + 1]) == Some(p[d].dst)
    ensures CodeFrom(p[d := Mov(NoSuffix, p[d].src, p[d].dst)][d + 2 := Blank], d)
  {
    hide LiveInText, NotMixed;
    var q := p[d := Mov(NoSuffix, p[d].src, p[d].dst)][d + 2 := Blank];
    forall k | d <= k && k + 2 < |q| ensures Fine5(q[k], q[k + 1], q[k + 2], q[k + 3..]) {
      if k > d + 2 {
        assert q[k + 3..] == p[k + 3..];
      }
    }
    forall k: nat, l: nat | d <= k ensures NotMixed(q, k, l) {
      TripleNotMixed(p, d, k, l);
    }
  }

  // A store is none of the first two lines of such a triple, and the third is gone.
  lemma TripleNotMixed(p: Prog, d: nat, k: nat, l: nat)
    requires d + 2 < |p| && p[d].Mov? && p[d].dst.R? && SecondOperand(p[d + 1]) == Some(p[d].dst) && d <= k && NotMixed(p, k, l)
    ensures NotMixed(p[d := Mov(NoSuffix, p[d].src, p[d].dst)][d + 2 := Blank], k, l)
  {
    hide OpWidth;
    var q := p[d := Mov(NoSuffix, p[d].src, p[d].dst)][d + 2 := Blank];
    if k > d + 2 && Adjacent(q, k, l) {
      assert forall m :: k <= m <= l ==> q[m] == p[m];
    } else if k == d + 1 {
      assert q[k] == p[d + 1] && !IsStore(q[k]);
    }
  }

  lemma SuffixLost(a: Instr, s: State)
    requires a.Mov? && a.dst.R? && !a.src.R? && Effect(a, s).Some?
    ensures Effect(Mov(NoSuffix, a.src, a.dst), s) == Effect(a, s)
  {
    hide Load32, Load64;
  }

  // mov %r, %r keeps what was known of the register.
  lemma SelfMove(c: Instr, s: State)
    requires c.Mov? && c.src.R? && c.src == c.dst && Effect(c, s).Some?
    ensures StateLe(Effect(c, s).value, s)
  {
    hide SameBytes;
    StateLeRefl(s);
  }

  lemma TripleRefined(p: Prog, d: nat, a: Instr, c: Instr)
    requires d + 2 < |p| && p[d] == a && p[d + 2] == c
    requires a.Mov? && a.dst.R? && c.Mov? && c.src == c.dst == a.dst && !a.src.R?
    ensures Refined(p, p[d := Mov(NoSuffix, a.src, a.dst)][d + 2 := Blank])
  {
    hide Effect, StateLe, Refined;
    var a1 := Mov(NoSuffix, a.src, a.dst);
    forall s: State | Effect(a, s).Some? ensures DoesLine(a, a1, s) {
      SuffixLost(a, s);
      StateLeRefl(Effect(a, s).value);
    }
    LineRefined(p, d, a1);
    forall s: State | Effect(c, s).Some? ensures DoesLine(c, Blank, s) {
      SelfMove(c, s);
      BlankEffect(s);
    }
    LineRefined(p[d := a1], d + 2, Blank);
    RefinedTrans(p, p[d := a1], p[d := a1][d + 2 := Blank]);
  }

  lemma TripleInWindow(done: Prog, win: Prog, rest: Prog, tail: Prog)
    requires Sound(done, win, rest, tail) && |win| == 3 && Pattern5(win[0], win[1], win[2], rest).Some?
    ensures var t := Pattern5(win[0], win[1], win[2], rest).value;
      var w1 := win[0 := t.a][1 := t.b][2 := t.c];
      Refined(Whole(done, win, rest, tail), Whole(done, w1, rest, tail)) && Sound(done, w1, rest, tail)
  {
    hide UniqueLabels, Refined, CodeFrom, Fine5, Pattern5;
    var code, d := done + win + rest, |done|;
    var p := Whole(done, win, rest, tail);
    assert code[d] == win[0] && code[d + 1] == win[1] && code[d + 2] == win[2] && code[d + 3..] == rest;
    FineHere(code, d);
    FineFires(win[0], win[1], win[2], rest);
    var a1 := Mov(NoSuffix, win[0].src, win[0].dst);
    var w1 := win[0 := a1][1 := win[1]][2 := Blank];
    assert code[d := a1][d + 2 := Blank] == done + w1 + rest;
    assert p[d] == win[0] && p[d + 2] == win[2] && p[d := a1][d + 2 := Blank] == Whole(done, w1, rest, tail);
    TripleUpdate(code, d);
    UniqueUpdate(p, d, a1);
    UniqueUpdate(p[d := a1], d + 2, Blank);
    TripleRefined(p, d, win[0], win[2]);
  }

  lemma FineHere(p: Prog, d: nat)
    requires CodeFrom(p, d) && d + 2 < |p|
    ensures Fine5(p[d], p[d + 1], p[d + 2], p[d + 3..])
  {
  }

  lemma PairInWindow(done: Prog, win: Prog, rest: Prog, tail: Prog, ii: nat, jj: nat)
    requires Sound(done, win, rest, tail) && |win| <= 3 && Adjacent(win, ii, jj) && PairRewrite(win[ii], win[jj]).Some?
    ensures var t := PairRewrite(win[ii], win[jj]).value;
      var w1 := win[ii := t.a][jj := t.b];
      Refined(Whole(done, win, rest, tail), Whole(done, w1, rest, tail)) && Sound(done, w1, rest, tail)
  {
    hide UniqueLabels, Refined, PairRewrite, LineOk, Mixed, Fine5;
    var t := PairRewrite(win[ii], win[jj]).value;
    var code, w1 := done + win + rest, win[ii := t.a][jj := t.b];
    var p, i, j := Whole(done, win, rest, tail), |done| + ii, |done| + jj;
    InWhole(done, win, rest, ii, t.a);
    InWhole(done, win, rest, jj, t.b);
    InWhole(done, win[ii := t.a], rest, jj, t.b);
    assert code[i := t.a][j := t.b] == done + w1 + rest;
    assert p == code + tail;
    InWhole([], code, tail, i, t.a);
    InWhole([], code, tail, j, t.b);
    InWhole([], code[i := t.a], tail, j, t.b);
    assert [] + code + tail == p;
    assert p[i := t.a][j := t.b] == Whole(done, w1, rest, tail) by {
      assert [] + code[i := t.a][j := t.b] + tail == Whole(done, w1, rest, tail);
    }
    assert Adjacent(code, i, j) by {
      forall m | i < m < j
        ensures code[m].Blank?
      {
        assert code[m] == win[m - |done|];
      }
    }
    assert Adjacent(p, i, j) by {
      forall m | i < m < j
        ensures p[m].Blank?
      {
        assert p[m] == code[m];
      }
    }
    assert NotMixed(code, i, j) && p[i] == code[i] && p[j] == code[j];
    CodeOkUpdate(code, |done|, i, j);
    PairUnique(p, i, j);
    PairRefined(p, i, j);
  }

  lemma {:induction false} SettleRefined(done: Prog, win: Prog, rest: Prog, tail: Prog)
    requires |win| <= 3 && Sound(done, win, rest, tail)
    ensures var w1 := Settle(win, rest);
      Refined(Whole(done, win, rest, tail), Whole(done, w1, rest, tail)) && Sound(done, w1, rest, tail)
    decreases NonBlank(win), Loads(win), RegOps(win), Pending(win, 0), Pending(win, 1)
  {
    hide Sound, Whole, Refined, NonBlank, Loads, RegOps, Pending;
    var p := Whole(done, win, rest, tail);
    match Rewrite(win, rest)
    case None => RefinedSelf(p);
    case Some(w1) =>
      RewriteDrops(win, rest, 0);
      RewriteRefined(done, win, rest, tail, 0);
      SettleRefined(done, w1, rest, tail);
      RefinedTrans(p, Whole(done, w1, rest, tail), Whole(done, Settle(w1, rest), rest, tail));
  }

  lemma {:induction false} SlideRefined(done: Prog, win: Prog, rest: Prog, tail: Prog)
    requires |win| <= 3 && Sound(done, win, rest, tail)
    ensures Refined(Whole(done, win, rest, tail), Slide(done, win, rest) + tail)
    decreases |rest|
  {
    hide Refined, CodeFrom, UniqueLabels;
    var p := Whole(done, win, rest, tail);
    if rest == [] {
      assert p == done + win + tail;
      RefinedSelf(p);
    } else {
      var done1, win1 := done, win;
      if |win| == 3 {
        done1, win1 := done + [win[0]], win[1..];
      }
      var w, r := win1 + [rest[0]], rest[1..];
      assert done1 + w + r == done + win + rest;
      CodeLater(done + win + rest, |done|, |done1|);
      assert Whole(done1, w, r, tail) == p;
      SettleRefined(done1, w, r, tail);
      SlideRefined(done1, Settle(w, r), r, tail);
      RefinedTrans(p, Whole(done1, Settle(w, r), r, tail), Slide(done1, Settle(w, r), r) + tail);
    }
  }

  lemma CodeLater(p: Prog, d: nat, d1: nat)
    requires CodeFrom(p, d) && d <= d1
    ensures CodeFrom(p, d1)
  {
    hide LineOk, Mixed, Fine5;
  }

  // ----- blanks are not printed -----

  // The position in the printed text of line k.
  function Pos(p: Prog, k: nat): nat
    requires k <= |p|
  {
    |Printed(p[..k])|
  }

  lemma PosStep(p: Prog, k: nat)
    requires k < |p|
    ensures Pos(p, k + 1) == Pos(p, k) + (if p[k].Blank? then 0 else 1)
    ensures Pos(p, k + 1) <= |Printed(p)|
    ensures !p[k].Blank? ==> Printed(p)[Pos(p, k)] == p[k]
  {
    hide Printed;
    var front, upto, back := p[..k], p[..k + 1], p[k + 1..];
    assert upto == front + [p[k]] && p == upto + back;
    PrintedOne(p[k]);
    PrintedConcat(front, [p[k]]);
    PrintedConcat(upto, back);
    assert Pos(p, k) == |Printed(front)| && Pos(p, k + 1) == |Printed(upto)|;
  }

  lemma PrintedOne(i: Instr)
    ensures Printed([i]) == if i.Blank? then [] else [i]
  {
  }

  lemma {:induction false} TargetPrinted(p: Prog, l: Label, k: nat)
    requires k <= Target(p, l, 0) < |p| && Pos(p, k) <= |Printed(p)| && Target(p, l, k) == Target(p, l, 0)
    ensures Target(Printed(p), l, Pos(p, k)) == Pos(p, Target(p, l, 0)) < |Printed(p)|
    decreases |p| - k
  {
    hide Pos, Printed;
    PosStep(p, k);
    if p[k] != Lab(l) {
      TargetPrinted(p, l, k + 1);
    }
  }

  // A step on a line that is printed is a step over the printed text.
  lemma LinePrinted(p: Prog, c: Conf)
    requires Step(p, c).Some? && !p[c.pc].Blank?
    ensures Step(p, c).value.pc <= |p|
    ensures Step(Printed(p), Conf(Pos(p, c.pc), c.s)) == Some(Conf(Pos(p, Step(p, c).value.pc), Step(p, c).value.s))
  {
    hide Pos, Printed, Effect;
    PosStep(p, c.pc);
    if p[c.pc].Jmp? || p[c.pc].Jcc? {
      PosZero(p);
      if Target(p, p[c.pc].l) < |p| {
        TargetPrinted(p, p[c.pc].l, 0);
      }
    }
  }

  // One step over the lines is at most one step over the printed text.
  lemma StepPrinted(p: Prog, c: Conf)
    requires Step(p, c).Some?
    ensures c.pc < |p| && Step(p, c).value.pc <= |p|
    ensures Reaches(Printed(p), Conf(Pos(p, c.pc), c.s), Conf(Pos(p, Step(p, c).value.pc), Step(p, c).value.s))
  {
    hide Pos, Printed, Effect, Reaches;
    var q, c1 := Printed(p), Conf(Pos(p, c.pc), c.s);
    if p[c.pc].Blank? {
      PosStep(p, c.pc);
      BlankEffect(c.s);
      ReachSelf(q, c1);
    } else {
      LinePrinted(p, c);
      ReachStep(q, c1);
    }
  }

  // Blank lines are passed over: the next line that is printed stands where the first of them does.
  lemma {:induction false} NextPrinted(p: Prog, c: Conf) returns (i: nat)
    requires c.pc <= |p| && Goes(p, c, |p| - c.pc + 1)
    ensures c.pc <= i < |p| && !p[i].Blank? && Steps(p, c, i - c.pc) == Some(Conf(i, c.s)) && Pos(p, i) == Pos(p, c.pc)
    decreases |p| - c.pc
  {
    hide Pos, Printed;
    if p[c.pc].Blank? {
      BlankEffect(c.s);
      PosStep(p, c.pc);
      i := NextPrinted(p, Conf(c.pc + 1, c.s));
    } else {
      i := c.pc;
    }
  }

  // So a run that goes on for long enough goes on in the printed text.
  lemma {:induction false} PrintedGoes(p: Prog, c: Conf, n: nat)
    requires c.pc <= |p| && Goes(p, c, n * (|p| + 1))
    ensures Goes(Printed(p), Conf(Pos(p, c.pc), c.s), n)
    decreases n
  {
    hide Pos, Printed, Step;
    if n > 0 {
      var all := n * (|p| + 1);
      assert all == (n - 1) * (|p| + 1) + (|p| + 1);
      GoesLess(p, c, |p| - c.pc + 1, all);
      var i := NextPrinted(p, c);
      var d, k := Conf(i, c.s), i - c.pc;
      StepsAdd(p, c, k, all - k);
      LinePrinted(p, d);
      GoesLess(p, Step(p, d).value, (n - 1) * (|p| + 1), all - k - 1);
      PrintedGoes(p, Step(p, d).value, n - 1);
    }
  }

  lemma PosZero(p: Prog)
    ensures Pos(p, 0) == 0
  {
  }

  lemma {:induction false} RunPrinted(p: Prog, c: Conf, n: nat)
    requires c.pc <= |p| && Steps(p, c, n).Some?
    ensures Steps(p, c, n).value.pc <= |p|
    ensures var d := Steps(p, c, n).value;
      Reaches(Printed(p), Conf(Pos(p, c.pc), c.s), Conf(Pos(p, d.pc), d.s))
    decreases n
  {
    hide Pos, Printed, Reaches, Step;
    if n == 0 {
      ReachSelf(Printed(p), Conf(Pos(p, c.pc), c.s));
    } else {
      StepPrinted(p, c);
      var e, d := Step(p, c).value, Steps(p, c, n).value;
      RunPrinted(p, e, n - 1);
      ReachTrans(Printed(p), Conf(Pos(p, c.pc), c.s), Conf(Pos(p, e.pc), e.s), Conf(Pos(p, d.pc), d.s));
    }
  }

  // ----- the theorem -----

  lemma OptimizedLands(code: Prog, tail: Prog, s: State, n: nat) returns (m: nat)
    requires CodeOk(code) && UniqueLabels(code + tail) && Steps(code + tail, Conf(0, s), n).Some?
    ensures m >= n && Lands(Optimized(code) + tail, Conf(0, s), m, Steps(code + tail, Conf(0, s), n).value)
  {
    hide CodeFrom, UniqueLabels, StateLe, Slide, Lands;
    var p, q := code + tail, Optimized(code) + tail;
    assert [] + [] + code == code && Whole([], [], code, tail) == p;
    SlideRefined([], [], code, tail);
    StateLeRefl(s);
    assert Matched(q, Conf(0, s), Steps(p, Conf(0, s), n).value, n);
    m :| m >= n && Lands(q, Conf(0, s), m, Steps(p, Conf(0, s), n).value);
  }

  lemma OptimizedText(code: Prog, tail: Prog)
    requires forall i :: 0 <= i < |tail| ==> !tail[i].Blank?
    ensures Printed(Optimized(code) + tail) == Printed(Optimized(code)) + tail && Pos(Optimized(code) + tail, 0) == 0
  {
    hide Printed, Slide;
    PosZero(Optimized(code) + tail);
    PrintedConcat(Optimized(code), tail);
    PrintedAll(tail);
  }

  // The optimized body behaves like the original: every run of the body, followed by the rest of
  // the function, is matched by a run of what the optimizer writes, which gets to the line
  // corresponding to the one the original got to, with the same registers, memory and flags
  // wherever the machine defines them.
  lemma OptimizedRun(code: Prog, tail: Prog, s: State, d: Conf) returns (t: State)
    requires CodeOk(code) && UniqueLabels(code + tail) && (forall i :: 0 <= i < |tail| ==> !tail[i].Blank?)
    requires Reaches(code + tail, Conf(0, s), d)
    ensures d.pc <= |code + tail| && StateLe(d.s, t)
    ensures Reaches(Printed(Optimized(code)) + tail, Conf(0, s), Conf(Pos(Optimized(code) + tail, d.pc), t))
  {
    hide CodeOk, UniqueLabels, StateLe, Optimized, Printed, Pos;
    var q := Optimized(code) + tail;
    var n: nat :| Steps(code + tail, Conf(0, s), n) == Some(d);
    var m := OptimizedLands(code, tail, s, n);
    RunPrinted(q, Conf(0, s), m);
    OptimizedText(code, tail);
    t := Steps(q, Conf(0, s), m).value.s;
  }

  // And where the body runs for long enough, the optimized body goes on.
  lemma OptimizedGoes(code: Prog, tail: Prog, s: State, n: nat)
    requires CodeOk(code) && UniqueLabels(code + tail) && (forall i :: 0 <= i < |tail| ==> !tail[i].Blank?)
    requires Goes(code + tail, Conf(0, s), n * (|code + tail| + 1))
    ensures Goes(Printed(Optimized(code)) + tail, Conf(0, s), n)
  {
    hide CodeOk, UniqueLabels, StateLe, Optimized, Printed, Pos;
    var q, all := Optimized(code) + tail, n * (|code + tail| + 1);
    var m := OptimizedLands(code, tail, s, all);
    GoesLess(q, Conf(0, s), all, m);
    PrintedGoes(q, Conf(0, s), n);
    OptimizedText(code, tail);
  }

  lemma {:induction false} PrintedAll(p: Prog)
    requires forall i :: 0 <= i < |p| ==> !p[i].Blank?
    ensures Printed(p) == p
  {
    if p != [] {
      PrintedAll(p[1..]);
    }
  }
}
