/** Where the peephole optimizer does not preserve meaning, and exactly when it does. */
module PeepholeLimits {
  import opened Machine
  import opened Options
  import opened Peephole
  import opened PeepholeCorrect

  function Effect2(a: Instr, b: Instr, s: State): Option<State> {
    if Effect(a, s).None? then None else Effect(b, Effect(a, s).value)
  }

  function Effect3(a: Instr, b: Instr, c: Instr, s: State): Option<State> {
    if Effect2(a, b, s).None? then None else Effect(c, Effect2(a, b, s).value)
  }

  // ----- pattern 5 -----

  // Pattern 5 takes "mov D, X" for a move into D, which it is not in this operand order: the
  // original lines leave D alone and X with D's value; the rewritten ones leave X alone and D with
  // what the first two lines had put into X.  X itself may be dead behind the lines: that is what
  // the optimizer looks for.
  ghost predicate AgreesAt(a: Instr, b: Instr, c: Instr, t: Three, s: State)
    requires a.Mov?
  {
    Effect3(a, b, c, s).Some? ==>
      && Effect3(t.a, t.b, t.c, s).Some?
      && var old3, new3 := Effect3(a, b, c, s).value, Effect3(t.a, t.b, t.c, s).value;
        forall r: Reg :: !(a.dst.R? && a.dst.r == r) ==> ValLe(GetReg(old3, r), GetReg(new3, r))
  }

  // The rewritten lines leave every register but X as the original ones do, from any state.
  ghost predicate Agrees(a: Instr, b: Instr, c: Instr, t: Three)
    requires a.Mov?
  {
    forall s: State :: AgreesAt(a, b, c, t, s)
  }

  // ----- the effect of a line in a state with other numbers -----

  // The same kind of value.
  predicate SameKind(v: RegVal, v': RegVal) {
    (v.Narrow? <==> v'.Narrow?) && (v.Wide? <==> v'.Wide?) && (v.Low? <==> v'.Low?) && (v.Ptr? <==> v'.Ptr?)
  }

  ghost predicate KindLe(s: State, s': State) { forall r: Reg :: SameKind(GetReg(s, r), GetReg(s', r)) }

  predicate Straight(i: Instr) { SecondOperand(i).Some? }

  lemma SetKind(s: State, s': State, r: Reg, v: RegVal, v': RegVal)
    requires KindLe(s, s') && SameKind(v, v')
    ensures KindLe(SetReg(s, r, v), SetReg(s', r, v'))
  {
    forall q: Reg
      ensures SameKind(GetReg(SetReg(s, r, v), q), GetReg(SetReg(s', r, v'), q))
    {
      assert SameKind(GetReg(s, q), GetReg(s', q));
    }
  }

  lemma FlagsKind(s: State, s': State, f: Flags, f': Flags)
    requires KindLe(s, s')
    ensures KindLe(s.(flags := f), s'.(flags := f'))
  {
    forall q: Reg
      ensures SameKind(GetReg(s.(flags := f), q), GetReg(s'.(flags := f'), q))
    {
      assert SameKind(GetReg(s, q), GetReg(s', q));
    }
  }

  lemma MemKind(s: State, s': State, m: Memory, m': Memory)
    requires KindLe(s, s')
    ensures KindLe(s.(mem := m), s'.(mem := m'))
  {
    forall q: Reg
      ensures SameKind(GetReg(s.(mem := m), q), GetReg(s'.(mem := m'), q))
    {
      assert SameKind(GetReg(s, q), GetReg(s', q));
    }
  }

  lemma ReadKind(s: State, s': State, o: Operand, w: Width)
    requires KindLe(s, s') && Read(s, o, w).Some?
    ensures Read(s', o, w).Some? && SameKind(Read(s, o, w).value, Read(s', o, w).value)
  {
    hide Load32, Load64;
    match o
    case R(r, _) => assert SameKind(GetReg(s, r), GetReg(s', r));
    case Ind(r) => assert SameKind(GetReg(s, r), GetReg(s', r));
    case _ =>
  }

  lemma StoreKind(s: State, s': State, a: int, a': int, w: Width, v: RegVal, v': RegVal)
    requires KindLe(s, s') && SameKind(v, v') && StoreAt(s, a, w, v).Some?
    ensures StoreAt(s', a', w, v').Some? && KindLe(StoreAt(s, a, w, v).value, StoreAt(s', a', w, v').value)
  {
    hide Store32, Store64, KindLe;
    MemKind(s, s', StoreAt(s, a, w, v).value.mem, StoreAt(s', a', w, v').value.mem);
  }

  lemma WriteKind(s: State, s': State, o: Operand, w: Width, v: RegVal, v': RegVal)
    requires KindLe(s, s') && SameKind(v, v') && Write(s, o, w, v).Some?
    ensures Write(s', o, w, v').Some? && KindLe(Write(s, o, w, v).value, Write(s', o, w, v').value)
  {
    hide StoreAt, SetReg;
    match o
    case R(r, _) => SetKind(s, s', r, v, v');
    case Imm(_) =>
    case Frame(off) => StoreKind(s, s', Addr(off), Addr(off), w, v, v');
    case Ind(r) =>
      assert SameKind(GetReg(s, r), GetReg(s', r));
      StoreKind(s, s', Addr(GetReg(s, r).o), Addr(GetReg(s', r).o), w, v, v');
  }

  lemma AluKind(sfx: Suffix, op: AluOp, src: Operand, dst: Operand, s: State, s': State)
    requires KindLe(s, s') && Effect(Alu(sfx, op, src, dst), s).Some?
    ensures Effect(Alu(sfx, op, src, dst), s').Some?
    ensures KindLe(Effect(Alu(sfx, op, src, dst), s).value, Effect(Alu(sfx, op, src, dst), s').value)
  {
    hide KindLe, AluInt, Write, Read, CmpFlags;
    var w := OpWidth(sfx, src, dst).value;
    ReadKind(s, s', src, w);
    ReadKind(s, s', dst, w);
    var a, d, a', d' := Read(s, src, w).value, Read(s, dst, w).value, Read(s', src, w).value, Read(s', dst, w).value;
    var r, r' := AluVal(op, w, d, a).value, AluVal(op, w, d', a').value;
    if op.OCmp? {
      FlagsKind(s, s', CmpFlags(w, d, a), CmpFlags(w, d', a'));
    } else {
      FlagsKind(s, s', NoFlags, NoFlags);
      WriteKind(s.(flags := NoFlags), s'.(flags := NoFlags), dst, w, r, r');
    }
  }

  // A line that runs also runs where the registers hold other numbers of the same kinds.
  lemma EffectKind(i: Instr, s: State, s': State)
    requires Straight(i) && KindLe(s, s') && Effect(i, s).Some?
    ensures Effect(i, s').Some? && KindLe(Effect(i, s).value, Effect(i, s').value)
  {
    hide KindLe, AluVal, Write, Read, SetReg, Shift;
    match i
    case Mov(sfx, src, dst) =>
      var w := OpWidth(sfx, src, dst).value;
      ReadKind(s, s', src, w);
      WriteKind(s, s', dst, w, Read(s, src, w).value, Read(s', src, w).value);
    case Alu(sfx, op, src, dst) => AluKind(sfx, op, src, dst, s, s');
    case MovbImm(b, off) => MemKind(s, s', s.mem[Addr(off) := b], s'.mem[Addr(off) := b]);
    case MovbAl(off) =>
      KindAt(s, s', RAX);
      MemKind(s, s', s.mem[Addr(off) := GetReg(s, RAX).b], s'.mem[Addr(off) := GetReg(s', RAX).b]);
    case MovzblFrame(off, rd) => SetKind(s, s', rd, Narrow(GetByte(s.mem, Addr(off))), Narrow(GetByte(s'.mem, Addr(off))));
    case MovzblAl(rd) =>
      KindAt(s, s', RAX);
      SetKind(s, s', rd, Narrow(GetReg(s, RAX).b), Narrow(GetReg(s', RAX).b));
    case ShiftImm(sop, k, rd) =>
      KindAt(s, s', rd);
      FlagsKind(s, s', NoFlags, NoFlags);
      SetKind(s.(flags := NoFlags), s'.(flags := NoFlags), rd,
              Narrow(Shift(sop, Narrow32(s, rd).value, k)), Narrow(Shift(sop, Narrow32(s', rd).value, k)));
    case ShiftCl(sop, rd) =>
      KindAt(s, s', rd);
      KindAt(s, s', RCX);
      FlagsKind(s, s', NoFlags, NoFlags);
      SetKind(s.(flags := NoFlags), s'.(flags := NoFlags), rd,
              Narrow(Shift(sop, Narrow32(s, rd).value, Narrow32(s, RCX).value)),
              Narrow(Shift(sop, Narrow32(s', rd).value, Narrow32(s', RCX).value)));
    case Lea(off, rd) => SetKind(s, s', rd, Ptr(off), Ptr(off));
    case _ =>
  }

  lemma KindAt(s: State, s': State, r: Reg)
    requires KindLe(s, s')
    ensures SameKind(GetReg(s, r), GetReg(s', r))
    ensures Narrow32(s, r).Some? <==> Narrow32(s', r).Some?
  {
  }

  // ----- when the two agree -----

  // Another number of the same kind.
  function Other(v: RegVal): (v': RegVal)
    ensures SameKind(v, v') && v != v'
    ensures forall u :: !(ValLe(v, u) && ValLe(v', u))
  {
    match v
    case Narrow(n) => Narrow(if n == 0 then 1 else 0)
    case Wide(q) => Wide(if q == 0 then 1 else 0)
    case Low(b) => Low(if b == 0 then 1 else 0)
    case Ptr(o) => Ptr(o + 1)
  }

  // A line that writes its second operand leaves every other register alone.
  lemma OnlySecond(i: Instr, s: State, r: Reg)
    requires Straight(i) && Effect(i, s).Some? && !(SecondOperand(i).value.R? && SecondOperand(i).value.r == r)
    ensures GetReg(Effect(i, s).value, r) == GetReg(s, r)
  {
    hide Load32, Load64, Store32, Store64, AluInt, Shift;
  }

  lemma KeepsD(a: Instr, b: Instr, c: Instr, s: State)
    requires Matches5(a, b, c) && Effect3(a, b, c, s).Some? && !(a.dst.R? && a.dst.r == c.src.r)
    ensures GetReg(Effect3(a, b, c, s).value, c.src.r) == GetReg(s, c.src.r)
  {
    hide Effect;
    OnlySecond(a, s, c.src.r);
    OnlySecond(b, Effect(a, s).value, c.src.r);
    OnlySecond(c, Effect2(a, b, s).value, c.src.r);
  }

  // The original lines run just as well if D holds another number.
  lemma RunsToo(a: Instr, b: Instr, c: Instr, s: State, s': State)
    requires Matches5(a, b, c) && Effect3(a, b, c, s).Some? && KindLe(s, s')
    ensures Effect3(a, b, c, s').Some?
  {
    hide Effect, KindLe;
    EffectKind(a, s, s');
    EffectKind(b, Effect(a, s).value, Effect(a, s').value);
    EffectKind(c, Effect2(a, b, s).value, Effect2(a, b, s').value);
  }

  function WithOther(s: State, d: Reg): State { SetReg(s, d, Other(GetReg(s, d))) }

  lemma OtherKind(s: State, d: Reg)
    ensures KindLe(s, WithOther(s, d))
  {
  }

  // A load into D from elsewhere forgets what D held.
  lemma Forgotten(a: Instr, c: Instr, s: State)
    requires a.Mov? && !a.src.R? && c.Mov? && c.src.R? && a.src != Ind(c.src.r)
    ensures Effect(Mov(NoSuffix, a.src, c.src), WithOther(s, c.src.r)) == Effect(Mov(NoSuffix, a.src, c.src), s)
  {
    hide Load32, Load64;
    var d, u := c.src.r, WithOther(s, c.src.r);
    var w := OpWidth(NoSuffix, a.src, c.src);
    if w.Some? && Read(s, a.src, w.value).Some? {
      var v := Read(s, a.src, w.value).value;
      assert Read(u, a.src, w.value) == Some(v);
      assert s.regs[d := Other(GetReg(s, d))][d := v] == s.regs[d := v];
    }
  }

  // A load through D itself: what the rewritten lines leave in D is no address, or is an address
  // that does not depend on D.
  lemma ThroughD(a: Instr, b: Instr, c: Instr, s: State)
    requires Matches5(a, b, c) && Effect3(a, b, c, s).Some? && a.src == Ind(c.src.r) && a.dst.R? && a.dst.r != c.src.r
    ensures GetReg(s, c.src.r).Ptr?
    ensures var ta, tb, d, u := Mov(NoSuffix, a.src, c.src), WithSecondOperand(b, c.src), c.src.r, WithOther(s, c.src.r);
      Effect2(ta, tb, s).Some? && Effect2(ta, tb, u).Some? ==>
        var v := GetReg(Effect2(ta, tb, s).value, d);
        !v.Ptr? || v == GetReg(Effect2(ta, tb, u).value, d)
  {
    hide Load32, Load64, AluInt, Shift;
    KeepsD(a, b, c, s);
  }

  // Unless D is X, some state shows the difference.
  lemma Pattern5Differs(a: Instr, b: Instr, c: Instr, rest: Prog, s: State) returns (u: State)
    requires Pattern5(a, b, c, rest).Some? && Effect3(a, b, c, s).Some? && !(a.dst.R? && a.dst.r == c.src.r)
    ensures !AgreesAt(a, b, c, Pattern5(a, b, c, rest).value, u)
  {
    hide Effect, KindLe, ValLe, WithSecondOperand;
    var t, d := Pattern5(a, b, c, rest).value, c.src.r;
    u := s;
    if AgreesAt(a, b, c, t, s) {
      u := WithOther(s, d);
      OtherKind(s, d);
      RunsToo(a, b, c, s, u);
      KeepsD(a, b, c, s);
      KeepsD(a, b, c, u);
      BlankLast(t.a, t.b, s);
      BlankLast(t.a, t.b, u);
      OtherAt(s, d);
      if a.src != Ind(d) {
        Forgotten(a, c, s);
      } else {
        IndTarget(a, b, c, s);
        ThroughD(a, b, c, s);
        NoAddress(GetReg(s, d), GetReg(Effect2(t.a, t.b, s).value, d));
      }
    }
  }

  lemma OtherAt(s: State, d: Reg)
    ensures GetReg(WithOther(s, d), d) == Other(GetReg(s, d))
    ensures forall v :: !(ValLe(GetReg(s, d), v) && ValLe(Other(GetReg(s, d)), v))
  {
  }

  lemma NoAddress(v: RegVal, u: RegVal)
    requires v.Ptr? && ValLe(v, u)
    ensures u.Ptr?
  {
  }

  lemma BlankLast(a: Instr, b: Instr, s: State)
    ensures Effect3(a, b, Blank, s) == Effect2(a, b, s)
  {
  }

  lemma IndTarget(a: Instr, b: Instr, c: Instr, s: State)
    requires Matches5(a, b, c) && Effect3(a, b, c, s).Some? && a.src.Ind?
    ensures a.dst.R?
  {
  }

  // If D is X, nothing is lost at all.
  lemma Pattern5Same(a: Instr, b: Instr, c: Instr, rest: Prog, s: State)
    requires Pattern5(a, b, c, rest).Some? && Effect3(a, b, c, s).Some? && a.dst.R? && a.dst.r == c.src.r
    ensures var t := Pattern5(a, b, c, rest).value;
      Effect3(t.a, t.b, t.c, s).Some? && StateLe(Effect3(a, b, c, s).value, Effect3(t.a, t.b, t.c, s).value)
  {
    hide Load32, Load64, AluInt, Shift, StateLe;
    var t := Pattern5(a, b, c, rest).value;
    var s2 := Effect2(a, b, s).value;
    assert c.src == c.dst == a.dst;
    assert Effect(t.a, s) == Effect(a, s);
    assert t.b == b;
    SelfMove(c, s2);
  }

  // On lines that can run at all, pattern 5 is right exactly if D is X.
  lemma Pattern5Iff(a: Instr, b: Instr, c: Instr, rest: Prog)
    requires Pattern5(a, b, c, rest).Some? && exists s: State :: Effect3(a, b, c, s).Some?
    ensures Agrees(a, b, c, Pattern5(a, b, c, rest).value) <==> a.dst.R? && a.dst.r == c.src.r
  {
    hide Effect3, ValLe, StateLe;
    var t := Pattern5(a, b, c, rest).value;
    if a.dst.R? && a.dst.r == c.src.r {
      forall s: State
        ensures AgreesAt(a, b, c, t, s)
      {
        if Effect3(a, b, c, s).Some? {
          Pattern5Same(a, b, c, rest, s);
          RegsFrom(Effect3(a, b, c, s).value, Effect3(t.a, t.b, t.c, s).value);
        }
      }
    } else {
      var s: State :| Effect3(a, b, c, s).Some?;
      var u := Pattern5Differs(a, b, c, rest, s);
    }
  }

  // What the patterns make of three such lines: pattern 5 alone, or behind pattern 1 on the last two.
  function Spoiled(a: Instr, b: Instr, c: Instr, rest: Prog): Option<Three> {
    if Pattern1(b, c).Some? then Pattern5(a, b, Pattern1(b, c).value.b, rest) else Pattern5(a, b, c, rest)
  }

  // Exactly the triples that OptimizedRun shuts out are harmed: if three lines that can run are not
  // fine, what the patterns make of them differs, in some state, in a register that is in use.
  lemma NotFineHarmed(a: Instr, b: Instr, c: Instr, rest: Prog, s: State) returns (u: State)
    requires !Fine5(a, b, c, rest) && Effect3(a, b, c, s).Some?
    ensures Spoiled(a, b, c, rest).Some? && !AgreesAt(a, b, c, Spoiled(a, b, c, rest).value, u)
  {
    hide AgreesAt, Effect, LiveInText;
    if Pattern1(b, c).Some? {
      var c1 := Pattern1(b, c).value.b;
      Propagated(a, b, c, s);
      SameWidth(b, Effect(a, s).value);
      u := Pattern5Differs(a, b, c1, rest, s);
      Propagated(a, b, c, u);
      SameEffects(a, b, c, c1, Spoiled(a, b, c, rest).value, u);
    } else {
      if c.dst.R? { SameWidth(c, Effect2(a, b, s).value); }
      u := Pattern5Differs(a, b, c, rest, s);
    }
  }

  lemma SameEffects(a: Instr, b: Instr, c: Instr, c1: Instr, t: Three, u: State)
    requires a.Mov? && Effect3(a, b, c1, u) == Effect3(a, b, c, u)
    ensures AgreesAt(a, b, c1, t, u) == AgreesAt(a, b, c, t, u)
  {
    hide Effect;
  }

  // A copy propagated into the third line.
  lemma Propagated(a: Instr, b: Instr, c: Instr, s: State)
    requires Pattern1(b, c).Some?
    ensures Effect3(a, b, Pattern1(b, c).value.b, s) == Effect3(a, b, c, s)
  {
    hide Effect;
    if Effect2(a, b, s).Some? {
      var s1 := Effect(a, s).value;
      AfterMov(b, s1);
      CopyEither(b, c, Effect(b, s1).value);
    }
  }

  lemma CopyEither(a: Instr, b: Instr, s: State)
    requires Pattern1(a, b).Some? && JustMoved(a, s)
    ensures Effect(Pattern1(a, b).value.b, s) == Effect(b, s)
  {
  }

  // A move between halves of different width is no line at all.
  lemma SameWidth(c: Instr, s: State)
    requires c.Mov? && c.sfx.NoSuffix? && c.src.R? && c.dst.R? && Effect(c, s).Some?
    ensures c.src.w == c.dst.w
  {
  }

  lemma RegsFrom(s: State, s': State)
    requires StateLe(s, s')
    ensures forall r: Reg :: ValLe(GetReg(s, r), GetReg(s', r))
  {
  }

  // movl -84(%rbp), %r10d; add $1, %r10d; mov %r11d, %r10d at the end of a body: the optimizer
  // rewrites it, and %r11 is lost.
  const LOST := [Mov(SufL, Frame(84), R(Pool(0), W32)), Alu(NoSuffix, OAdd, Imm(1), R(Pool(0), W32)),
                 Mov(NoSuffix, R(Pool(1), W32), R(Pool(0), W32))]

  const CLOBBERED := [Mov(NoSuffix, Frame(84), R(Pool(1), W32)), Alu(NoSuffix, OAdd, Imm(1), R(Pool(1), W32))]

  // The window as it slides over the three lines.
  lemma Windows()
    ensures Settle([LOST[0]], LOST[1..]) == [LOST[0]]
    ensures Settle([LOST[0], LOST[1]], [LOST[2]]) == [LOST[0], LOST[1]]
    ensures Settle([LOST[0], LOST[1], LOST[2]], []) == CLOBBERED + [Blank]
  {
    var a, b, c := LOST[0], LOST[1], LOST[2];
    var a', b' := CLOBBERED[0], CLOBBERED[1];
    assert Rewrite([a, b], [c]).None?;
    assert Pattern5(a, b, c, []) == Some(Three(a', b', Blank));
    assert NextLine([a, b, c], 1) == 1 && NextLine([a, b, c], 2) == 2;
    assert [a, b, c][0 := a'][1 := b'][2 := Blank] == [a', b', Blank] == CLOBBERED + [Blank];
    assert Rewrite([a, b, c], []) == Some([a', b', Blank]);
    assert Rewrite([a', b', Blank], []).None?;
  }

  lemma Pattern5Fires()
    ensures Printed(Optimized(LOST)) == CLOBBERED
  {
    hide Settle;
    var a, b, c, w := LOST[0], LOST[1], LOST[2], CLOBBERED + [Blank];
    Windows();
    assert LOST[1..] == [b, c] && [b, c][1..] == [c] && [c][1..] == [];
    assert [] + [a] == [a] && [a] + [b] == [a, b] && [a, b] + [c] == [a, b, c];
    assert Optimized(LOST) == Slide([], [a], [b, c]) == Slide([], [a, b], [c]) == Slide([], w, []) == [] + w == w;
    assert w[1..] == [CLOBBERED[1], Blank] && w[1..][1..] == [Blank];
  }

  // So these lines are not rewritten correctly: %r11 is not %r10.
  lemma LostIsWrong()
    ensures !Agrees(LOST[0], LOST[1], LOST[2], Three(CLOBBERED[0], CLOBBERED[1], Blank))
  {
    hide Load32, Agrees;
    var s := State(map[Pool(1) := Narrow(7)], NoFlags, map[]);
    assert Effect(LOST[0], s) == Some(SetReg(s, Pool(0), Narrow(Load32(s.mem, Addr(84)))));
    assert Effect3(LOST[0], LOST[1], LOST[2], s).Some?;
    assert Pattern5(LOST[0], LOST[1], LOST[2], []) == Some(Three(CLOBBERED[0], CLOBBERED[1], Blank));
    Pattern5Iff(LOST[0], LOST[1], LOST[2], []);
  }

  // Run from the same state, the two leave different values in %r11.
  lemma Pattern5Wrong(s: State)
    requires GetReg(s, Pool(1)) == Narrow(7) && Load32(s.mem, Addr(84)) == 0
    ensures Effect3(LOST[0], LOST[1], LOST[2], s).Some? && Effect2(CLOBBERED[0], CLOBBERED[1], s).Some?
    ensures GetReg(Effect3(LOST[0], LOST[1], LOST[2], s).value, Pool(1)) == Narrow(7)
    ensures GetReg(Effect2(CLOBBERED[0], CLOBBERED[1], s).value, Pool(1)) == Narrow(1)
  {
    hide Load32;
    assert Effect(LOST[0], s) == Some(SetReg(s, Pool(0), Narrow(0)));
    assert Effect(CLOBBERED[0], s) == Some(SetReg(s, Pool(1), Narrow(0)));
  }

  // ----- pattern 2 -----

  // A dword store followed by a qword load of the slot: pattern 2 produces a move between
  // registers of different widths, which no assembler accepts.  It is the only way for
  // pattern 2 to turn two acceptable lines into an unacceptable one.
  lemma Pattern2Accepted(a: Instr, b: Instr)
    requires Pattern2(a, b).Some? && a.src.R? && LineOk(b)
    requires OpWidth(a.sfx, a.src, a.dst).Some? && OpWidth(b.sfx, b.src, b.dst).Some?
    ensures var c := Pattern2(a, b).value.b; OpWidth(c.sfx, c.src, c.dst).Some? <==> !Mixed(a, b)
  {
    assert b.dst.R?;
    assert b.dst.w == (if b.sfx.SufL? then W32 else W64);
    if b.sfx.SufL? {
      assert a.src.w == W64;
    } else {
      assert OpWidth(a.sfx, a.src, a.dst) == Some(a.src.w);
      assert a.src.w.W32? || a.src.w.W64?;
      assert OpWidth(NoSuffix, a.src, b.dst) == if a.src.w == b.dst.w then Some(a.src.w) else None;
    }
  }

  // ----- pattern 4 -----

  // A constant put in place of the register of an operation on memory leaves nothing that tells the
  // width, unless the line has a suffix: no assembler accepts that.
  lemma Pattern4Accepted(a: Instr, b: Instr)
    requires Pattern4(a, b).Some? && !NoChange(b.op, a.src.v) && OpWidth(b.sfx, b.src, b.dst).Some?
    ensures var c := Pattern4(a, b).value.b; OpWidth(c.sfx, c.src, c.dst).Some? <==> LineOk(b)
  {
  }

  // Deleting an operation that does not change the low half of its destination also keeps the
  // upper half, which the operation would have cleared.
  lemma Pattern4UpperHalf(a: Instr, b: Instr, s: State)
    requires Pattern4(a, b).Some? && NoChange(b.op, a.src.v) && JustMoved(a, s) && Effect(b, s).Some?
    requires b.dst.R? && OpWidth(b.sfx, b.src, b.dst) == Some(W32)
    ensures Pattern4(a, b).value.b == Blank
    ensures GetReg(Effect(b, s).value, b.dst.r) == GetReg(s, b.dst.r) <==> GetReg(s, b.dst.r).Narrow?
  {
    hide AluInt;
    var d := Read(s, b.dst, W32).value;
    NoChangeValue(b.op, a.src.v, d.n);
  }

  // ----- pattern 3: jumps too far ahead -----

  // Of three jumps to the next label the first stays: when the others go, it has left the window.
  lemma FirstJumpStays(l: Label)
    ensures Printed(Optimized([Jmp(l), Jmp(l), Jmp(l), Lab(l)])) == [Jmp(l), Lab(l)]
  {
    hide Settle, Rewrite, Printed;
    var j, b := [Jmp(l)], [Lab(l)];
    var p := [Jmp(l), Jmp(l), Jmp(l), Lab(l)];
    var w2, w3, end := [Jmp(l), Jmp(l)], [Jmp(l), Jmp(l), Jmp(l)], [Blank, Blank, Lab(l)];
    JumpsSettle(j, [Jmp(l), Jmp(l), Lab(l)]);
    JumpsSettle(w2, [Jmp(l), Lab(l)]);
    JumpsSettle(w3, b);
    LastJumpsGo(l);
    assert [] + [p[0]] == j && p[1..] == [Jmp(l), Jmp(l), Lab(l)];
    assert j + [Jmp(l)] == w2 && p[1..][1..] == [Jmp(l), Lab(l)];
    assert w2 + [Jmp(l)] == w3 && [Jmp(l), Lab(l)][1..] == b && b[1..] == [];
    assert w3[1..] + [Lab(l)] == [Jmp(l), Jmp(l), Lab(l)] && [] + [w3[0]] == j;
    assert Slide([], [], p) == Slide([], j, p[1..]);
    assert Slide([], j, p[1..]) == Slide([], w2, [Jmp(l), Lab(l)]);
    assert Slide([], w2, [Jmp(l), Lab(l)]) == Slide([], w3, b);
    assert Slide([], w3, b) == Slide(j, end, []) == j + end;
    JumpAndLabel(l);
  }

  lemma JumpAndLabel(l: Label)
    ensures Printed([Jmp(l)] + [Blank, Blank, Lab(l)]) == [Jmp(l), Lab(l)]
  {
    var p := [Jmp(l)] + [Blank, Blank, Lab(l)];
    assert Printed(p[4..]) == [];
    PrintedFrom(p, 3);
    PrintedFrom(p, 2);
    PrintedFrom(p, 1);
    PrintedFrom(p, 0);
    assert p[0..] == p;
  }

  // Jumps alone are left as they are.
  lemma {:induction false} OnlyJumps(win: Prog, rest: Prog, ii: nat)
    requires ii <= |win| <= 3 && forall i :: 0 <= i < |win| ==> win[i].Jmp?
    ensures Rewrite(win, rest, ii).None?
    decreases |win| - ii
  {
    if ii < |win| {
      OnlyJumps(win, rest, ii + 1);
    }
  }

  lemma JumpsSettle(win: Prog, rest: Prog)
    requires |win| <= 3 && forall i :: 0 <= i < |win| ==> win[i].Jmp?
    ensures Settle(win, rest) == win
  {
    hide Rewrite;
    OnlyJumps(win, rest, 0);
  }

  lemma LastJumpsGo(l: Label)
    ensures Settle([Jmp(l), Jmp(l), Lab(l)], []) == [Blank, Blank, Lab(l)]
  {
    hide Rewrite;
    var p, q, w := [Jmp(l), Jmp(l), Lab(l)], [Jmp(l), Blank, Lab(l)], [Blank, Blank, Lab(l)];
    FirstPass(l);
    OtherPasses(l);
    assert Settle(w, []) == w && Settle(q, []) == w;
  }

  lemma FirstPass(l: Label)
    ensures Rewrite([Jmp(l), Jmp(l), Lab(l)], []) == Some([Jmp(l), Blank, Lab(l)])
  {
    var p := [Jmp(l), Jmp(l), Lab(l)];
    assert NextLine(p, 1) == 1 && NextLine(p, 2) == 2;
    assert p[1 := Blank][2 := Lab(l)] == [Jmp(l), Blank, Lab(l)];
    assert Rewrite(p, [], 1) == Some([Jmp(l), Blank, Lab(l)]);
  }

  lemma OtherPasses(l: Label)
    ensures Rewrite([Jmp(l), Blank, Lab(l)], []) == Some([Blank, Blank, Lab(l)])
    ensures Rewrite([Blank, Blank, Lab(l)], []) == None
  {
    var q, w := [Jmp(l), Blank, Lab(l)], [Blank, Blank, Lab(l)];
    assert q[0 := Blank][2 := Lab(l)] == w;
    assert NextLine(q, 2) == 2 && NextLine(q, 1) == 2;
    assert NextLine(w, 3) == 3 && Rewrite(w, [], 2) == None;
    assert Rewrite(w, [], 1) == None;
  }
}
