/** What the optimizer does not leave behind: lines that stand next to each other and could still be
    rewritten. */
module PeepholeSettled {
  import opened Words
  import opened Machine
  import opened Options
  import opened Peephole

  predicate RegisterMove(i: Instr) { i.Mov? && i.sfx.NoSuffix? && i.src.R? && i.dst.R? }

  // No jump to the line that follows; no move of a register that was just moved; no load with a
  // suffix of what was just stored, unless the load is a dword and the source neither a 64-bit
  // register nor a dword constant; and no operation on a register just loaded with a constant,
  // unless it is one whose mnemonic the optimizer does not recognise.
  predicate SettledPair(a: Instr, b: Instr) {
    && !(a.Jmp? && b == Lab(a.l))
    && (RegisterMove(a) && RegisterMove(b) && b.src == a.dst ==> a.src == a.dst)
    && (a.Mov? && a.dst.Frame? && b.Mov? && b.src == a.dst && !b.sfx.NoSuffix? ==>
          b.sfx.SufL? && !(a.src.R? && a.src.w.W64?) && !(a.src.Imm? && a.sfx.SufL?))
    && (a.Mov? && a.src.Imm? && a.dst.R? && b.Alu? && b.src.R? && b.src.r == a.dst.r ==>
          b.sfx.NoSuffix? && (b.op.OSub? || b.op.OImul?))
  }

  // No value that is loaded, worked on and moved on, unless it is used again in the text behind.
  predicate SettledTriple(a: Instr, b: Instr, c: Instr, rest: Prog) {
    a.Mov? && !a.src.R? && SecondOperand(b) == Some(a.dst) && c.Mov? && c.sfx.NoSuffix? && c.src.R? && c.dst == a.dst ==>
      a.dst.R? && LiveInText(rest, a.dst.r)
  }

  // Used again: a label or a mention of the register in one of the next 30 lines.
  lemma {:induction false} LiveIff(rest: Prog, r: Reg, lines: nat)
    ensures LiveInText(rest, r, lines) <==> exists k :: 0 <= k < |rest| && k < lines && (rest[k].Lab? || Mentions(rest[k], r))
    decreases lines
  {
    hide Mentions;
    if lines > 0 && rest != [] {
      LiveIff(rest[1..], r, lines - 1);
      if k :| 0 <= k < |rest[1..]| && k < lines - 1 && (rest[1..][k].Lab? || Mentions(rest[1..][k], r)) {
        assert rest[k + 1] == rest[1..][k];
      }
      if k :| 0 <= k < |rest| && k < lines && (rest[k].Lab? || Mentions(rest[k], r)) {
        assert k > 0 ==> rest[1..][k - 1] == rest[k];
      }
    }
  }

  lemma LiveWithin30(rest: Prog, r: Reg)
    ensures LiveInText(rest, r) <==> exists k :: 0 <= k < |rest| && k < 30 && (rest[k].Lab? || Mentions(rest[k], r))
  {
    LiveIff(rest, r, 30);
  }

  // ----- the window -----

  lemma NextIsAdjacent(win: Prog, i: nat, j: nat)
    requires Adjacent(win, i, j)
    ensures NextLine(win, i + 1) == j
  {
  }

  lemma PairSettled(a: Instr, b: Instr)
    requires PairRewrite(a, b).None?
    ensures SettledPair(a, b)
  {
  }

  lemma {:induction false} PairsSettled(win: Prog, rest: Prog, ii: nat, i: nat, j: nat)
    requires ii <= i && Adjacent(win, i, j) && Rewrite(win, rest, ii).None?
    ensures SettledPair(win[i], win[j])
    decreases |win| - ii
  {
    hide PairRewrite, Pattern5, SettledPair;
    NextIsAdjacent(win, i, j);
    if ii == i {
      PairSettled(win[i], win[j]);
    } else {
      PairsSettled(win, rest, ii + 1, i, j);
    }
  }

  // No two adjacent lines of a window that has been settled could be rewritten, nor all three.
  lemma WindowSettled(win: Prog, rest: Prog)
    requires |win| <= 3
    ensures var w := Settle(win, rest); forall i: nat, j: nat :: Adjacent(w, i, j) ==> SettledPair(w[i], w[j])
    ensures var w := Settle(win, rest);
      |w| == 3 && !w[0].Blank? && !w[1].Blank? && !w[2].Blank? ==> SettledTriple(w[0], w[1], w[2], rest)
  {
    hide Settle, SettledPair, PairRewrite, LiveInText;
    var w := Settle(win, rest);
    assert Rewrite(w, rest, 0).None?;
    forall i: nat, j: nat | Adjacent(w, i, j) ensures SettledPair(w[i], w[j]) {
      PairsSettled(w, rest, 0, i, j);
    }
  }

  // ----- the text -----

  // The same line, or a load that has lost its suffix and perhaps got another destination.
  predicate Fades(a: Instr, b: Instr) { b == a || (a.Mov? && b.Mov? && !a.src.R? && b.src == a.src && b.sfx.NoSuffix?) }

  lemma FadedSettled(x: Instr, a: Instr, b: Instr)
    requires SettledPair(x, a) && Fades(a, b)
    ensures SettledPair(x, b)
  {
  }

  predicate NoJump(w: Prog) { |w| >= 2 ==> !(w[0].Jmp? && w[1] == Lab(w[0].l)) }

  // The first line that is printed was the first before, and has at most faded.
  predicate FrontKept(w: Prog, w1: Prog) {
    && |w1| == |w|
    && (|w| > 0 && !w1[0].Blank? ==> Fades(w[0], w1[0]))
    && (|w| > 1 && w1[0].Blank? && !w1[1].Blank? ==> w[0].Blank? && Fades(w[1], w1[1]))
  }

  // Rewriting makes no jump and no label, and takes a first line away only if it is a jump.
  lemma PairShapes(a: Instr, b: Instr)
    requires PairRewrite(a, b).Some?
    ensures var t := PairRewrite(a, b).value;
      && (t.a == a || (t.a.Blank? && a.Jmp? && b == Lab(a.l)))
      && (t.b == b || (!t.b.Jmp? && !t.b.Lab?))
  {
  }

  lemma TripleShapes(a: Instr, b: Instr, c: Instr, rest: Prog)
    requires Pattern5(a, b, c, rest).Some?
    ensures var t := Pattern5(a, b, c, rest).value; Fades(a, t.a) && t.a.Mov? && !t.b.Jmp? && !t.b.Lab? && t.c.Blank?
  {
    hide LiveInText;
  }

  lemma {:induction false} RewriteKeepsFront(win: Prog, rest: Prog, ii: nat)
    requires ii <= |win| <= 3 && NoJump(win) && Rewrite(win, rest, ii).Some?
    ensures var w1 := Rewrite(win, rest, ii).value; FrontKept(win, w1) && NoJump(w1)
    decreases |win| - ii
  {
    hide PairRewrite, Pattern5, Fades;
    SameFades();
    if win[ii].Blank? {
      RewriteKeepsFront(win, rest, ii + 1);
    } else {
      var jj := NextLine(win, ii + 1);
      var kk := NextLine(win, jj + 1);
      if PairRewrite(win[ii], win[jj]).Some? {
        PairShapes(win[ii], win[jj]);
      } else if kk < |win| && Pattern5(win[ii], win[jj], win[kk], rest).Some? {
        TripleShapes(win[ii], win[jj], win[kk], rest);
      } else {
        RewriteKeepsFront(win, rest, ii + 1);
      }
    }
  }

  lemma SameFades()
    ensures forall a: Instr :: Fades(a, a)
  {
  }

  lemma {:induction false} SettleKeepsFront(win: Prog, rest: Prog)
    requires |win| <= 3 && NoJump(win)
    ensures FrontKept(win, Settle(win, rest))
    decreases NonBlank(win), Loads(win), RegOps(win), Pending(win, 0), Pending(win, 1)
  {
    hide NonBlank, Loads, RegOps, Pending, Rewrite;
    match Rewrite(win, rest)
    case None =>
    case Some(w1) =>
      RewriteDrops(win, rest, 0);
      RewriteKeepsFront(win, rest, 0);
      SettleKeepsFront(w1, rest);
  }

  // Two lines of a text are far apart if two or more deleted lines stood between them.
  ghost predicate SettledText(p: Prog) {
    forall i: nat, j: nat :: Adjacent(p, i, j) && j <= i + 2 ==> SettledPair(p[i], p[j])
  }

  lemma {:induction false} SlideSettled(done: Prog, win: Prog, rest: Prog)
    requires |win| <= 3 && (done != [] ==> |win| == 3) && SettledText(done + win)
    ensures SettledText(Slide(done, win, rest))
    decreases |rest|
  {
    hide SettledPair, Settle, FrontKept;
    if rest != [] {
      var done1, win1 := done, win;
      if |win| == 3 {
        done1, win1 := done + [win[0]], win[1..];
      }
      var w, more := win1 + [rest[0]], rest[1..];
      WindowSettled(w, more);
      if |win| == 3 {
        SecondMove(done, win, rest[0], more);
      }
      assert [] + Settle(w, more) == Settle(w, more);
      SlideSettled(done1, Settle(w, more), more);
    }
  }

  // The window moves on by a line.
  lemma SecondMove(done: Prog, win: Prog, line: Instr, more: Prog)
    requires |win| == 3 && SettledText(done + win)
    ensures SettledText(done + [win[0]] + Settle(win[1..] + [line], more))
  {
    hide SettledPair, Settle, Fades;
    var p, w := done + win, win[1..] + [line];
    var w1, d := Settle(w, more), |done| + 1;
    var q := done + [win[0]] + w1;
    assert NoJump(w) by { FirstTwo(done, win); }
    SettleKeepsFront(w, more);
    WindowSettled(w, more);
    assert w[0] == p[d] && w[1] == p[d + 1];
    forall i: nat, j: nat | Adjacent(q, i, j) && j <= i + 2 ensures SettledPair(q[i], q[j]) {
      assert forall m :: 0 <= m < d ==> q[m] == p[m];
      if i >= d {
        assert Adjacent(w1, i - d, j - d) by { assert forall m :: i - d < m < j - d ==> w1[m] == q[d + m]; }
      } else if j < d {
        assert Adjacent(p, i, j);
      } else {
        assert q[d] == w1[0] && q[d + 1] == w1[1];
        assert Fades(p[j], q[j]);
        NotBlank(p[j], q[j]);
        assert Adjacent(p, i, j);
        FadedSettled(p[i], p[j], q[j]);
      }
    }
  }

  lemma NotBlank(a: Instr, b: Instr)
    requires Fades(a, b) && !b.Blank?
    ensures !a.Blank?
  {
  }

  lemma FirstTwo(done: Prog, win: Prog)
    requires |win| == 3 && SettledText(done + win)
    ensures !(win[1].Jmp? && win[2] == Lab(win[1].l))
  {
    var p, d := done + win, |done|;
    assert p[d + 1] == win[1] && p[d + 2] == win[2];
    if win[1].Jmp? && win[2].Lab? {
      assert Adjacent(p, d + 1, d + 2);
    }
  }

  // In the whole text that the optimizer writes, no two lines that are adjacent, with at most one
  // deleted line between them, could be rewritten.
  lemma OptimizedSettled(code: Prog)
    ensures SettledText(Optimized(code))
  {
    SlideSettled([], [], code);
  }

  // A jump to the next line goes, whatever the label is.
  lemma JumpGone(l: Label)
    ensures Printed(Optimized([Jmp(l), Lab(l)])) == [Lab(l)]
  {
    hide Settle, Rewrite, Printed;
    var j, b := [Jmp(l)], [Lab(l)];
    var p, w := j + b, [Blank, Lab(l)];
    assert [Jmp(l), Lab(l)] == p && p[1..] == b && b[1..] == [] && [] + [p[0]] == j;
    JumpSettles(l);
    assert Slide([], [], p) == Slide([], j, b);
    assert Slide([], j, b) == Slide([], w, []);
    assert Slide([], w, []) == [] + w == w;
    assert w == [Blank] + b;
    PrintedConcat([Blank], b);
    assert Printed([Blank]) == [] && Printed(b) == b by { PrintedLines(l); }
  }

  lemma PrintedLines(l: Label)
    ensures Printed([Blank]) == [] && Printed([Lab(l)]) == [Lab(l)]
  {
  }

  lemma JumpSettles(l: Label)
    ensures Settle([Jmp(l)], [Lab(l)]) == [Jmp(l)]
    ensures Settle([Jmp(l)] + [Lab(l)], []) == [Blank, Lab(l)]
  {
    var p, w := [Jmp(l)] + [Lab(l)], [Blank, Lab(l)];
    assert p[0 := Blank][1 := Lab(l)] == w;
    assert Rewrite(p, []) == Some(w);
    assert NextLine(w, 2) == 2 && Rewrite(w, [], 1) == None;
    assert Rewrite(w, []) == None;
  }

  // ----- what two lines become -----

  lemma TwoLines(a: Instr, b: Instr, t: Two)
    requires !a.Blank? && !b.Blank? && PairRewrite(a, b) == Some(t)
    requires t.a.Blank? || t.b.Blank? || PairRewrite(t.a, t.b).None?
    ensures Optimized([a, b]) == [t.a, t.b]
  {
    hide Settle, Rewrite, PairRewrite;
    var p, w := [a] + [b], [t.a, t.b];
    assert [a, b] == p && p[1..] == [b] && [b][1..] == [] && [] + [p[0]] == [a];
    TwoLinesSettle(a, b, t);
    assert Slide([], [], p) == Slide([], [a], [b]);
    assert Slide([], [a], [b]) == Slide([], w, []);
    assert Slide([], w, []) == [] + w == w;
  }

  lemma TwoLinesSettle(a: Instr, b: Instr, t: Two)
    requires !a.Blank? && !b.Blank? && PairRewrite(a, b) == Some(t)
    requires t.a.Blank? || t.b.Blank? || PairRewrite(t.a, t.b).None?
    ensures Settle([a], [b]) == [a] && Settle([a] + [b], []) == [t.a, t.b]
  {
    hide PairRewrite;
    var p, w := [a] + [b], [t.a, t.b];
    assert NextLine(p, 1) == 1 && p[0 := t.a][1 := t.b] == w;
    assert Rewrite(p, []) == Some(w);
    assert NextLine(w, 2) == 2 && Rewrite(w, [], 1) == None;
    assert Rewrite(w, []) == None;
  }

  // A register moved twice is moved from where it came.
  lemma CopyOutput(x: Operand, y: Operand, z: Operand)
    requires x.R? && y.R? && z.R? && x != y
    ensures Optimized([Mov(NoSuffix, x, y), Mov(NoSuffix, y, z)]) == [Mov(NoSuffix, x, y), Mov(NoSuffix, x, z)]
  {
    var a, b := Mov(NoSuffix, x, y), Mov(NoSuffix, y, z);
    TwoLines(a, b, Two(a, Mov(NoSuffix, x, z)));
  }

  // What was just stored is not loaded: it is moved, its low half for a dword.
  lemma LoadOutput(sfx: Suffix, src: Operand, off: int, d: Operand)
    ensures var a := Mov(sfx, src, Frame(off));
      && Optimized([a, Mov(SufQ, Frame(off), d)]) == [a, Mov(NoSuffix, src, d)]
      && (src.R? && src.w.W64? ==> Optimized([a, Mov(SufL, Frame(off), d)]) == [a, Mov(NoSuffix, R(src.r, W32), d)])
      && (src.Imm? && sfx.SufL? ==> Optimized([a, Mov(SufL, Frame(off), d)]) == [a, Mov(SufL, src, d)])
  {
    var a := Mov(sfx, src, Frame(off));
    TwoLines(a, Mov(SufQ, Frame(off), d), Two(a, Mov(NoSuffix, src, d)));
    if src.R? && src.w.W64? {
      TwoLines(a, Mov(SufL, Frame(off), d), Two(a, Mov(NoSuffix, R(src.r, W32), d)));
    } else if src.Imm? && sfx.SufL? {
      TwoLines(a, Mov(SufL, Frame(off), d), Two(a, Mov(SufL, src, d)));
    }
  }

  // A constant in a register is used instead of the register; adding, subtracting, or-ing or xor-ing
  // 0 and multiplying by 1 is left out.
  lemma ConstantOutput(sfx: Suffix, v: I32, r: Reg, w: Width, sfx1: Suffix, op: AluOp, w1: Width, d: Operand)
    requires sfx1.NoSuffix? ==> !op.OSub? && !op.OImul?
    ensures var a := Mov(sfx, Imm(v), R(r, w));
      Optimized([a, Alu(sfx1, op, R(r, w1), d)])
      == [a, if (v == 0 && op in {OAdd, OSub, OOr, OXor}) || (v == 1 && op.OImul?) then Blank else Alu(sfx1, op, Imm(v), d)]
  {
    var a, b := Mov(sfx, Imm(v), R(r, w)), Alu(sfx1, op, R(r, w1), d);
    TwoLines(a, b, Two(a, if NoChange(op, v) then Blank else Alu(sfx1, op, Imm(v), d)));
  }
}
