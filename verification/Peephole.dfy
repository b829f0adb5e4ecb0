/** The peephole optimizer: a window of three lines slides over a function body, and the lines
    in it are rewritten until no pattern applies before the oldest one is written out.

    Lines are matched by their printed form.  Two operands print alike exactly when they are
    equal, a suffix is part of the mnemonic, and a deleted line is Blank.
 */
module Peephole {
  import opened Machine
  import opened Options

  datatype Two = Two(a: Instr, b: Instr)
  datatype Three = Three(a: Instr, b: Instr, c: Instr)

  predicate SamePhys(a: Operand, b: Operand) { a.R? && b.R? && a.r == b.r }

  // ----- patterns on a pair of lines -----

  // mov A, B; mov B, C: the second line becomes mov A, C.
  function Pattern1(a: Instr, b: Instr): Option<Two> {
    if a.Mov? && b.Mov? && a.sfx.NoSuffix? && b.sfx.NoSuffix? && a.dst == b.src && a.src != b.src
       && a.src.R? && a.dst.R? && b.dst.R?
    then Some(Two(a, Mov(NoSuffix, a.src, b.dst))) else None
  }

  predicate IsStore(a: Instr) { a.Mov? && a.dst.Frame? }

  predicate IsLoad(b: Instr) { b.Mov? && !b.sfx.NoSuffix? && b.src.Frame? }

  // A store to a frame slot and a load from the same slot: the load becomes a move.  A dword
  // load only matches a store of a 64-bit register or of an immediate.
  function Pattern2(a: Instr, b: Instr): Option<Two> {
    if !IsStore(a) || !IsLoad(b) || a.dst.off != b.src.off then None
    else if b.sfx.SufL? && a.src.R? && a.src.w.W64? then Some(Two(a, Mov(NoSuffix, R(a.src.r, W32), b.dst)))
    else if b.sfx.SufQ? then Some(Two(a, Mov(NoSuffix, a.src, b.dst)))
    else if a.sfx.SufL? && a.src.Imm? then Some(Two(a, Mov(SufL, a.src, b.dst)))
    else None
  }

  // A jump to the next line is deleted.
  function Pattern3(a: Instr, b: Instr): Option<Two> {
    if a.Jmp? && b.Lab? && a.l == b.l then Some(Two(Blank, b)) else None
  }

  // Stripping a final l, q, w or b from the mnemonic turns sub into su and imul into imu, so
  // these two are recognised only with a suffix.
  predicate KnownOp(b: Instr) {
    b.Alu? && (b.sfx.NoSuffix? ==> !b.op.OSub? && !b.op.OImul?)
  }

  predicate NoChange(op: AluOp, v: int) {
    (v == 0 && (op.OAdd? || op.OSub? || op.OOr? || op.OXor?)) || (v == 1 && op.OImul?)
  }

  // An operation on a register just loaded with a constant takes the constant as its operand,
  // or goes away if the constant leaves the destination alone.
  function Pattern4(a: Instr, b: Instr): Option<Two> {
    if a.Mov? && a.src.Imm? && a.dst.R? && KnownOp(b) && SamePhys(b.src, a.dst) then
      Some(Two(a, if NoChange(b.op, a.src.v) then Blank else Alu(b.sfx, b.op, a.src, b.dst)))
    else None
  }

  function PairRewrite(a: Instr, b: Instr): Option<Two> {
    if Pattern1(a, b).Some? then Pattern1(a, b)
    else if Pattern2(a, b).Some? then Pattern2(a, b)
    else if Pattern3(a, b).Some? then Pattern3(a, b)
    else Pattern4(a, b)
  }

  // ----- pattern 5, on three lines -----

  // The second operand of a line that prints as "op X, Y".
  function SecondOperand(i: Instr): Option<Operand> {
    match i
    case Mov(_, _, dst) => Some(dst)
    case MovbImm(_, off) => Some(Frame(off))
    case MovbAl(off) => Some(Frame(off))
    case MovzblFrame(_, rd) => Some(R(rd, W32))
    case MovzblAl(rd) => Some(R(rd, W32))
    case Alu(_, _, _, dst) => Some(dst)
    case ShiftImm(_, _, rd) => Some(R(rd, W32))
    case ShiftCl(_, rd) => Some(R(rd, W32))
    case Lea(_, rd) => Some(R(rd, W64))
    case _ => None
  }

  function WithSecondOperand(i: Instr, d: Operand): Instr
    requires d.R?
  {
    match i
    case Mov(sfx, src, _) => Mov(sfx, src, d)
    case MovzblFrame(off, _) => MovzblFrame(off, d.r)
    case MovzblAl(_) => MovzblAl(d.r)
    case Alu(sfx, op, src, _) => Alu(sfx, op, src, d)
    case ShiftImm(sop, k, _) => ShiftImm(sop, k, d.r)
    case ShiftCl(sop, _) => ShiftCl(sop, d.r)
    case Lea(off, _) => Lea(off, d.r)
    case _ => i
  }

  predicate Names(o: Operand, r: Reg) {
    (o.R? && o.r == r) || (o.Ind? && o.base == r)
  }

  // Whether the text of a line contains a name of register r.
  predicate Mentions(i: Instr, r: Reg) {
    match i
    case Mov(_, src, dst) => Names(src, r) || Names(dst, r)
    case Alu(_, _, src, dst) => Names(src, r) || Names(dst, r)
    case MovbAl(_) => r == RAX
    case MovzblFrame(_, rd) => rd == r
    case MovzblAl(rd) => rd == r || r == RAX
    case ShiftImm(_, _, rd) => rd == r
    case ShiftCl(_, rd) => rd == r || r == RCX
    case NegR(rd) => rd == r
    case NotR(rd) => rd == r
    case Setcc(_) => r == RAX
    case Idiv(rs) => rs == r
    case Lea(_, rd) => rd == r
    case _ => false
  }

  const SCAN_LINES: nat := 30

  // Scan the text that has not entered the window yet; a label counts as a use.
  predicate LiveInText(rest: Prog, r: Reg, lines: nat := SCAN_LINES) {
    lines > 0 && rest != [] && (rest[0].Lab? || Mentions(rest[0], r) || LiveInText(rest[1..], r, lines - 1))
  }

  // mov M, X; op Y, X; mov D, X with D a register and M not.
  predicate Matches5(a: Instr, b: Instr, c: Instr) {
    && a.Mov? && !a.src.R? && SecondOperand(b) == Some(a.dst)
    && c.Mov? && c.sfx.NoSuffix? && c.src.R? && c.dst == a.dst
  }

  function Pattern5(a: Instr, b: Instr, c: Instr, rest: Prog): Option<Three> {
    if Matches5(a, b, c) && !(a.dst.R? && LiveInText(rest, a.dst.r)) then
      Some(Three(Mov(NoSuffix, a.src, c.src), WithSecondOperand(b, c.src), Blank))
    else None
  }

  // ----- the window -----

  // First line at or after k that is not blank.
  function NextLine(win: Prog, k: nat): (j: nat)
    requires k <= |win|
    ensures k <= j <= |win|
    ensures j < |win| ==> !win[j].Blank?
    ensures forall m :: k <= m < j ==> win[m].Blank?
    decreases |win| - k
  {
    if k == |win| || !win[k].Blank? then k else NextLine(win, k + 1)
  }

  // i and j hold two lines with only blanks between them.
  ghost predicate Adjacent(p: Prog, i: nat, j: nat) {
    i < j < |p| && !p[i].Blank? && !p[j].Blank? && (forall m :: i < m < j ==> p[m].Blank?)
  }

  // One pass over the window: the first rewrite that applies, if any.
  function Rewrite(win: Prog, rest: Prog, ii: nat := 0): (r: Option<Prog>)
    requires ii <= |win|
    ensures r.Some? ==> |r.value| == |win|
    decreases |win| - ii
  {
    if ii == |win| then None
    else if win[ii].Blank? then Rewrite(win, rest, ii + 1)
    else
      var jj := NextLine(win, ii + 1);
      if jj == |win| then None
      else
        var kk := NextLine(win, jj + 1);
        var t := PairRewrite(win[ii], win[jj]);
        if t.Some? then Some(win[ii := t.value.a][jj := t.value.b])
        else if kk < |win| && Pattern5(win[ii], win[jj], win[kk], rest).Some? then
          var u := Pattern5(win[ii], win[jj], win[kk], rest).value;
          Some(win[ii := u.a][jj := u.b][kk := u.c])
        else Rewrite(win, rest, ii + 1)
  }

  // ----- termination of the rewriting loop -----

  function NonBlank(p: Prog): nat {
    if p == [] then 0 else (if p[0].Blank? then 0 else 1) + NonBlank(p[1..])
  }

  // The lines that are written out.
  function Printed(p: Prog): Prog {
    if p == [] then [] else if p[0].Blank? then Printed(p[1..]) else [p[0]] + Printed(p[1..])
  }

  function Loads(p: Prog): nat {
    if p == [] then 0 else (if IsLoad(p[0]) then 1 else 0) + Loads(p[1..])
  }

  predicate IsRegOp(i: Instr) { i.Alu? && i.src.R? }

  function RegOps(p: Prog): nat {
    if p == [] then 0 else (if IsRegOp(p[0]) then 1 else 0) + RegOps(p[1..])
  }

  // Copies still to be propagated at the k-th pair of printed lines.
  function Pending(win: Prog, k: nat): nat {
    var p := Printed(win);
    if k + 1 < |p| && Pattern1(p[k], p[k + 1]).Some? then 1 else 0
  }

  lemma {:induction false} CountsAt(p: Prog, j: nat, b: Instr)
    requires j < |p|
    ensures NonBlank(p[j := b]) - NonBlank(p) == (if b.Blank? then 0 else 1) - (if p[j].Blank? then 0 else 1)
    ensures Loads(p[j := b]) - Loads(p) == (if IsLoad(b) then 1 else 0) - (if IsLoad(p[j]) then 1 else 0)
    ensures RegOps(p[j := b]) - RegOps(p) == (if IsRegOp(b) then 1 else 0) - (if IsRegOp(p[j]) then 1 else 0)
  {
    if j > 0 {
      CountsAt(p[1..], j - 1, b);
      assert p[j := b][1..] == p[1..][j - 1 := b];
    } else {
      assert p[j := b][1..] == p[1..];
    }
  }

  function Keep(p: Prog, k: nat): Prog {
    if k < |p| && !p[k].Blank? then [p[k]] else []
  }

  lemma PrintedFrom(p: Prog, k: nat)
    requires k <= |p|
    ensures Printed(p[k..]) == Keep(p, k) + (if k < |p| then Printed(p[k + 1..]) else [])
  {
    if k < |p| {
      assert p[k..][1..] == p[k + 1..];
    }
  }

  // A window of at most three lines: its printed lines, by position.
  lemma PrintedWindow(win: Prog)
    requires |win| <= 3
    ensures Printed(win) == Keep(win, 0) + (Keep(win, 1) + Keep(win, 2))
  {
    hide Keep, Printed;
    assert win[0..] == win;
    PrintedFrom(win, 0);
    KeepEnd(win);
    if |win| > 0 {
      PrintedFrom(win, 1);
      if |win| > 1 {
        PrintedFrom(win, 2);
      }
    }
  }

  lemma KeepEnd(win: Prog)
    ensures forall k: nat :: k >= |win| ==> Keep(win, k) == [] && (k == |win| ==> Printed(win[k..]) == [])
  {
  }

  // Lexicographic order on (printed lines, frame loads, register-source operations, copies
  // pending at the first pair, at the second pair).
  predicate Smaller(w1: Prog, w: Prog) {
    || NonBlank(w1) < NonBlank(w)
    || (NonBlank(w1) == NonBlank(w)
        && (|| Loads(w1) < Loads(w)
            || (Loads(w1) == Loads(w)
                && (|| RegOps(w1) < RegOps(w)
                    || (RegOps(w1) == RegOps(w)
                        && (|| Pending(w1, 0) < Pending(w, 0)
                            || (Pending(w1, 0) == Pending(w, 0) && Pending(w1, 1) < Pending(w, 1))))))))
  }

  // Every rewrite decreases the measure.
  lemma {:induction false} RewriteDrops(win: Prog, rest: Prog, ii: nat)
    requires ii <= |win| <= 3 && Rewrite(win, rest, ii).Some?
    ensures Smaller(Rewrite(win, rest, ii).value, win)
    decreases |win| - ii
  {
    if win[ii].Blank? {
      RewriteDrops(win, rest, ii + 1);
    } else {
      var jj := NextLine(win, ii + 1);
      var t := PairRewrite(win[ii], win[jj]);
      var kk := NextLine(win, jj + 1);
      if t.Some? {
        PairDrops(win, ii, jj, t.value);
      } else if kk < |win| && Pattern5(win[ii], win[jj], win[kk], rest).Some? {
        var u := Pattern5(win[ii], win[jj], win[kk], rest).value;
        var w1 := win[ii := u.a];
        var w2 := w1[jj := u.b];
        CountsAt(win, ii, u.a);
        CountsAt(w1, jj, u.b);
        CountsAt(w2, kk, u.c);
      } else {
        RewriteDrops(win, rest, ii + 1);
      }
    }
  }

  lemma PairDrops(win: Prog, ii: nat, jj: nat, t: Two)
    requires ii < jj < |win| <= 3 && !win[ii].Blank? && !win[jj].Blank? && jj == NextLine(win, ii + 1)
    requires PairRewrite(win[ii], win[jj]) == Some(t)
    ensures Smaller(win[ii := t.a][jj := t.b], win)
  {
    var w0 := win[ii := t.a];
    CountsAt(win, ii, t.a);
    CountsAt(w0, jj, t.b);
    if Pattern1(win[ii], win[jj]).Some? {
      assert w0 == win;
      CopyDrops(win, ii, jj);
    }
  }

  // Propagating a copy settles its own pair and touches no earlier one.
  lemma CopyDrops(win: Prog, ii: nat, jj: nat)
    requires ii < jj < |win| <= 3 && jj == NextLine(win, ii + 1) && Pattern1(win[ii], win[jj]).Some?
    ensures var w1 := win[jj := Pattern1(win[ii], win[jj]).value.b];
      || Pending(w1, 0) < Pending(win, 0)
      || (Pending(w1, 0) == Pending(win, 0) && Pending(w1, 1) < Pending(win, 1))
  {
    hide Printed;
    var w1 := win[jj := Pattern1(win[ii], win[jj]).value.b];
    PrintedWindow(win);
    PrintedWindow(w1);
    if ii == 0 || win[0].Blank? {
      assert Printed(win)[0] == Printed(w1)[0] == win[ii];
      assert Printed(w1)[1] == w1[jj];
    } else {
      assert Printed(w1)[2] == w1[2];
    }
  }

  // Rewriting until nothing applies.
  function Settle(win: Prog, rest: Prog): (r: Prog)
    requires |win| <= 3
    ensures |r| == |win| && Rewrite(r, rest).None?
    decreases NonBlank(win), Loads(win), RegOps(win), Pending(win, 0), Pending(win, 1)
  {
    match Rewrite(win, rest)
    case None => win
    case Some(w1) => RewriteDrops(win, rest, 0); Settle(w1, rest)
  }

  // Feed the remaining lines through the window; done are the lines that have left it.
  function Slide(done: Prog, win: Prog, rest: Prog): (r: Prog)
    requires |win| <= 3
    ensures |r| == |done| + |win| + |rest|
    decreases |rest|
  {
    if rest == [] then done + win
    else if |win| == 3 then Slide(done + [win[0]], Settle(win[1..] + [rest[0]], rest[1..]), rest[1..])
    else Slide(done, Settle(win + [rest[0]], rest[1..]), rest[1..])
  }

  // The optimized body, with blanks where lines were deleted; Printed(Optimized(p)) is written.
  function Optimized(p: Prog): (r: Prog)
    ensures |r| == |p|
  {
    Slide([], [], p)
  }

  lemma {:induction false} PrintedConcat(a: Prog, b: Prog)
    ensures Printed(a + b) == Printed(a) + Printed(b)
  {
    if a == [] {
      assert a + b == b;
    } else {
      assert (a + b)[1..] == a[1..] + b;
      PrintedConcat(a[1..], b);
    }
  }
}
