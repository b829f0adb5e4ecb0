/** The optimizer's driver as it runs: an array of three lines, rewritten in place. */
module PeepholeWindow {
  import opened Machine
  import opened Options
  import opened Peephole
  import opened PeepholeSettled

  // One pass over the window: apply the first rewrite that matches.
  method TryPatterns(w: array<Instr>, wn: nat, rest: Prog) returns (any: bool)
    requires wn <= w.Length
    modifies w
    ensures Rewrite(old(w[..wn]), rest) == if any then Some(w[..wn]) else None
    ensures !any ==> w[..wn] == old(w[..wn])
  {
    hide PairRewrite, Pattern5;
    ghost var win := w[..wn];
    for ii := 0 to wn
      invariant w[..wn] == win
      invariant Rewrite(win, rest) == Rewrite(win, rest, ii)
    {
      if w[ii].Blank? {
        continue;
      }
      var jj := SkipBlanks(w, wn, ii + 1);
      if jj >= wn {
        return false;
      }
      var kk := SkipBlanks(w, wn, jj + 1);
      var pair := PairRewrite(w[ii], w[jj]);
      if pair.Some? {
        w[ii] := pair.value.a;
        w[jj] := pair.value.b;
        assert w[..wn] == win[ii := pair.value.a][jj := pair.value.b];
        return true;
      }
      if kk < wn {
        var triple := Pattern5(w[ii], w[jj], w[kk], rest);
        if triple.Some? {
          w[ii] := triple.value.a;
          w[jj] := triple.value.b;
          w[kk] := triple.value.c;
          assert w[..wn] == win[ii := triple.value.a][jj := triple.value.b][kk := triple.value.c];
          return true;
        }
      }
    }
    any := false;
  }

  method SkipBlanks(w: array<Instr>, wn: nat, k: nat) returns (j: nat)
    requires k <= wn <= w.Length
    ensures j == NextLine(w[..wn], k)
  {
    j := k;
    while j < wn && w[j].Blank?
      invariant k <= j <= wn
      invariant NextLine(w[..wn], k) == NextLine(w[..wn], j)
    {
      j := j + 1;
    }
  }

  // Rewrite the window until nothing applies any more.
  method SettleWindow(w: array<Instr>, wn: nat, rest: Prog)
    requires wn <= w.Length && wn <= 3
    modifies w
    ensures w[..wn] == Settle(old(w[..wn]), rest)
  {
    var any := true;
    while any
      invariant Settle(w[..wn], rest) == Settle(old(w[..wn]), rest)
      invariant !any ==> Rewrite(w[..wn], rest).None?
      decreases NonBlank(w[..wn]), Loads(w[..wn]), RegOps(w[..wn]), Pending(w[..wn], 0), Pending(w[..wn], 1), any
    {
      ghost var before := w[..wn];
      any := TryPatterns(w, wn, rest);
      if any {
        RewriteDrops(before, rest, 0);
      }
    }
  }

  // Print the first n lines of the window that are not blank.
  method PrintWindow(w: array<Instr>, n: nat) returns (out: Prog)
    requires n <= w.Length
    ensures out == Printed(w[..n])
  {
    out := [];
    for i := 0 to n
      invariant out == Printed(w[..i])
    {
      PrintedLast(w[..i], w[i]);
      assert w[..i] + [w[i]] == w[..i + 1];
      if !w[i].Blank? {
        out := out + [w[i]];
      }
    }
  }

  // emit_peephole_body
  method EmitPeepholeBody(body: Prog, optO0: bool) returns (out: Prog)
    ensures optO0 ==> out == body
    ensures !optO0 ==> out == Printed(Optimized(body))
    ensures !optO0 && |body| == 2 && body[0].Jmp? && body == [body[0], Lab(body[0].l)] ==> out == [body[1]]
  {
    if optO0 {
      return body;
    }
    hide *;
    out := [];
    SlideStart(body);
    PrintedNone();
    var w := new Instr[3](_ => Blank);
    var wn := 0;
    ghost var done: Prog := [];          // the committed lines, blanks included
    for p := 0 to |body|
      invariant wn <= 3
      invariant out == Printed(done)
      invariant Slide(done, w[..wn], body[p..]) == Slide([], [], body)
    {
      ghost var win := w[..wn];
      var line, rest := body[p], body[p + 1..];
      SlideOn(done, win, body, p);
      if wn == 3 {
        PrintedLast(done, w[0]);
        if !w[0].Blank? {
          out := out + [w[0]];
        }
        done := done + [w[0]];
        w[0] := w[1];
        w[1] := w[2];
        wn := 2;
        assert w[..wn] == win[1..];
      }
      ghost var entered := w[..wn];
      w[wn] := line;
      wn := wn + 1;
      assert w[..wn] == entered + [line];
      SettleWindow(w, wn, rest);
    }
    SlideEnd(done, w[..wn], body);
    var last := PrintWindow(w, wn);
    PrintedConcat(done, w[..wn]);
    out := out + last;
    if |body| == 2 && body[0].Jmp? {
      JumpGone(body[0].l);
    }
  }

  lemma SlideStart(body: Prog)
    ensures Optimized(body) == Slide([], [], body)
  {
  }

  lemma SlideEnd(done: Prog, win: Prog, body: Prog)
    requires |win| <= 3
    ensures Slide(done, win, body[|body|..]) == done + win
  {
  }

  lemma SlideOn(done: Prog, win: Prog, body: Prog, p: nat)
    requires |win| <= 3 && p < |body|
    ensures var rest := body[p + 1..];
      Slide(done, win, body[p..])
      == if |win| == 3 then Slide(done + [win[0]], Settle(win[1..] + [body[p]], rest), rest)
         else Slide(done, Settle(win + [body[p]], rest), rest)
  {
    assert body[p..][1..] == body[p + 1..];
  }

  lemma PrintedNone()
    ensures Printed([]) == []
  {
  }

  lemma {:induction false} PrintedLast(a: Prog, i: Instr)
    ensures Printed(a + [i]) == Printed(a) + (if i.Blank? then [] else [i])
  {
    if a != [] {
      assert (a + [i])[1..] == a[1..] + [i];
      PrintedLast(a[1..], i);
    }
  }
}
