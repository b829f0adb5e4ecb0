/** expand_text with the disabled flags it sets and clears in the macro table. */
module Expander {
  import opened MacroExpansion

  // How many levels there are below one at this depth.
  function Left(depth: nat): nat { if depth > MAX_DEPTH then 0 else MAX_DEPTH + 1 - depth }

  // The run so far, followed by the scan of what is left.
  function FollowedBy(run: Run, o: Outcome<Run>): Outcome<Run> {
    if o.Fatal? then Fatal else Done(Then(run, o.value))
  }

  lemma AfterNone(o: Outcome<Run>)
    ensures FollowedBy(Copy([]), o) == o
  {
    if o.Done? {
      assert [] + o.value.out == o.value.out && [] + o.value.log == o.value.log;
    }
  }

  lemma AfterTwice(a: Run, b: Run, o: Outcome<Run>)
    ensures FollowedBy(a, FollowedBy(b, o)) == FollowedBy(Then(a, b), o)
  {
    if o.Done? {
      assert (a.out + b.out) + o.value.out == a.out + (b.out + o.value.out);
      assert (a.log + b.log) + o.value.log == a.log + (b.log + o.value.log);
    }
  }

  // Reads the arguments of a call from p, just after its opening parenthesis.
  method ParseMacroArgs(text: seq<Token>, p: nat) returns (ok: bool, args: seq<seq<Token>>, end: nat)
    requires p <= |text|
    ensures ok <==> ParseArgs(text[p..], 1, [], []).Done?
    ensures ok ==> p <= end <= |text| && ParseArgs(text[p..], 1, [], []) == Done(Call(args, text[end..]))
  {
    var depth: nat, q, start := 1, p, p;
    args := [];
    end := p;
    assert text[p..p] == [];
    while q < |text|
      invariant p <= start <= q <= |text| && depth > 0
      invariant ParseArgs(text[p..], 1, [], []) == ParseArgs(text[q..], depth, text[start..q], args)
    {
      assert text[q..][0] == text[q] && text[q..][1..] == text[q + 1..];
      assert text[start..q] + [text[q]] == text[start..q + 1];
      if text[q] == Close && depth == 1 {
        end := q + 1;
        if !(start == q && args == []) {
          args := args + [Trim(text[start..q])];
        }
        return true, args, end;
      } else if text[q] == Comma && depth == 1 {
        if |args| >= MAX_ARGS {
          return false, args, end;
        }
        args := args + [Trim(text[start..q])];
        start := q + 1;
        assert text[start..q + 1] == [];
      } else if text[q] == Open {
        depth := depth + 1;
      } else if text[q] == Close {
        depth := depth - 1;
      }
      q := q + 1;
    }
    ok := false;
  }

  class Expander {
    const macros: map<string, Macro>
    // The macros whose entry has its flag set.
    var disabled: set<string>

    constructor (macros: map<string, Macro>)
      ensures this.macros == macros && disabled == {}
    {
      this.macros := macros;
      disabled := {};
    }

    // The text with its macros expanded; every flag is left as it was found.
    method ExpandText(text: seq<Token>, depth: nat) returns (result: Outcome<seq<Token>>, ghost run: Run)
      modifies this
      ensures result.Done? <==> Expand(macros, old(disabled), text, Left(depth)).Done?
      ensures result.Done? ==>
        Expand(macros, old(disabled), text, Left(depth)) == Done(run) && result.value == run.out && disabled == old(disabled)
      decreases Left(depth), 2, 0
    {
      if depth > MAX_DEPTH {
        run := Run(text, [], HasLive(macros, text), false);
        return Done(text), run;
      }
      ghost var open := disabled;
      var left := Left(depth);
      var sb: seq<Token> := [];
      var p := 0;
      run := Copy([]);
      AfterNone(Scan(macros, open, text, left));
      assert text[0..] == text;
      while p < |text|
        invariant p <= |text| && disabled == open && sb == run.out
        invariant FollowedBy(run, Scan(macros, open, text[p..], left)) == Scan(macros, open, text, left)
      {
        hide Next;
        ghost var s := Next(macros, open, text[p..], left);
        ghost var rest := text[p..];
        ghost var before := run;
        var ok, piece, q, r := ExpandNext(text, p, depth);
        if !ok {
          assert Scan(macros, open, rest, left).Fatal?;
          return Fatal, run;
        }
        assert s == Done(Step(r, text[q..]));
        assert Scan(macros, open, rest, left) == FollowedBy(r, Scan(macros, open, text[q..], left));
        AfterTwice(before, r, Scan(macros, open, text[q..], left));
        run := Then(before, r);
        sb := sb + piece;
        p := q;
      }
      assert Scan(macros, open, text[p..], left) == Done(Copy([]));
      assert Then(run, Copy([])) == run;
      if Plain(sb) != Plain(text) {
        ghost var later;
        ghost var first := run;
        result, later := ExpandText(sb, depth + 1);
        run := Run(later.out, first.log + later.log, first.cut || later.cut, first.loose || later.loose);
      } else {
        result := Done(sb);
      }
    }

    // Handles the token at p; the next one to handle is at q.
    method ExpandNext(text: seq<Token>, p: nat, depth: nat) returns (ok: bool, piece: seq<Token>, q: nat, ghost run: Run)
      requires p < |text| && depth <= MAX_DEPTH
      modifies this
      ensures ok <==> Next(macros, old(disabled), text[p..], Left(depth)).Done?
      ensures ok ==> p < q <= |text| && piece == run.out && disabled == old(disabled)
      ensures ok ==>
        Next(macros, old(disabled), text[p..], Left(depth)) == Done(Step(run, text[q..]))
      decreases Left(depth), 1, 0
    {
      var t := text[p];
      ghost var open := disabled;
      assert text[p..][0] == t && text[p..][1..] == text[p + 1..];
      if !Live(macros, t) {
        return true, [t], p + 1, Copy([t]);
      }
      var m := macros[t.name];
      if t.name in disabled {
        piece := [t.(marked := true)];
        return true, piece, p + 1, Copy(piece);
      }
      if m.isFunction {
        ok, piece, q, run := ExpandCall(text, p, depth);
      } else {
        disabled := disabled + {t.name};
        var inner, r := ExpandText(Stamp(m.body, disabled), depth + 1);
        if inner.Fatal? {
          return false, [], p + 1, Copy([]);
        }
        disabled := disabled - {t.name};
        assert disabled == open;
        return true, inner.value, p + 1, Then(Run([], [Event(t, open)], false, false), r);
      }
    }

    // A word at p that names a function-like macro.
    method ExpandCall(text: seq<Token>, p: nat, depth: nat) returns (ok: bool, piece: seq<Token>, q: nat, ghost run: Run)
      requires p < |text| && depth <= MAX_DEPTH && Live(macros, text[p]) && text[p].name !in disabled
      requires macros[text[p].name].isFunction
      modifies this
      ensures ok <==> Invoke(macros, old(disabled), text[p], text[p + 1..], Left(depth)).Done?
      ensures ok ==> p < q <= |text| && piece == run.out && disabled == old(disabled)
      ensures ok ==>
        Invoke(macros, old(disabled), text[p], text[p + 1..], Left(depth)) == Done(Step(run, text[q..]))
      decreases Left(depth), 0, 0
    {
      var t, m := text[p], macros[text[p].name];
      ghost var open := disabled;
      q := p + 1;
      while q < |text| && text[q] == Space
        invariant p < q <= |text|
        invariant SkipSpaces(text[p + 1..]) == SkipSpaces(text[q..])
      {
        assert text[q..][1..] == text[q + 1..];
        q := q + 1;
      }
      assert SkipSpaces(text[q..]) == text[q..];
      if q == |text| || text[q] != Open {
        return true, [t], p + 1, Copy([t]);
      }
      assert text[q..][1..] == text[q + 1..];
      var parsed, args, end := ParseMacroArgs(text, q + 1);
      if !parsed {
        return false, [], q, Copy([]);
      }
      q := end;
      if |args| > |m.params| {
        piece := Rewritten(t, args);
        return true, piece, q, Run(piece, [], false, true);
      }
      var expanded, texts, a := ExpandAll(Pad(args, |m.params|), depth + 1);
      if !expanded {
        return false, [], q, Copy([]);
      }
      disabled := disabled + {t.name};
      var inner, r := ExpandText(Substitute(m.params, m.body, texts, disabled), depth + 1);
      if inner.Fatal? {
        return false, [], q, Copy([]);
      }
      disabled := disabled - {t.name};
      assert disabled == open;
      return true, inner.value, q, Then(Run([], a.log + [Event(t, open)], a.cut, a.loose), r);
    }

    // Expands the arguments of a call, before they are substituted.
    method ExpandAll(args: seq<seq<Token>>, depth: nat) returns (ok: bool, texts: seq<seq<Token>>, ghost a: Args)
      requires depth > 0
      modifies this
      ensures ok <==> ExpandArgs(macros, old(disabled), args, Left(depth)).Done?
      ensures ok ==> |texts| == |args| && texts == a.texts && disabled == old(disabled)
      ensures ok ==>
        ExpandArgs(macros, old(disabled), args, Left(depth)) == Done(a)
      decreases Left(depth), 3, |args|
    {
      if args == [] {
        return true, [], Args([], [], false, false);
      }
      var first, r := ExpandText(args[0], depth);
      if first.Fatal? {
        return false, [], Args([], [], false, false);
      }
      var rest, others, b := ExpandAll(args[1..], depth);
      if !rest {
        return false, [], Args([], [], false, false);
      }
      a := Args([r.out] + b.texts, r.log + b.log, r.cut || b.cut, r.loose || b.loose);
      return true, [first.value] + others, a;
    }
  }
}
