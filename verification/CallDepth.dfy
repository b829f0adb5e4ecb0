/** How deep the expansion of complete lines nests, read off the line and the table; and the lines
    that are therefore expanded lawfully. */
module CallDepth {
  import opened Words
  import opened MacroExpansion
  import opened MacroCalls
  import opened ObjectMacros
  import opened CompleteCalls

  // ----- the bound -----

  // A word d parentheses deep is reached through at most d calls; substituting it takes one level
  // more than its body, marking it takes one.
  function Levels(tbl: map<string, Macro>, open: set<string>, skip: seq<string>, text: seq<Token>, d: nat): nat
    decreases tbl.Keys - open, 1, |text|
  {
    if text == [] then 0
    else
      var t := text[0];
      Max(if Live(tbl, t) && t.name !in skip then d + WordLevels(tbl, open, t.name) else 0,
          Levels(tbl, open, skip, text[1..], Deeper(t, d)))
  }

  function WordLevels(tbl: map<string, Macro>, open: set<string>, n: string): (w: nat)
    requires n in tbl
    ensures w > 0
    decreases tbl.Keys - open, 0, 0
  {
    if n in open then 1
    else
      assert n in tbl.Keys - open && n !in tbl.Keys - (open + {n});
      1 + Levels(tbl, open + {n}, Params(tbl[n]), tbl[n].body, 0)
  }

  lemma {:induction false} LevelsMonotone(tbl: map<string, Macro>, open: set<string>, skip: seq<string>, text: seq<Token>, d: nat, d': nat)
    requires d <= d'
    ensures Levels(tbl, open, skip, text, d) <= Levels(tbl, open, skip, text, d')
    decreases |text|
  {
    hide WordLevels;
    if text != [] {
      LevelsMonotone(tbl, open, skip, text[1..], Deeper(text[0], d), Deeper(text[0], d'));
    }
  }

  // In a text whose parentheses do not lead out of it, one level further down is one level more.
  lemma {:induction false} LevelsShift(tbl: map<string, Macro>, open: set<string>, skip: seq<string>, text: seq<Token>, d: nat, e: nat)
    requires Nested(text, d + 1, e) && e > 0 && Levels(tbl, open, skip, text, d) > 0
    ensures Levels(tbl, open, skip, text, d) + 1 <= Levels(tbl, open, skip, text, d + 1)
    decreases |text|
  {
    hide WordLevels;
    var t := text[0];
    if Levels(tbl, open, skip, text[1..], Deeper(t, d)) > 0 {
      LevelsShift(tbl, open, skip, text[1..], Deeper(t, d), e);
    }
  }

  lemma {:induction false} LevelsConcat(tbl: map<string, Macro>, open: set<string>, skip: seq<string>, a: seq<Token>, b: seq<Token>,
      k: nat, j: nat, d: nat)
    requires j > 0 && k > 0 && Nested(a, k, j)
    ensures Levels(tbl, open, skip, a + b, d + k - 1)
      == Max(Levels(tbl, open, skip, a, d + k - 1), Levels(tbl, open, skip, b, d + j - 1))
    decreases |a|
  {
    hide WordLevels;
    if a == [] {
      assert a + b == b;
    } else {
      assert (a + b)[0] == a[0] && (a + b)[1..] == a[1..] + b;
      LevelsConcat(tbl, open, skip, a[1..], b, Deeper(a[0], k), j, d);
    }
  }

  lemma {:induction false} LevelsSuffix(tbl: map<string, Macro>, open: set<string>, skip: seq<string>, a: seq<Token>, b: seq<Token>)
    ensures Levels(tbl, open, skip, b, 0) <= Levels(tbl, open, skip, a + b, 0)
  {
    hide WordLevels;
    if a == [] {
      assert a + b == b;
    } else {
      assert (a + b)[1..] == a[1..] + b && (a + b)[0] == a[0];
      LevelsSuffix(tbl, open, skip, a[1..], b);
      LevelsMonotone(tbl, open, skip, a[1..] + b, 0, Deeper(a[0], 0));
    }
  }

  lemma {:induction false} LevelsSkip(tbl: map<string, Macro>, open: set<string>, skip: seq<string>, text: seq<Token>, d: nat)
    ensures Levels(tbl, open, skip, SkipSpaces(text), d) == Levels(tbl, open, skip, text, d)
  {
    if text != [] && text[0] == Space {
      LevelsSkip(tbl, open, skip, text[1..], d);
    }
  }

  lemma {:induction false} LevelsTrim(tbl: map<string, Macro>, open: set<string>, skip: seq<string>, arg: seq<Token>)
    requires Nested(arg, 1, 1)
    ensures Levels(tbl, open, skip, Trim(arg), 0) == Levels(tbl, open, skip, arg, 0)
    decreases |arg|
  {
    hide WordLevels;
    if arg != [] {
      if arg[0] == Space {
        LevelsTrim(tbl, open, skip, arg[1..]);
      } else if arg[|arg| - 1] == Space {
        var front := arg[..|arg| - 1];
        assert front + [Space] == arg && [Space][1..] == [];
        var m := NestedPrefix(front, [Space], 1, 1);
        NestedConcat(front, [Space], 1, m, 1);
        LevelsConcat(tbl, open, skip, front, [Space], 1, 1, 0);
        LevelsTrim(tbl, open, skip, front);
      }
    }
  }

  lemma {:induction false} LevelsQuiet(tbl: map<string, Macro>, open: set<string>, skip: seq<string>, text: seq<Token>, d: nat)
    requires Quiet(tbl, text)
    ensures Levels(tbl, open, skip, text, d) == 0
    decreases |text|
  {
    if text != [] {
      assert text[0] in text && forall t :: t in text[1..] ==> t in text;
      LevelsQuiet(tbl, open, skip, text[1..], Deeper(text[0], d));
    }
  }

  lemma {:induction false} NoLevels(tbl: map<string, Macro>, open: set<string>, text: seq<Token>, d: nat)
    requires Levels(tbl, open, [], text, d) == 0
    ensures Quiet(tbl, text)
    decreases |text|
  {
    if text != [] {
      NoLevels(tbl, open, text[1..], Deeper(text[0], d));
      assert forall t :: t in text ==> t == text[0] || t in text[1..];
    }
  }

  // ----- the arguments of a call lie one level down -----

  predicate WithinLevels(tbl: map<string, Macro>, open: set<string>, text: seq<Token>, left: nat) {
    Levels(tbl, open, [], text, 0) <= left
  }

  lemma {:induction false} ParsedFits(tbl: map<string, Macro>, open: set<string>, text: seq<Token>, d: nat, arg: seq<Token>,
      args: seq<seq<Token>>, left: nat)
    requires d > 0 && left > 0 && Nested(arg, 1, d) && ParseArgs(text, d, arg, args).Done?
    requires Levels(tbl, open, [], arg + text, 1) <= left
    requires forall a :: a in args ==> WithinLevels(tbl, open, a, left - 1)
    ensures var c := ParseArgs(text, d, arg, args).value;
      (forall a :: a in c.args ==> WithinLevels(tbl, open, a, left - 1)) && WithinLevels(tbl, open, c.rest, left)
    decreases |text|
  {
    hide WordLevels, Trim;
    var t, rest := text[0], text[1..];
    assert text == [t] + rest && arg + text == (arg + [t]) + rest;
    if d == 1 && (t == Close || t == Comma) {
      LevelsConcat(tbl, open, [], arg, text, 1, 1, 1);
      ArgumentFits(tbl, open, arg, left);
      assert Levels(tbl, open, [], rest, Deeper(t, 1)) <= left;
      if t == Comma {
        assert [] + rest == rest;
        ParsedFits(tbl, open, rest, 1, [], args + [Trim(arg)], left);
      }
    } else {
      NestedConcat(arg, [t], 1, d, Deeper(t, d));
      assert [t][1..] == [];
      ParsedFits(tbl, open, rest, Deeper(t, d), arg + [t], args, left);
    }
  }

  lemma ArgumentFits(tbl: map<string, Macro>, open: set<string>, arg: seq<Token>, left: nat)
    requires left > 0 && Nested(arg, 1, 1) && Levels(tbl, open, [], arg, 1) <= left
    ensures WithinLevels(tbl, open, Trim(arg), left - 1)
  {
    LevelsTrim(tbl, open, [], arg);
    if Levels(tbl, open, [], arg, 0) > 0 {
      LevelsShift(tbl, open, [], arg, 0, 1);
    }
  }

  // ----- a body with quiet arguments needs no more than the body -----

  lemma {:induction false} SubstituteLevels(tbl: map<string, Macro>, open: set<string>, params: seq<string>, body: seq<Token>,
      args: seq<seq<Token>>, from: set<string>, d: nat)
    requires |args| == |params| && (forall a :: a in args ==> Nested(a, 1, 1) && Quiet(tbl, a))
    ensures Levels(tbl, open, [], Substitute(params, body, args, from), d) == Levels(tbl, open, params, body, d)
    decreases |body|
  {
    hide Enter, WordLevels, Quiet, Nested;
    if body != [] {
      var t := body[0];
      var more := Substitute(params, body[1..], args, from);
      var i := if t.Word? then ParamIndex(params, t.name) else |params|;
      SubstituteLevels(tbl, open, params, body[1..], args, from, Deeper(t, d));
      if i < |params| {
        var piece := Enter(args[i], from);
        EnterNested(args[i], from, 1, 1);
        EnterQuiet(tbl, args[i], from);
        LevelsConcat(tbl, open, [], piece, more, 1, 1, d);
        LevelsQuiet(tbl, open, [], piece, d);
      } else {
        StampOne(t, from, more);
      }
    }
  }

  lemma {:induction false} EnterQuiet(tbl: map<string, Macro>, arg: seq<Token>, from: set<string>)
    requires Quiet(tbl, arg)
    ensures Quiet(tbl, Enter(arg, from))
  {
    if arg != [] {
      assert arg[0] in arg && forall t :: t in arg[1..] ==> t in arg;
      EnterQuiet(tbl, arg[1..], from);
    }
  }

  lemma {:induction false} StampLevels(tbl: map<string, Macro>, open: set<string>, body: seq<Token>, from: set<string>, d: nat)
    ensures Levels(tbl, open, [], Stamp(body, from), d) == Levels(tbl, open, [], body, d)
    decreases |body|
  {
    hide WordLevels;
    if body != [] {
      StampLevels(tbl, open, body[1..], from, Deeper(body[0], d));
    }
  }

  // ----- within the bound, the cap is never reached -----

  // Everything is substituted: no live word remains.
  lemma {:induction false} ExpandFits(tbl: map<string, Macro>, open: set<string>, text: seq<Token>, left: nat)
    requires Neat(tbl) && Complete(tbl, [], text) && WithinLevels(tbl, open, text, left)
    ensures Expand(tbl, open, text, left).Done?
    ensures var r := Expand(tbl, open, text, left).value; !r.cut && Quiet(tbl, r.out)
    decreases left, 3, 0
  {
    hide Scan, Neat, Complete, Levels, Plain;
    if left == 0 {
      NoLevels(tbl, open, text, 0);
    } else {
      ScanFits(tbl, open, text, left);
      ExpandQuiet(tbl, open, Scan(tbl, open, text, left).value.out, left - 1);
    }
  }

  lemma {:induction false} ScanFits(tbl: map<string, Macro>, open: set<string>, text: seq<Token>, left: nat)
    requires left > 0 && Neat(tbl) && Complete(tbl, [], text) && WithinLevels(tbl, open, text, left)
    ensures Scan(tbl, open, text, left).Done?
    ensures var r := Scan(tbl, open, text, left).value; !r.cut && Quiet(tbl, r.out)
    decreases left, 2, |text|
  {
    hide Next, Neat, CallAt, Levels;
    if text != [] {
      NextComplete(tbl, open, text, left);
      NextFits(tbl, open, text, left);
      ScanFits(tbl, open, Next(tbl, open, text, left).value.rest, left);
    }
  }

  lemma {:induction false} NextFits(tbl: map<string, Macro>, open: set<string>, text: seq<Token>, left: nat)
    requires left > 0 && Neat(tbl) && text != [] && Complete(tbl, [], text) && WithinLevels(tbl, open, text, left)
    ensures Next(tbl, open, text, left).Done?
    ensures var s := Next(tbl, open, text, left).value; !s.run.cut && Quiet(tbl, s.run.out) && WithinLevels(tbl, open, s.rest, left)
    decreases left, 1, 0
  {
    hide Expand, Invoke, Stamp, NeatBody, Complete, Levels;
    var t, rest := text[0], text[1..];
    assert text == [t] + rest;
    LevelsSuffix(tbl, open, [], [t], rest);
    if Live(tbl, t) && t.name !in open {
      FirstFits(tbl, open, text, left);
      var inside := open + {t.name};
      if tbl[t.name].isFunction {
        InvokeFits(tbl, open, text, left);
      } else {
        var body := tbl[t.name].body;
        assert NeatBody(tbl, tbl[t.name]) && Complete(tbl, [], body) by { hide *; NeatAt(tbl, t.name); }
        StampAlike(body, inside);
        CompleteAlike(tbl, [], Stamp(body, inside), body);
        StampLevels(tbl, inside, body, inside, 0);
        ExpandFits(tbl, inside, Stamp(body, inside), left - 1);
      }
    }
  }

  lemma NeatAt(tbl: map<string, Macro>, n: string)
    requires Neat(tbl) && n in tbl
    ensures NeatBody(tbl, tbl[n]) && Complete(tbl, Params(tbl[n]), tbl[n].body) && Nested(tbl[n].body, 1, 1)
    ensures Params(tbl[n]) == if tbl[n].isFunction then tbl[n].params else []
  {
  }

  // The body of the macro that a text starts with fits one level down.
  lemma FirstFits(tbl: map<string, Macro>, open: set<string>, text: seq<Token>, left: nat)
    requires left > 0 && text != [] && WithinLevels(tbl, open, text, left) && Live(tbl, text[0]) && text[0].name !in open
    ensures var m := tbl[text[0].name];
      Levels(tbl, open + {text[0].name}, if m.isFunction then m.params else [], m.body, 0) <= left - 1
  {
    var n := text[0].name;
    var none: seq<string> := [];
    assert n !in none && Params(tbl[n]) == if tbl[n].isFunction then tbl[n].params else [];
    assert WordLevels(tbl, open, n) <= Levels(tbl, open, [], text, 0);
  }

  lemma {:induction false} InvokeFits(tbl: map<string, Macro>, open: set<string>, text: seq<Token>, left: nat)
    requires left > 0 && Neat(tbl) && text != [] && Complete(tbl, [], text) && WithinLevels(tbl, open, text, left)
    requires Live(tbl, text[0]) && tbl[text[0].name].isFunction && text[0].name !in open
    ensures Invoke(tbl, open, text[0], text[1..], left).Done?
    ensures var s := Invoke(tbl, open, text[0], text[1..], left).value; !s.run.cut && Quiet(tbl, s.run.out) && WithinLevels(tbl, open, s.rest, left)
    decreases left, 0, 1
  {
    hide Expand, ExpandArgs, ParseArgs, Substitute, Pad, Complete, Nested, Levels, NeatBody;
    var t, m := text[0], tbl[text[0].name];
    var inside := open + {t.name};
    var u, c := CallParts(tbl, text);
    assert ([Open] + u)[1..] == u;
    CallFits(tbl, open, text, u, left);
    var args := Pad(c.args, |m.params|);
    PadComplete(tbl, c.args, |m.params|);
    PadFits(tbl, open, c.args, |m.params|, left - 1);
    ArgsComplete(tbl, open, args, left - 1);
    ArgsFit(tbl, open, args, left - 1);
    var a := ExpandArgs(tbl, open, args, left - 1).value;
    NeatAt(tbl, t.name);
    FirstFits(tbl, open, text, left);
    var body := Substitute(m.params, m.body, a.texts, inside);
    SubstituteComplete(tbl, m.params, m.body, a.texts, inside);
    SubstituteLevels(tbl, inside, m.params, m.body, a.texts, inside, 0);
    ExpandFits(tbl, inside, body, left - 1);
  }

  lemma CallFits(tbl: map<string, Macro>, open: set<string>, text: seq<Token>, u: seq<Token>, left: nat)
    requires left > 0 && text != [] && WithinLevels(tbl, open, text, left) && text[0].Word?
    requires SkipSpaces(text[1..]) == [Open] + u && ParseArgs(u, 1, [], []).Done?
    ensures var c := ParseArgs(u, 1, [], []).value;
      (forall a :: a in c.args ==> WithinLevels(tbl, open, a, left - 1)) && WithinLevels(tbl, open, c.rest, left)
  {
    hide ParseArgs;
    LevelsSkip(tbl, open, [], text[1..], 0);
    assert ([Open] + u)[1..] == u && [] + u == u;
    assert Levels(tbl, open, [], u, 1) <= left;
    ParsedFits(tbl, open, u, 1, [], [], left);
  }

  lemma {:induction false} PadFits(tbl: map<string, Macro>, open: set<string>, args: seq<seq<Token>>, n: nat, left: nat)
    requires |args| <= n && forall a :: a in args ==> WithinLevels(tbl, open, a, left)
    ensures forall a :: a in Pad(args, n) ==> WithinLevels(tbl, open, a, left)
    decreases n - |args|
  {
    if |args| < n {
      PadFits(tbl, open, args + [[]], n, left);
    }
  }

  lemma {:induction false} ArgsFit(tbl: map<string, Macro>, open: set<string>, args: seq<seq<Token>>, left: nat)
    requires Neat(tbl) && forall a :: a in args ==> Nested(a, 1, 1) && Complete(tbl, [], a) && WithinLevels(tbl, open, a, left)
    ensures ExpandArgs(tbl, open, args, left).Done? && !ExpandArgs(tbl, open, args, left).value.cut
    ensures forall a :: a in ExpandArgs(tbl, open, args, left).value.texts ==> Quiet(tbl, a)
    decreases left, 4, |args|
  {
    hide Expand, Neat, Complete, Nested, WithinLevels;
    if args != [] {
      assert args[0] in args && forall a :: a in args[1..] ==> a in args;
      ExpandFits(tbl, open, args[0], left);
      ArgsFit(tbl, open, args[1..], left);
    }
  }

  // ----- a bound in numbers -----

  // The deepest parenthesis of a text that starts d deep.
  function Parens(text: seq<Token>, d: nat): (p: nat)
    ensures p >= d
    decreases |text|
  {
    if text == [] then d else Max(d, Parens(text[1..], Deeper(text[0], d)))
  }

  predicate Shallow(tbl: map<string, Macro>, p: nat) { forall n :: n in tbl ==> Parens(tbl[n].body, 0) <= p }

  // Levels for the macros not yet open, each with its parentheses.
  function Budget(tbl: map<string, Macro>, open: set<string>, p: nat): nat { |tbl.Keys - open| * (p + 1) }

  lemma BudgetDown(tbl: map<string, Macro>, open: set<string>, n: string, p: nat)
    requires n in tbl && n !in open
    ensures Budget(tbl, open, p) == Budget(tbl, open + {n}, p) + p + 1
  {
    var room, less := tbl.Keys - open, tbl.Keys - (open + {n});
    assert n in room && less == room - {n};
    assert |room| == |less| + 1;
    MulStep(|less|, p + 1);
  }

  lemma MulStep(a: nat, b: nat)
    ensures (a + 1) * b == a * b + b
  {
  }

  lemma {:induction false} LevelsBound(tbl: map<string, Macro>, open: set<string>, skip: seq<string>, text: seq<Token>, d: nat, p: nat)
    requires Shallow(tbl, p)
    ensures Levels(tbl, open, skip, text, d) <= Parens(text, d) + 1 + Budget(tbl, open, p)
    decreases tbl.Keys - open, 1, |text|
  {
    hide Shallow, WordLevels, Budget;
    if text != [] {
      LevelsBound(tbl, open, skip, text[1..], Deeper(text[0], d), p);
      if Live(tbl, text[0]) && text[0].name !in skip {
        WordBound(tbl, open, text[0].name, p);
      }
    }
  }

  lemma {:induction false} WordBound(tbl: map<string, Macro>, open: set<string>, n: string, p: nat)
    requires Shallow(tbl, p) && n in tbl
    ensures WordLevels(tbl, open, n) <= 1 + Budget(tbl, open, p)
    decreases tbl.Keys - open, 0, 0
  {
    hide Budget, Levels;
    if n !in open {
      assert n in tbl.Keys - open && n !in tbl.Keys - (open + {n});
      BudgetDown(tbl, open, n, p);
      LevelsBound(tbl, open + {n}, Params(tbl[n]), tbl[n].body, 0, p);
    }
  }

  // ----- lawful lines -----

  // No macro is substituted in its own expansion, and nothing is left to substitute.
  predicate LawfulLine(tbl: map<string, Macro>, text: seq<Token>) {
    var o := Expand(tbl, {}, text, MAX_DEPTH + 1);
    o.Done? && !o.value.cut && !o.value.loose && Quiet(tbl, o.value.out) && AllLawful(o.value.log)
  }

  // A line whose calls are complete, over a table of neat bodies, is expanded lawfully if it does
  // not nest too deep.
  lemma LineLawful(tbl: map<string, Macro>, text: seq<Token>)
    requires Neat(tbl) && Complete(tbl, [], text) && Written(text) && Levels(tbl, {}, [], text, 0) <= MAX_DEPTH + 1
    ensures LawfulLine(tbl, text)
  {
    hide Neat, Complete, Expand, Levels;
    assert Guarded(tbl, {}, text);
    ExpandComplete(tbl, {}, text, MAX_DEPTH + 1);
    ExpandFits(tbl, {}, text, MAX_DEPTH + 1);
    ExpandLawful(tbl, {}, text, MAX_DEPTH + 1);
  }

  // In numbers: n macros whose bodies have parentheses at most p deep, in a line with parentheses
  // at most q deep.
  lemma FewCalls(tbl: map<string, Macro>, text: seq<Token>, p: nat)
    requires Neat(tbl) && Complete(tbl, [], text) && Written(text) && Shallow(tbl, p)
    requires |tbl| * (p + 1) + Parens(text, 0) <= MAX_DEPTH
    ensures LawfulLine(tbl, text)
  {
    hide Neat, Complete, LawfulLine, Shallow, Levels, Parens;
    assert tbl.Keys - {} == tbl.Keys;
    LevelsBound(tbl, {}, [], text, 0, p);
    LineLawful(tbl, text);
  }
}
