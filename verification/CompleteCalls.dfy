/** Tables and lines in which every function-like macro that is named is also called: expanding them
    never copies a call, and how deep they may nest can be read off them. */
module CompleteCalls {
  import opened MacroExpansion
  import opened MacroCalls

  // ----- the condition -----

  // If the text starts with the name of a function-like macro, a call of it follows, with no more
  // arguments than the macro has parameters.  The names in skip stand for parameters.
  predicate CallAt(tbl: map<string, Macro>, skip: seq<string>, text: seq<Token>)
    requires text != []
  {
    Live(tbl, text[0]) && tbl[text[0].name].isFunction && text[0].name !in skip ==>
      var q := SkipSpaces(text[1..]);
      q != [] && q[0] == Open && Takes(q[1..], |tbl[text[0].name].params|)
  }

  predicate Takes(text: seq<Token>, n: nat) {
    var o := ParseArgs(text, 1, [], []);
    o.Done? && |o.value.args| <= n
  }

  predicate Complete(tbl: map<string, Macro>, skip: seq<string>, text: seq<Token>) {
    text == [] || (CallAt(tbl, skip, text) && Complete(tbl, skip, text[1..]))
  }

  function Params(m: Macro): seq<string> { if m.isFunction then m.params else [] }

  // Bodies have balanced parentheses and no comma outside of them, and their calls are complete.
  predicate NeatBody(tbl: map<string, Macro>, m: Macro) { Nested(m.body, 1, 1) && Complete(tbl, Params(m), m.body) }

  predicate Neat(tbl: map<string, Macro>) { forall n :: n in tbl ==> NeatBody(tbl, tbl[n]) }

  // ----- complete texts can be cut and joined -----

  lemma {:induction false} CompleteSuffix(tbl: map<string, Macro>, skip: seq<string>, a: seq<Token>, b: seq<Token>)
    requires Complete(tbl, skip, a + b)
    ensures Complete(tbl, skip, b)
  {
    if a == [] {
      assert a + b == b;
    } else {
      assert (a + b)[1..] == a[1..] + b;
      CompleteSuffix(tbl, skip, a[1..], b);
    }
  }

  lemma {:induction false} SkipMore(a: seq<Token>, b: seq<Token>)
    ensures SkipSpaces(a + b) == if SkipSpaces(a) != [] then SkipSpaces(a) + b else SkipSpaces(b)
  {
    if a == [] {
      assert a + b == b;
    } else {
      assert (a + b)[1..] == a[1..] + b && (a + b)[0] == a[0];
      if a[0] == Space {
        SkipMore(a[1..], b);
      }
    }
  }

  // What SkipSpaces passes over are spaces.
  lemma {:induction false} SkipSplit(a: seq<Token>) returns (spaces: seq<Token>)
    ensures spaces + SkipSpaces(a) == a && forall t :: t in spaces ==> t == Space
  {
    if a != [] && a[0] == Space {
      var s := SkipSplit(a[1..]);
      spaces := [Space] + s;
    } else {
      spaces := [];
    }
  }

  lemma {:induction false} ParseMore(text: seq<Token>, more: seq<Token>, d: nat, arg: seq<Token>, args: seq<seq<Token>>)
    requires d > 0 && ParseArgs(text, d, arg, args).Done?
    ensures var c := ParseArgs(text, d, arg, args).value;
      ParseArgs(text + more, d, arg, args) == Done(Call(c.args, c.rest + more))
    decreases |text|
  {
    var t, rest := text[0], text[1..];
    assert (text + more)[0] == t && (text + more)[1..] == rest + more;
    if t == Close && d == 1 {
    } else if t == Comma && d == 1 {
      ParseMore(rest, more, 1, [], args + [Trim(arg)]);
    } else {
      ParseMore(rest, more, if t == Open then d + 1 else if t == Close then d - 1 else d, arg + [t], args);
    }
  }

  lemma CallMore(tbl: map<string, Macro>, skip: seq<string>, a: seq<Token>, b: seq<Token>)
    requires a != [] && CallAt(tbl, skip, a)
    ensures CallAt(tbl, skip, a + b)
  {
    hide ParseArgs;
    if Live(tbl, a[0]) && tbl[a[0].name].isFunction && a[0].name !in skip {
      var q := SkipSpaces(a[1..]);
      assert (a + b)[1..] == a[1..] + b;
      SkipMore(a[1..], b);
      assert (q + b)[1..] == q[1..] + b;
      ParseMore(q[1..], b, 1, [], []);
    }
  }

  lemma {:induction false} CompleteConcat(tbl: map<string, Macro>, skip: seq<string>, a: seq<Token>, b: seq<Token>)
    requires Complete(tbl, skip, a) && Complete(tbl, skip, b)
    ensures Complete(tbl, skip, a + b)
  {
    hide CallAt;
    if a == [] {
      assert a + b == b;
    } else {
      CallMore(tbl, skip, a, b);
      assert (a + b)[1..] == a[1..] + b;
      CompleteConcat(tbl, skip, a[1..], b);
    }
  }

  // A call that starts j parentheses deep in an argument ends in it.
  lemma {:induction false} ParsedInside(u: seq<Token>, d: nat, j: nat, tail: seq<Token>, arg: seq<Token>, args: seq<seq<Token>>)
    requires d > 0 && j > 0 && Nested(u, d + j, 1) && ParseArgs(u + tail, d, arg, args).Done?
    ensures ParseArgs(u, d, arg, args).Done?
    ensures ParseArgs(u, d, arg, args).value.args == ParseArgs(u + tail, d, arg, args).value.args
    decreases |u|
  {
    var t := u[0];
    assert (u + tail)[0] == t && (u + tail)[1..] == u[1..] + tail;
    if t == Close && d == 1 {
    } else if t == Comma && d == 1 {
      ParsedInside(u[1..], 1, j, tail, [], args + [Trim(arg)]);
    } else {
      ParsedInside(u[1..], if t == Open then d + 1 else if t == Close then d - 1 else d, j, tail, arg + [t], args);
    }
  }

  // No call reaches over the end of an argument.
  predicate Barrier(tail: seq<Token>) {
    var q := SkipSpaces(tail);
    q == [] || q[0] != Open
  }

  lemma {:induction false} CompleteInside(tbl: map<string, Macro>, skip: seq<string>, a: seq<Token>, d: nat, tail: seq<Token>)
    requires d > 0 && Nested(a, d, 1) && Barrier(tail) && Complete(tbl, skip, a + tail)
    ensures Complete(tbl, skip, a)
    decreases |a|
  {
    hide ParseArgs;
    if a != [] {
      assert (a + tail)[0] == a[0] && (a + tail)[1..] == a[1..] + tail;
      CompleteInside(tbl, skip, a[1..], Deeper(a[0], d), tail);
      if Live(tbl, a[0]) && tbl[a[0].name].isFunction && a[0].name !in skip {
        var q := SkipSpaces(a[1..]);
        SkipMore(a[1..], tail);
        SkipNested(a[1..], d, 1);
        assert (q + tail)[0] == q[0] && (q + tail)[1..] == q[1..] + tail;
        ParsedInside(q[1..], 1, d, tail, [], []);
      }
    }
  }

  lemma {:induction false} SkipNested(text: seq<Token>, d: nat, e: nat)
    ensures Nested(text, d, e) <==> Nested(SkipSpaces(text), d, e)
  {
    if text != [] && text[0] == Space {
      SkipNested(text[1..], d, e);
    }
  }

  lemma {:induction false} SkipComplete(tbl: map<string, Macro>, skip: seq<string>, text: seq<Token>)
    requires Complete(tbl, skip, text)
    ensures Complete(tbl, skip, SkipSpaces(text))
  {
    if text != [] && text[0] == Space {
      SkipComplete(tbl, skip, text[1..]);
    }
  }

  lemma {:induction false} TrimComplete(tbl: map<string, Macro>, skip: seq<string>, arg: seq<Token>)
    requires Nested(arg, 1, 1) && Complete(tbl, skip, arg)
    ensures Complete(tbl, skip, Trim(arg))
    decreases |arg|
  {
    hide CallAt;
    if arg != [] {
      if arg[0] == Space {
        TrimComplete(tbl, skip, arg[1..]);
      } else if arg[|arg| - 1] == Space {
        var front := arg[..|arg| - 1];
        assert front + [Space] == arg && [Space][1..] == [];
        var m := NestedPrefix(front, [Space], 1, 1);
        NestedConcat(front, [Space], 1, m, 1);
        CompleteInside(tbl, skip, front, 1, [Space]);
        TrimComplete(tbl, skip, front);
      }
    }
  }

  // What a call passes, and what follows it, is complete.
  lemma {:induction false} ParsedComplete(tbl: map<string, Macro>, text: seq<Token>, d: nat, arg: seq<Token>, args: seq<seq<Token>>)
    requires d > 0 && Nested(arg, 1, d) && Complete(tbl, [], arg + text) && ParseArgs(text, d, arg, args).Done?
    requires forall a :: a in args ==> Nested(a, 1, 1) && Complete(tbl, [], a)
    ensures var c := ParseArgs(text, d, arg, args).value;
      (forall a :: a in c.args ==> Nested(a, 1, 1) && Complete(tbl, [], a)) && Complete(tbl, [], c.rest)
    decreases |text|
  {
    hide CallAt, Trim;
    var t, rest := text[0], text[1..];
    assert text == [t] + rest && arg + text == (arg + [t]) + rest;
    if d == 1 && (t == Close || t == Comma) {
      assert SkipSpaces(text) == text;
      CompleteInside(tbl, [], arg, 1, text);
      TrimComplete(tbl, [], arg);
      TrimArgument(arg);
      CompleteSuffix(tbl, [], arg + [t], rest);
      if t == Comma {
        assert [] + rest == rest;
        ParsedComplete(tbl, rest, 1, [], args + [Trim(arg)]);
      }
    } else {
      NestedConcat(arg, [t], 1, d, Deeper(t, d));
      assert [t][1..] == [];
      ParsedComplete(tbl, rest, Deeper(t, d), arg + [t], args);
    }
  }

  // Behind a call that is j parentheses deep, the text is at that depth again.
  lemma {:induction false} ParsedNested(text: seq<Token>, d: nat, j: nat, e: nat, arg: seq<Token>, args: seq<seq<Token>>)
    requires d > 0 && j > 0 && ParseArgs(text, d, arg, args).Done? && Nested(text, d + j, e)
    ensures Nested(ParseArgs(text, d, arg, args).value.rest, j, e)
    decreases |text|
  {
    var t, rest := text[0], text[1..];
    if t == Close && d == 1 {
    } else if t == Comma && d == 1 {
      ParsedNested(rest, 1, j, e, [], args + [Trim(arg)]);
    } else {
      ParsedNested(rest, if t == Open then d + 1 else if t == Close then d - 1 else d, j, e, arg + [t], args);
    }
  }

  lemma {:induction false} NestedDeeper(text: seq<Token>, d: nat, e: nat, j: nat)
    requires d > 0 && Nested(text, d, e)
    ensures Nested(text, d + j, e + j)
  {
    if text != [] {
      NestedDeeper(text[1..], Deeper(text[0], d), e, j);
    }
  }

  // ----- substitution -----

  lemma {:induction false} EnterNested(arg: seq<Token>, open: set<string>, d: nat, e: nat)
    ensures Nested(Enter(arg, open), d, e) <==> Nested(arg, d, e)
  {
    if arg != [] {
      EnterNested(arg[1..], open, Deeper(arg[0], d), e);
    }
  }

  // Texts that differ only in where their words come from are read alike.
  predicate Alike(a: seq<Token>, b: seq<Token>) { |a| == |b| && forall i :: 0 <= i < |a| ==> SameToken(a[i], b[i]) }

  predicate SameToken(s: Token, t: Token) {
    s == t || (s.Word? && t.Word? && s.name == t.name && s.marked == t.marked)
  }

  // And they are the texts that the program takes for equal.
  lemma {:induction false} PlainIsAlike(a: seq<Token>, b: seq<Token>)
    ensures Plain(a) == Plain(b) <==> Alike(a, b)
    decreases |a|
  {
    if |a| == |b| && a != [] {
      PlainIsAlike(a[1..], b[1..]);
      assert Plain(a)[0] == Plain(b)[0] <==> SameToken(a[0], b[0]);
      assert Plain(a)[1..] == Plain(a[1..]) && Plain(b)[1..] == Plain(b[1..]);
      assert Plain(a) == [Plain(a)[0]] + Plain(a[1..]) && Plain(b) == [Plain(b)[0]] + Plain(b[1..]);
      if Alike(a, b) {
        TailAlike(a, b);
      }
      if SameToken(a[0], b[0]) && Alike(a[1..], b[1..]) {
        forall i | 0 <= i < |a| ensures SameToken(a[i], b[i]) {
          assert i > 0 ==> a[i] == a[1..][i - 1] && b[i] == b[1..][i - 1];
        }
      }
    }
  }

  lemma {:induction false} EnterAlike(arg: seq<Token>, open: set<string>)
    ensures Alike(Enter(arg, open), arg)
  {
    if arg != [] {
      EnterAlike(arg[1..], open);
    }
  }

  lemma {:induction false} StampAlike(body: seq<Token>, open: set<string>)
    ensures Alike(Stamp(body, open), body)
  {
    if body != [] {
      StampAlike(body[1..], open);
    }
  }

  lemma {:induction false} ParseAlike(a: seq<Token>, b: seq<Token>, d: nat, arg: seq<Token>, arg': seq<Token>,
      args: seq<seq<Token>>, args': seq<seq<Token>>)
    requires d > 0 && Alike(a, b) && |args| == |args'| && (arg == [] <==> arg' == [])
    ensures ParseArgs(a, d, arg, args).Done? <==> ParseArgs(b, d, arg', args').Done?
    ensures ParseArgs(a, d, arg, args).Done? ==>
      |ParseArgs(a, d, arg, args).value.args| == |ParseArgs(b, d, arg', args').value.args|
    decreases |a|
  {
    if a != [] {
      var t := a[0];
      assert SameToken(a[0], b[0]);
      forall i | 0 <= i < |a| - 1 ensures SameToken(a[1..][i], b[1..][i]) {
        assert SameToken(a[i + 1], b[i + 1]);
      }
      if t == Close && d == 1 {
      } else if t == Comma && d == 1 {
        if |args| < MAX_ARGS {
          ParseAlike(a[1..], b[1..], 1, [], [], args + [Trim(arg)], args' + [Trim(arg')]);
        }
      } else {
        ParseAlike(a[1..], b[1..], if t == Open then d + 1 else if t == Close then d - 1 else d, arg + [t], arg' + [b[0]], args, args');
      }
    }
  }

  lemma {:induction false} SkipAlike(a: seq<Token>, b: seq<Token>)
    requires Alike(a, b)
    ensures Alike(SkipSpaces(a), SkipSpaces(b))
  {
    if a != [] && a[0] == Space {
      assert SameToken(a[0], b[0]);
      TailAlike(a, b);
      SkipAlike(a[1..], b[1..]);
    } else if a != [] {
      assert SameToken(a[0], b[0]);
    }
  }

  lemma TailAlike(a: seq<Token>, b: seq<Token>)
    requires Alike(a, b) && a != []
    ensures SameToken(a[0], b[0]) && Alike(a[1..], b[1..])
  {
    forall i | 0 <= i < |a| - 1 ensures SameToken(a[1..][i], b[1..][i]) {
      assert SameToken(a[i + 1], b[i + 1]);
    }
  }

  lemma {:induction false} CompleteAlike(tbl: map<string, Macro>, skip: seq<string>, a: seq<Token>, b: seq<Token>)
    requires Alike(a, b) && Complete(tbl, skip, b)
    ensures Complete(tbl, skip, a)
  {
    hide ParseArgs, Alike;
    if a != [] {
      assert b != [] by { SameLength(a, b); }
      TailAlike(a, b);
      CompleteAlike(tbl, skip, a[1..], b[1..]);
      if Live(tbl, a[0]) && tbl[a[0].name].isFunction && a[0].name !in skip {
        var q, r := SkipSpaces(a[1..]), SkipSpaces(b[1..]);
        SkipAlike(a[1..], b[1..]);
        SameLength(q, r);
        TailAlike(q, r);
        ParseAlike(q[1..], r[1..], 1, [], [], [], []);
      }
    }
  }

  lemma SameLength(a: seq<Token>, b: seq<Token>)
    requires Alike(a, b)
    ensures |a| == |b|
  {
  }

  lemma StampOne(t: Token, open: set<string>, more: seq<Token>)
    ensures var piece := Stamp([t], open);
      piece == [piece[0]] && SameToken(piece[0], t) && (piece + more)[0] == piece[0] && (piece + more)[1..] == more
  {
    assert [t][1..] == [];
  }

  lemma NothingParsed(d: nat, arg: seq<Token>, args: seq<seq<Token>>)
    requires d > 0
    ensures ParseArgs([], d, arg, args).Fatal?
  {
  }

  lemma ParseOne(t: Token, rest: seq<Token>, d: nat, arg: seq<Token>, args: seq<seq<Token>>)
    requires d > 0
    ensures ParseArgs([t] + rest, d, arg, args) ==
      if t == Close && d == 1 then
        if arg == [] && args == [] then Done(Call([], rest)) else Done(Call(args + [Trim(arg)], rest))
      else if t == Comma && d == 1 then
        if |args| >= MAX_ARGS then Fatal else ParseArgs(rest, 1, [], args + [Trim(arg)])
      else ParseArgs(rest, if t == Open then d + 1 else if t == Close then d - 1 else d, arg + [t], args)
  {
    hide Trim;
    assert ([t] + rest)[1..] == rest;
  }

  // Substituting arguments does not change how the calls of a body are read, except that one may
  // lose its only argument.
  lemma {:induction false} ParseSubstituted(params: seq<string>, s: seq<Token>, d: nat, arg: seq<Token>, arg': seq<Token>,
      acc: seq<seq<Token>>, acc': seq<seq<Token>>, args: seq<seq<Token>>, open: set<string>)
    requires d > 0 && |args| == |params| && (forall a :: a in args ==> Nested(a, 1, 1))
    requires |acc'| == |acc| && (arg == [] ==> arg' == []) && ParseArgs(s, d, arg, acc).Done?
    ensures var o := ParseArgs(Substitute(params, s, args, open), d, arg', acc');
      o.Done? && |o.value.args| <= |ParseArgs(s, d, arg, acc).value.args|
    decreases |s|
  {
    hide Trim, Enter, Stamp, ParamIndex, Nested, ParseArgs;
    assert s != [] by { NothingParsed(d, arg, acc); }
    var t, rest := s[0], s[1..];
    assert s == [t] + rest;
    ParseOne(t, rest, d, arg, acc);
    var more := Substitute(params, rest, args, open);
    var i := if t.Word? then ParamIndex(params, t.name) else |params|;
    if i < |params| {
      var piece := Enter(args[i], open);
      EnterNested(args[i], open, 1, 1);
      Gathered(piece, 1, d - 1, more, arg', acc');
      ParseSubstituted(params, rest, d, arg + [t], arg' + piece, acc, acc', args, open);
    } else {
      var piece := Stamp([t], open);
      StampOne(t, open, more);
      ParseOne(piece[0], more, d, arg', acc');
      if t == Close && d == 1 {
      } else if t == Comma && d == 1 {
        ParseSubstituted(params, rest, 1, [], [], acc + [Trim(arg)], acc' + [Trim(arg')], args, open);
      } else {
        ParseSubstituted(params, rest, if t == Open then d + 1 else if t == Close then d - 1 else d, arg + [t], arg' + piece,
          acc, acc', args, open);
      }
    }
  }

  lemma {:induction false} SubstituteSkips(params: seq<string>, s: seq<Token>, args: seq<seq<Token>>, open: set<string>)
    requires |args| == |params| && SkipSpaces(s) != [] && SkipSpaces(s)[0] == Open
    ensures SkipSpaces(Substitute(params, s, args, open))
      == [Open] + Substitute(params, SkipSpaces(s)[1..], args, open)
  {
    var piece, more := Stamp([s[0]], open), Substitute(params, s[1..], args, open);
    assert [s[0]][1..] == [] && piece == [s[0]];
    assert (piece + more)[0] == s[0] && (piece + more)[1..] == more;
    if s[0] == Space {
      SubstituteSkips(params, s[1..], args, open);
    }
  }

  lemma {:induction false} SubstituteComplete(tbl: map<string, Macro>, params: seq<string>, body: seq<Token>,
      args: seq<seq<Token>>, open: set<string>)
    requires |args| == |params| && Complete(tbl, params, body)
    requires forall a :: a in args ==> Nested(a, 1, 1) && Complete(tbl, [], a)
    ensures Complete(tbl, [], Substitute(params, body, args, open))
  {
    hide ParseArgs, Enter;
    if body != [] {
      var more := Substitute(params, body[1..], args, open);
      var i := if body[0].Word? then ParamIndex(params, body[0].name) else |params|;
      SubstituteComplete(tbl, params, body[1..], args, open);
      if i < |params| {
        EnterAlike(args[i], open);
        CompleteAlike(tbl, [], Enter(args[i], open), args[i]);
        CompleteConcat(tbl, [], Enter(args[i], open), more);
      } else {
        var piece := Stamp([body[0]], open);
        assert [body[0]][1..] == [] && piece == [piece[0]];
        assert (piece + more)[0] == piece[0] && (piece + more)[1..] == more;
        if Live(tbl, piece[0]) && tbl[piece[0].name].isFunction {
          var q := SkipSpaces(body[1..]);
          SubstituteSkips(params, body[1..], args, open);
          ParseSubstituted(params, q[1..], 1, [], [], [], [], args, open);
          assert SkipSpaces(more)[1..] == Substitute(params, q[1..], args, open);
        }
      }
    }
  }

  lemma {:induction false} SubstituteNested(params: seq<string>, body: seq<Token>, args: seq<seq<Token>>, open: set<string>, d: nat, e: nat)
    requires |args| == |params| && d > 0 && Nested(body, d, e) && (forall a :: a in args ==> Nested(a, 1, 1))
    ensures Nested(Substitute(params, body, args, open), d, e)
    decreases |body|
  {
    hide Enter;
    if body != [] {
      var more := Substitute(params, body[1..], args, open);
      var i := if body[0].Word? then ParamIndex(params, body[0].name) else |params|;
      var piece := if i < |params| then Enter(args[i], open) else Stamp([body[0]], open);
      SubstituteNested(params, body[1..], args, open, Deeper(body[0], d), e);
      if i < |params| {
        EnterNested(args[i], open, 1, 1);
        NestedDeeper(piece, 1, 1, d - 1);
      } else {
        assert [body[0]][1..] == [] && piece == [piece[0]] && piece[1..] == [];
      }
      NestedConcat(piece, more, d, Deeper(body[0], d), e);
    }
  }

  lemma {:induction false} StampNested(body: seq<Token>, open: set<string>, d: nat, e: nat)
    ensures Nested(Stamp(body, open), d, e) <==> Nested(body, d, e)
  {
    if body != [] {
      StampNested(body[1..], open, Deeper(body[0], d), e);
    }
  }

  // ----- complete texts stay complete -----

  // An expansion of a complete text never fails and never copies a call; the result is complete,
  // and an argument if the text was one.
  lemma {:induction false} ExpandComplete(tbl: map<string, Macro>, open: set<string>, text: seq<Token>, left: nat)
    requires Neat(tbl) && Complete(tbl, [], text)
    ensures Expand(tbl, open, text, left).Done?
    ensures var r := Expand(tbl, open, text, left).value;
      !r.loose && Complete(tbl, [], r.out) && (Nested(text, 1, 1) ==> Nested(r.out, 1, 1))
    decreases left, 3, 0
  {
    hide Scan, Neat, Complete, Nested, Plain, HasLive;
    if left > 0 {
      ScanComplete(tbl, open, text, left);
      var s := Scan(tbl, open, text, left).value;
      if Nested(text, 1, 1) {
        ScanNested(tbl, open, text, left, 1, 1);
      }
      if Plain(s.out) != Plain(text) {
        ExpandComplete(tbl, open, s.out, left - 1);
      }
    }
  }

  lemma {:induction false} ScanComplete(tbl: map<string, Macro>, open: set<string>, text: seq<Token>, left: nat)
    requires left > 0 && Neat(tbl) && Complete(tbl, [], text)
    ensures Scan(tbl, open, text, left).Done?
    ensures var r := Scan(tbl, open, text, left).value; !r.loose && Complete(tbl, [], r.out)
    decreases left, 2, |text|
  {
    hide Next, Neat, CallAt;
    if text != [] {
      NextComplete(tbl, open, text, left);
      var s := Next(tbl, open, text, left).value;
      ScanComplete(tbl, open, s.rest, left);
      CompleteConcat(tbl, [], s.run.out, Scan(tbl, open, s.rest, left).value.out);
    }
  }

  lemma {:induction false} ScanNested(tbl: map<string, Macro>, open: set<string>, text: seq<Token>, left: nat, d: nat, e: nat)
    requires left > 0 && Neat(tbl) && Complete(tbl, [], text) && d > 0 && e > 0 && Nested(text, d, e)
    ensures Scan(tbl, open, text, left).Done? && Nested(Scan(tbl, open, text, left).value.out, d, e)
    decreases left, 2, |text|
  {
    hide Next, Neat, CallAt;
    if text != [] {
      NextComplete(tbl, open, text, left);
      NextNested(tbl, open, text, left, d, e);
      var s := Next(tbl, open, text, left).value;
      ScanNested(tbl, open, s.rest, left, Deeper(text[0], d), e);
      NestedConcat(s.run.out, Scan(tbl, open, s.rest, left).value.out, d, Deeper(text[0], d), e);
    }
  }

  lemma {:induction false} NextComplete(tbl: map<string, Macro>, open: set<string>, text: seq<Token>, left: nat)
    requires left > 0 && Neat(tbl) && text != [] && Complete(tbl, [], text)
    ensures Next(tbl, open, text, left).Done?
    ensures var s := Next(tbl, open, text, left).value;
      !s.run.loose && Complete(tbl, [], s.run.out) && Complete(tbl, [], s.rest)
    decreases left, 1, 0
  {
    hide Expand, Invoke, Stamp, NeatBody;
    var t := text[0];
    if Live(tbl, t) && t.name !in open {
      if tbl[t.name].isFunction {
        InvokeComplete(tbl, open, text, left);
      } else {
        BodyComplete(tbl, open, t.name, left);
        var inside := open + {t.name};
        var r := Expand(tbl, inside, Stamp(tbl[t.name].body, inside), left - 1).value;
        assert [] + r.out == r.out;
      }
    } else {
      var u := if Live(tbl, t) then t.(marked := true) else t;
      assert [u][1..] == [] && !Live(tbl, u);
    }
  }

  // The body of an object-like macro.
  lemma {:induction false} BodyComplete(tbl: map<string, Macro>, open: set<string>, n: string, left: nat)
    requires left > 0 && Neat(tbl) && n in tbl && !tbl[n].isFunction
    ensures var inside := open + {n};
      var o := Expand(tbl, inside, Stamp(tbl[n].body, inside), left - 1);
      o.Done? && !o.value.loose && Complete(tbl, [], o.value.out) && Nested(o.value.out, 1, 1)
    decreases left, 0, 0
  {
    hide Expand, Stamp, Complete, Nested;
    var inside, body := open + {n}, tbl[n].body;
    assert NeatBody(tbl, tbl[n]);
    StampAlike(body, inside);
    CompleteAlike(tbl, [], Stamp(body, inside), body);
    StampNested(body, inside, 1, 1);
    ExpandComplete(tbl, inside, Stamp(body, inside), left - 1);
  }

  lemma {:induction false} NextNested(tbl: map<string, Macro>, open: set<string>, text: seq<Token>, left: nat, d: nat, e: nat)
    requires left > 0 && Neat(tbl) && text != [] && Complete(tbl, [], text) && d > 0 && e > 0 && Nested(text, d, e)
    ensures Next(tbl, open, text, left).Done? && Deeper(text[0], d) > 0
    ensures var s := Next(tbl, open, text, left).value;
      Nested(s.run.out, d, Deeper(text[0], d)) && Nested(s.rest, Deeper(text[0], d), e)
    decreases left, 1, 1
  {
    hide Expand, Invoke, Stamp, NeatBody, Complete;
    var t, rest := text[0], text[1..];
    if Live(tbl, t) && t.name !in open {
      if tbl[t.name].isFunction {
        InvokeComplete(tbl, open, text, left);
        var s := Invoke(tbl, open, t, rest, left).value;
        NestedDeeper(s.run.out, 1, 1, d - 1);
        CallNested(tbl, open, text, left, d, e);
      } else {
        BodyComplete(tbl, open, t.name, left);
        var inside := open + {t.name};
        var r := Expand(tbl, inside, Stamp(tbl[t.name].body, inside), left - 1).value;
        NestedDeeper(r.out, 1, 1, d - 1);
        assert [] + r.out == r.out;
      }
    } else {
      var u := if Live(tbl, t) then t.(marked := true) else t;
      assert [u][1..] == [];
    }
  }

  // The parts of a complete call.
  lemma CallParts(tbl: map<string, Macro>, text: seq<Token>) returns (u: seq<Token>, c: Call)
    requires text != [] && Complete(tbl, [], text) && Live(tbl, text[0]) && tbl[text[0].name].isFunction
    ensures SkipSpaces(text[1..]) == [Open] + u && ParseArgs(u, 1, [], []) == Done(c)
    ensures |c.args| <= |tbl[text[0].name].params|
    ensures (forall a :: a in c.args ==> Nested(a, 1, 1) && Complete(tbl, [], a)) && Complete(tbl, [], c.rest)
  {
    hide ParseArgs;
    var q := SkipSpaces(text[1..]);
    u, c := q[1..], ParseArgs(q[1..], 1, [], []).value;
    SkipComplete(tbl, [], text[1..]);
    assert q == [Open] + u && [] + u == u;
    CompleteSuffix(tbl, [], [Open], u);
    ParsedComplete(tbl, u, 1, [], []);
  }

  lemma CallNested(tbl: map<string, Macro>, open: set<string>, text: seq<Token>, left: nat, d: nat, e: nat)
    requires left > 0 && text != [] && Complete(tbl, [], text) && d > 0 && Nested(text, d, e)
    requires Live(tbl, text[0]) && tbl[text[0].name].isFunction && Invoke(tbl, open, text[0], text[1..], left).Done?
    ensures Nested(Invoke(tbl, open, text[0], text[1..], left).value.rest, d, e)
  {
    hide ParseArgs, Expand, ExpandArgs;
    var u, c := CallParts(tbl, text);
    SkipNested(text[1..], d, e);
    assert ([Open] + u)[1..] == u;
    ParsedNested(u, 1, d, e, [], []);
  }

  lemma {:induction false} PadComplete(tbl: map<string, Macro>, args: seq<seq<Token>>, n: nat)
    requires |args| <= n && forall a :: a in args ==> Nested(a, 1, 1) && Complete(tbl, [], a)
    ensures forall a :: a in Pad(args, n) ==> Nested(a, 1, 1) && Complete(tbl, [], a)
    decreases n - |args|
  {
    if |args| < n {
      PadComplete(tbl, args + [[]], n);
    }
  }

  lemma {:induction false} InvokeComplete(tbl: map<string, Macro>, open: set<string>, text: seq<Token>, left: nat)
    requires left > 0 && Neat(tbl) && text != [] && Complete(tbl, [], text)
    requires Live(tbl, text[0]) && tbl[text[0].name].isFunction
    ensures Invoke(tbl, open, text[0], text[1..], left).Done?
    ensures var s := Invoke(tbl, open, text[0], text[1..], left).value;
      !s.run.loose && Complete(tbl, [], s.run.out) && Nested(s.run.out, 1, 1) && Complete(tbl, [], s.rest)
    decreases left, 0, 1
  {
    hide Expand, ExpandArgs, ParseArgs, Substitute, Pad, Complete, Nested;
    var t, m := text[0], tbl[text[0].name];
    var inside := open + {t.name};
    var u, c := CallParts(tbl, text);
    assert ([Open] + u)[1..] == u;
    var args := Pad(c.args, |m.params|);
    PadComplete(tbl, c.args, |m.params|);
    ArgsComplete(tbl, open, args, left - 1);
    var a := ExpandArgs(tbl, open, args, left - 1).value;
    assert NeatBody(tbl, m);
    var body := Substitute(m.params, m.body, a.texts, inside);
    SubstituteComplete(tbl, m.params, m.body, a.texts, inside);
    SubstituteNested(m.params, m.body, a.texts, inside, 1, 1);
    ExpandComplete(tbl, inside, body, left - 1);
    var r := Expand(tbl, inside, body, left - 1).value;
    assert [] + r.out == r.out;
  }

  lemma {:induction false} ArgsComplete(tbl: map<string, Macro>, open: set<string>, args: seq<seq<Token>>, left: nat)
    requires Neat(tbl) && forall a :: a in args ==> Nested(a, 1, 1) && Complete(tbl, [], a)
    ensures ExpandArgs(tbl, open, args, left).Done? && !ExpandArgs(tbl, open, args, left).value.loose
    ensures forall a :: a in ExpandArgs(tbl, open, args, left).value.texts ==> Nested(a, 1, 1) && Complete(tbl, [], a)
    decreases left, 4, |args|
  {
    hide Expand, Neat, Complete, Nested;
    if args != [] {
      assert args[0] in args && forall a :: a in args[1..] ==> a in args;
      ExpandComplete(tbl, open, args[0], left);
      ArgsComplete(tbl, open, args[1..], left);
    }
  }

  // ----- marked words stay -----

  // No call of a complete text reaches over its end.
  lemma NextConcat(tbl: map<string, Macro>, open: set<string>, a: seq<Token>, rest: seq<Token>, left: nat)
    requires left > 0 && a != [] && Complete(tbl, [], a) && Next(tbl, open, a, left).Done?
    ensures var s := Next(tbl, open, a, left).value;
      Next(tbl, open, a + rest, left) == Done(Step(s.run, s.rest + rest))
  {
    hide Expand, ExpandArgs, ParseArgs, Substitute, Pad, Stamp, Complete;
    assert (a + rest)[0] == a[0] && (a + rest)[1..] == a[1..] + rest;
    if Live(tbl, a[0]) && a[0].name !in open && tbl[a[0].name].isFunction {
      var u, c := CallParts(tbl, a);
      SkipMore(a[1..], rest);
      assert ([Open] + u)[1..] == u && ([Open] + u + rest)[1..] == u + rest;
      ParseMore(u, rest, 1, [], []);
    }
  }

  lemma {:induction false} ScanConcat(tbl: map<string, Macro>, open: set<string>, a: seq<Token>, rest: seq<Token>, left: nat)
    requires left > 0 && Neat(tbl) && Complete(tbl, [], a) && Scan(tbl, open, rest, left).Done?
    ensures Scan(tbl, open, a, left).Done? && Scan(tbl, open, a + rest, left).Done?
    ensures Scan(tbl, open, a + rest, left).value.out == Scan(tbl, open, a, left).value.out + Scan(tbl, open, rest, left).value.out
    decreases |a|
  {
    hide Next, Neat, CallAt;
    if a == [] {
      assert a + rest == rest;
      assert [] + Scan(tbl, open, rest, left).value.out == Scan(tbl, open, rest, left).value.out;
    } else {
      NextComplete(tbl, open, a, left);
      NextConcat(tbl, open, a, rest, left);
      ScanConcat(tbl, open, Next(tbl, open, a, left).value.rest, rest, left);
    }
  }

  // A marked word outside of calls stays where it is, unexpanded, through every rescan.
  lemma {:induction false} MarkedThrough(tbl: map<string, Macro>, open: set<string>, a: seq<Token>, t: Token, b: seq<Token>, left: nat)
    returns (a1: seq<Token>, b1: seq<Token>)
    requires Neat(tbl) && Complete(tbl, [], a) && Complete(tbl, [], b) && t.Word? && t.marked
    ensures Expand(tbl, open, a + [t] + b, left).Done?
    ensures Expand(tbl, open, a + [t] + b, left).value.out == a1 + [t] + b1
    ensures Complete(tbl, [], a1) && Complete(tbl, [], b1)
    decreases left
  {
    hide Scan, Neat, Complete, Plain;
    if left == 0 {
      a1, b1 := a, b;
    } else {
      ScanComplete(tbl, open, a, left);
      ScanComplete(tbl, open, b, left);
      a1, b1 := Scan(tbl, open, a, left).value.out, Scan(tbl, open, b, left).value.out;
      MarkedFirst(tbl, open, t, b, left);
      assert a + [t] + b == a + ([t] + b);
      ScanConcat(tbl, open, a, [t] + b, left);
      assert Scan(tbl, open, a + [t] + b, left).value.out == a1 + [t] + b1;
      if Plain(a1 + [t] + b1) != Plain(a + [t] + b) {
        a1, b1 := MarkedThrough(tbl, open, a1, t, b1, left - 1);
      }
    }
  }

  lemma MarkedFirst(tbl: map<string, Macro>, open: set<string>, t: Token, b: seq<Token>, left: nat)
    requires left > 0 && t.Word? && t.marked && Scan(tbl, open, b, left).Done?
    ensures Scan(tbl, open, [t] + b, left).Done?
    ensures Scan(tbl, open, [t] + b, left).value.out == [t] + Scan(tbl, open, b, left).value.out
  {
    assert ([t] + b)[1..] == b;
    assert Next(tbl, open, [t] + b, left) == Done(Step(Copy([t]), b));
  }
}
