/** What complete lines are expanded to: each call becomes the body of its macro with every parameter
    replaced by the expansion of its own argument. */
module CallMeaning {
  import opened Options
  import opened MacroExpansion
  import opened MacroCalls
  import opened ObjectMacros
  import opened CompleteCalls
  import opened CallDepth

  // ----- replacing parameters -----

  // A body with values for its parameters; a missing value is empty.
  function Replaced(params: seq<string>, body: seq<Token>, vals: seq<seq<Token>>): seq<Token> {
    if body == [] then []
    else
      var i := if body[0].Word? then ParamIndex(params, body[0].name) else |params|;
      (if i < |params| then (if i < |vals| then vals[i] else []) else [body[0]]) + Replaced(params, body[1..], vals)
  }

  lemma {:induction false} PadAt(args: seq<seq<Token>>, n: nat, i: nat)
    requires |args| <= n && i < n
    ensures Pad(args, n)[i] == if i < |args| then args[i] else []
    decreases n - |args|
  {
    if |args| < n {
      PadAt(args + [[]], n, i);
    }
  }

  lemma {:induction false} SubstituteReplaces(params: seq<string>, body: seq<Token>, vals: seq<seq<Token>>, open: set<string>)
    requires |vals| <= |params|
    ensures Plain(Substitute(params, body, Pad(vals, |params|), open)) == Plain(Replaced(params, body, vals))
    decreases |body|
  {
    hide Plain, Enter, Stamp, Pad;
    if body != [] {
      SubstituteReplaces(params, body[1..], vals, open);
      var t, all := body[0], Pad(vals, |params|);
      var i := if t.Word? then ParamIndex(params, t.name) else |params|;
      if i < |params| {
        PadAt(vals, |params|, i);
        PlainEnter(all[i], open);
        PlainConcat(Enter(all[i], open), Substitute(params, body[1..], all, open));
        PlainConcat(all[i], Replaced(params, body[1..], vals));
      } else {
        PlainStamp(t, open);
        PlainConcat(Stamp([t], open), Substitute(params, body[1..], all, open));
        PlainConcat([t], Replaced(params, body[1..], vals));
      }
    }
  }

  lemma PlainStamp(t: Token, open: set<string>)
    ensures Plain(Stamp([t], open)) == Plain([t])
  {
    assert [t][1..] == [];
  }

  // The parameters of a body, each with its own value.
  lemma {:induction false} ReplacedConcat(params: seq<string>, a: seq<Token>, b: seq<Token>, vals: seq<seq<Token>>)
    ensures Replaced(params, a + b, vals) == Replaced(params, a, vals) + Replaced(params, b, vals)
  {
    if a == [] {
      assert a + b == b;
    } else {
      assert (a + b)[1..] == a[1..] + b && (a + b)[0] == a[0];
      ReplacedConcat(params, a[1..], b, vals);
    }
  }

  lemma OwnValue(params: seq<string>, a: seq<Token>, p: Token, i: nat, b: seq<Token>, vals: seq<seq<Token>>)
    requires Distinct(params) && i < |params| && i < |vals| && p.Word? && p.name == params[i]
    ensures Replaced(params, a + [p] + b, vals) == Replaced(params, a, vals) + vals[i] + Replaced(params, b, vals)
  {
    hide Replaced;
    ReplacedConcat(params, a + [p], b, vals);
    ReplacedConcat(params, a, [p], vals);
    OneReplaced(params, p, i, vals);
  }

  lemma OneReplaced(params: seq<string>, p: Token, i: nat, vals: seq<seq<Token>>)
    requires Distinct(params) && i < |params| && i < |vals| && p.Word? && p.name == params[i]
    ensures Replaced(params, [p], vals) == vals[i]
  {
    assert ParamIndex(params, p.name) == i && [p][1..] == [];
    assert Replaced(params, [p], vals) == vals[i] + [];
  }

  // ----- the call that a text starts with -----

  // A call as it is written: the name, perhaps spaces, and the arguments in parentheses.
  function CallText(t: Token, spaces: seq<Token>, args: seq<seq<Token>>, rest: seq<Token>): seq<Token> {
    [t] + (spaces + ([Open] + (Commas(args) + [Close] + rest)))
  }

  predicate IsCall(tbl: map<string, Macro>, open: set<string>, t: Token, spaces: seq<Token>, args: seq<seq<Token>>) {
    && Live(tbl, t) && t.name !in open && tbl[t.name].isFunction && (forall s :: s in spaces ==> s == Space)
    && Arguments(args) && |args| <= |tbl[t.name].params|
  }

  lemma {:induction false} SpacesSkipped(spaces: seq<Token>, text: seq<Token>)
    requires (forall s :: s in spaces ==> s == Space) && text != [] && text[0] != Space
    ensures SkipSpaces(spaces + text) == text
  {
    if spaces == [] {
      assert spaces + text == text;
    } else {
      assert (spaces + text)[1..] == spaces[1..] + text && (spaces + text)[0] == spaces[0];
      assert spaces[0] in spaces && forall s :: s in spaces[1..] ==> s in spaces;
      SpacesSkipped(spaces[1..], text);
    }
  }

  // One empty argument is no argument; to the parameters that makes no difference.
  function Passed(args: seq<seq<Token>>): seq<seq<Token>> { if args == [[]] then [] else args }

  lemma CallRead(t: Token, spaces: seq<Token>, args: seq<seq<Token>>, rest: seq<Token>)
    requires Arguments(args) && forall s :: s in spaces ==> s == Space
    ensures var u := Commas(args) + [Close] + rest;
      SkipSpaces(CallText(t, spaces, args, rest)[1..]) == [Open] + u && ParseArgs(u, 1, [], []) == Done(Call(Passed(args), rest))
  {
    var u := Commas(args) + [Close] + rest;
    assert CallText(t, spaces, args, rest)[1..] == spaces + ([Open] + u);
    SpacesSkipped(spaces, [Open] + u);
    if args == [] || args == [[]] {
      assert u == [Close] + rest && u[1..] == rest;
    } else {
      assert [] + args == args;
      ParseBack(args, rest, []);
    }
  }

  lemma PadPassed(args: seq<seq<Token>>, n: nat)
    requires |args| <= n
    ensures Pad(Passed(args), n) == Pad(args, n)
  {
    forall i | 0 <= i < n ensures Pad(Passed(args), n)[i] == Pad(args, n)[i] {
      PadAt(Passed(args), n, i);
      PadAt(args, n, i);
    }
  }

  // ----- arguments -----

  function OutOf(o: Outcome<Run>): seq<Token> { if o.Done? then o.value.out else [] }

  // The expansions of the arguments, each by itself.
  function Values(tbl: map<string, Macro>, open: set<string>, args: seq<seq<Token>>, left: nat): (vals: seq<seq<Token>>)
    ensures |vals| == |args|
  {
    seq(|args|, i requires 0 <= i < |args| => OutOf(Expand(tbl, open, args[i], left)))
  }

  // Text i that the substitution gets is the expansion of argument i.
  lemma {:induction false} EachExpanded(tbl: map<string, Macro>, open: set<string>, args: seq<seq<Token>>, left: nat)
    requires ExpandArgs(tbl, open, args, left).Done?
    ensures ExpandArgs(tbl, open, args, left).value.texts == Values(tbl, open, args, left)
    decreases |args|
  {
    hide Expand;
    if args != [] {
      EachExpanded(tbl, open, args[1..], left);
    }
  }

  lemma ValuesPadded(tbl: map<string, Macro>, open: set<string>, args: seq<seq<Token>>, n: nat, left: nat)
    requires |args| <= n
    ensures Values(tbl, open, Pad(args, n), left) == Pad(Values(tbl, open, args, left), n)
  {
    hide Expand;
    var vals := Values(tbl, open, args, left);
    NothingExpanded(tbl, open, left);
    forall i | 0 <= i < n ensures Values(tbl, open, Pad(args, n), left)[i] == Pad(vals, n)[i] {
      PadAt(args, n, i);
      PadAt(vals, n, i);
    }
  }

  lemma NothingExpanded(tbl: map<string, Macro>, open: set<string>, left: nat)
    ensures OutOf(Expand(tbl, open, [], left)) == []
  {
    ExpandQuiet(tbl, open, [], left);
  }

  // What a scan makes of a call.
  lemma CallScanned(tbl: map<string, Macro>, open: set<string>, t: Token, spaces: seq<Token>, args: seq<seq<Token>>, rest: seq<Token>, left: nat)
    requires left > 0 && IsCall(tbl, open, t, spaces, args)
    requires Scan(tbl, open, CallText(t, spaces, args, rest), left).Done?
    ensures var m, inside := tbl[t.name], open + {t.name};
      var vals := Pad(Values(tbl, open, args, left - 1), |m.params|);
      var r, s := Expand(tbl, inside, Substitute(m.params, m.body, vals, inside), left - 1), Scan(tbl, open, rest, left);
      r.Done? && s.Done? && Scan(tbl, open, CallText(t, spaces, args, rest), left).value.out == r.value.out + s.value.out
  {
    hide Expand, ExpandArgs, ParseArgs, Substitute, Pad, SkipSpaces, Values, Arguments;
    var m, inside, text := tbl[t.name], open + {t.name}, CallText(t, spaces, args, rest);
    var u := Commas(args) + [Close] + rest;
    CallRead(t, spaces, args, rest);
    assert ([Open] + u)[1..] == u && text[0] == t;
    PadPassed(args, |m.params|);
    var all := Pad(args, |m.params|);
    assert Next(tbl, open, text, left) == Invoke(tbl, open, t, text[1..], left);
    assert ExpandArgs(tbl, open, all, left - 1).Done?;
    EachExpanded(tbl, open, all, left - 1);
    ValuesPadded(tbl, open, args, |m.params|, left - 1);
    var a := ExpandArgs(tbl, open, all, left - 1).value;
    var r := Expand(tbl, inside, Substitute(m.params, m.body, a.texts, inside), left - 1).value;
    assert [] + r.out == r.out;
  }

  // ----- complete lines -----

  // A call at the start of a complete line within the cap becomes the body, each parameter replaced by
  // the expansion of its own argument, and expanded again with the macro's name kept out of it; what
  // follows the call is expanded by itself.
  lemma CallExpands(tbl: map<string, Macro>, open: set<string>, t: Token, spaces: seq<Token>, args: seq<seq<Token>>, rest: seq<Token>, left: nat)
    requires Neat(tbl) && IsCall(tbl, open, t, spaces, args)
    requires Complete(tbl, [], CallText(t, spaces, args, rest)) && WithinLevels(tbl, open, CallText(t, spaces, args, rest), left)
    ensures var m, inside := tbl[t.name], open + {t.name};
      left > 0 &&
      var body := Substitute(m.params, m.body, Pad(Values(tbl, open, args, left - 1), |m.params|), inside);
      && Plain(body) == Plain(Replaced(m.params, m.body, Values(tbl, open, args, left - 1)))
      && OutOf(Expand(tbl, open, CallText(t, spaces, args, rest), left))
         == OutOf(Expand(tbl, inside, body, left - 1)) + OutOf(Expand(tbl, open, rest, left))
  {
    hide Expand, Scan, Neat, Complete, Substitute, Pad, Values, Plain, Replaced, Arguments, Levels;
    var text, m := CallText(t, spaces, args, rest), tbl[t.name];
    HasLevel(tbl, open, text);
    ScanFits(tbl, open, text, left);
    CallScanned(tbl, open, t, spaces, args, rest, left);
    SubstituteReplaces(m.params, m.body, Values(tbl, open, args, left - 1), open + {t.name});
    ScannedIsExpanded(tbl, open, text, left);
    RestComplete(tbl, open, t, spaces, args, rest, left);
    ScanFits(tbl, open, rest, left);
    ScannedIsExpanded(tbl, open, rest, left);
  }

  lemma HasLevel(tbl: map<string, Macro>, open: set<string>, text: seq<Token>)
    requires text != [] && Live(tbl, text[0])
    ensures Levels(tbl, open, [], text, 0) > 0
  {
  }

  lemma ScannedIsExpanded(tbl: map<string, Macro>, open: set<string>, text: seq<Token>, left: nat)
    requires left > 0 && Scan(tbl, open, text, left).Done? && Quiet(tbl, Scan(tbl, open, text, left).value.out)
    ensures Expand(tbl, open, text, left).Done? && Expand(tbl, open, text, left).value.out == Scan(tbl, open, text, left).value.out
  {
    hide Scan, Plain, Quiet;
    ExpandQuiet(tbl, open, Scan(tbl, open, text, left).value.out, left - 1);
  }

  lemma RestComplete(tbl: map<string, Macro>, open: set<string>, t: Token, spaces: seq<Token>, args: seq<seq<Token>>, rest: seq<Token>, left: nat)
    requires left > 0 && IsCall(tbl, open, t, spaces, args)
    requires Complete(tbl, [], CallText(t, spaces, args, rest)) && WithinLevels(tbl, open, CallText(t, spaces, args, rest), left)
    ensures Complete(tbl, [], rest) && WithinLevels(tbl, open, rest, left)
  {
    hide ParseArgs, Complete, Levels, SkipSpaces;
    var text, u := CallText(t, spaces, args, rest), Commas(args) + [Close] + rest;
    CallRead(t, spaces, args, rest);
    var u1, c := CallParts(tbl, text);
    assert u1 == u by { assert ([Open] + u1)[1..] == u1 && ([Open] + u)[1..] == u; }
    CallFits(tbl, open, text, u, left);
  }

  // If there is nothing to substitute in the body itself, the call becomes just that.
  lemma CallOfPlainBody(tbl: map<string, Macro>, open: set<string>, t: Token, spaces: seq<Token>, args: seq<seq<Token>>, rest: seq<Token>, left: nat)
    requires Neat(tbl) && IsCall(tbl, open, t, spaces, args) && Quiet(tbl, tbl[t.name].body)
    requires Complete(tbl, [], CallText(t, spaces, args, rest)) && WithinLevels(tbl, open, CallText(t, spaces, args, rest), left)
    ensures var m := tbl[t.name];
      left > 0 &&
      Plain(OutOf(Expand(tbl, open, CallText(t, spaces, args, rest), left)))
      == Plain(Replaced(m.params, m.body, Values(tbl, open, args, left - 1))) + Plain(OutOf(Expand(tbl, open, rest, left)))
  {
    hide Expand, Neat, Complete, Substitute, Pad, Values, Plain, Replaced, Arguments, Levels, Quiet;
    CallExpands(tbl, open, t, spaces, args, rest, left);
    var m, inside, vals := tbl[t.name], open + {t.name}, Values(tbl, open, args, left - 1);
    var body := Substitute(m.params, m.body, Pad(vals, |m.params|), inside);
    ValuesQuiet(tbl, open, t, spaces, args, rest, left);
    QuietPadded(tbl, vals, |m.params|);
    QuietSubstitute(tbl, m.params, m.body, Pad(vals, |m.params|), inside);
    ExpandQuiet(tbl, inside, body, left - 1);
    PlainConcat(body, OutOf(Expand(tbl, open, rest, left)));
  }

  lemma ValuesQuiet(tbl: map<string, Macro>, open: set<string>, t: Token, spaces: seq<Token>, args: seq<seq<Token>>, rest: seq<Token>, left: nat)
    requires left > 0 && Neat(tbl) && IsCall(tbl, open, t, spaces, args)
    requires Complete(tbl, [], CallText(t, spaces, args, rest)) && WithinLevels(tbl, open, CallText(t, spaces, args, rest), left)
    ensures var vals := Values(tbl, open, args, left - 1); forall i :: 0 <= i < |vals| ==> Quiet(tbl, vals[i])
  {
    hide Expand, ParseArgs, Neat, Complete, Arguments, Levels, Quiet, SkipSpaces;
    var text, u := CallText(t, spaces, args, rest), Commas(args) + [Close] + rest;
    CallRead(t, spaces, args, rest);
    var u1, c := CallParts(tbl, text);
    assert u1 == u by { assert ([Open] + u1)[1..] == u1 && ([Open] + u)[1..] == u; }
    CallFits(tbl, open, text, u, left);
    var vals := Values(tbl, open, args, left - 1);
    NoneQuiet(tbl);
    forall i | 0 <= i < |vals| ensures Quiet(tbl, vals[i]) {
      if args == [[]] {
        ExpandQuiet(tbl, open, [], left - 1);
      } else {
        assert args[i] in c.args;
        ExpandFits(tbl, open, args[i], left - 1);
      }
    }
  }

  lemma NoneQuiet(tbl: map<string, Macro>)
    ensures Quiet(tbl, [])
  {
  }

  // The name of a function-like macro that no parenthesis follows stays where it is.
  lemma NotCalled(tbl: map<string, Macro>, open: set<string>, t: Token, rest: seq<Token>, left: nat)
    requires left > 0 && Live(tbl, t) && t.name !in open && tbl[t.name].isFunction && Barrier(rest)
    ensures Scan(tbl, open, [t] + rest, left).Done? <==> Scan(tbl, open, rest, left).Done?
    ensures Scan(tbl, open, rest, left).Done? ==>
      Scan(tbl, open, [t] + rest, left).value.out == [t] + Scan(tbl, open, rest, left).value.out
  {
    hide Expand, ExpandArgs, ParseArgs;
    assert ([t] + rest)[1..] == rest;
    assert Next(tbl, open, [t] + rest, left) == Done(Step(Copy([t]), rest));
  }

  // ----- calls with nothing in them to substitute -----

  // Whatever the table: a call whose arguments and body hold no live word, in front of a text without
  // any, becomes the body with each parameter replaced by its own argument.
  lemma QuietCall(tbl: map<string, Macro>, open: set<string>, t: Token, spaces: seq<Token>, args: seq<seq<Token>>, rest: seq<Token>, left: nat)
    requires left > 0 && IsCall(tbl, open, t, spaces, args)
    requires (forall i :: 0 <= i < |args| ==> Quiet(tbl, args[i])) && Quiet(tbl, tbl[t.name].body) && Quiet(tbl, rest)
    ensures var m := tbl[t.name];
      Plain(OutOf(Expand(tbl, open, CallText(t, spaces, args, rest), left))) == Plain(Replaced(m.params, m.body, args)) + Plain(rest)
  {
    hide Expand, Scan, Substitute, Pad, Values, Plain, Replaced, Arguments, Quiet;
    var text, m, inside := CallText(t, spaces, args, rest), tbl[t.name], open + {t.name};
    QuietValues(tbl, open, args, left - 1);
    var body := Substitute(m.params, m.body, Pad(args, |m.params|), inside);
    QuietPadded(tbl, args, |m.params|);
    QuietSubstitute(tbl, m.params, m.body, Pad(args, |m.params|), inside);
    ExpandQuiet(tbl, inside, body, left - 1);
    ScanQuiet(tbl, open, rest, left);
    QuietScans(tbl, open, t, spaces, args, rest, left);
    CallScanned(tbl, open, t, spaces, args, rest, left);
    QuietConcat(tbl, body, rest);
    ScannedIsExpanded(tbl, open, text, left);
    PlainConcat(body, rest);
    SubstituteReplaces(m.params, m.body, args, inside);
  }

  lemma QuietValues(tbl: map<string, Macro>, open: set<string>, args: seq<seq<Token>>, left: nat)
    requires forall i :: 0 <= i < |args| ==> Quiet(tbl, args[i])
    ensures Values(tbl, open, args, left) == args
  {
    hide Expand, Quiet;
    forall i | 0 <= i < |args| ensures Values(tbl, open, args, left)[i] == args[i] {
      ExpandQuiet(tbl, open, args[i], left);
    }
  }

  lemma QuietPadded(tbl: map<string, Macro>, args: seq<seq<Token>>, n: nat)
    requires |args| <= n && forall i :: 0 <= i < |args| ==> Quiet(tbl, args[i])
    ensures forall a :: a in Pad(args, n) ==> Quiet(tbl, a)
  {
    hide Pad;
    forall i | 0 <= i < n ensures Quiet(tbl, Pad(args, n)[i]) {
      PadAt(args, n, i);
    }
  }

  lemma {:induction false} QuietSubstitute(tbl: map<string, Macro>, params: seq<string>, body: seq<Token>, args: seq<seq<Token>>, open: set<string>)
    requires |args| == |params| && Quiet(tbl, body) && forall a :: a in args ==> Quiet(tbl, a)
    ensures Quiet(tbl, Substitute(params, body, args, open))
  {
    hide Enter, Stamp;
    if body != [] {
      assert body[0] in body && forall t :: t in body[1..] ==> t in body;
      QuietSubstitute(tbl, params, body[1..], args, open);
      var i := if body[0].Word? then ParamIndex(params, body[0].name) else |params|;
      if i < |params| {
        EnterQuiet(tbl, args[i], open);
      } else {
        StampOne(body[0], open, []);
      }
    }
  }

  lemma QuietConcat(tbl: map<string, Macro>, a: seq<Token>, b: seq<Token>)
    requires Quiet(tbl, a) && Quiet(tbl, b)
    ensures Quiet(tbl, a + b)
  {
  }

  // Such a call is no error.
  lemma QuietScans(tbl: map<string, Macro>, open: set<string>, t: Token, spaces: seq<Token>, args: seq<seq<Token>>, rest: seq<Token>, left: nat)
    requires left > 0 && IsCall(tbl, open, t, spaces, args)
    requires (forall i :: 0 <= i < |args| ==> Quiet(tbl, args[i])) && Quiet(tbl, tbl[t.name].body) && Quiet(tbl, rest)
    ensures Scan(tbl, open, CallText(t, spaces, args, rest), left).Done?
  {
    hide Expand, ExpandArgs, ParseArgs, Substitute, Pad, SkipSpaces, Values, Arguments, Quiet;
    var m, inside, text := tbl[t.name], open + {t.name}, CallText(t, spaces, args, rest);
    var u := Commas(args) + [Close] + rest;
    CallRead(t, spaces, args, rest);
    assert ([Open] + u)[1..] == u && text[0] == t;
    PadPassed(args, |m.params|);
    var all := Pad(args, |m.params|);
    QuietPadded(tbl, args, |m.params|);
    QuietArgs(tbl, open, all, left - 1);
    QuietSubstitute(tbl, m.params, m.body, all, inside);
    ExpandQuiet(tbl, inside, Substitute(m.params, m.body, all, inside), left - 1);
    ScanQuiet(tbl, open, rest, left);
    assert Next(tbl, open, text, left) == Invoke(tbl, open, t, text[1..], left);
  }

  lemma {:induction false} QuietArgs(tbl: map<string, Macro>, open: set<string>, args: seq<seq<Token>>, left: nat)
    requires forall a :: a in args ==> Quiet(tbl, a)
    ensures ExpandArgs(tbl, open, args, left).Done? && ExpandArgs(tbl, open, args, left).value.texts == args
    decreases |args|
  {
    hide Expand, Quiet;
    if args != [] {
      assert args[0] in args && forall a :: a in args[1..] ==> a in args;
      ExpandQuiet(tbl, open, args[0], left);
      QuietArgs(tbl, open, args[1..], left);
    }
  }

  // ----- the meaning of a line -----

  lemma {:induction false} ParsedShorter(text: seq<Token>, depth: nat, arg: seq<Token>, args: seq<seq<Token>>)
    requires depth > 0 && ParseArgs(text, depth, arg, args).Done?
    ensures forall a :: a in ParseArgs(text, depth, arg, args).value.args ==> a in args || |a| < |arg| + |text|
    decreases |text|
  {
    var t, rest := text[0], text[1..];
    TrimShorter(arg);
    if t == Close && depth == 1 {
    } else if t == Comma && depth == 1 {
      ParsedShorter(rest, 1, [], args + [Trim(arg)]);
    } else {
      ParsedShorter(rest, if t == Open then depth + 1 else if t == Close then depth - 1 else depth, arg + [t], args);
    }
  }

  lemma {:induction false} TrimShorter(arg: seq<Token>)
    ensures |Trim(arg)| <= |arg|
    decreases |arg|
  {
    if arg != [] {
      if arg[0] == Space {
        TrimShorter(arg[1..]);
      } else if arg[|arg| - 1] == Space {
        TrimShorter(arg[..|arg| - 1]);
      }
    }
  }

  // The call that a text starts with, if there is one that can be substituted.
  function FirstCall(tbl: map<string, Macro>, text: seq<Token>): (c: Option<Call>)
    requires text != [] && Live(tbl, text[0])
    ensures c.Some? ==> |c.value.args| <= |tbl[text[0].name].params| && |c.value.rest| < |text|
    ensures c.Some? ==> forall a :: a in c.value.args ==> |a| < |text|
  {
    var q := SkipSpaces(text[1..]);
    if q == [] || q[0] != Open then None
    else
      match ParseArgs(q[1..], 1, [], [])
      case Fatal => None
      case Done(c) =>
        ParsedShorter(q[1..], 1, [], []);
        if |c.args| <= |tbl[text[0].name].params| then Some(c) else None
  }

  // What a text stands for while the macros in open are being expanded.  No text is scanned twice,
  // and there is no depth.
  function Meaning(tbl: map<string, Macro>, open: set<string>, text: seq<Token>): seq<Token>
    decreases tbl.Keys - open, |text|
  {
    if text == [] then []
    else
      var t := text[0];
      if !Live(tbl, t) then [t] + Meaning(tbl, open, text[1..])
      else if t.name in open then [t.(marked := true)] + Meaning(tbl, open, text[1..])
      else
        var m, inside := tbl[t.name], open + {t.name};
        assert t.name in tbl.Keys - open && t.name !in tbl.Keys - inside;
        if !m.isFunction then Meaning(tbl, inside, Stamp(m.body, inside)) + Meaning(tbl, open, text[1..])
        else
          match FirstCall(tbl, text)
          case None => [t] + Meaning(tbl, open, text[1..])
          case Some(c) =>
            var vals := seq(|c.args|, i requires 0 <= i < |c.args| => Meaning(tbl, open, c.args[i]));
            Meaning(tbl, inside, Substitute(m.params, m.body, Pad(vals, |m.params|), inside)) + Meaning(tbl, open, c.rest)
  }

  // A complete line within the cap is expanded to what it means, whatever the number of levels left.
  lemma {:induction false} ExpandMeaning(tbl: map<string, Macro>, open: set<string>, text: seq<Token>, left: nat)
    requires Neat(tbl) && Complete(tbl, [], text) && WithinLevels(tbl, open, text, left)
    ensures Expand(tbl, open, text, left).Done? && Expand(tbl, open, text, left).value.out == Meaning(tbl, open, text)
    decreases left, 3, 0
  {
    hide Expand, Scan, Neat, Complete, Levels, Meaning, Quiet;
    if left == 0 {
      NoLevels(tbl, open, text, 0);
      ExpandQuiet(tbl, open, text, 0);
      QuietMeaning(tbl, open, text);
    } else {
      ScanFits(tbl, open, text, left);
      ScannedIsExpanded(tbl, open, text, left);
      ScanMeaning(tbl, open, text, left);
    }
  }

  lemma {:induction false} QuietMeaning(tbl: map<string, Macro>, open: set<string>, text: seq<Token>)
    requires Quiet(tbl, text)
    ensures Meaning(tbl, open, text) == text
    decreases |text|
  {
    if text != [] {
      assert text[0] in text && forall t :: t in text[1..] ==> t in text;
      QuietMeaning(tbl, open, text[1..]);
      assert [text[0]] + text[1..] == text;
    }
  }

  lemma {:induction false} ScanMeaning(tbl: map<string, Macro>, open: set<string>, text: seq<Token>, left: nat)
    requires left > 0 && Neat(tbl) && Complete(tbl, [], text) && WithinLevels(tbl, open, text, left)
    ensures Scan(tbl, open, text, left).Done? && Scan(tbl, open, text, left).value.out == Meaning(tbl, open, text)
    decreases left, 2, |text|
  {
    hide Next, Neat, CallAt, Levels, Meaning;
    NoMeaning(tbl, open);
    if text != [] {
      NextComplete(tbl, open, text, left);
      NextFits(tbl, open, text, left);
      NextMeaning(tbl, open, text, left);
      ScanMeaning(tbl, open, Next(tbl, open, text, left).value.rest, left);
    }
  }

  lemma NoMeaning(tbl: map<string, Macro>, open: set<string>)
    ensures Meaning(tbl, open, []) == []
  {
  }

  lemma {:induction false} NextMeaning(tbl: map<string, Macro>, open: set<string>, text: seq<Token>, left: nat)
    requires left > 0 && Neat(tbl) && text != [] && Complete(tbl, [], text) && WithinLevels(tbl, open, text, left)
    requires Next(tbl, open, text, left).Done?
    ensures var s := Next(tbl, open, text, left).value; Meaning(tbl, open, text) == s.run.out + Meaning(tbl, open, s.rest)
    decreases left, 1, 0
  {
    hide Expand, Invoke, Stamp, NeatBody, Complete, Levels, FirstCall, Substitute, Pad;
    var t := text[0];
    if Live(tbl, t) && t.name !in open {
      var inside := open + {t.name};
      if tbl[t.name].isFunction {
        InvokeMeaning(tbl, open, text, left);
      } else {
        var body := tbl[t.name].body;
        FirstFits(tbl, open, text, left);
        assert Complete(tbl, [], body) by { hide *; NeatAt(tbl, t.name); }
        StampAlike(body, inside);
        CompleteAlike(tbl, [], Stamp(body, inside), body);
        StampLevels(tbl, inside, body, inside, 0);
        ExpandMeaning(tbl, inside, Stamp(body, inside), left - 1);
        var r := Expand(tbl, inside, Stamp(body, inside), left - 1).value;
        assert [] + r.out == r.out;
      }
    }
  }

  lemma {:induction false} InvokeMeaning(tbl: map<string, Macro>, open: set<string>, text: seq<Token>, left: nat)
    requires left > 0 && Neat(tbl) && text != [] && Complete(tbl, [], text) && WithinLevels(tbl, open, text, left)
    requires Live(tbl, text[0]) && tbl[text[0].name].isFunction && text[0].name !in open
    requires Invoke(tbl, open, text[0], text[1..], left).Done?
    ensures var s := Invoke(tbl, open, text[0], text[1..], left).value;
      Meaning(tbl, open, text) == s.run.out + Meaning(tbl, open, s.rest)
    decreases left, 0, 1
  {
    hide Expand, ExpandArgs, ParseArgs, Substitute, Pad, Complete, Nested, Levels, NeatBody;
    var t, m := text[0], tbl[text[0].name];
    var inside := open + {t.name};
    var u, c := CallParts(tbl, text);
    assert ([Open] + u)[1..] == u;
    CallFits(tbl, open, text, u, left);
    assert FirstCall(tbl, text) == Some(c);
    var args := Pad(c.args, |m.params|);
    PadComplete(tbl, c.args, |m.params|);
    PadFits(tbl, open, c.args, |m.params|, left - 1);
    ArgsComplete(tbl, open, args, left - 1);
    ArgsFit(tbl, open, args, left - 1);
    EachExpanded(tbl, open, args, left - 1);
    ValuesPadded(tbl, open, c.args, |m.params|, left - 1);
    var vals := seq(|c.args|, i requires 0 <= i < |c.args| => Meaning(tbl, open, c.args[i]));
    forall i | 0 <= i < |c.args| ensures vals[i] == Values(tbl, open, c.args, left - 1)[i] {
      assert c.args[i] in c.args;
      ExpandMeaning(tbl, open, c.args[i], left - 1);
    }
    assert vals == Values(tbl, open, c.args, left - 1);
    var a := ExpandArgs(tbl, open, args, left - 1).value;
    NeatAt(tbl, t.name);
    FirstFits(tbl, open, text, left);
    var body := Substitute(m.params, m.body, a.texts, inside);
    SubstituteComplete(tbl, m.params, m.body, a.texts, inside);
    SubstituteLevels(tbl, inside, m.params, m.body, a.texts, inside, 0);
    ExpandMeaning(tbl, inside, body, left - 1);
    var r := Expand(tbl, inside, body, left - 1).value;
    assert [] + r.out == r.out;
    CallMeans(tbl, open, text, c, vals);
  }

  lemma CallMeans(tbl: map<string, Macro>, open: set<string>, text: seq<Token>, c: Call, vals: seq<seq<Token>>)
    requires text != [] && Live(tbl, text[0]) && tbl[text[0].name].isFunction && text[0].name !in open
    requires FirstCall(tbl, text) == Some(c) && |vals| == |c.args| && forall i :: 0 <= i < |vals| ==> vals[i] == Meaning(tbl, open, c.args[i])
    ensures var m, inside := tbl[text[0].name], open + {text[0].name};
      Meaning(tbl, open, text)
      == Meaning(tbl, inside, Substitute(m.params, m.body, Pad(vals, |m.params|), inside)) + Meaning(tbl, open, c.rest)
  {
    hide FirstCall, Substitute, Pad;
    assert vals == seq(|c.args|, i requires 0 <= i < |c.args| => Meaning(tbl, open, c.args[i]));
  }
}
