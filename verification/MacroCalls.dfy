/** Calls of function-like macros: what is taken for an argument, and where it goes. */
module MacroCalls {
  import opened Options
  import opened MacroExpansion

  // Read at parenthesis depth d, the text ends at depth e, and has no comma and no closing
  // parenthesis that belongs to the call itself.
  predicate Nested(text: seq<Token>, d: nat, e: nat) {
    if text == [] then d == e
    else
      !(d == 1 && (text[0] == Comma || text[0] == Close)) && Nested(text[1..], Deeper(text[0], d), e)
  }

  function Deeper(t: Token, d: nat): nat {
    if t == Open then d + 1 else if t == Close && d > 0 then d - 1 else d
  }

  // An argument as it is passed on.
  predicate Argument(arg: seq<Token>) { Nested(arg, 1, 1) && Trim(arg) == arg }

  predicate Arguments(args: seq<seq<Token>>) {
    |args| <= MAX_ARGS + 1 && forall i :: 0 <= i < |args| ==> Argument(args[i])
  }

  lemma {:induction false} NestedConcat(a: seq<Token>, b: seq<Token>, d: nat, m: nat, e: nat)
    requires Nested(a, d, m)
    ensures Nested(a + b, d, e) <==> Nested(b, m, e)
  {
    if a == [] {
      assert a + b == b;
    } else {
      NestedConcat(a[1..], b, Deeper(a[0], d), m, e);
      assert (a + b)[1..] == a[1..] + b;
    }
  }

  lemma {:induction false} NestedPrefix(a: seq<Token>, b: seq<Token>, d: nat, e: nat) returns (m: nat)
    requires Nested(a + b, d, e)
    ensures Nested(a, d, m)
  {
    if a == [] {
      m := d;
    } else {
      assert (a + b)[1..] == a[1..] + b;
      m := NestedPrefix(a[1..], b, Deeper(a[0], d), e);
    }
  }

  lemma {:induction false} TrimArgument(arg: seq<Token>)
    requires Nested(arg, 1, 1)
    ensures Argument(Trim(arg))
    decreases |arg|
  {
    if arg != [] {
      if arg[0] == Space {
        TrimArgument(arg[1..]);
      } else if arg[|arg| - 1] == Space {
        var front := arg[..|arg| - 1];
        assert front + [Space] == arg;
        var m := NestedPrefix(front, [Space], 1, 1);
        NestedConcat(front, [Space], 1, m, 1);
        assert [Space][1..] == [];
        TrimArgument(front);
      }
    }
  }

  // White space is taken away at both ends, and nothing else.
  lemma {:induction false} TrimEnds(arg: seq<Token>) returns (before: seq<Token>, after: seq<Token>)
    ensures arg == before + Trim(arg) + after && forall t :: t in before || t in after ==> t == Space
    ensures Trim(arg) != [] ==> Trim(arg)[0] != Space && Trim(arg)[|Trim(arg)| - 1] != Space
    decreases |arg|
  {
    before, after := [], [];
    if arg != [] {
      if arg[0] == Space {
        before, after := TrimEnds(arg[1..]);
        assert arg == [Space] + arg[1..];
        before := [Space] + before;
      } else if arg[|arg| - 1] == Space {
        before, after := TrimEnds(arg[..|arg| - 1]);
        assert arg == arg[..|arg| - 1] + [Space];
        after := after + [Space];
      }
    }
  }

  // Whatever the call looks like, what it passes are arguments, at most 33 of them.
  lemma {:induction false} ParsedArguments(text: seq<Token>, depth: nat, arg: seq<Token>, args: seq<seq<Token>>)
    requires depth > 0 && Nested(arg, 1, depth) && |args| <= MAX_ARGS && Arguments(args)
    requires ParseArgs(text, depth, arg, args).Done?
    ensures Arguments(ParseArgs(text, depth, arg, args).value.args)
    decreases |text|
  {
    hide Trim, Argument;
    var t, rest := text[0], text[1..];
    if t == Close && depth == 1 {
      TrimArgument(arg);
    } else if t == Comma && depth == 1 {
      TrimArgument(arg);
      ParsedArguments(rest, 1, [], args + [Trim(arg)]);
    } else {
      var next := Deeper(t, depth);
      NestedConcat(arg, [t], 1, depth, next);
      assert [t][1..] == [];
      ParsedArguments(rest, next, arg + [t], args);
    }
  }

  // The tokens of an argument are gathered without leaving it, j parentheses deep.
  lemma {:induction false} Gathered(a: seq<Token>, d: nat, j: nat, rest: seq<Token>, arg: seq<Token>, args: seq<seq<Token>>)
    requires d > 0 && Nested(a, d, 1)
    ensures ParseArgs(a + rest, d + j, arg, args) == ParseArgs(rest, 1 + j, arg + a, args)
    decreases |a|
  {
    if a == [] {
      assert a + rest == rest && arg + a == arg;
    } else {
      assert (a + rest)[0] == a[0] && (a + rest)[1..] == a[1..] + rest && (arg + [a[0]]) + a[1..] == arg + a;
      Gathered(a[1..], Deeper(a[0], d), j, rest, arg + [a[0]], args);
    }
  }

  // Arguments written with commas between them are read back, unless the only one is empty.
  lemma {:induction false} ParseBack(args: seq<seq<Token>>, rest: seq<Token>, before: seq<seq<Token>>)
    requires args != [] && before + args != [[]] && Arguments(before + args)
    ensures ParseArgs(Commas(args) + [Close] + rest, 1, [], before) == Done(Call(before + args, rest))
    decreases |args|
  {
    hide Trim, Nested, ParseArgs;
    var a := args[0];
    assert (before + args)[|before|] == a;
    assert before + args == (before + [a]) + args[1..];
    if |args| == 1 {
      LastRead(a, rest, before);
      assert before + args == before + [a];
    } else {
      var text := Commas(args[1..]) + [Close] + rest;
      assert Commas(args) + [Close] + rest == a + [Comma] + text;
      OneRead(a, text, before);
      ParseBack(args[1..], rest, before + [a]);
    }
  }

  lemma OneRead(a: seq<Token>, text: seq<Token>, before: seq<seq<Token>>)
    requires Argument(a) && |before| < MAX_ARGS
    ensures ParseArgs(a + [Comma] + text, 1, [], before) == ParseArgs(text, 1, [], before + [a])
  {
    hide Trim, Nested;
    var rest := [Comma] + text;
    assert a + [Comma] + text == a + rest && rest[1..] == text && [] + a == a;
    Gathered(a, 1, 0, rest, [], before);
  }

  lemma LastRead(a: seq<Token>, rest: seq<Token>, before: seq<seq<Token>>)
    requires Argument(a) && !(a == [] && before == [])
    ensures ParseArgs(a + [Close] + rest, 1, [], before) == Done(Call(before + [a], rest))
  {
    hide Trim, Nested;
    var text := [Close] + rest;
    assert a + [Close] + rest == a + text && text[1..] == rest && [] + a == a;
    Gathered(a, 1, 0, text, [], before);
  }

  // A call that is copied because it has too many arguments is read again as it was, unless its one
  // argument was only white space: M( ) of a macro without parameters comes back as M(), which is
  // the call without arguments.
  lemma CopiedCall(text: seq<Token>, rest: seq<Token>)
    requires ParseArgs(text, 1, [], []).Done?
    ensures var args := ParseArgs(text, 1, [], []).value.args;
      ParseArgs(Commas(args) + [Close] + rest, 1, [], []) == Done(Call(if args == [[]] then [] else args, rest))
  {
    ParsedArguments(text, 1, [], []);
    var args := ParseArgs(text, 1, [], []).value.args;
    if args == [] || args == [[]] {
      assert Commas(args) + [Close] + rest == [Close] + rest;
      assert ([Close] + rest)[1..] == rest;
    } else {
      assert [] + args == args;
      ParseBack(args, rest, []);
    }
  }

  // How many commas separate the arguments of a call, if it is closed.
  function Separators(text: seq<Token>, depth: nat): Option<nat> {
    if text == [] || depth == 0 then None
    else if text[0] == Close && depth == 1 then Some(0)
    else if text[0] == Comma && depth == 1 then
      (match Separators(text[1..], 1)
       case Some(n) => Some(n + 1)
       case None => None)
    else Separators(text[1..], Deeper(text[0], depth))
  }

  // The number of arguments is decided by the commas; with more than 32 of them there is an error.
  lemma {:induction false} ArgumentCount(text: seq<Token>, depth: nat, arg: seq<Token>, args: seq<seq<Token>>)
    requires depth > 0 && |args| <= MAX_ARGS
    ensures var n, r := Separators(text, depth), ParseArgs(text, depth, arg, args);
      && (r.Done? <==> n.Some? && |args| + n.value <= MAX_ARGS)
      && (r.Done? && (n.value > 0 || args != [] || arg != []) ==> |r.value.args| == |args| + n.value + 1)
      && (r.Done? ==> |r.value.args| <= |args| + n.value + 1)
    decreases |text|
  {
    hide Trim;
    if text != [] {
      var t, rest := text[0], text[1..];
      if t == Close && depth == 1 {
      } else if t == Comma && depth == 1 {
        if |args| < MAX_ARGS {
          ArgumentCount(rest, 1, [], args + [Trim(arg)]);
        }
      } else {
        ArgumentCount(rest, Deeper(t, depth), arg + [t], args);
      }
    }
  }

  // The array of arguments has 32 places: one more argument is read than it has exactly if the call
  // has 32 commas.
  lemma OneMoreThanFits(text: seq<Token>)
    ensures var r := ParseArgs(text, 1, [], []);
      r.Done? && |r.value.args| > 32 <==> Separators(text, 1) == Some(32)
  {
    ArgumentCount(text, 1, [], []);
  }

  // ----- substitution -----

  lemma {:induction false} SubstituteConcat(params: seq<string>, a: seq<Token>, b: seq<Token>, args: seq<seq<Token>>, open: set<string>)
    requires |args| == |params|
    ensures Substitute(params, a + b, args, open) == Substitute(params, a, args, open) + Substitute(params, b, args, open)
  {
    if a == [] {
      assert a + b == b;
    } else {
      assert (a + b)[1..] == a[1..] + b && (a + b)[0] == a[0];
      SubstituteConcat(params, a[1..], b, args, open);
    }
  }

  // A parameter in a body stands for its own argument.
  lemma ParameterReplaced(params: seq<string>, a: seq<Token>, p: Token, i: nat, b: seq<Token>, args: seq<seq<Token>>, open: set<string>)
    requires |args| == |params| && Distinct(params) && i < |params| && p.Word? && p.name == params[i]
    ensures Plain(Substitute(params, a + [p] + b, args, open)) ==
      Plain(Substitute(params, a, args, open)) + Plain(args[i]) + Plain(Substitute(params, b, args, open))
  {
    hide Plain, Enter;
    SubstituteConcat(params, a + [p], b, args, open);
    SubstituteConcat(params, a, [p], args, open);
    assert ParamIndex(params, p.name) == i;
    assert [p][1..] == [];
    var sa, sb, e := Substitute(params, a, args, open), Substitute(params, b, args, open), Enter(args[i], open);
    assert Substitute(params, [p], args, open) == e + [] == e;
    PlainConcat(sa + e, sb);
    PlainConcat(sa, e);
    PlainEnter(args[i], open);
  }

  lemma {:induction false} PlainConcat(a: seq<Token>, b: seq<Token>)
    ensures Plain(a + b) == Plain(a) + Plain(b)
  {
    if a == [] {
      assert a + b == b;
    } else {
      assert (a + b)[1..] == a[1..] + b && (a + b)[0] == a[0];
      PlainConcat(a[1..], b);
    }
  }

  lemma {:induction false} PlainEnter(arg: seq<Token>, open: set<string>)
    ensures Plain(Enter(arg, open)) == Plain(arg)
  {
    if arg != [] {
      PlainEnter(arg[1..], open);
    }
  }

  // A body without parameters stands for itself.
  lemma {:induction false} NoParameter(params: seq<string>, body: seq<Token>, args: seq<seq<Token>>, open: set<string>)
    requires |args| == |params| && forall t :: t in body && t.Word? ==> t.name !in params
    ensures Plain(Substitute(params, body, args, open)) == Plain(body)
  {
    if body != [] {
      assert body[0] in body && forall t :: t in body[1..] ==> t in body;
      NoParameter(params, body[1..], args, open);
      var t := body[0];
      assert t.Word? ==> ParamIndex(params, t.name) == |params|;
      PlainConcat(Stamp([t], open), Substitute(params, body[1..], args, open));
      assert [t][1..] == [];
      assert body == [t] + body[1..];
    }
  }
}
