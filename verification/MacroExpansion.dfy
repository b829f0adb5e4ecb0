/** Macro expansion: the scan that substitutes macros, the flag that keeps a macro out of its own
    expansion, and the marks that keep it out when the result is scanned again. */
module MacroExpansion {

  // ----- texts and macros -----

  // A marked word has the byte 0x02 in front of it.  `from` is the set of macros that were being
  // expanded when the word was produced: the program does not store it, and no step looks at it.
  datatype Token = Word(name: string, marked: bool, from: set<string>) | Open | Close | Comma | Space | Other(text: string)

  datatype Macro = Macro(isFunction: bool, params: seq<string>, body: seq<Token>)

  // Fatal: the program has reported an error and exited.
  datatype Outcome<+T> = Fatal | Done(value: T) {
    predicate IsFailure() { Fatal? }

    function PropagateFailure<U>(): Outcome<U>
      requires Fatal?
    {
      Fatal
    }

    function Extract(): T
      requires Done?
    {
      value
    }
  }

  // The texts as the program compares them.
  function Plain(text: seq<Token>): (r: seq<Token>)
    ensures |r| == |text|
  {
    if text == [] then [] else [if text[0].Word? then text[0].(from := {}) else text[0]] + Plain(text[1..])
  }

  // An unmarked word that names a macro.
  predicate Live(tbl: map<string, Macro>, t: Token) { t.Word? && !t.marked && t.name in tbl }

  predicate HasLive(tbl: map<string, Macro>, text: seq<Token>) { exists t :: t in text && Live(tbl, t) }

  // ----- the expansion as a function -----

  // A substitution: the word that was replaced, and the macros then being expanded.
  datatype Event = Event(word: Token, open: set<string>)

  // cut: the depth cap was reached by a text with a live word in it.
  // loose: a call with too many arguments was copied as it stood.
  datatype Run = Run(out: seq<Token>, log: seq<Event>, cut: bool, loose: bool)

  datatype Step = Step(run: Run, rest: seq<Token>)

  datatype Args = Args(texts: seq<seq<Token>>, log: seq<Event>, cut: bool, loose: bool)

  datatype Call = Call(args: seq<seq<Token>>, rest: seq<Token>)

  const MAX_DEPTH: nat := 20
  const MAX_ARGS: nat := 32

  function Copy(text: seq<Token>): Run { Run(text, [], false, false) }

  function Then(a: Run, b: Run): Run { Run(a.out + b.out, a.log + b.log, a.cut || b.cut, a.loose || b.loose) }

  // The tokens of a body, produced while the macros in open are being expanded.
  function Stamp(body: seq<Token>, open: set<string>): (r: seq<Token>)
    ensures |r| == |body|
  {
    if body == [] then []
    else [if body[0].Word? then body[0].(from := open) else body[0]] + Stamp(body[1..], open)
  }

  // The tokens of an argument, carried into an expansion.
  function Enter(arg: seq<Token>, open: set<string>): (r: seq<Token>)
    ensures |r| == |arg|
  {
    if arg == [] then []
    else [if arg[0].Word? then arg[0].(from := arg[0].from + open) else arg[0]] + Enter(arg[1..], open)
  }

  function ParamIndex(params: seq<string>, name: string): (i: nat)
    ensures i <= |params|
    ensures i < |params| ==> params[i] == name
    ensures forall j :: 0 <= j < i ==> params[j] != name
  {
    if params == [] || params[0] == name then 0 else 1 + ParamIndex(params[1..], name)
  }

  function Substitute(params: seq<string>, body: seq<Token>, args: seq<seq<Token>>, open: set<string>): seq<Token>
    requires |args| == |params|
  {
    if body == [] then []
    else
      var i := if body[0].Word? then ParamIndex(params, body[0].name) else |params|;
      (if i < |params| then Enter(args[i], open) else Stamp([body[0]], open)) + Substitute(params, body[1..], args, open)
  }

  function SkipSpaces(text: seq<Token>): (r: seq<Token>)
    ensures |r| <= |text|
  {
    if text != [] && text[0] == Space then SkipSpaces(text[1..]) else text
  }

  function Trim(arg: seq<Token>): seq<Token>
    decreases |arg|
  {
    if arg == [] then []
    else if arg[0] == Space then Trim(arg[1..])
    else if arg[|arg| - 1] == Space then Trim(arg[..|arg| - 1])
    else arg
  }

  // The arguments of a call, from just after its opening parenthesis.
  function ParseArgs(text: seq<Token>, depth: nat, arg: seq<Token>, args: seq<seq<Token>>): (r: Outcome<Call>)
    requires depth > 0
    ensures r.Done? ==> |r.value.rest| < |text|
    decreases |text|
  {
    if text == [] then Fatal
    else
      var t, rest := text[0], text[1..];
      if t == Close && depth == 1 then
        if arg == [] && args == [] then Done(Call([], rest)) else Done(Call(args + [Trim(arg)], rest))
      else if t == Comma && depth == 1 then
        if |args| >= MAX_ARGS then Fatal else ParseArgs(rest, 1, [], args + [Trim(arg)])
      else
        ParseArgs(rest, if t == Open then depth + 1 else if t == Close then depth - 1 else depth, arg + [t], args)
  }

  function Pad(args: seq<seq<Token>>, n: nat): (r: seq<seq<Token>>)
    requires |args| <= n
    ensures |r| == n
    decreases n - |args|
  {
    if |args| == n then args else Pad(args + [[]], n)
  }

  // A call written back, with no white space around its arguments.
  function Rewritten(t: Token, args: seq<seq<Token>>): seq<Token> { [t, Open] + Commas(args) + [Close] }

  function Commas(args: seq<seq<Token>>): seq<Token> {
    if args == [] then [] else if |args| == 1 then args[0] else args[0] + [Comma] + Commas(args[1..])
  }

  // left: how many levels there are before the depth cap.
  function Expand(tbl: map<string, Macro>, open: set<string>, text: seq<Token>, left: nat): Outcome<Run>
    decreases left, 3, 0
  {
    if left == 0 then Done(Run(text, [], HasLive(tbl, text), false))
    else
      var s :- Scan(tbl, open, text, left);
      if Plain(s.out) == Plain(text) then Done(s)
      else
        var r :- Expand(tbl, open, s.out, left - 1);
        Done(Run(r.out, s.log + r.log, s.cut || r.cut, s.loose || r.loose))
  }

  function Scan(tbl: map<string, Macro>, open: set<string>, text: seq<Token>, left: nat): Outcome<Run>
    requires left > 0
    decreases left, 2, |text|
  {
    if text == [] then Done(Copy([]))
    else
      var s :- Next(tbl, open, text, left);
      var r :- Scan(tbl, open, s.rest, left);
      Done(Then(s.run, r))
  }

  // What is done with the first token of a text, and what is then left to scan.
  function Next(tbl: map<string, Macro>, open: set<string>, text: seq<Token>, left: nat): (s: Outcome<Step>)
    requires text != [] && left > 0
    ensures s.Done? ==> |s.value.rest| < |text|
    decreases left, 1, 0
  {
    var t, rest := text[0], text[1..];
    if !Live(tbl, t) then Done(Step(Copy([t]), rest))
    else if t.name in open then Done(Step(Copy([t.(marked := true)]), rest))
    else if tbl[t.name].isFunction then Invoke(tbl, open, t, rest, left)
    else
      var inside := open + {t.name};
      var r :- Expand(tbl, inside, Stamp(tbl[t.name].body, inside), left - 1);
      Done(Step(Then(Run([], [Event(t, open)], false, false), r), rest))
  }

  // A word that names a function-like macro, followed by rest.
  function Invoke(tbl: map<string, Macro>, open: set<string>, t: Token, rest: seq<Token>, left: nat): (s: Outcome<Step>)
    requires t.Word? && t.name in tbl && left > 0
    ensures s.Done? ==> |s.value.rest| <= |rest|
    decreases left, 0, 0
  {
    var m, inside := tbl[t.name], open + {t.name};
    var q := SkipSpaces(rest);
    if q == [] || q[0] != Open then Done(Step(Copy([t]), rest))
    else
      var call :- ParseArgs(q[1..], 1, [], []);
      if |call.args| > |m.params| then Done(Step(Run(Rewritten(t, call.args), [], false, true), call.rest))
      else
        var a :- ExpandArgs(tbl, open, Pad(call.args, |m.params|), left - 1);
        var r :- Expand(tbl, inside, Substitute(m.params, m.body, a.texts, inside), left - 1);
        Done(Step(Then(Run([], a.log + [Event(t, open)], a.cut, a.loose), r), call.rest))
  }

  function ExpandArgs(tbl: map<string, Macro>, open: set<string>, args: seq<seq<Token>>, left: nat): (a: Outcome<Args>)
    ensures a.Done? ==> |a.value.texts| == |args|
    decreases left, 4, |args|
  {
    if args == [] then Done(Args([], [], false, false))
    else
      var r :- Expand(tbl, open, args[0], left);
      var a :- ExpandArgs(tbl, open, args[1..], left);
      Done(Args([r.out] + a.texts, r.log + a.log, r.cut || a.cut, r.loose || a.loose))
  }

  // ----- no macro is substituted in its own expansion -----

  // A live word that came from an expansion of its own macro is one the flag still protects.
  predicate GuardedToken(tbl: map<string, Macro>, open: set<string>, t: Token) {
    Live(tbl, t) && t.name in t.from ==> t.name in open
  }

  predicate Guarded(tbl: map<string, Macro>, open: set<string>, text: seq<Token>) {
    forall t :: t in text ==> GuardedToken(tbl, open, t)
  }

  // A live word did not come from an expansion of its own macro, does not name a flagged one, and
  // could only be substituted together with arguments.
  predicate SettledToken(tbl: map<string, Macro>, open: set<string>, t: Token) {
    Live(tbl, t) ==> t.name !in t.from && t.name !in open && tbl[t.name].isFunction
  }

  predicate Settled(tbl: map<string, Macro>, open: set<string>, text: seq<Token>) {
    forall t :: t in text ==> SettledToken(tbl, open, t)
  }

  // The word substituted was not marked, its macro was not being expanded, and it did not come from
  // an expansion of it, however long ago that ended.
  predicate Lawful(e: Event) { e.word.Word? && !e.word.marked && e.word.name !in e.open && e.word.name !in e.word.from }

  predicate AllLawful(log: seq<Event>) { forall e :: e in log ==> Lawful(e) }

  lemma {:induction false} StampGuarded(tbl: map<string, Macro>, body: seq<Token>, open: set<string>)
    ensures Guarded(tbl, open, Stamp(body, open))
  {
    if body != [] {
      StampGuarded(tbl, body[1..], open);
    }
  }

  lemma {:induction false} EnterGuarded(tbl: map<string, Macro>, arg: seq<Token>, outer: set<string>, open: set<string>)
    requires Settled(tbl, outer, arg)
    ensures Guarded(tbl, open, Enter(arg, open))
  {
    if arg != [] {
      assert SettledToken(tbl, outer, arg[0]);
      assert Settled(tbl, outer, arg[1..]);
      EnterGuarded(tbl, arg[1..], outer, open);
    }
  }

  lemma {:induction false} SubstituteGuarded(tbl: map<string, Macro>, params: seq<string>, body: seq<Token>,
      args: seq<seq<Token>>, outer: set<string>, open: set<string>)
    requires |args| == |params|
    requires forall a :: a in args ==> Settled(tbl, outer, a)
    ensures Guarded(tbl, open, Substitute(params, body, args, open))
  {
    hide Settled, GuardedToken;
    if body != [] {
      var i := if body[0].Word? then ParamIndex(params, body[0].name) else |params|;
      if i < |params| {
        EnterGuarded(tbl, args[i], outer, open);
      } else {
        StampGuarded(tbl, [body[0]], open);
      }
      SubstituteGuarded(tbl, params, body[1..], args, outer, open);
    }
  }

  // Every token of a parsed argument is one of the text.
  predicate Drawn(args: seq<seq<Token>>, text: seq<Token>) { forall a :: a in args ==> forall t :: t in a ==> t in text }

  lemma {:induction false} TrimDrawn(arg: seq<Token>)
    ensures forall t :: t in Trim(arg) ==> t in arg
    decreases |arg|
  {
    if arg != [] {
      if arg[0] == Space {
        TrimDrawn(arg[1..]);
      } else if arg[|arg| - 1] == Space {
        TrimDrawn(arg[..|arg| - 1]);
      }
    }
  }

  lemma {:induction false} ParseDrawn(text: seq<Token>, depth: nat, arg: seq<Token>, args: seq<seq<Token>>, all: seq<Token>)
    requires depth > 0 && Drawn(args, all) && (forall t :: t in arg ==> t in all) && (forall t :: t in text ==> t in all)
    requires ParseArgs(text, depth, arg, args).Done?
    ensures Drawn(ParseArgs(text, depth, arg, args).value.args, all)
    ensures forall t :: t in ParseArgs(text, depth, arg, args).value.rest ==> t in all
    decreases |text|
  {
    var t, rest := text[0], text[1..];
    assert t in text && forall u :: u in rest ==> u in text;
    TrimDrawn(arg);
    if t == Close && depth == 1 {
    } else if t == Comma && depth == 1 {
      ParseDrawn(rest, 1, [], args + [Trim(arg)], all);
    } else {
      ParseDrawn(rest, if t == Open then depth + 1 else if t == Close then depth - 1 else depth, arg + [t], args, all);
    }
  }

  lemma {:induction false} SkipDrawn(text: seq<Token>)
    ensures forall t :: t in SkipSpaces(text) ==> t in text
  {
    if text != [] && text[0] == Space {
      SkipDrawn(text[1..]);
    }
  }

  lemma {:induction false} PadDrawn(args: seq<seq<Token>>, n: nat, text: seq<Token>)
    requires |args| <= n && Drawn(args, text)
    ensures Drawn(Pad(args, n), text)
    decreases n - |args|
  {
    if |args| < n {
      PadDrawn(args + [[]], n, text);
    }
  }

  lemma {:induction false} ExpandLawful(tbl: map<string, Macro>, open: set<string>, text: seq<Token>, left: nat)
    requires Guarded(tbl, open, text)
    ensures var o := Expand(tbl, open, text, left);
      o.Done? && !o.value.cut && !o.value.loose ==> Settled(tbl, open, o.value.out) && AllLawful(o.value.log)
    decreases left, 3, 0
  {
    hide Scan, GuardedToken, Lawful;
    if left > 0 && Scan(tbl, open, text, left).Done? {
      var s := Scan(tbl, open, text, left).value;
      ScanLawful(tbl, open, text, left);
      if Plain(s.out) != Plain(text) && !s.cut && !s.loose {
        SettledGuarded(tbl, open, s.out);
        ExpandLawful(tbl, open, s.out, left - 1);
      }
    }
  }

  lemma SettledGuarded(tbl: map<string, Macro>, open: set<string>, text: seq<Token>)
    requires Settled(tbl, open, text)
    ensures Guarded(tbl, open, text)
  {
    forall t | t in text ensures GuardedToken(tbl, open, t) {
      assert SettledToken(tbl, open, t);
    }
  }

  lemma {:induction false} ScanLawful(tbl: map<string, Macro>, open: set<string>, text: seq<Token>, left: nat)
    requires left > 0 && Guarded(tbl, open, text)
    ensures var o := Scan(tbl, open, text, left);
      o.Done? && !o.value.cut && !o.value.loose ==> Settled(tbl, open, o.value.out) && AllLawful(o.value.log)
    decreases left, 2, |text|
  {
    hide Next, GuardedToken, SettledToken, Lawful;
    if text != [] && Next(tbl, open, text, left).Done? {
      var s := Next(tbl, open, text, left).value;
      NextLawful(tbl, open, text, left);
      ScanLawful(tbl, open, s.rest, left);
    }
  }

  lemma {:induction false} NextLawful(tbl: map<string, Macro>, open: set<string>, text: seq<Token>, left: nat)
    requires text != [] && left > 0 && Guarded(tbl, open, text) && Next(tbl, open, text, left).Done?
    ensures var s := Next(tbl, open, text, left).value;
      Guarded(tbl, open, s.rest) &&
      (!s.run.cut && !s.run.loose ==> Settled(tbl, open, s.run.out) && AllLawful(s.run.log))
    decreases left, 1, 0
  {
    hide Expand, Invoke, Stamp;
    var t, rest := text[0], text[1..];
    assert t in text && forall u :: u in rest ==> u in text;
    assert GuardedToken(tbl, open, t);
    if Live(tbl, t) && t.name !in open {
      if tbl[t.name].isFunction {
        InvokeLawful(tbl, open, t, rest, left);
      } else {
        var inside := open + {t.name};
        var body := Stamp(tbl[t.name].body, inside);
        StampGuarded(tbl, tbl[t.name].body, inside);
        ExpandLawful(tbl, inside, body, left - 1);
        var r := Expand(tbl, inside, body, left - 1).value;
        if !r.cut && !r.loose {
          Outside(tbl, open, inside, r.out);
        }
      }
    }
  }

  lemma Outside(tbl: map<string, Macro>, open: set<string>, inside: set<string>, text: seq<Token>)
    requires open <= inside && Settled(tbl, inside, text)
    ensures Settled(tbl, open, text)
  {
    forall t | t in text ensures SettledToken(tbl, open, t) {
      assert SettledToken(tbl, inside, t);
    }
  }

  lemma {:induction false} InvokeLawful(tbl: map<string, Macro>, open: set<string>, t: Token, rest: seq<Token>, left: nat)
    requires Live(tbl, t) && t.name !in open && t.name !in t.from && tbl[t.name].isFunction && left > 0
    requires Guarded(tbl, open, rest) && Invoke(tbl, open, t, rest, left).Done?
    ensures var s := Invoke(tbl, open, t, rest, left).value;
      Guarded(tbl, open, s.rest) &&
      (!s.run.cut && !s.run.loose ==> Settled(tbl, open, s.run.out) && AllLawful(s.run.log))
    decreases left, 0, 0
  {
    hide Expand, ExpandArgs, ParseArgs, Substitute, Pad, GuardedToken, Rewritten;
    var m, inside := tbl[t.name], open + {t.name};
    var q := SkipSpaces(rest);
    SkipDrawn(rest);
    if q != [] && q[0] == Open {
      assert forall u :: u in q[1..] ==> u in q;
      var call := ParseArgs(q[1..], 1, [], []).value;
      ParseDrawn(q[1..], 1, [], [], rest);
      if |call.args| <= |m.params| {
        var args := Pad(call.args, |m.params|);
        PadDrawn(call.args, |m.params|, rest);
        forall a | a in args ensures Guarded(tbl, open, a) {
        }
        ArgsLawful(tbl, open, args, left - 1);
        var a := ExpandArgs(tbl, open, args, left - 1).value;
        if !a.cut && !a.loose {
          var body := Substitute(m.params, m.body, a.texts, inside);
          SubstituteGuarded(tbl, m.params, m.body, a.texts, open, inside);
          ExpandLawful(tbl, inside, body, left - 1);
          var r := Expand(tbl, inside, body, left - 1).value;
          if !r.cut && !r.loose {
            Outside(tbl, open, inside, r.out);
          }
        }
      }
    }
  }

  lemma {:induction false} ArgsLawful(tbl: map<string, Macro>, open: set<string>, args: seq<seq<Token>>, left: nat)
    requires forall a :: a in args ==> Guarded(tbl, open, a)
    ensures var o := ExpandArgs(tbl, open, args, left);
      o.Done? && !o.value.cut && !o.value.loose ==>
        (forall a :: a in o.value.texts ==> Settled(tbl, open, a)) && AllLawful(o.value.log)
    decreases left, 4, |args|
  {
    hide Expand, Guarded, Settled, Lawful;
    if args != [] && Expand(tbl, open, args[0], left).Done? {
      assert args[0] in args && forall a :: a in args[1..] ==> a in args;
      ExpandLawful(tbl, open, args[0], left);
      ArgsLawful(tbl, open, args[1..], left);
    }
  }

  // ----- in every run -----

  // The word substituted was not marked, and its macro was not being expanded.
  predicate Flagged(e: Event) { e.word.Word? && !e.word.marked && e.word.name !in e.open }

  predicate AllFlagged(log: seq<Event>) { forall e :: e in log ==> Flagged(e) }

  // Whatever the table and the text, also where the cap is reached or a call is copied, no marked
  // word is substituted, and no macro while it is being expanded.
  lemma {:induction false} ExpandFlagged(tbl: map<string, Macro>, open: set<string>, text: seq<Token>, left: nat)
    ensures var o := Expand(tbl, open, text, left); o.Done? ==> AllFlagged(o.value.log)
    decreases left, 3, 0
  {
    hide Scan, Flagged, Plain, HasLive;
    if left > 0 && Scan(tbl, open, text, left).Done? {
      ScanFlagged(tbl, open, text, left);
      ExpandFlagged(tbl, open, Scan(tbl, open, text, left).value.out, left - 1);
    }
  }

  lemma {:induction false} ScanFlagged(tbl: map<string, Macro>, open: set<string>, text: seq<Token>, left: nat)
    requires left > 0
    ensures var o := Scan(tbl, open, text, left); o.Done? ==> AllFlagged(o.value.log)
    decreases left, 2, |text|
  {
    hide Next, Flagged;
    if text != [] && Next(tbl, open, text, left).Done? {
      NextFlagged(tbl, open, text, left);
      ScanFlagged(tbl, open, Next(tbl, open, text, left).value.rest, left);
    }
  }

  lemma {:induction false} NextFlagged(tbl: map<string, Macro>, open: set<string>, text: seq<Token>, left: nat)
    requires text != [] && left > 0
    ensures var o := Next(tbl, open, text, left); o.Done? ==> AllFlagged(o.value.run.log)
    decreases left, 1, 0
  {
    hide Expand, ExpandArgs, ParseArgs, Substitute, Stamp, Pad;
    var t := text[0];
    if Live(tbl, t) && t.name !in open {
      var m, inside := tbl[t.name], open + {t.name};
      if m.isFunction {
        var q := SkipSpaces(text[1..]);
        if q != [] && q[0] == Open && ParseArgs(q[1..], 1, [], []).Done? {
          var call := ParseArgs(q[1..], 1, [], []).value;
          if |call.args| <= |m.params| {
            var args := Pad(call.args, |m.params|);
            ArgsFlagged(tbl, open, args, left - 1);
            if ExpandArgs(tbl, open, args, left - 1).Done? {
              var a := ExpandArgs(tbl, open, args, left - 1).value;
              ExpandFlagged(tbl, inside, Substitute(m.params, m.body, a.texts, inside), left - 1);
            }
          }
        }
      } else {
        ExpandFlagged(tbl, inside, Stamp(m.body, inside), left - 1);
      }
    }
  }

  lemma {:induction false} ArgsFlagged(tbl: map<string, Macro>, open: set<string>, args: seq<seq<Token>>, left: nat)
    ensures var o := ExpandArgs(tbl, open, args, left); o.Done? ==> AllFlagged(o.value.log)
    decreases left, 4, |args|
  {
    hide Expand, Flagged;
    if args != [] {
      ExpandFlagged(tbl, open, args[0], left);
      ArgsFlagged(tbl, open, args[1..], left);
    }
  }
}
