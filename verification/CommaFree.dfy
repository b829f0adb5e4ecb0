/** Tables and lines without commas: no call can have too many arguments, whether or not every
    function-like macro that is named is also called. */
module CommaFree {
  import opened MacroExpansion

  predicate NoComma(text: seq<Token>) { Comma !in text }

  predicate NoCommas(tbl: map<string, Macro>) {
    forall n :: n in tbl ==> NoComma(tbl[n].body) && (tbl[n].isFunction ==> tbl[n].params != [])
  }

  lemma {:induction false} ParsedOne(text: seq<Token>, d: nat, arg: seq<Token>)
    requires d > 0 && NoComma(text) && ParseArgs(text, d, arg, []).Done?
    ensures |ParseArgs(text, d, arg, []).value.args| <= 1
    decreases |text|
  {
    var t, rest := text[0], text[1..];
    assert t in text && forall u :: u in rest ==> u in text;
    if !(t == Close && d == 1) {
      ParsedOne(rest, if t == Open then d + 1 else if t == Close then d - 1 else d, arg + [t]);
    }
  }

  lemma {:induction false} StampNoComma(body: seq<Token>, open: set<string>)
    requires NoComma(body)
    ensures NoComma(Stamp(body, open))
  {
    if body != [] {
      assert body[0] in body && forall t :: t in body[1..] ==> t in body;
      StampNoComma(body[1..], open);
    }
  }

  lemma {:induction false} EnterNoComma(arg: seq<Token>, open: set<string>)
    requires NoComma(arg)
    ensures NoComma(Enter(arg, open))
  {
    if arg != [] {
      assert arg[0] in arg && forall t :: t in arg[1..] ==> t in arg;
      EnterNoComma(arg[1..], open);
    }
  }

  lemma {:induction false} SubstituteNoComma(params: seq<string>, body: seq<Token>, args: seq<seq<Token>>, open: set<string>)
    requires |args| == |params| && NoComma(body) && forall a :: a in args ==> NoComma(a)
    ensures NoComma(Substitute(params, body, args, open))
  {
    hide Enter, Stamp;
    if body != [] {
      assert body[0] in body && forall t :: t in body[1..] ==> t in body;
      var i := if body[0].Word? then ParamIndex(params, body[0].name) else |params|;
      if i < |params| {
        EnterNoComma(args[i], open);
      } else {
        StampNoComma([body[0]], open);
      }
      SubstituteNoComma(params, body[1..], args, open);
    }
  }

  lemma {:induction false} ExpandNeverCopies(tbl: map<string, Macro>, open: set<string>, text: seq<Token>, left: nat)
    requires NoCommas(tbl) && NoComma(text)
    ensures var o := Expand(tbl, open, text, left); o.Done? ==> !o.value.loose && NoComma(o.value.out)
    decreases left, 3, 0
  {
    hide Scan, NoCommas, NoComma, Plain;
    if left > 0 && Scan(tbl, open, text, left).Done? {
      ScanNeverCopies(tbl, open, text, left);
      ExpandNeverCopies(tbl, open, Scan(tbl, open, text, left).value.out, left - 1);
    }
  }

  lemma {:induction false} ScanNeverCopies(tbl: map<string, Macro>, open: set<string>, text: seq<Token>, left: nat)
    requires left > 0 && NoCommas(tbl) && NoComma(text)
    ensures var o := Scan(tbl, open, text, left); o.Done? ==> !o.value.loose && NoComma(o.value.out)
    decreases left, 2, |text|
  {
    hide Next, NoCommas;
    if text != [] && Next(tbl, open, text, left).Done? {
      NextNeverCopies(tbl, open, text, left);
      ScanNeverCopies(tbl, open, Next(tbl, open, text, left).value.rest, left);
    }
  }

  lemma {:induction false} NextNeverCopies(tbl: map<string, Macro>, open: set<string>, text: seq<Token>, left: nat)
    requires left > 0 && text != [] && NoCommas(tbl) && NoComma(text) && Next(tbl, open, text, left).Done?
    ensures var s := Next(tbl, open, text, left).value; !s.run.loose && NoComma(s.run.out) && NoComma(s.rest)
    decreases left, 1, 0
  {
    hide Expand, Invoke, Stamp;
    var t := text[0];
    assert t in text && forall u :: u in text[1..] ==> u in text;
    if Live(tbl, t) && t.name !in open {
      if tbl[t.name].isFunction {
        InvokeNeverCopies(tbl, open, t, text[1..], left);
      } else {
        var inside := open + {t.name};
        StampNoComma(tbl[t.name].body, inside);
        ExpandNeverCopies(tbl, inside, Stamp(tbl[t.name].body, inside), left - 1);
      }
    }
  }

  lemma {:induction false} InvokeNeverCopies(tbl: map<string, Macro>, open: set<string>, t: Token, rest: seq<Token>, left: nat)
    requires left > 0 && t.Word? && t.name in tbl && tbl[t.name].isFunction && NoCommas(tbl) && NoComma(rest)
    requires Invoke(tbl, open, t, rest, left).Done?
    ensures var s := Invoke(tbl, open, t, rest, left).value; !s.run.loose && NoComma(s.run.out) && NoComma(s.rest)
    decreases left, 0, 0
  {
    hide Expand, ExpandArgs, ParseArgs, Substitute, Pad;
    var m, inside := tbl[t.name], open + {t.name};
    var q := SkipSpaces(rest);
    SkipDrawn(rest);
    if q != [] && q[0] == Open {
      assert forall u :: u in q[1..] ==> u in q;
      var call := ParseArgs(q[1..], 1, [], []).value;
      ParseDrawn(q[1..], 1, [], [], rest);
      ParsedOne(q[1..], 1, []);
      var args := Pad(call.args, |m.params|);
      PadDrawn(call.args, |m.params|, rest);
      ArgsNeverCopy(tbl, open, args, left - 1);
      var a := ExpandArgs(tbl, open, args, left - 1).value;
      SubstituteNoComma(m.params, m.body, a.texts, inside);
      ExpandNeverCopies(tbl, inside, Substitute(m.params, m.body, a.texts, inside), left - 1);
    }
  }

  lemma {:induction false} ArgsNeverCopy(tbl: map<string, Macro>, open: set<string>, args: seq<seq<Token>>, left: nat)
    requires NoCommas(tbl) && forall a :: a in args ==> NoComma(a)
    ensures var o := ExpandArgs(tbl, open, args, left);
      o.Done? ==> !o.value.loose && forall a :: a in o.value.texts ==> NoComma(a)
    decreases left, 4, |args|
  {
    hide Expand, NoCommas, NoComma;
    if args != [] && Expand(tbl, open, args[0], left).Done? {
      assert args[0] in args && forall a :: a in args[1..] ==> a in args;
      ExpandNeverCopies(tbl, open, args[0], left);
      ArgsNeverCopy(tbl, open, args[1..], left);
    }
  }

  // Without commas, only the depth cap can make an expansion unlawful.
  lemma CommaFreeLawful(tbl: map<string, Macro>, open: set<string>, text: seq<Token>, left: nat)
    requires NoCommas(tbl) && NoComma(text) && Guarded(tbl, open, text)
    ensures var o := Expand(tbl, open, text, left);
      o.Done? && !o.value.cut ==> !o.value.loose && Settled(tbl, open, o.value.out) && AllLawful(o.value.log)
  {
    hide Expand, NoCommas, NoComma, Guarded, Settled, AllLawful;
    ExpandNeverCopies(tbl, open, text, left);
    ExpandLawful(tbl, open, text, left);
  }
}
