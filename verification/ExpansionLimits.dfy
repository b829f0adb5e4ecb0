/** Where a macro is substituted in its own expansion after all: a chain of macros that reaches the
    depth cap, and a call with too many arguments. */
module ExpansionLimits {
  import opened MacroExpansion
  import opened ObjectMacros

  // The word of e came from an expansion of its own macro.
  predicate Unlawful(log: seq<Event>) {
    exists e :: e in log && e.word.Word? && e.word.name in e.word.from
  }

  lemma UnlawfulConcat(a: seq<Event>, b: seq<Event>)
    requires Unlawful(a) || Unlawful(b)
    ensures Unlawful(a + b)
  {
    var e :| (e in a || e in b) && e.word.Word? && e.word.name in e.word.from;
    assert e in a + b;
  }

  lemma IsUnlawful(log: seq<Event>, e: Event)
    requires e in log && e.word.Word? && e.word.name in e.word.from
    ensures Unlawful(log)
  {
  }

  // ----- the cap -----

  // Each macro of the chain stands for the next; the last stands for itself and a plus sign.
  predicate Chain(tbl: map<string, Macro>, names: seq<string>) {
    && |names| > 0
    && (forall i, j :: 0 <= i < j < |names| ==> names[i] != names[j])
    && (forall i :: 0 <= i < |names| ==> names[i] in tbl && tbl[names[i]] == Link(names, i))
  }

  function Link(names: seq<string>, i: nat): Macro
    requires i < |names|
  {
    var next := if i + 1 < |names| then [Word(names[i + 1], false, {})] else [Word(names[i], false, {}), Other("+")];
    Macro(false, [], next)
  }

  // The first token of a text is substituted, and what that logs is in the log of the whole.
  lemma FirstWord(tbl: map<string, Macro>, open: set<string>, text: seq<Token>, left: nat)
    requires ObjectLike(tbl) && left > 0 && text != [] && Live(tbl, text[0]) && text[0].name !in open
    ensures var inside := open + {text[0].name};
      var inner := Expand(tbl, inside, Stamp(tbl[text[0].name].body, inside), left - 1);
      inner.Done? && Expand(tbl, open, text, left).Done? &&
      var log := Expand(tbl, open, text, left).value.log;
      Event(text[0], open) in log && (Unlawful(inner.value.log) ==> Unlawful(log))
  {
    hide Scan, Stamp, Plain, Unlawful;
    var t, inside := text[0], open + {text[0].name};
    var body := Stamp(tbl[t.name].body, inside);
    NeverFails(tbl, inside, body, left - 1);
    NeverFails(tbl, open, text, left);
    ScanNeverFails(tbl, open, text, left);
    ScanNeverFails(tbl, open, text[1..], left);
    var inner, rest := Expand(tbl, inside, body, left - 1).value, Scan(tbl, open, text[1..], left).value;
    var s := Scan(tbl, open, text, left).value;
    assert s.log == [Event(t, open)] + inner.log + rest.log by {
      ScanFirst(tbl, open, text, left);
    }
    var later := Expand(tbl, open, text, left).value.log[|s.log|..];
    if Unlawful(inner.log) {
      UnlawfulConcat([Event(t, open)], inner.log);
      UnlawfulConcat([Event(t, open)] + inner.log, rest.log);
      UnlawfulConcat(s.log, later);
    }
    assert Event(t, open) in s.log;
    assert Expand(tbl, open, text, left).value.log == s.log + later;
  }

  lemma ScanFirst(tbl: map<string, Macro>, open: set<string>, text: seq<Token>, left: nat)
    requires ObjectLike(tbl) && left > 0 && text != [] && Live(tbl, text[0]) && text[0].name !in open
    requires Scan(tbl, open, text, left).Done?
    ensures var inside := open + {text[0].name};
      var inner := Expand(tbl, inside, Stamp(tbl[text[0].name].body, inside), left - 1);
      var rest := Scan(tbl, open, text[1..], left);
      inner.Done? && rest.Done? &&
      Scan(tbl, open, text, left).value.log == [Event(text[0], open)] + inner.value.log + rest.value.log
  {
    hide Expand, Stamp;
  }

  // From the place in the chain where two levels are left.
  lemma LastLink(tbl: map<string, Macro>, open: set<string>, n: string, m: string)
    requires ObjectLike(tbl) && n != m && n !in open && m !in open && n in tbl && m in tbl
    requires tbl[n].body == [Word(m, false, {})] && tbl[m].body == [Word(m, false, {}), Other("+")]
    ensures Expand(tbl, open, [Word(n, false, open)], 2).Done?
    ensures Unlawful(Expand(tbl, open, [Word(n, false, open)], 2).value.log)
  {
    hide Scan, Unlawful;
    var text, inside := [Word(n, false, open)], open + {n};
    var text1 := Stamp(tbl[n].body, inside);
    assert text1 == [Word(m, false, inside)];
    var s1 := DeepWord(tbl, inside, m);
    NeverFails(tbl, open, text, 2);
    ScanNeverFails(tbl, open, text, 2);
    var s := Scan(tbl, open, text, 2).value;
    assert s.out == s1 by {
      ScanOne(tbl, open, text[0], 2);
    }
    assert Plain(s.out) != Plain(text);
    assert Live(tbl, s1[0]) && m in s1[0].from;
    FirstWord(tbl, open, s1, 1);
    var r := Expand(tbl, open, s1, 1).value;
    IsUnlawful(r.log, Event(s1[0], open));
    UnlawfulConcat(s.log, r.log);
  }

  // The last macro, scanned with one level left: its body comes back as it is.
  lemma DeepWord(tbl: map<string, Macro>, open: set<string>, m: string) returns (out: seq<Token>)
    requires ObjectLike(tbl) && m in tbl && m !in open && tbl[m].body == [Word(m, false, {}), Other("+")]
    ensures out == [Word(m, false, open + {m}), Other("+")]
    ensures Expand(tbl, open, [Word(m, false, open)], 1).Done? && Expand(tbl, open, [Word(m, false, open)], 1).value.out == out
  {
    hide Scan;
    var inside := open + {m};
    out := Stamp(tbl[m].body, inside);
    assert tbl[m].body[1..] == [Other("+")] && [Other("+")][1..] == [];
    ScanOne(tbl, open, Word(m, false, open), 1);
  }

  lemma ScanOne(tbl: map<string, Macro>, open: set<string>, t: Token, left: nat)
    requires ObjectLike(tbl) && left > 0 && Live(tbl, t) && t.name !in open
    ensures var inside := open + {t.name};
      var inner := Expand(tbl, inside, Stamp(tbl[t.name].body, inside), left - 1);
      inner.Done? && Scan(tbl, open, [t], left).Done? && Scan(tbl, open, [t], left).value.out == inner.value.out
  {
    hide Expand, Stamp;
    var inside := open + {t.name};
    NeverFails(tbl, inside, Stamp(tbl[t.name].body, inside), left - 1);
    assert [t][1..] == [];
    assert Scan(tbl, open, [], left) == Done(Copy([]));
  }

  // With one macro more than FewMacros allows, the last is substituted in its own expansion.
  lemma {:induction false} ChainBreaks(tbl: map<string, Macro>, names: seq<string>, i: nat, open: set<string>)
    requires ObjectLike(tbl) && Chain(tbl, names) && |names| == MAX_DEPTH + 1
    requires i < MAX_DEPTH && (forall j :: i <= j < |names| ==> names[j] !in open)
    ensures Expand(tbl, open, [Word(names[i], false, open)], MAX_DEPTH + 1 - i).Done?
    ensures Unlawful(Expand(tbl, open, [Word(names[i], false, open)], MAX_DEPTH + 1 - i).value.log)
    decreases MAX_DEPTH - i
  {
    hide Expand, Unlawful;
    assert tbl[names[i]] == Link(names, i) && tbl[names[i + 1]] == Link(names, i + 1);
    if i == MAX_DEPTH - 1 {
      LastLink(tbl, open, names[i], names[i + 1]);
    } else {
      var inside := open + {names[i]};
      assert Stamp(tbl[names[i]].body, inside) == [Word(names[i + 1], false, inside)];
      ChainBreaks(tbl, names, i + 1, inside);
      FirstWord(tbl, open, [Word(names[i], false, open)], MAX_DEPTH + 1 - i);
    }
  }

  // ----- how many object-like macros are safe -----

  // "", "a", "aa", and so on.
  function Nth(k: nat): string { seq(k, _ => 'a') }

  function NthMacro(k: nat): Macro {
    if k > MAX_DEPTH then Macro(false, [], []) else Link(Names(MAX_DEPTH + 1), k)
  }

  function Names(n: nat): (names: seq<string>)
    ensures |names| == n && forall i :: 0 <= i < n ==> names[i] == Nth(i)
  {
    seq(n, i requires 0 <= i < n => Nth(i))
  }

  // A chain of up to 21 macros, and empty ones beyond.
  function ChainTable(n: nat): (tbl: map<string, Macro>)
    ensures forall k :: 0 <= k < n ==> Nth(k) in tbl && tbl[Nth(k)] == NthMacro(k)
    ensures forall x :: x in tbl ==> |x| < n && x == Nth(|x|)
    ensures |tbl| == n
  {
    if n == 0 then map[]
    else
      assert |Nth(n - 1)| == n - 1;
      assert forall k :: 0 <= k < n - 1 ==> |Nth(k)| == k;
      ChainTable(n - 1)[Nth(n - 1) := NthMacro(n - 1)]
  }

  lemma ChainTableOk(n: nat)
    requires n > MAX_DEPTH
    ensures ObjectLike(ChainTable(n)) && Chain(ChainTable(n), Names(MAX_DEPTH + 1))
  {
    var tbl, names := ChainTable(n), Names(MAX_DEPTH + 1);
    forall x | x in tbl ensures !tbl[x].isFunction {
      assert tbl[Nth(|x|)] == NthMacro(|x|);
    }
    forall i, j | 0 <= i < j < |names| ensures names[i] != names[j] {
      assert |Nth(i)| == i && |Nth(j)| == j;
    }
    forall i | 0 <= i < |names| ensures names[i] in tbl && tbl[names[i]] == Link(names, i) {
      assert tbl[Nth(i)] == NthMacro(i);
    }
  }

  // Every line over every table of n object-like macros is expanded lawfully.
  ghost predicate AlwaysLawful(n: nat) {
    forall tbl: map<string, Macro>, text: seq<Token> ::
      ObjectLike(tbl) && |tbl| == n && Written(text) ==> LawfulRun(tbl, text)
  }

  predicate LawfulRun(tbl: map<string, Macro>, text: seq<Token>) {
    var o := Expand(tbl, {}, text, MAX_DEPTH + 1);
    o.Done? && AllLawful(o.value.log)
  }

  // That is so exactly for up to 20 macros.
  lemma AlwaysLawfulIff(n: nat)
    ensures AlwaysLawful(n) <==> n <= 20
  {
    hide LawfulRun, ObjectLike, Written;
    if n <= MAX_DEPTH {
      forall tbl: map<string, Macro>, text: seq<Token> | ObjectLike(tbl) && |tbl| == n && Written(text)
        ensures LawfulRun(tbl, text)
      {
        FewLawful(tbl, text);
      }
    } else {
      ManyUnlawful(n);
    }
  }

  lemma ManyUnlawful(n: nat)
    requires n > MAX_DEPTH
    ensures var tbl, text := ChainTable(n), [Word(Nth(0), false, {})];
      ObjectLike(tbl) && |tbl| == n && Written(text) && !LawfulRun(tbl, text)
  {
    hide Expand, ObjectLike, Chain, AllLawful, Unlawful, ChainTable;
    var tbl, text := ChainTable(n), [Word(Nth(0), false, {})];
    ChainTableOk(n);
    assert Names(MAX_DEPTH + 1)[0] == Nth(0);
    ChainBreaks(tbl, Names(MAX_DEPTH + 1), 0, {});
    NotLawful(Expand(tbl, {}, text, MAX_DEPTH + 1).value.log);
  }

  lemma FewLawful(tbl: map<string, Macro>, text: seq<Token>)
    requires ObjectLike(tbl) && |tbl| <= MAX_DEPTH && Written(text)
    ensures LawfulRun(tbl, text)
  {
    hide Expand;
    assert Guarded(tbl, {}, text);
    FewMacros(tbl, text);
    NeverFails(tbl, {}, text, MAX_DEPTH + 1);
    ExpandLawful(tbl, {}, text, MAX_DEPTH + 1);
  }

  lemma NotLawful(log: seq<Event>)
    requires Unlawful(log)
    ensures !AllLawful(log)
  {
    var e :| e in log && e.word.Word? && e.word.name in e.word.from;
    assert !Lawful(e);
  }

  // ----- too many arguments -----

  // #define f g(f,)
  // #define g(x) x
  function Pair(): map<string, Macro> {
    map["f" := Macro(false, [], Copied({})), "g" := Macro(true, ["x"], [Word("x", false, {})])]
  }

  function F(from: set<string>): Token { Word("f", false, from) }

  function G(from: set<string>): Token { Word("g", false, from) }

  // g(f,)
  function Copied(from: set<string>): seq<Token> { [G(from), Open, F(from), Comma, Close] }

  lemma Tails(a: Token, b: Token, c: Token, d: Token, e: Token)
    ensures [a, b, c, d, e][1..] == [b, c, d, e] && [b, c, d, e][1..] == [c, d, e]
    ensures [c, d, e][1..] == [d, e] && [d, e][1..] == [e] && [e][1..] == []
  {
  }

  lemma Stamped(from: set<string>, open: set<string>)
    ensures Stamp(Copied(from), open) == Copied(open)
    ensures Enter(Copied(from), open) == Copied(from + open)
  {
    var text := Copied(from);
    Tails(G(from), Open, F(from), Comma, Close);
    assert Stamp([Close], open) == [Close] && Enter([Close], open) == [Close];
    assert Stamp([Comma, Close], open) == [Comma, Close] && Enter([Comma, Close], open) == [Comma, Close];
    assert Stamp([F(from), Comma, Close], open) == [F(open), Comma, Close];
    assert Enter([F(from), Comma, Close], open) == [F(from + open), Comma, Close];
    assert Stamp([Open, F(from), Comma, Close], open) == [Open, F(open), Comma, Close];
    assert Enter([Open, F(from), Comma, Close], open) == [Open, F(from + open), Comma, Close];
  }

  lemma Parsed(from: set<string>)
    ensures ParseArgs([F(from), Comma, Close], 1, [], []) == Done(Call([[F(from)], []], []))
  {
    var f := F(from);
    assert [f, Comma, Close][1..] == [Comma, Close] && [Comma, Close][1..] == [Close] && [Close][1..] == [];
    assert Trim([f]) == [f] && [] + [f] == [f] && [] + [[f]] == [[f]] && [[f]] + [[]] == [[f], []];
    assert ParseArgs([Close], 1, [], [[f]]) == Done(Call([[f], []], []));
    assert ParseArgs([Comma, Close], 1, [f], []) == ParseArgs([Close], 1, [], [[f]]);
  }

  // g(f,) has one argument too many: it comes back as it is, with f in it still live.
  lemma CopiedBack(open: set<string>, from: set<string>, left: nat)
    requires "g" !in open && left > 0
    ensures Expand(Pair(), open, Copied(from), left) == Done(Run(Copied(from), [], false, true))
  {
    hide ParseArgs;
    var text, f := Copied(from), F(from);
    Tails(G(from), Open, f, Comma, Close);
    Parsed(from);
    assert Rewritten(G(from), [[f], []]) == text by {
      assert [[f], []][1..] == [[]];
      assert Commas([[f], []]) == [f] + [Comma] + [];
    }
    assert Invoke(Pair(), open, G(from), text[1..], left) == Done(Step(Run(text, [], false, true), []));
    ScanLast(Pair(), open, text, left, Run(text, [], false, true));
  }

  // A first step that leaves nothing is the whole scan.
  lemma ScanLast(tbl: map<string, Macro>, open: set<string>, text: seq<Token>, left: nat, run: Run)
    requires left > 0 && text != [] && Next(tbl, open, text, left) == Done(Step(run, []))
    ensures Scan(tbl, open, text, left) == Done(run)
  {
    hide Next;
    assert Scan(tbl, open, [], left) == Done(Copy([]));
    assert run.out + [] == run.out && run.log + [] == run.log;
  }

  // So the argument f becomes g(f,), and that f came from an expansion of f.
  lemma ArgumentOpened(left: nat)
    requires left >= 2
    ensures Expand(Pair(), {}, [F({})], left) == Done(Run(Copied({"f"}), [Event(F({}), {})], false, true))
  {
    hide Scan, Invoke, Plain;
    var f, inner, e := F({}), Copied({"f"}), Event(F({}), {});
    assert {} + {"f"} == {"f"};
    Stamped({}, {"f"});
    CopiedBack({"f"}, {"f"}, left - 1);
    CopiedBack({}, {"f"}, left - 1);
    assert [f][1..] == [] && [] + inner == inner && [e] + [] == [e];
    assert Next(Pair(), {}, [f], left) == Done(Step(Run(inner, [e], false, true), [])) by {
      hide Expand, Stamp;
      assert Then(Run([], [e], false, false), Run(inner, [], false, true)) == Run(inner, [e], false, true);
    }
    ScanLast(Pair(), {}, [f], left, Run(inner, [e], false, true));
    assert |Plain(inner)| == 5 && |Plain([f])| == 1;
  }

  // What is written once both words are marked.
  function MarkedCopy(): seq<Token> {
    [Word("g", true, {"f", "g"}), Open, Word("f", true, {"f", "g"}), Comma, Close]
  }

  // The first step of a scan that takes one token, and the rest of it.
  lemma ScanStep(tbl: map<string, Macro>, open: set<string>, text: seq<Token>, left: nat, run: Run, rest: Run)
    requires left > 0 && text != [] && Next(tbl, open, text, left) == Done(Step(run, text[1..]))
    requires Scan(tbl, open, text[1..], left) == Done(rest)
    ensures Scan(tbl, open, text, left) == Done(Then(run, rest))
  {
    hide Next;
  }

  // Where g is flagged, it is marked and the rest is scanned on.
  lemma AfterG(open: set<string>, left: nat, run: Run)
    requires left > 0 && "g" in open && Scan(Pair(), open, [F({"f", "g"}), Comma, Close], left) == Done(run)
    ensures Scan(Pair(), open, Copied({"f", "g"}), left) == Done(Then(Copy([MarkedCopy()[0], Open]), run))
  {
    hide Scan;
    var g, f := G({"f", "g"}), F({"f", "g"});
    Tails(g, Open, f, Comma, Close);
    ScanStep(Pair(), open, [Open, f, Comma, Close], left, Copy([Open]), run);
    ScanStep(Pair(), open, Copied({"f", "g"}), left, Copy([MarkedCopy()[0]]), Then(Copy([Open]), run));
    assert [MarkedCopy()[0]] + ([Open] + run.out) == [MarkedCopy()[0], Open] + run.out;
    assert [] + run.log == run.log;
  }

  lemma FMarked(left: nat)
    requires left > 0
    ensures var open := {"f", "g"};
      Next(Pair(), open, [F(open), Comma, Close], left) == Done(Step(Copy([MarkedCopy()[2]]), [Comma, Close]))
  {
    assert [F({"f", "g"}), Comma, Close][1..] == [Comma, Close];
  }

  // g(f,) in expansions of both: nothing is substituted.
  lemma BothOpen(left: nat)
    requires left > 0
    ensures Expand(Pair(), {"f", "g"}, Copied({"f", "g"}), left) == Done(Copy(MarkedCopy()))
  {
    hide Plain, Scan, Next;
    var open, out := {"f", "g"}, MarkedCopy();
    var tail := [out[2], Comma, Close];
    ScanQuiet(Pair(), open, [Comma, Close], left);
    assert [F(open), Comma, Close][1..] == [Comma, Close];
    FMarked(left);
    ScanStep(Pair(), open, [F(open), Comma, Close], left, Copy([out[2]]), Copy([Comma, Close]));
    assert Then(Copy([out[2]]), Copy([Comma, Close])) == Copy(tail);
    AfterG(open, left, Copy(tail));
    assert Then(Copy([out[0], Open]), Copy(tail)) == Copy(out);
    ExpandQuiet(Pair(), open, out, left - 1);
  }

  // g(f,) in an expansion of g alone: its f is substituted, although it came from an expansion of f.
  lemma FSubstituted(left: nat)
    requires left >= 2
    ensures var s := Expand(Pair(), {"g"}, Copied({"f", "g"}), left);
      s.Done? && Quiet(Pair(), s.value.out) && Event(F({"f", "g"}), {"g"}) in s.value.log
  {
    hide Plain, Scan, Next;
    var open := {"g"};
    var f := F({"f", "g"});
    var e, y := Event(f, open), MarkedCopy() + [Comma, Close];
    ScanQuiet(Pair(), open, [Comma, Close], left);
    FStep(left);
    assert [f, Comma, Close][1..] == [Comma, Close];
    ScanStep(Pair(), open, [f, Comma, Close], left, Run(MarkedCopy(), [e], false, false), Copy([Comma, Close]));
    assert Then(Run(MarkedCopy(), [e], false, false), Copy([Comma, Close])) == Run(y, [e], false, false);
    AfterG(open, left, Run(y, [e], false, false));
    ExpandQuiet(Pair(), open, [MarkedCopy()[0], Open] + y, left - 1);
  }

  lemma FStep(left: nat)
    requires left >= 2
    ensures var f := F({"f", "g"});
      Next(Pair(), {"g"}, [f, Comma, Close], left) ==
      Done(Step(Run(MarkedCopy(), [Event(f, {"g"})], false, false), [Comma, Close]))
  {
    hide Expand, Stamp, Invoke;
    assert {"g"} + {"f"} == {"f", "g"};
    Stamped({}, {"f", "g"});
    BothOpen(left - 1);
    var e := Event(F({"f", "g"}), {"g"});
    assert Then(Run([], [e], false, false), Copy(MarkedCopy())) == Run(MarkedCopy(), [e], false, false);
    assert [F({"f", "g"}), Comma, Close][1..] == [Comma, Close];
  }

  // The line g(f): no depth is lacking, and still f is substituted in its own expansion.
  lemma TooManyArguments()
    ensures var r := Expand(Pair(), {}, [G({}), Open, F({}), Close], MAX_DEPTH + 1);
      r.Done? && r.value.loose && Unlawful(r.value.log)
  {
    hide Expand, Scan, Next, Unlawful;
    var left := MAX_DEPTH + 1;
    var text := [G({}), Open, F({}), Close];
    var run := GStep(left);
    assert text[1..] == [Open, F({}), Close];
    ScanLast(Pair(), {}, text, left, run);
    OneScan(Pair(), {}, text, left, run);
    IsUnlawful(run.log, Event(F({"f", "g"}), {"g"}));
  }

  // A scan that leaves nothing to replace is the only one.
  lemma OneScan(tbl: map<string, Macro>, open: set<string>, text: seq<Token>, left: nat, run: Run)
    requires left > 0 && Scan(tbl, open, text, left) == Done(run) && Quiet(tbl, run.out)
    ensures Expand(tbl, open, text, left) == Done(run)
  {
    hide Scan, Plain;
    ExpandQuiet(tbl, open, run.out, left - 1);
    assert run.log + [] == run.log;
  }

  lemma GStep(left: nat) returns (run: Run)
    requires left >= 3
    ensures Next(Pair(), {}, [G({}), Open, F({}), Close], left) == Done(Step(run, []))
    ensures run.loose && Quiet(Pair(), run.out) && Event(F({"f", "g"}), {"g"}) in run.log
  {
    hide Expand, Substitute, ParseArgs, Enter;
    var f := F({});
    var text := [G({}), Open, f, Close];
    assert text[1..] == [Open, f, Close] && [Open, f, Close][1..] == [f, Close];
    OneParsed();
    ArgumentOpened(left - 1);
    FSubstituted(left - 1);
    OneArgument(f, Run(Copied({"f"}), [Event(f, {})], false, true), left - 1);
    OneSubstituted();
    assert {} + {"g"} == {"g"};
    var r := Expand(Pair(), {"g"}, Copied({"f", "g"}), left - 1).value;
    run := Then(Run([], [Event(f, {})] + [Event(G({}), {})], false, true), r);
  }

  lemma OneArgument(f: Token, run: Run, left: nat)
    requires Expand(Pair(), {}, [f], left) == Done(run)
    ensures ExpandArgs(Pair(), {}, [[f]], left) == Done(Args([run.out], run.log, run.cut, run.loose))
  {
    hide Expand;
    assert [[f]][1..] == [];
    assert ExpandArgs(Pair(), {}, [], left) == Done(Args([], [], false, false));
    assert [run.out] + [] == [run.out] && run.log + [] == run.log;
  }

  lemma OneParsed()
    ensures ParseArgs([F({}), Close], 1, [], []) == Done(Call([[F({})]], []))
    ensures Pad([[F({})]], 1) == [[F({})]]
  {
    var f := F({});
    assert [f, Close][1..] == [Close] && [Close][1..] == [] && [] + [f] == [f] && Trim([f]) == [f];
    assert [] + [[f]] == [[f]];
    assert ParseArgs([Close], 1, [f], []) == Done(Call([[f]], []));
  }

  lemma OneSubstituted()
    ensures Substitute(["x"], [Word("x", false, {})], [Copied({"f"})], {"g"}) == Copied({"f", "g"})
  {
    hide Enter;
    Stamped({"f"}, {"g"});
    assert {"f"} + {"g"} == {"f", "g"};
    assert [Word("x", false, {})][1..] == [];
    assert Substitute(["x"], [], [Copied({"f"})], {"g"}) == [];
  }
}
