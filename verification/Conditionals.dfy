/** Conditional inclusion: a stack of open groups decides, line by line, what is kept; for
    well-nested text this is the tree semantics of the C standard. */
module Conditionals {
  import opened Options

  // ----- lines -----

  // #if with an expression, #ifdef, #ifndef.
  datatype Cond = Expr(e: nat) | Defined(name: string) | NotDefined(name: string)

  datatype Line = Text(id: nat) | Define(name: string) | Undef(name: string) | If(c: Cond) | Elif(e: nat) | Else | Endif

  // The value of an expression under the macros defined where it stands.
  type Eval = (nat, set<string>) -> bool

  predicate Holds(ev: Eval, c: Cond, macros: set<string>) {
    match c
    case Expr(e) => ev(e, macros)
    case Defined(n) => n in macros
    case NotDefined(n) => n !in macros
  }

  // ----- what the standard says -----

  // Nested groups; a group takes its first true branch.
  datatype Item = Leaf(line: Line) | Group(c: Cond, first: Items, rest: Branches)
  datatype Items = Nil | Cons(head: Item, tail: Items)
  datatype Branches = NoMore | ElifBranch(e: nat, body: Items, rest: Branches) | ElseBranch(body: Items)

  predicate PlainLine(l: Line) { l.Text? || l.Define? || l.Undef? }

  predicate ValidItem(i: Item) {
    match i
    case Leaf(l) => PlainLine(l)
    case Group(_, first, rest) => ValidItems(first) && ValidBranches(rest)
  }

  predicate ValidItems(items: Items) {
    match items
    case Nil => true
    case Cons(i, tail) => ValidItem(i) && ValidItems(tail)
  }

  predicate ValidBranches(b: Branches) {
    match b
    case NoMore => true
    case ElifBranch(_, body, rest) => ValidItems(body) && ValidBranches(rest)
    case ElseBranch(body) => ValidItems(body)
  }

  datatype Kept = Kept(macros: set<string>, out: seq<nat>)

  function KeepLine(l: Line, k: Kept): Kept {
    match l
    case Text(id) => k.(out := k.out + [id])
    case Define(n) => k.(macros := k.macros + {n})
    case Undef(n) => k.(macros := k.macros - {n})
    case _ => k
  }

  function KeepItem(ev: Eval, i: Item, k: Kept): Kept {
    match i
    case Leaf(l) => KeepLine(l, k)
    case Group(c, first, rest) => if Holds(ev, c, k.macros) then KeepItems(ev, first, k) else KeepBranches(ev, rest, k)
  }

  function KeepItems(ev: Eval, items: Items, k: Kept): Kept {
    match items
    case Nil => k
    case Cons(i, tail) => KeepItems(ev, tail, KeepItem(ev, i, k))
  }

  function KeepBranches(ev: Eval, b: Branches, k: Kept): Kept {
    match b
    case NoMore => k
    case ElifBranch(e, body, rest) => if ev(e, k.macros) then KeepItems(ev, body, k) else KeepBranches(ev, rest, k)
    case ElseBranch(body) => KeepItems(ev, body, k)
  }

  // The lines of a tree.
  function ItemLines(i: Item): seq<Line> {
    match i
    case Leaf(l) => [l]
    case Group(c, first, rest) => [If(c)] + (Lines(first) + (BranchLines(rest) + [Endif]))
  }

  function Lines(items: Items): seq<Line> {
    match items
    case Nil => []
    case Cons(i, tail) => ItemLines(i) + Lines(tail)
  }

  function BranchLines(b: Branches): seq<Line> {
    match b
    case NoMore => []
    case ElifBranch(e, body, rest) => [Elif(e)] + (Lines(body) + BranchLines(rest))
    case ElseBranch(body) => [Else] + Lines(body)
  }

  // ----- what preprocess_file does -----

  datatype CondIncl = CondIncl(parentActive: bool, active: bool, branchTaken: bool)

  // conds: innermost group first.
  datatype State = State(kept: Kept, conds: seq<CondIncl>, active: bool)

  function Open(s: State, value: bool): State {
    var a := s.active && value;
    s.(conds := [CondIncl(s.active, a, a)] + s.conds, active := a)
  }

  function Step(ev: Eval, s: State, l: Line): State {
    match l
    case If(c) => Open(s, Holds(ev, c, s.kept.macros))
    case Elif(e) =>
      if s.conds == [] then s.(active := false)
      else
        var top := s.conds[0];
        var a := !top.branchTaken && top.parentActive && ev(e, s.kept.macros);
        s.(conds := [top.(active := a, branchTaken := top.branchTaken || a)] + s.conds[1..], active := a)
    case Else =>
      if s.conds == [] then s
      else
        var top := s.conds[0];
        var a := top.parentActive && !top.branchTaken;
        s.(conds := [top.(active := a, branchTaken := true)] + s.conds[1..], active := a)
    case Endif =>
      if s.conds == [] then s else s.(conds := s.conds[1..], active := s.conds[0].parentActive)
    case _ => if s.active then s.(kept := KeepLine(l, s.kept)) else s
  }

  function Run(ev: Eval, s: State, lines: seq<Line>): State
    decreases |lines|
  {
    if lines == [] then s else Run(ev, Step(ev, s, lines[0]), lines[1..])
  }

  lemma {:induction false} RunConcat(ev: Eval, s: State, a: seq<Line>, b: seq<Line>)
    ensures Run(ev, s, a + b) == Run(ev, Run(ev, s, a), b)
    decreases |a|
  {
    if a == [] {
      assert a + b == b;
    } else {
      assert (a + b)[1..] == a[1..] + b;
      RunConcat(ev, Step(ev, s, a[0]), a[1..], b);
    }
  }

  lemma RunOne(ev: Eval, s: State, l: Line, rest: seq<Line>)
    ensures Run(ev, s, [l] + rest) == Run(ev, Step(ev, s, l), rest)
  {
    assert ([l] + rest)[1..] == rest;
  }

  // ----- the machine computes the tree semantics -----

  // Text between groups: kept if the enclosing state is active, otherwise without effect.
  lemma {:induction false} ItemsRun(ev: Eval, s: State, items: Items)
    requires ValidItems(items)
    ensures Run(ev, s, Lines(items)) == if s.active then s.(kept := KeepItems(ev, items, s.kept)) else s
    decreases items, 1
  {
    match items
    case Nil =>
    case Cons(i, tail) =>
      RunConcat(ev, s, ItemLines(i), Lines(tail));
      var s1 := if s.active then s.(kept := KeepItem(ev, i, s.kept)) else s;
      match i {
        case Leaf(l) => RunOne(ev, s, l, []); assert [l] + [] == [l];
        case Group(c, first, rest) => GroupRun(ev, s, c, first, rest);
      }
      ItemsRun(ev, s1, tail);
  }

  lemma {:induction false} GroupRun(ev: Eval, s: State, c: Cond, first: Items, rest: Branches)
    requires ValidItems(first) && ValidBranches(rest)
    ensures var g := Group(c, first, rest);
      Run(ev, s, ItemLines(g)) == if s.active then s.(kept := KeepItem(ev, g, s.kept)) else s
    decreases Group(c, first, rest), 0
  {
    hide Run, Lines, BranchLines;
    var s1 := Open(s, Holds(ev, c, s.kept.macros));
    RunOne(ev, s, If(c), Lines(first) + (BranchLines(rest) + [Endif]));
    RunConcat(ev, s1, Lines(first), BranchLines(rest) + [Endif]);
    ItemsRun(ev, s1, first);
    var s2 := Run(ev, s1, Lines(first));
    BranchesRun(ev, s2, rest);
    assert s2.conds[1..] == s.conds;
  }

  // The remaining branches of a group, up to its #endif: taken only if the parent is active and no
  // earlier branch was; #endif restores the parent's state.
  lemma {:induction false} BranchesRun(ev: Eval, s: State, b: Branches)
    requires ValidBranches(b) && s.conds != [] && s.conds[0].active == s.active
    requires s.active ==> s.conds[0].branchTaken
    ensures var top := s.conds[0];
      Run(ev, s, BranchLines(b) + [Endif])
        == State(if top.parentActive && !top.branchTaken then KeepBranches(ev, b, s.kept) else s.kept, s.conds[1..], top.parentActive)
    decreases b, 0
  {
    hide Run, Lines;
    var top := s.conds[0];
    match b
    case NoMore =>
      assert BranchLines(b) + [Endif] == [Endif] + [];
      RunOne(ev, s, Endif, []);
      RunNothing(ev, Step(ev, s, Endif));
    case ElifBranch(e, body, rest) =>
      assert BranchLines(b) + [Endif] == [Elif(e)] + (Lines(body) + (BranchLines(rest) + [Endif]));
      RunOne(ev, s, Elif(e), Lines(body) + (BranchLines(rest) + [Endif]));
      var s1 := Step(ev, s, Elif(e));
      RunConcat(ev, s1, Lines(body), BranchLines(rest) + [Endif]);
      ItemsRun(ev, s1, body);
      BranchesRun(ev, Run(ev, s1, Lines(body)), rest);
    case ElseBranch(body) =>
      assert BranchLines(b) + [Endif] == [Else] + (Lines(body) + [Endif]);
      RunOne(ev, s, Else, Lines(body) + [Endif]);
      var s1 := Step(ev, s, Else);
      RunConcat(ev, s1, Lines(body), [Endif]);
      ItemsRun(ev, s1, body);
      var s2 := Run(ev, s1, Lines(body));
      assert [Endif] + [] == [Endif];
      RunOne(ev, s2, Endif, []);
      RunNothing(ev, Step(ev, s2, Endif));
  }

  lemma RunNothing(ev: Eval, s: State)
    ensures Run(ev, s, []) == s
  {
  }

  // #ifdef and #ifndef ask for the latest #define or #undef of their name, whatever else was defined
  // in between.
  lemma LatestDecides(ev: Eval, k: Kept, n: string, others: Items, a: Items, b: Items)
    requires Untouched(others, n)
    ensures var d := KeepItems(ev, others, KeepLine(Define(n), k));
      && KeepItem(ev, Group(Defined(n), a, ElseBranch(b)), d) == KeepItems(ev, a, d)
      && KeepItem(ev, Group(NotDefined(n), a, ElseBranch(b)), d) == KeepItems(ev, b, d)
    ensures var u := KeepItems(ev, others, KeepLine(Undef(n), k));
      && KeepItem(ev, Group(Defined(n), a, ElseBranch(b)), u) == KeepItems(ev, b, u)
      && KeepItem(ev, Group(NotDefined(n), a, ElseBranch(b)), u) == KeepItems(ev, a, u)
  {
    UntouchedKept(ev, others, n, KeepLine(Define(n), k));
    UntouchedKept(ev, others, n, KeepLine(Undef(n), k));
  }

  // Lines, none of which defines n or takes its definition away.
  predicate Untouched(items: Items, n: string) {
    match items
    case Nil => true
    case Cons(Leaf(l), tail) => l != Define(n) && l != Undef(n) && Untouched(tail, n)
    case Cons(Group(_, first, rest), tail) => Untouched(first, n) && UntouchedBranches(rest, n) && Untouched(tail, n)
  }

  predicate UntouchedBranches(b: Branches, n: string) {
    match b
    case NoMore => true
    case ElifBranch(_, body, rest) => Untouched(body, n) && UntouchedBranches(rest, n)
    case ElseBranch(body) => Untouched(body, n)
  }

  lemma {:induction false} UntouchedKept(ev: Eval, items: Items, n: string, k: Kept)
    requires Untouched(items, n)
    ensures n in KeepItems(ev, items, k).macros <==> n in k.macros
    decreases items
  {
    match items
    case Nil =>
    case Cons(Leaf(l), tail) => UntouchedKept(ev, tail, n, KeepLine(l, k));
    case Cons(Group(c, first, rest), tail) =>
      UntouchedKept(ev, first, n, k);
      UntouchedBranchesKept(ev, rest, n, k);
      UntouchedKept(ev, tail, n, KeepItem(ev, items.head, k));
  }

  lemma {:induction false} UntouchedBranchesKept(ev: Eval, b: Branches, n: string, k: Kept)
    requires UntouchedBranches(b, n)
    ensures n in KeepBranches(ev, b, k).macros <==> n in k.macros
    decreases b
  {
    match b
    case NoMore =>
    case ElifBranch(_, body, rest) => UntouchedKept(ev, body, n, k); UntouchedBranchesKept(ev, rest, n, k);
    case ElseBranch(body) => UntouchedKept(ev, body, n, k);
  }

  // ----- lines that belong to no group -----

  // Nothing is kept, and no group that is open can change that.
  ghost predicate Silent(s: State) { !s.active && forall i :: 0 <= i < |s.conds| ==> !s.conds[i].parentActive && !s.conds[i].active }

  lemma {:induction false} SilentRun(ev: Eval, s: State, lines: seq<Line>)
    requires Silent(s)
    ensures Silent(Run(ev, s, lines)) && Run(ev, s, lines).kept == s.kept
    decreases |lines|
  {
    if lines != [] {
      SilentRun(ev, Step(ev, s, lines[0]), lines[1..]);
    }
  }

  // An #elif outside of all groups silences the rest of the file, whatever follows; an #else or
  // #endif there is ignored.
  lemma StrayLines(ev: Eval, s: State, e: nat, lines: seq<Line>)
    requires s.conds == []
    ensures Run(ev, s, [Elif(e)] + lines).kept == s.kept
    ensures Run(ev, s, [Else] + lines) == Run(ev, s, lines) && Run(ev, s, [Endif] + lines) == Run(ev, s, lines)
  {
    RunOne(ev, s, Elif(e), lines);
    RunOne(ev, s, Else, lines);
    RunOne(ev, s, Endif, lines);
    SilentRun(ev, Step(ev, s, Elif(e)), lines);
  }

  // ----- well-nested text is the text of a tree -----

  datatype Parsed = Parsed(items: Items, rest: seq<Line>)
  datatype ParsedBranches = ParsedBranches(b: Branches, rest: seq<Line>)

  // The longest run of items at the front of the text; rest starts with #elif, #else, #endif or
  // is empty.  None if a group is not closed or something follows its #else.
  function Parse(lines: seq<Line>): (r: Option<Parsed>)
    ensures r.Some? ==> |r.value.rest| <= |lines|
    decreases |lines|, 1
  {
    if lines == [] || lines[0].Elif? || lines[0].Else? || lines[0].Endif? then Some(Parsed(Nil, lines))
    else if !lines[0].If? then
      (match Parse(lines[1..])
       case Some(p) => Some(Parsed(Cons(Leaf(lines[0]), p.items), p.rest))
       case None => None)
    else
      (match Parse(lines[1..])
       case None => None
       case Some(first) =>
         (match ParseBranches(first.rest)
          case None => None
          case Some(b) =>
            (match Parse(b.rest)
             case Some(p) => Some(Parsed(Cons(Group(lines[0].c, first.items, b.b), p.items), p.rest))
             case None => None)))
  }

  // The rest of a group including its #endif.
  function ParseBranches(lines: seq<Line>): (r: Option<ParsedBranches>)
    ensures r.Some? ==> |r.value.rest| < |lines|
    decreases |lines|, 0
  {
    if lines == [] then None
    else if lines[0].Endif? then Some(ParsedBranches(NoMore, lines[1..]))
    else if lines[0].Elif? then
      (match Parse(lines[1..])
       case None => None
       case Some(body) =>
         (match ParseBranches(body.rest)
          case Some(b) => Some(ParsedBranches(ElifBranch(lines[0].e, body.items, b.b), b.rest))
          case None => None))
    else if lines[0].Else? then
      (match Parse(lines[1..])
       case None => None
       case Some(body) =>
         if body.rest != [] && body.rest[0].Endif? then Some(ParsedBranches(ElseBranch(body.items), body.rest[1..])) else None)
    else None
  }

  predicate WellNested(lines: seq<Line>) { Parse(lines).Some? && Parse(lines).value.rest == [] }

  lemma {:induction false} ParseLines(lines: seq<Line>)
    requires Parse(lines).Some?
    ensures var p := Parse(lines).value; ValidItems(p.items) && Lines(p.items) + p.rest == lines
    decreases |lines|, 1
  {
    hide Lines;
    NoLines();
    if lines == [] || lines[0].Elif? || lines[0].Else? || lines[0].Endif? {
    } else {
      assert lines == [lines[0]] + lines[1..];
      ParseLines(lines[1..]);
      if !lines[0].If? {
        ConsLines(Leaf(lines[0]), Parse(lines[1..]).value.items);
      }
      if lines[0].If? {
        var first := Parse(lines[1..]).value;
        ParseBranchLines(first.rest);
        var b := ParseBranches(first.rest).value;
        ParseLines(b.rest);
        var p := Parse(b.rest).value;
        GroupLines(lines[0].c, first, b, p);
      }
    }
  }

  lemma NoLines()
    ensures Lines(Nil) == []
  {
  }

  lemma GroupLines(c: Cond, first: Parsed, b: ParsedBranches, p: Parsed)
    requires first.rest == BranchLines(b.b) + [Endif] + b.rest && b.rest == Lines(p.items) + p.rest
    ensures Lines(Cons(Group(c, first.items, b.b), p.items)) + p.rest == [If(c)] + (Lines(first.items) + first.rest)
  {
    hide Lines, BranchLines;
    var g := Group(c, first.items, b.b);
    assert Lines(Cons(g, p.items)) == ItemLines(g) + Lines(p.items) by { ConsLines(g, p.items); }
    assert ItemLines(g) == [If(c)] + (Lines(first.items) + (BranchLines(b.b) + [Endif])) by { GroupItemLines(c, first.items, b.b); }
  }

  lemma ConsLines(i: Item, tail: Items)
    ensures Lines(Cons(i, tail)) == ItemLines(i) + Lines(tail)
  {
  }

  lemma GroupItemLines(c: Cond, first: Items, rest: Branches)
    ensures ItemLines(Group(c, first, rest)) == [If(c)] + (Lines(first) + (BranchLines(rest) + [Endif]))
  {
  }

  lemma {:induction false} ParseBranchLines(lines: seq<Line>)
    requires ParseBranches(lines).Some?
    ensures var b := ParseBranches(lines).value; ValidBranches(b.b) && BranchLines(b.b) + [Endif] + b.rest == lines
    decreases |lines|, 0
  {
    hide Lines, BranchLines;
    assert lines == [lines[0]] + lines[1..];
    NoBranchLines();
    if !lines[0].Endif? {
      ParseLines(lines[1..]);
      var body := Parse(lines[1..]).value;
      if lines[0].Elif? {
        ParseBranchLines(body.rest);
        ElifLines(lines[0].e, body, ParseBranches(body.rest).value);
      } else {
        ElseLines(body);
      }
    }
  }

  lemma NoBranchLines()
    ensures BranchLines(NoMore) == []
  {
  }

  lemma ElifLines(e: nat, body: Parsed, b: ParsedBranches)
    requires body.rest == BranchLines(b.b) + [Endif] + b.rest
    ensures BranchLines(ElifBranch(e, body.items, b.b)) + [Endif] + b.rest == [Elif(e)] + (Lines(body.items) + body.rest)
  {
    hide Lines;
  }

  lemma ElseLines(body: Parsed)
    requires body.rest != [] && body.rest[0].Endif?
    ensures BranchLines(ElseBranch(body.items)) + [Endif] + body.rest[1..] == [Else] + (Lines(body.items) + body.rest)
  {
    hide Lines;
    assert body.rest == [Endif] + body.rest[1..];
  }

  predicate Stops(lines: seq<Line>) { lines == [] || lines[0].Elif? || lines[0].Else? || lines[0].Endif? }

  // Conversely the text of every tree is well-nested, and parses to that tree.
  lemma {:induction false} ParseOfLines(items: Items, rest: seq<Line>)
    requires ValidItems(items) && Stops(rest)
    ensures Parse(Lines(items) + rest) == Some(Parsed(items, rest))
    decreases items, 1
  {
    match items
    case Nil => assert [] + rest == rest;
    case Cons(i, tail) =>
      ParseOfLines(tail, rest);
      match i {
        case Leaf(l) =>
          var lines := Lines(items) + rest;
          ConsLines(i, tail);
          assert ItemLines(i) == [l];
          assert lines == [l] + (Lines(tail) + rest);
          assert lines[1..] == Lines(tail) + rest;
        case Group(c, first, br) => ParseOfGroup(c, first, br, tail, rest);
      }
  }

  lemma {:induction false} ParseOfGroup(c: Cond, first: Items, br: Branches, tail: Items, rest: seq<Line>)
    requires ValidItems(first) && ValidBranches(br) && Stops(rest)
    requires Parse(Lines(tail) + rest) == Some(Parsed(tail, rest))
    ensures Parse(Lines(Cons(Group(c, first, br), tail)) + rest) == Some(Parsed(Cons(Group(c, first, br), tail), rest))
    decreases Group(c, first, br), 0
  {
    hide *;
    var after := Lines(tail) + rest;
    var inner := BranchLines(br) + ([Endif] + after);
    var lines := Lines(Cons(Group(c, first, br), tail)) + rest;
    ConsLines(Group(c, first, br), tail);
    GroupItemLines(c, first, br);
    assert lines == [If(c)] + (Lines(first) + inner);
    assert lines[1..] == Lines(first) + inner;
    BranchesStop(br, after);
    ParseOfLines(first, inner);
    ParseOfBranches(br, after);
    ParseGroup(lines, Parsed(first, inner), ParsedBranches(br, after), Parsed(tail, rest));
  }

  lemma ParseGroup(lines: seq<Line>, first: Parsed, b: ParsedBranches, p: Parsed)
    requires lines != [] && lines[0].If? && Parse(lines[1..]) == Some(first)
    requires ParseBranches(first.rest) == Some(b) && Parse(b.rest) == Some(p)
    ensures Parse(lines) == Some(Parsed(Cons(Group(lines[0].c, first.items, b.b), p.items), p.rest))
  {
  }

  lemma BranchesStop(br: Branches, after: seq<Line>)
    ensures Stops(BranchLines(br) + ([Endif] + after))
  {
  }

  lemma {:induction false} ParseOfBranches(br: Branches, after: seq<Line>)
    requires ValidBranches(br)
    ensures ParseBranches(BranchLines(br) + ([Endif] + after)) == Some(ParsedBranches(br, after))
    decreases br, 0
  {
    hide Lines, Parse;
    var lines := BranchLines(br) + ([Endif] + after);
    match br
    case NoMore => assert lines == [Endif] + after && lines[1..] == after;
    case ElifBranch(e, body, rest) =>
      var inner := BranchLines(rest) + ([Endif] + after);
      assert lines == [Elif(e)] + (Lines(body) + inner);
      assert lines[1..] == Lines(body) + inner;
      BranchesStop(rest, after);
      ParseOfLines(body, inner);
      ParseOfBranches(rest, after);
    case ElseBranch(body) =>
      assert lines == [Else] + (Lines(body) + ([Endif] + after));
      assert lines[1..] == Lines(body) + ([Endif] + after);
      ParseOfLines(body, [Endif] + after);
      assert ([Endif] + after)[1..] == after;
  }

  lemma WellNestedIff(lines: seq<Line>)
    ensures WellNested(lines) <==> exists items :: ValidItems(items) && Lines(items) == lines
  {
    if WellNested(lines) {
      ParseLines(lines);
      var items := Parse(lines).value.items;
      assert Lines(items) + [] == Lines(items);
      assert ValidItems(items) && Lines(items) == lines;
    }
    if items :| ValidItems(items) && Lines(items) == lines {
      ParseOfLines(items, []);
      assert Lines(items) + [] == lines;
    }
  }

  // For well-nested text, started with everything active, exactly the lines are kept that the
  // standard keeps, the macros are those it defines, and no group stays open.
  lemma Refines(ev: Eval, lines: seq<Line>, k: Kept)
    requires WellNested(lines)
    ensures Run(ev, State(k, [], true), lines) == State(KeepItems(ev, Parse(lines).value.items, k), [], true)
  {
    ParseLines(lines);
    var items := Parse(lines).value.items;
    assert Lines(items) + [] == Lines(items);
    ItemsRun(ev, State(k, [], true), items);
  }

  // ----- any text -----

  // What every line keeps, well-nested or not: the current state is that of the innermost group, a
  // group is active only inside an active parent and after its branch was counted as taken.
  predicate StackOk(conds: seq<CondIncl>, active: bool) {
    if conds == [] then true
    else
      && active == conds[0].active && (active ==> conds[0].parentActive && conds[0].branchTaken)
      && StackOk(conds[1..], conds[0].parentActive)
  }

  lemma StepOk(ev: Eval, s: State, l: Line)
    requires StackOk(s.conds, s.active)
    ensures var t := Step(ev, s, l); StackOk(t.conds, t.active)
  {
    var t := Step(ev, s, l);
    if l.If? {
      assert t.conds[1..] == s.conds;
    } else if s.conds != [] && (l.Elif? || l.Else?) {
      assert t.conds[1..] == s.conds[1..];
    }
  }

  // A group's second branch is never activated.
  lemma OneBranch(ev: Eval, s: State, l: Line)
    requires s.conds != [] && s.conds[0].branchTaken && (l.Elif? || l.Else?)
    ensures var t := Step(ev, s, l); !t.active && t.conds != [] && t.conds[0].branchTaken && t.kept == s.kept
  {
  }

  // ----- the scanner itself -----

  class Scanner {
    const ev: Eval
    var macros: set<string>
    var conds: seq<CondIncl>
    var active: bool
    var out: seq<nat>

    ghost predicate Valid() reads this { StackOk(conds, active) }

    ghost function Now(): State reads this { State(Kept(macros, out), conds, active) }

    constructor (ev0: Eval, macros0: set<string>)
      ensures Valid() && Now() == State(Kept(macros0, []), [], true) && ev == ev0
    {
      ev, macros, conds, active, out := ev0, macros0, [], true, [];
    }

    // Open a group whose condition has the given value.
    method Push(value: bool)
      requires Valid()
      modifies this
      ensures Valid() && Now() == Open(old(Now()), value)
    {
      var ci := CondIncl(active, active && value, active && value);
      ghost var below := conds;
      conds := [ci] + conds;
      assert conds[1..] == below;
      active := ci.active;
    }

    method OnElif(e: nat)
      requires Valid()
      modifies this
      ensures Valid() && Now() == Step(ev, old(Now()), Elif(e))
    {
      if conds == [] {
        active := false;
        return;
      }
      var top := conds[0];
      if !top.branchTaken {
        top := top.(active := top.parentActive && ev(e, macros));
        if top.active {
          top := top.(branchTaken := true);
        }
      } else {
        top := top.(active := false);
      }
      ghost var below := conds[1..];
      conds := [top] + conds[1..];
      assert conds[1..] == below;
      active := top.active;
    }

    method OnElse()
      requires Valid()
      modifies this
      ensures Valid() && Now() == Step(ev, old(Now()), Else)
    {
      if conds == [] {
        return;
      }
      var a := conds[0].parentActive && !conds[0].branchTaken;
      ghost var below := conds[1..];
      conds := [conds[0].(active := a, branchTaken := true)] + conds[1..];
      assert conds[1..] == below;
      active := a;
    }

    method OnEndif()
      requires Valid()
      modifies this
      ensures Valid() && Now() == Step(ev, old(Now()), Endif)
    {
      if conds == [] {
        return;
      }
      active := conds[0].parentActive;
      conds := conds[1..];
    }

    method Scan(l: Line)
      requires Valid()
      modifies this
      ensures Valid() && Now() == Step(ev, old(Now()), l)
    {
      match l
      case If(c) =>
        var value;
        match c {
          case Expr(e) => value := ev(e, macros);
          case Defined(n) => value := n in macros;
          case NotDefined(n) => value := n !in macros;
        }
        Push(value);
      case Elif(e) => OnElif(e);
      case Else => OnElse();
      case Endif => OnEndif();
      case Text(id) =>
        if active {
          out := out + [id];
        }
      case Define(n) =>
        if active {
          macros := macros + {n};
        }
      case Undef(n) =>
        if active {
          macros := macros - {n};
        }
    }

    // The lines of a file.
    method ScanFile(lines: seq<Line>)
      requires Valid()
      modifies this
      ensures Valid() && Now() == Run(ev, old(Now()), lines)
    {
      assert lines[0..] == lines;
      for i := 0 to |lines|
        invariant Valid() && Run(ev, old(Now()), lines) == Run(ev, Now(), lines[i..])
      {
        assert lines[i..][1..] == lines[i + 1..];
        Scan(lines[i]);
      }
    }
  }
}
