/** Where the compile-time interpreter goes wrong, and exactly when it does not. */
module OptimizerLimits {
  import opened Words
  import opened Options
  import opened Interpreter
  import opened Optimizer
  import opened OptimizerViews
  import NullNames
  import BitFieldLayout

  // int f(params) { return x; }
  function Getter(params: seq<nat>, x: nat): Func {
    Func("f", params, Some(Then(Return(Some(Var(x))), End)), false)
  }

  // Every parameter reads as the argument passed for it.
  ghost predicate Faithful(params: seq<nat>) {
    forall p: Program, fuel: nat, k: nat, vals: seq<I32> :: k < |params| && |vals| == |params| ==>
      ReadsBack(p, fuel, params, k, vals)
  }

  ghost predicate ReadsBack(p: Program, fuel: nat, params: seq<nat>, k: nat, vals: seq<I32>)
    requires k < |params| == |vals|
  {
    var r := RunCall(p, fuel, Getter(params, params[k]), vals);
    r.Ok? && r.v == vals[k]
  }

  lemma {:induction false} BindEnvAt(params: seq<nat>, vals: seq<I32>, k: nat)
    requires k < |params| == |vals| && Distinct(params)
    ensures params[k] in BindEnv(params, vals) && BindEnv(params, vals)[params[k]] == vals[k]
    decreases |params|
  {
    var n := |params| - 1;
    if k < n {
      BindEnvAt(params[..n], vals[..n], k);
    }
  }

  lemma {:induction false} BindSplit(params: seq<nat>, vals: seq<I32>, slots: Slots, n: nat)
    requires n <= |params| == |vals|
    ensures BindInto(params, vals, slots).Some? ==>
      var a := BindInto(params[..n], vals[..n], slots);
      a.Some? && BindInto(params, vals, slots) == BindInto(params[n..], vals[n..], a.value)
    decreases n
  {
    if n > 0 && SlotOf(params[0]) < SLOTS {
      BindSplit(params[1..], vals[1..], slots[SlotOf(params[0]) := vals[0]], n - 1);
      assert params[..n][1..] == params[1..][..n - 1] && vals[..n][1..] == vals[1..][..n - 1];
      assert params[1..][n - 1..] == params[n..] && vals[1..][n - 1..] == vals[n..];
    } else if n == 0 {
      assert params[0..] == params && vals[0..] == vals;
    }
  }

  // Binding one value throughout: a slot that is written holds it.
  lemma {:induction false} BindSame(params: seq<nat>, v: I32, slots: Slots, s: nat)
    requires s < SLOTS && BindInto(params, seq(|params|, _ => v), slots).Some?
    requires slots[s] == v || exists j :: 0 <= j < |params| && SlotOf(params[j]) == s
    ensures BindInto(params, seq(|params|, _ => v), slots).value[s] == v
    decreases |params|
  {
    if params != [] {
      assert seq(|params|, _ => v)[1..] == seq(|params| - 1, _ => v);
      var s1 := slots[SlotOf(params[0]) := v];
      if SlotOf(params[0]) != s && slots[s] != v {
        var j :| 0 <= j < |params| && SlotOf(params[j]) == s;
        assert SlotOf(params[1..][j - 1]) == s;
      }
      BindSame(params[1..], v, s1, s);
    }
  }

  lemma BoundMeans(p: Program, fuel: nat, params: seq<nat>, k: nat, vals: seq<I32>)
    requires k < |params| == |vals|
    ensures ReadsBack(p, fuel, params, k, vals) <==>
      var slots := BindSlots(params, Kept(vals));
      slots.Some? && SlotOf(params[k]) < SLOTS && slots.value[SlotOf(params[k])] == vals[k]
  {
    hide BindSlots;
    var slots := BindSlots(params, Kept(vals));
    if slots.Some? {
      var body := Getter(params, params[k]).body.value;
      var e := Var(params[k]);
      assert body == Then(Return(Some(e)), End);
      assert EvalE(p, fuel, e, slots.value)
        == if SlotOf(params[k]) >= SLOTS then Crash else Ok(slots.value[SlotOf(params[k])], slots.value, false);
      var r := EvalS(p, fuel, Return(Some(e)), slots.value);
      assert r == if SlotOf(params[k]) >= SLOTS then Crash else Ok(slots.value[SlotOf(params[k])], slots.value, true);
      assert EvalStmts(p, fuel, body, slots.value, 0) == r;
    }
  }

  // Two parameters in one slot: the later argument is read for the earlier parameter.
  lemma Collides(params: seq<nat>, i: nat, j: nat)
    requires i < j < |params| <= MAX_ARGS && SlotOf(params[i]) == SlotOf(params[j])
    ensures !Faithful(params)
  {
    var zeros, ones: seq<I32> := seq(i + 1, _ => 0), seq(|params| - i - 1, _ => 1);
    var vals := zeros + ones;
    if BindSlots(params, vals).Some? && SlotOf(params[i]) < SLOTS {
      BindSplit(params, vals, NoSlots(), i + 1);
      assert vals[i + 1..] == ones && vals[..i + 1] == zeros;
      var a := BindInto(params[..i + 1], zeros, NoSlots()).value;
      var rest := params[i + 1..];
      assert rest[j - i - 1] == params[j];
      assert ones == seq(|rest|, _ => 1);
      BindSame(rest, 1, a, SlotOf(params[i]));
    }
    BoundMeans([], 0, params, i, vals);
    assert !ReadsBack([], 0, params, i, vals);
  }

  // More than ten: the eleventh argument is dropped and its parameter reads as zero.
  predicate AllZero(slots: Slots) { forall s :: 0 <= s < SLOTS ==> slots[s] == 0 }

  lemma {:induction false} BindZeros(params: seq<nat>, n: nat, slots: Slots)
    requires AllZero(slots) && BindInto(params, seq(n, _ => 0), slots).Some?
    ensures AllZero(BindInto(params, seq(n, _ => 0), slots).value)
    decreases n
  {
    if params != [] && n > 0 {
      assert seq(n, _ => 0 as I32)[1..] == seq(n - 1, _ => 0 as I32);
      BindZeros(params[1..], n - 1, slots[SlotOf(params[0]) := 0]);
    }
  }

  lemma TooMany(params: seq<nat>)
    requires |params| > MAX_ARGS
    ensures !Faithful(params)
  {
    var zeros: seq<I32>, ones: seq<I32> := seq(MAX_ARGS, _ => 0), seq(|params| - MAX_ARGS, _ => 1);
    var vals := zeros + ones;
    assert Kept(vals) == zeros;
    if BindSlots(params, zeros).Some? {
      BindZeros(params, MAX_ARGS, NoSlots());
    }
    BoundMeans([], 0, params, MAX_ARGS, vals);
    assert !ReadsBack([], 0, params, MAX_ARGS, vals);
  }

  // Parameters read back exactly if there are at most ten of them, each in a slot of its own.
  lemma FaithfulIff(params: seq<nat>)
    requires Distinct(params)
    ensures Faithful(params) <==>
      (|params| <= 10 && (forall i :: 0 <= i < |params| ==> params[i] < 2048)
       && forall i, j :: 0 <= i < j < |params| ==> params[i] / 8 != params[j] / 8)
  {
    FaithfulSlots(params);
    SlotsOfParams(params);
  }

  lemma SlotsOfParams(params: seq<nat>)
    requires Distinct(params)
    ensures SlotsOk(set x | x in params) <==>
      ((forall i :: 0 <= i < |params| ==> params[i] < 2048)
       && forall i, j :: 0 <= i < j < |params| ==> params[i] / 8 != params[j] / 8)
  {
    var vars := set x | x in params;
    if SlotsOk(vars) {
      forall i | 0 <= i < |params| ensures params[i] < 2048 {
        assert SlotOf(params[i]) < SLOTS;
      }
      forall i, j | 0 <= i < j < |params| ensures params[i] / 8 != params[j] / 8 {
        assert params[i] in vars && params[j] in vars;
      }
    }
  }

  lemma FaithfulSlots(params: seq<nat>)
    requires Distinct(params)
    ensures Faithful(params) <==> |params| <= MAX_ARGS && SlotsOk(set x | x in params)
  {
    hide BindEnv, Match;
    var vars := set x | x in params;
    if |params| > MAX_ARGS {
      TooMany(params);
    } else if !SlotsOk(vars) {
      if x :| x in params && SlotOf(x) >= SLOTS {
        var k :| 0 <= k < |params| && params[k] == x;
        var vals: seq<I32> := seq(|params|, _ => 0);
        BoundMeans([], 0, params, k, vals);
        assert !ReadsBack([], 0, params, k, vals);
      } else {
        var x, y :| x in params && y in params && x != y && SlotOf(x) == SlotOf(y);
        var i :| 0 <= i < |params| && params[i] == x;
        var j :| 0 <= j < |params| && params[j] == y;
        if i < j {
          Collides(params, i, j);
        } else {
          Collides(params, j, i);
        }
      }
    } else {
      forall p: Program, fuel: nat, k: nat, vals: seq<I32> | k < |params| && |vals| == |params|
        ensures ReadsBack(p, fuel, params, k, vals)
      {
        BindMatch(params, vals, vars);
        BindEnvAt(params, vals, k);
        VarAgrees(params[k], BindEnv(params, vals), BindSlots(params, vals).value, vars);
        BoundMeans(p, fuel, params, k, vals);
      }
    }
  }

  // ----- the offsets that local variables get -----

  // new_var: the frame grows by at least four bytes and is aligned to at least four.
  function NewVar(stackOffset: nat, size: nat, align: nat): int {
    BitFieldLayout.AlignTo(stackOffset + (if size < 4 then 4 else size), if align < 4 then 4 else align)
  }

  const FIRST_OFFSET: nat := 80

  function OneTwoThree(): Args { Arg(Num(1), Arg(Num(2), Arg(Num(3), NoArgs))) }

  // Three int parameters are enough for a collision: int f(int a, int b, int c) { return b; } called
  // as f(1, 2, 3), where f has not been declared yet, is folded to 3.  Behind a declaration of f the
  // call is not named, and left as it is.
  lemma ThreeInts(ctx: ExprCtx)
    requires Find(FillE(ctx, Call("f", true, OneTwoThree())), "f") == Some(Getter([84, 88, 92], 88))
    ensures NewVar(FIRST_OFFSET, 4, 4) == 84 && NewVar(84, 4, 4) == 88 && NewVar(88, 4, 4) == 92
    ensures var f, named, unnamed := Getter([84, 88, 92], 88), Call("f", true, OneTwoThree()), Call("f", false, OneTwoThree());
      && OptE(ctx, 0, named) == Done(Num(3)) && OptE(ctx, 0, unnamed) == Done(unnamed)
      && SrcE([f], 1, named, map[]) == SrcE([f], 1, unnamed, map[]) == Some(Value(2, map[]))
  {
    hide OptE, SrcE, NewVar;
    ThreeOffsets();
    var f := Getter([84, 88, 92], 88);
    ThreeIntsFolded(ctx, f, OneTwoThree());
    NumbersKept(InCall("f", false, ctx), 0, OneTwoThree());
    UnnamedKept(ctx, 0, "f", false, OneTwoThree());
    ThreeIntsSource(f, true, OneTwoThree());
    ThreeIntsSource(f, false, OneTwoThree());
  }

  lemma ThreeOffsets()
    ensures NewVar(FIRST_OFFSET, 4, 4) == 84 && NewVar(84, 4, 4) == 88 && NewVar(88, 4, 4) == 92
  {
    assert Pow2(0) == 1 && Pow2(1) == 2 && Pow2(2) == 4;
    assert BitFieldLayout.IsPow2(4);
    BitFieldLayout.AlignToRoundUp(84, 4);
    BitFieldLayout.AlignToRoundUp(88, 4);
    BitFieldLayout.AlignToRoundUp(92, 4);
  }

  // Nothing but the arguments of an unnamed call is rewritten, nor of a call of printf.
  lemma UnnamedKept(ctx: ExprCtx, fuel: nat, name: string, named: bool, args: Args)
    requires !named || name == "printf"
    ensures var args1 := OptArgs(InCall(name, named, ctx), fuel, args, false);
      OptE(ctx, fuel, Call(name, named, args)) == if args1.Done? then Done(Call(name, named, args1.value)) else Aborted(args1.why)
  {
  }

  // One more number in front of an argument list.
  lemma NumberArg(p: Program, m: nat, v: I32, tail: Args, vs: seq<I32>, vs1: seq<I32>)
    requires vs1 == [v] + vs
    requires ConstArgs(tail) == Some(vs) && SrcArgs(p, m, tail, map[]) == Some(Values(vs, map[]))
    ensures ConstArgs(Arg(Num(v), tail)) == Some(vs1)
    ensures SrcArgs(p, m, Arg(Num(v), tail), map[]) == Some(Values(vs1, map[]))
  {
  }

  // Numbers are rewritten to themselves.
  lemma {:induction false} NumbersKept(ctx: ArgsCtx, fuel: nat, args: Args)
    requires ConstArgs(args).Some?
    ensures OptArgs(ctx, fuel, args, false) == Done(args)
    decreases args
  {
    match args
    case NoArgs =>
    case Arg(e, tail) => NumbersKept(InTail(e, ctx), fuel, tail);
  }

  // Where three arguments of f end up: the last two in one slot.
  lemma ThreeBound()
    ensures BindSlots([84, 88, 92], [1, 2, 3]).Some? && BindSlots([84, 88, 92], [1, 2, 3]).value[SlotOf(88)] == 3
  {
    var params: seq<nat>, vals: seq<I32> := [84, 88, 92], [1, 2, 3];
    assert params[1..] == [88, 92] && params[1..][1..] == [92] && params[1..][1..][1..] == [];
    assert vals[1..] == [2, 3] && vals[1..][1..] == [3] && vals[1..][1..][1..] == [];
    var s1: Slots := NoSlots()[10 := 1];
    var s2: Slots := s1[11 := 2];
    assert BindInto([92], [3], s2) == Some(s2[11 := 3]);
    assert BindInto([88, 92], [2, 3], s1) == BindInto([92], [3], s2);
  }

  lemma ThreeRun(p: Program, fuel: nat, slots: Slots)
    requires slots[SlotOf(88)] == 3
    ensures EvalStmts(p, fuel, Getter([84, 88, 92], 88).body.value, slots, 0) == Ok(3, slots, true)
  {
    assert EvalE(p, fuel, Var(88), slots) == Ok(3, slots, false);
    assert EvalS(p, fuel, Return(Some(Var(88))), slots) == Ok(3, slots, true);
  }

  lemma ThreeIntsFolded(ctx: ExprCtx, f: Func, args: Args)
    requires f == Getter([84, 88, 92], 88) && args == OneTwoThree()
    requires Find(FillE(ctx, Call("f", true, args)), "f") == Some(f)
    ensures OptE(ctx, 0, Call("f", true, args)) == Done(Num(3))
  {
    hide BindSlots, EvalStmts, FillE, Find, ConstArgs;
    var q := FillE(ctx, Call("f", true, args));
    var vals: seq<I32> := [1, 2, 3];
    ThreeConst([f]);
    ThreeBound();
    ThreeRun(q, 0, BindSlots([84, 88, 92], vals).value);
    assert RunCall(q, 0, f, vals).Ok? && RunCall(q, 0, f, vals).v == 3;
    NumbersKept(InCall("f", true, ctx), 0, args);
    assert FoldCall(q, 0, "f", true, args) == Done(Num(3));
  }

  lemma ThreeConst(p: Program)
    ensures ConstArgs(OneTwoThree()) == Some([1, 2, 3]) && SrcArgs(p, 1, OneTwoThree(), map[]) == Some(Values([1, 2, 3], map[]))
  {
    hide ConstArgs, SrcArgs;
    NoArguments(p);
    NumberArg(p, 1, 3, NoArgs, [], [3]);
    NumberArg(p, 1, 2, Arg(Num(3), NoArgs), [3], [2, 3]);
    NumberArg(p, 1, 1, Arg(Num(2), Arg(Num(3), NoArgs)), [2, 3], [1, 2, 3]);
  }

  lemma NoArguments(p: Program)
    ensures ConstArgs(NoArgs) == Some([]) && SrcArgs(p, 1, NoArgs, map[]) == Some(Values([], map[]))
  {
  }

  lemma ThreeIntsSource(f: Func, named: bool, args: Args)
    requires f == Getter([84, 88, 92], 88) && args == OneTwoThree()
    ensures SrcE([f], 1, Call("f", named, args), map[]) == Some(Value(2, map[]))
  {
    hide SrcArgs, BindEnv;
    var vals: seq<I32> := [1, 2, 3];
    ThreeConst([f]);
    BindEnvAt([84, 88, 92], vals, 1);
    var env := BindEnv([84, 88, 92], vals);
    assert SrcE([f], 0, Var(88), env) == Some(Value(2, env));
    assert SrcS([f], 0, f.body.value.head, env) == Some(Ret(Some(2), env));
    assert SrcBody([f], 0, f.body.value, env) == Some(Ret(Some(2), env));
    assert Find([f], "f") == Some(f);
  }

  // A call of a function with a local that has a cleanup attribute is never folded.
  lemma CleanupKept(p: Program, fuel: nat, name: string, named: bool, args: Args)
    requires Find(p, name).Some? && Find(p, name).value.cleanup
    ensures var args1 := RewriteArgs(p, fuel, args);
      RewriteE(p, fuel, Call(name, named, args)) == if args1.Done? then Done(Call(name, named, args1.value)) else Aborted(args1.why)
  {
  }

  // The interpreter gives up on a division by zero, so the call that runs into it stays.
  lemma ZeroGivesUp(p: Program, fuel: nat, op: Source.BinOp, l: Expr, r: Expr, slots: Slots)
    requires op.Div? || op.Mod?
    ensures var a := EvalE(p, fuel, l, slots);
      a.Ok? && EvalE(p, fuel, r, a.slots).Ok? && EvalE(p, fuel, r, a.slots).v == 0 ==> EvalE(p, fuel, Bin(op, l, r), slots) == Fail
  {
  }

  // It never passes more than nine arguments on.
  lemma {:induction false} NineArguments(p: Program, fuel: nat, args: Args, slots: Slots, n: nat)
    ensures var r := EvalArguments(p, fuel, args, slots, n); r.Good? ==> |r.vs| == 0 || n + |r.vs| <= 9
    decreases args
  {
    hide EvalE;
    match args
    case NoArgs =>
    case Arg(e, tail) =>
      var a := EvalE(p, fuel, e, slots);
      if a.Ok? {
        NineArguments(p, fuel, tail, a.slots, n + 1);
      }
  }

  // A division or remainder by the constant zero is never folded.
  lemma ZeroDivisorKept(ctx: ExprCtx, fuel: nat, op: Source.BinOp, l: Expr)
    requires op.Div? || op.Mod?
    ensures var l1 := OptE(InBinL(op, Num(0), ctx), fuel, l);
      OptE(ctx, fuel, Bin(op, l, Num(0))) == if l1.Done? then Done(Bin(op, l1.value, Num(0))) else l1
  {
  }

  // ----- a null name -----

  // int main(void) { return f(3); }
  // int f(int n) { if (n) return f(n - 1); return 7; }
  function Main(): Func { Func("main", [], Some(Then(Return(Some(Call("f", true, Arg(Num(3), NoArgs)))), End)), false) }

  function Minus1(): Expr { Bin(Source.Sub, Var(80), Num(1)) }

  function Again(): Stmt { Return(Some(Call("f", false, Arg(Minus1(), NoArgs)))) }

  function FBody(): Body { Then(If(Var(80), Again(), None), Then(Return(Some(Num(7))), End)) }

  function F(): Func { Func("f", [80], Some(FBody()), false) }

  function MainF(): Program { [Main(), F()] }

  lemma FindF()
    ensures Find(MainF(), "f") == Some(F())
  {
    assert MainF()[1..] == [F()];
  }

  // A call of f with one argument.
  lemma CallsF(m: nat, named: bool, e: Expr, env: Env, n: I32, env1: Env)
    requires m > 0 && SrcE(MainF(), m, e, env) == Some(Value(n, env))
    requires SrcBody(MainF(), m - 1, FBody(), map[80 := n]) == Some(Ret(Some(7), env1))
    ensures SrcE(MainF(), m, Call("f", named, Arg(e, NoArgs)), env) == Some(Value(7, env))
  {
    hide SrcBody;
    FindF();
    assert [n] + [] == [n] && SrcArgs(MainF(), m, Arg(e, NoArgs), env) == Some(Values([n], env));
    assert [80][..0] == [] && [n][..0] == [] && BindEnv([80], [n]) == map[80 := n];
  }

  lemma {:induction false} FSource(n: nat, m: nat)
    requires n <= m && n <= 0x7fff_ffff
    ensures SrcBody(MainF(), m, FBody(), map[80 := n]) == Some(Ret(Some(7), map[80 := n]))
    decreases n
  {
    hide Find;
    var p, env: Env := MainF(), map[80 := n];
    var rest := Then(Return(Some(Num(7))), End);
    assert SrcE(p, m, Var(80), env) == Some(Value(n, env));
    if n > 0 {
      assert SrcE(p, m, Minus1(), env) == Some(Value(n - 1, env));
      FSource(n - 1, m - 1);
      CallsF(m, false, Minus1(), env, n - 1, map[80 := n - 1]);
      assert SrcS(p, m, Again(), env) == Some(Ret(Some(7), env));
      assert SrcS(p, m, If(Var(80), Again(), None), env) == Some(Ret(Some(7), env));
    } else {
      assert SrcE(p, m, Num(7), env) == Some(Value(7, env));
      assert SrcBody(p, m, rest, env) == Some(Ret(Some(7), env));
      assert SrcS(p, m, If(Var(80), Again(), None), env) == Some(Next(env));
    }
  }

  lemma MainSource()
    ensures SrcCall(MainF(), 4, Main(), []) == Some(7)
  {
    hide SrcE;
    FSource(3, 3);
    assert SrcE(MainF(), 4, Num(3), map[]) == Some(Value(3, map[])) by { NumIs(MainF(), 4, 3, map[]); }
    CallsF(4, true, Num(3), map[], 3, map[80 := 3]);
    var s := Main().body.value.head;
    assert SrcS(MainF(), 4, s, map[]) == Some(Ret(Some(7), map[]));
  }

  lemma NumIs(p: Program, m: nat, v: I32, env: Env)
    ensures SrcE(p, m, Num(v), env) == Some(Value(v, env))
  {
  }

  lemma FRun(fuel: nat, slots: Slots)
    requires slots[SlotOf(80)] == 3
    ensures EvalStmts(MainF(), fuel, FBody(), slots, 0) == NullName
  {
    var p := MainF();
    assert EvalE(p, fuel, Var(80), slots) == Ok(3, slots, false);
    assert EvalE(p, fuel, Num(1), slots) == Ok(1, slots, false);
    assert EvalE(p, fuel, Minus1(), slots) == Ok(2, slots, false);
    assert EvalArguments(p, fuel, NoArgs, slots, 1) == Good([], slots);
    assert EvalArguments(p, fuel, Arg(Minus1(), NoArgs), slots, 0).Good?;
    assert EvalE(p, fuel, Call("f", false, Arg(Minus1(), NoArgs)), slots) == NullName;
    assert EvalS(p, fuel, Again(), slots) == NullName;
    assert EvalS(p, fuel, If(Var(80), Again(), None), slots) == NullName;
  }

  lemma MainRewritten(fuel: nat)
    ensures RewriteBody(MainF(), fuel, Main().body.value) == Aborted(NullCompared)
  {
    hide EvalStmts;
    var args, vals: seq<I32> := Arg(Num(3), NoArgs), [3];
    FindF();
    assert RewriteArgs(MainF(), fuel, args) == Done(args) by {
      assert RewriteE(MainF(), fuel, Num(3)) == Done(Num(3)) && RewriteArgs(MainF(), fuel, NoArgs) == Done(NoArgs);
    }
    assert ConstArgs(args) == Some(vals) by {
      assert ConstArgs(NoArgs) == Some([]) && [3] + [] == vals;
    }
    var slots: Slots := NoSlots()[10 := 3];
    assert [80][1..] == [] && BindSlots([80], vals) == Some(slots);
    FRun(fuel, slots);
    assert RewriteE(MainF(), fuel, Call("f", true, args)) == Aborted(NullCompared);
    assert RewriteOpt(MainF(), fuel, Some(Call("f", true, args))) == Aborted(NullCompared);
  }

  lemma MainFNames()
    ensures NamesBody(Main().body.value) == {"f"} && NamesBody(FBody()) == {}
  {
  }

  lemma FSlots()
    ensures FuncOk(F())
  {
    assert FuncVars(F()) == {80};
  }

  // f has a slot of its own for its variable, and main is not called.
  lemma MainFOk()
    ensures OkIn(MainF(), AllNames(MainF())) && Parsed(MainF()) && !NullNames.Quiet(MainF())
  {
    hide FuncOk, NamesBody, StuckBody;
    var p := MainF();
    FSlots();
    MainFNames();
    assert p[0].body == Some(Main().body.value) && p[1].body == Some(FBody());
    assert p[1].name in NamesBody(p[0].body.value) && !NullNames.AllNamedBody(FBody());
  }

  // The program is as the parser makes it, the function called by name has slots of its own, and it
  // returns 7; but f calls itself without a name, and the compiler compares a null name.
  lemma NullNameMet()
    ensures OkIn(MainF(), AllNames(MainF())) && Parsed(MainF()) && !NullNames.Quiet(MainF())
    ensures SrcCall(MainF(), 4, Main(), []) == Some(7)
    ensures Optimize(MainF()) == Aborted(NullCompared)
  {
    hide SrcCall, OptProgram, OkIn, Parsed, AllNames, NullNames.Quiet;
    var p := MainF();
    MainSource();
    MainFOk();
    RewrittenInPlace(p, 2, 2);
    MainRewritten(2);
    assert RewriteFrom(p, 2, 0) == Aborted(NullCompared);
  }
}
