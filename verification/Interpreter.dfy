/** Functions evaluated at compile time: the meaning C gives to a call, and the interpreter that
    the AST optimizer runs to replace a call by a number. */
module Interpreter {
  import opened Words
  import opened Options
  import Source

  // ----- programs -----

  // Variables are named by their frame offset.  A call is named if its node holds the name of the
  // function: that is so where no declaration of the function comes before the call.  Any other call
  // reaches the function through its symbol, and the name in the node is null.
  datatype Expr =
    | Num(val: int)
    | Var(off: nat)
    | Assign(off: nat, rhs: Expr)
    | Bin(op: Source.BinOp, lhs: Expr, rhs: Expr)
    | Logical(isAnd: bool, lhs: Expr, rhs: Expr)
    | Cond(cond: Expr, thn: Expr, els: Expr)
    | Comma(lhs: Expr, rhs: Expr)
    | Call(name: string, named: bool, args: Args)

  datatype Args = NoArgs | Arg(head: Expr, tail: Args)

  datatype Stmt =
    | Block(body: Body)
    | Return(value: Option<Expr>)
    | If(cond: Expr, thn: Stmt, els: Option<Stmt>)
    | ExprStmt(e: Expr)
    | For(init: Option<Expr>, test: Option<Expr>, inc: Option<Expr>, loop: Stmt)

  datatype Body = End | Then(head: Stmt, tail: Body)

  // Only definitions are listed; body is None if there is no statement in it.
  datatype Func = Func(name: string, params: seq<nat>, body: Option<Body>, cleanup: bool)

  type Program = seq<Func>

  // The first item with the name.
  function Find(p: Program, name: string): (f: Option<Func>)
    ensures f.Some? ==> f.value in p && f.value.name == name
  {
    if p == [] then None else if p[0].name == name then Some(p[0]) else Find(p[1..], name)
  }

  // ----- what C says -----

  type Env = map<nat, I32>

  datatype Value = Value(v: I32, env: Env)
  datatype Values = Values(vs: seq<I32>, env: Env)
  datatype Outcome = Next(env: Env) | Ret(v: Option<I32>, env: Env)

  predicate InInt(x: int) { -0x8000_0000 <= x <= 0x7fff_ffff }

  // No value where C leaves the operation undefined, which includes overflow.
  function StrictBin(op: Source.BinOp, a: I32, b: I32): Option<I32> {
    match op
    case Add => if InInt(a + b) then Some(a + b) else None
    case Sub => if InInt(a - b) then Some(a - b) else None
    case Mul => if InInt(Mul(a, b)) then Some(Mul(a, b)) else None
    case _ => Source.BinVal(op, a, b)
  }

  function BindEnv(params: seq<nat>, vals: seq<I32>): Env
    requires |params| == |vals|
  {
    if params == [] then map[] else BindEnv(params[..|params| - 1], vals[..|vals| - 1])[params[|params| - 1] := vals[|vals| - 1]]
  }

  // The value of an expression and the locals after it; reading an unset local has no value.
  // fuel bounds the depth of calls and the number of loop iterations.
  function SrcE(p: Program, fuel: nat, e: Expr, env: Env): Option<Value>
    decreases fuel, e
  {
    match e
    case Num(v) => if InInt(v) then Some(Value(v, env)) else None
    case Var(x) => if x in env then Some(Value(env[x], env)) else None
    case Assign(x, rhs) =>
      (match SrcE(p, fuel, rhs, env)
       case Some(a) => Some(Value(a.v, a.env[x := a.v]))
       case None => None)
    case Bin(op, lhs, rhs) =>
      (match SrcE(p, fuel, lhs, env)
       case None => None
       case Some(a) =>
         (match SrcE(p, fuel, rhs, a.env)
          case None => None
          case Some(b) =>
            (match StrictBin(op, a.v, b.v)
             case Some(v) => Some(Value(v, b.env))
             case None => None)))
    case Logical(isAnd, lhs, rhs) =>
      (match SrcE(p, fuel, lhs, env)
       case None => None
       case Some(a) =>
         if (a.v != 0) != isAnd then Some(Value(Source.Bool(a.v != 0), a.env))
         else
           (match SrcE(p, fuel, rhs, a.env)
            case Some(b) => Some(Value(Source.Bool(b.v != 0), b.env))
            case None => None))
    case Cond(c, t, f) =>
      (match SrcE(p, fuel, c, env)
       case None => None
       case Some(a) => if a.v != 0 then SrcE(p, fuel, t, a.env) else SrcE(p, fuel, f, a.env))
    case Comma(lhs, rhs) =>
      (match SrcE(p, fuel, lhs, env)
       case None => None
       case Some(a) => SrcE(p, fuel, rhs, a.env))
    case Call(name, _, args) =>
      (match SrcArgs(p, fuel, args, env)
       case None => None
       case Some(a) =>
         var f := Find(p, name);
         if fuel == 0 || f.None? || f.value.body.None? || |f.value.params| != |a.vs| then None
         else
           (match SrcBody(p, fuel - 1, f.value.body.value, BindEnv(f.value.params, a.vs))
            case Some(Ret(Some(v), _)) => Some(Value(v, a.env))
            case _ => None))
  }

  function SrcArgs(p: Program, fuel: nat, args: Args, env: Env): Option<Values>
    decreases fuel, args
  {
    match args
    case NoArgs => Some(Values([], env))
    case Arg(e, tail) =>
      (match SrcE(p, fuel, e, env)
       case None => None
       case Some(a) =>
         (match SrcArgs(p, fuel, tail, a.env)
          case Some(b) => Some(Values([a.v] + b.vs, b.env))
          case None => None))
  }

  function SrcOpt(p: Program, fuel: nat, e: Option<Expr>, env: Env): Option<Value>
    decreases fuel, e, 1
  {
    match e
    case None => Some(Value(1, env))
    case Some(x) => SrcE(p, fuel, x, env)
  }

  function SrcS(p: Program, fuel: nat, s: Stmt, env: Env): Option<Outcome>
    decreases fuel, s, 1
  {
    match s
    case Block(body) => SrcBody(p, fuel, body, env)
    case Return(value) =>
      (match value
       case None => Some(Ret(None, env))
       case Some(e) =>
         (match SrcE(p, fuel, e, env)
          case Some(a) => Some(Ret(Some(a.v), a.env))
          case None => None))
    case If(c, t, f) =>
      (match SrcE(p, fuel, c, env)
       case None => None
       case Some(a) =>
         if a.v != 0 then SrcS(p, fuel, t, a.env)
         else (match f case Some(x) => SrcS(p, fuel, x, a.env) case None => Some(Next(a.env))))
    case ExprStmt(e) =>
      (match SrcE(p, fuel, e, env)
       case Some(a) => Some(Next(a.env))
       case None => None)
    case For(init, _, _, _) =>
      (match SrcOpt(p, fuel, init, env)
       case Some(a) => SrcLoop(p, fuel, s, a.env)
       case None => None)
  }

  // The iterations of a loop; an absent condition is true.
  function SrcLoop(p: Program, fuel: nat, s: Stmt, env: Env): Option<Outcome>
    requires s.For?
    decreases fuel, s, 0
  {
    match SrcOpt(p, fuel, s.test, env)
    case None => None
    case Some(a) =>
      if a.v == 0 then Some(Next(a.env))
      else
        (match SrcS(p, fuel, s.loop, a.env)
         case Some(Next(env1)) =>
           (match SrcOpt(p, fuel, s.inc, env1)
            case None => None
            case Some(b) => if fuel == 0 then None else SrcLoop(p, fuel - 1, s, b.env))
         case r => r)
  }

  function SrcBody(p: Program, fuel: nat, body: Body, env: Env): Option<Outcome>
    decreases fuel, body, 1
  {
    match body
    case End => Some(Next(env))
    case Then(s, tail) =>
      (match SrcS(p, fuel, s, env)
       case Some(Next(env1)) => SrcBody(p, fuel, tail, env1)
       case r => r)
  }

  // The value of a call; none if the function does not return one.
  function SrcCall(p: Program, fuel: nat, f: Func, vals: seq<I32>): Option<I32> {
    if f.body.None? || |f.params| != |vals| then None
    else
      match SrcBody(p, fuel, f.body.value, BindEnv(f.params, vals))
      case Some(Ret(v, _)) => v
      case _ => None
  }

  // ----- what the interpreter does -----

  // One int per slot; variable x lives in slot x / 8.
  const SLOTS: nat := 256
  const MAX_ARGS: nat := 10
  const PRINTF := "printf"

  type Slots = s: seq<I32> | |s| == SLOTS witness seq(SLOTS, _ => 0)

  function NoSlots(): Slots { seq(SLOTS, _ => 0) }

  function SlotOf(off: nat): nat { off / 8 }

  // Fail: the interpreter gave up.  NullName: it compared a null name with that of a function.  Crash:
  // it did something else that C leaves undefined (a slot outside the array, INT_MIN / -1).  Timeout:
  // the fuel ran out, where the interpreter would go on.
  datatype Eval = Ok(v: I32, slots: Slots, returned: bool) | Fail | NullName | Crash | Timeout
  datatype EvalArgs = Good(vs: seq<I32>, slots: Slots) | Bad(r: Eval)

  function EvalBin(op: Source.BinOp, l: I32, r: I32, slots: Slots): Eval {
    match op
    case Add => Ok(Wrap32(l + r), slots, false)
    case Sub => Ok(Wrap32(l - r), slots, false)
    case Mul => Ok(Wrap32(Mul(l, r)), slots, false)
    case Div => if r == 0 then Fail else if !DivDefined(l, r) then Crash else Ok(Sdiv(l, r), slots, false)
    case Mod => if r == 0 then Fail else if !DivDefined(l, r) then Crash else Ok(Smod(l, r), slots, false)
    case Eq => Ok(Source.Bool(l == r), slots, false)
    case Ne => Ok(Source.Bool(l != r), slots, false)
    case Lt => Ok(Source.Bool(l < r), slots, false)
    case Le => Ok(Source.Bool(l <= r), slots, false)
    case _ => Fail
  }

  predicate Evaluable(op: Source.BinOp) {
    op.Add? || op.Sub? || op.Mul? || op.Div? || op.Mod? || op.Eq? || op.Ne? || op.Lt? || op.Le?
  }

  // The slots of a call: later parameters overwrite earlier ones in the same slot.
  function BindInto(params: seq<nat>, vals: seq<I32>, slots: Slots): Option<Slots> {
    if params == [] || vals == [] then Some(slots)
    else if SlotOf(params[0]) >= SLOTS then None
    else BindInto(params[1..], vals[1..], slots[SlotOf(params[0]) := vals[0]])
  }

  function BindSlots(params: seq<nat>, vals: seq<I32>): Option<Slots> { BindInto(params, vals, NoSlots()) }

  function Truncate(val: int): I32 { Wrap32(val) }

  function EvalE(p: Program, fuel: nat, e: Expr, slots: Slots): Eval
    decreases fuel, e
  {
    match e
    case Num(v) => Ok(Truncate(v), slots, false)
    case Var(x) => if SlotOf(x) >= SLOTS then Crash else Ok(slots[SlotOf(x)], slots, false)
    case Assign(x, rhs) =>
      var a := EvalE(p, fuel, rhs, slots);
      if (a.Ok? || a.Fail?) && SlotOf(x) >= SLOTS then Crash
      else if !a.Ok? then a
      else Ok(a.v, a.slots[SlotOf(x) := a.v], false)
    case Bin(op, lhs, rhs) =>
      if !Evaluable(op) then Fail
      else
        var a := EvalE(p, fuel, lhs, slots);
        if !a.Ok? then a
        else
          var b := EvalE(p, fuel, rhs, a.slots);
          if !b.Ok? then b else EvalBin(op, a.v, b.v, b.slots)
    case Call(name, named, args) =>
      var a := EvalArguments(p, fuel, args, slots, 0);
      if a.Bad? then a.r
      else if !named then NullName
      else
        var f := Find(p, name);
        if f.None? || f.value.body.None? || name == PRINTF then Fail
        else if fuel == 0 then Timeout
        else
          var inner := BindSlots(f.value.params, a.vs);
          if inner.None? then Crash
          else
            var b := EvalStmts(p, fuel - 1, f.value.body.value, inner.value, 0);
            if b.Ok? then Ok(b.v, a.slots, false) else b
    case _ => Fail
  }

  // n arguments have been evaluated; the tenth is one too many.
  function EvalArguments(p: Program, fuel: nat, args: Args, slots: Slots, n: nat): (r: EvalArgs)
    ensures r.Bad? ==> !r.r.Ok?
    decreases fuel, args
  {
    match args
    case NoArgs => Good([], slots)
    case Arg(e, tail) =>
      var a := EvalE(p, fuel, e, slots);
      if !a.Ok? then Bad(a)
      else if n + 1 >= MAX_ARGS then Bad(Fail)
      else
        var b := EvalArguments(p, fuel, tail, a.slots, n + 1);
        if b.Good? then Good([a.v] + b.vs, b.slots) else b
  }

  function EvalS(p: Program, fuel: nat, s: Stmt, slots: Slots): Eval
    decreases fuel, s
  {
    match s
    case Block(body) =>
      var a := EvalStmts(p, fuel, body, slots, 0);
      if a.Ok? && !a.returned then Ok(0, a.slots, false) else a
    case Return(value) =>
      if value.None? then Ok(0, slots, true)
      else
        var a := EvalE(p, fuel, value.value, slots);
        if a.Ok? then Ok(a.v, a.slots, true) else a
    case If(c, t, f) =>
      var a := EvalE(p, fuel, c, slots);
      if !a.Ok? then a
      else if a.v != 0 then EvalS(p, fuel, t, a.slots)
      else if f.Some? then EvalS(p, fuel, f.value, a.slots)
      else Ok(0, a.slots, false)
    case ExprStmt(e) => EvalE(p, fuel, e, slots)
    case For(_, _, _, _) => Fail
  }

  // Statements in order until one returns; the value is that of the last one evaluated.
  function EvalStmts(p: Program, fuel: nat, body: Body, slots: Slots, last: I32): Eval
    decreases fuel, body
  {
    match body
    case End => Ok(last, slots, false)
    case Then(s, tail) =>
      var a := EvalS(p, fuel, s, slots);
      if a.Ok? && !a.returned then EvalStmts(p, fuel, tail, a.slots, a.v) else a
  }

  // ----- slots that do not collide -----

  function Vars(e: Expr): set<nat> {
    match e
    case Num(_) => {}
    case Var(x) => {x}
    case Assign(x, rhs) => {x} + Vars(rhs)
    case Bin(_, l, r) => Vars(l) + Vars(r)
    case Logical(_, l, r) => Vars(l) + Vars(r)
    case Cond(c, t, f) => Vars(c) + Vars(t) + Vars(f)
    case Comma(l, r) => Vars(l) + Vars(r)
    case Call(_, _, args) => VarsArgs(args)
  }

  function VarsArgs(args: Args): set<nat> {
    match args
    case NoArgs => {}
    case Arg(e, tail) => Vars(e) + VarsArgs(tail)
  }

  function VarsOpt(e: Option<Expr>): set<nat> { if e.Some? then Vars(e.value) else {} }

  function VarsS(s: Stmt): set<nat> {
    match s
    case Block(body) => VarsBody(body)
    case Return(value) => VarsOpt(value)
    case If(c, t, f) => Vars(c) + VarsS(t) + if f.Some? then VarsS(f.value) else {}
    case ExprStmt(e) => Vars(e)
    case For(init, test, inc, loop) => VarsOpt(init) + VarsOpt(test) + VarsOpt(inc) + VarsS(loop)
  }

  function VarsBody(body: Body): set<nat> {
    match body
    case End => {}
    case Then(s, tail) => VarsS(s) + VarsBody(tail)
  }

  function ParamSet(f: Func): set<nat> { set x | x in f.params }

  function FuncVars(f: Func): set<nat> { ParamSet(f) + if f.body.Some? then VarsBody(f.body.value) else {} }

  // Different variables have different slots, all inside the array.
  ghost predicate SlotsOk(vars: set<nat>) {
    && (forall x :: x in vars ==> SlotOf(x) < SLOTS)
    && (forall x, y :: x in vars && y in vars && x != y ==> SlotOf(x) != SlotOf(y))
  }

  ghost predicate FuncOk(f: Func) {
    SlotsOk(FuncVars(f)) && |f.params| <= MAX_ARGS && (forall i, j :: 0 <= i < j < |f.params| ==> f.params[i] != f.params[j])
  }

  // ----- functions that are called by name -----

  // The names in the nodes of named calls.
  function Names(e: Expr): set<string> {
    match e
    case Num(_) => {}
    case Var(_) => {}
    case Assign(_, rhs) => Names(rhs)
    case Bin(_, l, r) => Names(l) + Names(r)
    case Logical(_, l, r) => Names(l) + Names(r)
    case Cond(c, t, f) => Names(c) + Names(t) + Names(f)
    case Comma(l, r) => Names(l) + Names(r)
    case Call(name, named, args) => (if named then {name} else {}) + NamesArgs(args)
  }

  function NamesArgs(args: Args): set<string> {
    match args
    case NoArgs => {}
    case Arg(e, tail) => Names(e) + NamesArgs(tail)
  }

  function NamesOpt(e: Option<Expr>): set<string> { if e.Some? then Names(e.value) else {} }

  function NamesS(s: Stmt): set<string> {
    match s
    case Block(body) => NamesBody(body)
    case Return(value) => NamesOpt(value)
    case If(c, t, f) => Names(c) + NamesS(t) + if f.Some? then NamesS(f.value) else {}
    case ExprStmt(e) => Names(e)
    case For(init, test, inc, loop) => NamesOpt(init) + NamesOpt(test) + NamesOpt(inc) + NamesS(loop)
  }

  function NamesBody(body: Body): set<string> {
    match body
    case End => {}
    case Then(s, tail) => NamesS(s) + NamesBody(tail)
  }

  // ----- what the interpreter cannot get through -----

  // It gives up on the expression, or worse, whatever the slots hold.
  predicate Stuck(e: Expr) {
    match e
    case Num(_) => false
    case Var(_) => false
    case Assign(_, rhs) => Stuck(rhs)
    case Bin(op, l, r) => !Evaluable(op) || Stuck(l) || Stuck(r)
    case Call(name, named, args) => !named || name == PRINTF || StuckArgs(args)
    case _ => true
  }

  predicate StuckArgs(args: Args) {
    match args
    case NoArgs => false
    case Arg(e, tail) => Stuck(e) || StuckArgs(tail)
  }

  predicate StuckS(s: Stmt) {
    match s
    case Block(body) => StuckBody(body)
    case Return(value) => value.Some? && Stuck(value.value)
    case If(c, t, f) => Stuck(c) || (StuckS(t) && f.Some? && StuckS(f.value))
    case ExprStmt(e) => Stuck(e)
    case For(_, _, _, _) => true
  }

  // It gets to a statement on which it is stuck if none before that can return.
  predicate StuckBody(body: Body) {
    match body
    case End => false
    case Then(s, tail) => StuckS(s) || (!MayReturn(s) && StuckBody(tail))
  }

  predicate MayReturn(s: Stmt) {
    match s
    case Block(body) => MayReturnBody(body)
    case Return(_) => true
    case If(_, t, f) => MayReturn(t) || (f.Some? && MayReturn(f.value))
    case ExprStmt(_) => false
    case For(_, _, _, _) => false
  }

  predicate MayReturnBody(body: Body) {
    match body
    case End => false
    case Then(s, tail) => MayReturn(s) || MayReturnBody(tail)
  }

  lemma {:induction false} StuckE(p: Program, n: nat, e: Expr, slots: Slots)
    requires Stuck(e)
    ensures !EvalE(p, n, e, slots).Ok?
    decreases e
  {
    hide EvalBin, Find, BindSlots, EvalStmts;
    match e
    case Assign(_, rhs) => StuckE(p, n, rhs, slots);
    case Bin(op, l, r) =>
      if Evaluable(op) {
        if Stuck(l) {
          StuckE(p, n, l, slots);
        } else if EvalE(p, n, l, slots).Ok? {
          StuckE(p, n, r, EvalE(p, n, l, slots).slots);
        }
      }
    case Call(_, _, args) =>
      if StuckArgs(args) {
        StuckArguments(p, n, args, slots, 0);
      }
    case _ =>
  }

  lemma {:induction false} StuckArguments(p: Program, n: nat, args: Args, slots: Slots, k: nat)
    requires StuckArgs(args)
    ensures EvalArguments(p, n, args, slots, k).Bad?
    decreases args
  {
    hide EvalE;
    match args
    case Arg(e, tail) =>
      if Stuck(e) {
        StuckE(p, n, e, slots);
      } else if EvalE(p, n, e, slots).Ok? {
        StuckArguments(p, n, tail, EvalE(p, n, e, slots).slots, k + 1);
      }
  }

  lemma {:induction false} StuckStmt(p: Program, n: nat, s: Stmt, slots: Slots)
    requires StuckS(s)
    ensures !EvalS(p, n, s, slots).Ok?
    decreases s
  {
    hide EvalE;
    match s
    case Block(body) => StuckStmts(p, n, body, slots, 0);
    case Return(value) => StuckE(p, n, value.value, slots);
    case If(c, t, f) =>
      if Stuck(c) {
        StuckE(p, n, c, slots);
      } else if EvalE(p, n, c, slots).Ok? {
        StuckStmt(p, n, t, EvalE(p, n, c, slots).slots);
        StuckStmt(p, n, f.value, EvalE(p, n, c, slots).slots);
      }
    case ExprStmt(e) => StuckE(p, n, e, slots);
    case For(_, _, _, _) =>
  }

  lemma {:induction false} StuckStmts(p: Program, n: nat, body: Body, slots: Slots, last: I32)
    requires StuckBody(body)
    ensures !EvalStmts(p, n, body, slots, last).Ok?
    decreases body
  {
    hide EvalS;
    match body
    case Then(s, tail) =>
      if StuckS(s) {
        StuckStmt(p, n, s, slots);
      } else if EvalS(p, n, s, slots).Ok? {
        NoReturn(p, n, s, slots);
        StuckStmts(p, n, tail, EvalS(p, n, s, slots).slots, EvalS(p, n, s, slots).v);
      }
  }

  lemma NeverReturned(p: Program, n: nat, e: Expr, slots: Slots)
    ensures EvalE(p, n, e, slots).Ok? ==> !EvalE(p, n, e, slots).returned
  {
    hide EvalBin, Find, BindSlots;
    if e.Bin? && EvalE(p, n, e, slots).Ok? {
      var a := EvalE(p, n, e.lhs, slots);
      BinNotReturned(e.op, a.v, EvalE(p, n, e.rhs, a.slots).v, EvalE(p, n, e.rhs, a.slots).slots);
    }
  }

  lemma BinNotReturned(op: Source.BinOp, l: I32, r: I32, slots: Slots)
    ensures EvalBin(op, l, r, slots).Ok? ==> !EvalBin(op, l, r, slots).returned
  {
    hide Sdiv, Smod, DivDefined;
  }

  lemma {:induction false} NoReturn(p: Program, n: nat, s: Stmt, slots: Slots)
    requires !MayReturn(s) && EvalS(p, n, s, slots).Ok?
    ensures !EvalS(p, n, s, slots).returned
    decreases s
  {
    hide EvalE;
    match s
    case Block(body) => NoReturnBody(p, n, body, slots, 0);
    case If(c, t, f) =>
      var s1 := EvalE(p, n, c, slots).slots;
      if EvalE(p, n, c, slots).v != 0 {
        NoReturn(p, n, t, s1);
      } else if f.Some? {
        NoReturn(p, n, f.value, s1);
      }
    case ExprStmt(e) => NeverReturned(p, n, e, slots);
    case _ =>
  }

  lemma {:induction false} NoReturnBody(p: Program, n: nat, body: Body, slots: Slots, last: I32)
    requires !MayReturnBody(body) && EvalStmts(p, n, body, slots, last).Ok?
    ensures !EvalStmts(p, n, body, slots, last).returned
    decreases body
  {
    hide EvalS;
    match body
    case End =>
    case Then(s, tail) =>
      NoReturn(p, n, s, slots);
      var a := EvalS(p, n, s, slots);
      NoReturnBody(p, n, tail, a.slots, a.v);
  }

  // Each function in names has slots of its own and calls by name only functions in names, or the
  // interpreter is stuck on it.
  ghost predicate OkIn(p: Program, names: set<string>) {
    forall i :: 0 <= i < |p| && p[i].name in names && p[i].body.Some? ==>
      StuckBody(p[i].body.value) || (FuncOk(p[i]) && NamesBody(p[i].body.value) <= names)
  }

  // ----- slots and locals -----

  // The slots hold what the locals hold.
  ghost predicate Match(env: Env, slots: Slots, vars: set<nat>) {
    forall x :: x in env ==> x in vars && SlotOf(x) < SLOTS && slots[SlotOf(x)] == env[x]
  }

  lemma MatchSet(env: Env, slots: Slots, vars: set<nat>, x: nat, v: I32)
    requires Match(env, slots, vars) && SlotsOk(vars) && x in vars
    ensures Match(env[x := v], slots[SlotOf(x) := v], vars)
  {
  }

  lemma {:induction false} BindMatch(params: seq<nat>, vals: seq<I32>, vars: set<nat>)
    requires |params| == |vals| && SlotsOk(vars) && (forall x :: x in params ==> x in vars)
    ensures BindSlots(params, vals).Some? && Match(BindEnv(params, vals), BindSlots(params, vals).value, vars)
    decreases |params|
  {
    if params != [] {
      var n := |params| - 1;
      BindMatch(params[..n], vals[..n], vars);
      BindLast(params, vals, NoSlots(), vars);
      MatchSet(BindEnv(params[..n], vals[..n]), BindSlots(params[..n], vals[..n]).value, vars, params[n], vals[n]);
    }
  }

  // The last parameter is bound last.
  lemma {:induction false} BindLast(params: seq<nat>, vals: seq<I32>, slots: Slots, vars: set<nat>)
    requires |params| == |vals| > 0 && SlotsOk(vars) && (forall x :: x in params ==> x in vars)
    ensures var n := |params| - 1; var r := BindInto(params[..n], vals[..n], slots);
      r.Some? && BindInto(params, vals, slots) == Some(r.value[SlotOf(params[n]) := vals[n]])
    decreases |params|
  {
    var n := |params| - 1;
    if n > 0 {
      var s1 := slots[SlotOf(params[0]) := vals[0]];
      BindLast(params[1..], vals[1..], s1, vars);
      assert params[..n][1..] == params[1..][..n - 1] && vals[..n][1..] == vals[1..][..n - 1];
    } else {
      assert params[1..] == [] && vals[1..] == [];
    }
  }

  // ----- the interpreter is right -----

  lemma BinAgrees(op: Source.BinOp, a: I32, b: I32, slots: Slots)
    requires StrictBin(op, a, b).Some? && EvalBin(op, a, b, slots).Ok?
    ensures EvalBin(op, a, b, slots) == Ok(StrictBin(op, a, b).value, slots, false)
  {
    hide Sdiv, Smod, DivDefined;
  }

  lemma FindOk(p: Program, names: set<string>, name: string)
    requires OkIn(p, names) && name in names && Find(p, name).Some? && Find(p, name).value.body.Some?
    ensures var f := Find(p, name).value; StuckBody(f.body.value) || (FuncOk(f) && NamesBody(f.body.value) <= names)
  {
  }

  // If C gives the expression a value and the interpreter finishes, they agree, and so do the
  // locals and the slots; the two may have run with different fuel.
  lemma {:induction false} ExprAgrees(p: Program, names: set<string>, m: nat, n: nat, e: Expr, env: Env, slots: Slots, vars: set<nat>)
    requires OkIn(p, names) && Names(e) <= names && SlotsOk(vars) && Vars(e) <= vars && Match(env, slots, vars)
    requires SrcE(p, m, e, env).Some? && EvalE(p, n, e, slots).Ok?
    ensures var a, b := SrcE(p, m, e, env).value, EvalE(p, n, e, slots);
      b.v == a.v && !b.returned && Match(a.env, b.slots, vars)
    decreases n, e
  {
    hide OkIn, SlotsOk, Match, StrictBin, EvalBin;
    match e
    case Num(_) =>
    case Var(x) => VarAgrees(x, env, slots, vars);
    case Assign(x, rhs) =>
      ExprAgrees(p, names, m, n, rhs, env, slots, vars);
      MatchSet(SrcE(p, m, rhs, env).value.env, EvalE(p, n, rhs, slots).slots, vars, x, SrcE(p, m, rhs, env).value.v);
    case Bin(op, lhs, rhs) =>
      ExprAgrees(p, names, m, n, lhs, env, slots, vars);
      var a, s1 := SrcE(p, m, lhs, env).value, EvalE(p, n, lhs, slots).slots;
      ExprAgrees(p, names, m, n, rhs, a.env, s1, vars);
      BinAgrees(op, a.v, SrcE(p, m, rhs, a.env).value.v, EvalE(p, n, rhs, s1).slots);
    case Call(name, named, args) => CallAgrees(p, names, m, n, name, named, args, env, slots, vars);
    case _ =>
  }

  lemma VarAgrees(x: nat, env: Env, slots: Slots, vars: set<nat>)
    requires Match(env, slots, vars) && x in env
    ensures SlotOf(x) < SLOTS && slots[SlotOf(x)] == env[x]
  {
  }

  lemma {:induction false} CallAgrees(p: Program, names: set<string>, m: nat, n: nat, name: string, named: bool, args: Args, env: Env, slots: Slots, vars: set<nat>)
    requires OkIn(p, names) && NamesArgs(args) <= names && (named ==> name in names) && SlotsOk(vars) && VarsArgs(args) <= vars && Match(env, slots, vars)
    requires SrcE(p, m, Call(name, named, args), env).Some? && EvalE(p, n, Call(name, named, args), slots).Ok?
    ensures var a, b := SrcE(p, m, Call(name, named, args), env).value, EvalE(p, n, Call(name, named, args), slots);
      b.v == a.v && !b.returned && Match(a.env, b.slots, vars)
    decreases n, Call(name, named, args), 0
  {
    hide OkIn, SlotsOk, Match;
    ArgsAgree(p, names, m, n, args, env, slots, 0, vars);
    var f := Find(p, name).value;
    FindOk(p, names, name);
    if StuckBody(f.body.value) {
      StuckStmts(p, n - 1, f.body.value, BindSlots(f.params, SrcArgs(p, m, args, env).value.vs).value, 0);
    }
    var vs := SrcArgs(p, m, args, env).value.vs;
    FunctionAgrees(p, names, m - 1, n - 1, f, vs);
  }

  // A whole call.  The calls that it makes in turn are named, or the interpreter would not end well.
  lemma {:induction false} FunctionAgrees(p: Program, names: set<string>, m: nat, n: nat, f: Func, vals: seq<I32>)
    requires OkIn(p, names) && FuncOk(f) && f.body.Some? && NamesBody(f.body.value) <= names && |f.params| == |vals|
    requires SrcCall(p, m, f, vals).Some? && BindSlots(f.params, vals).Some?
    requires EvalStmts(p, n, f.body.value, BindSlots(f.params, vals).value, 0).Ok?
    ensures EvalStmts(p, n, f.body.value, BindSlots(f.params, vals).value, 0).v == SrcCall(p, m, f, vals).value
    decreases n, f.body.value, 1
  {
    hide OkIn, SlotsOk, Match;
    var vars := FuncVars(f);
    BindMatch(f.params, vals, vars);
    BodyAgrees(p, names, m, n, f.body.value, BindEnv(f.params, vals), BindSlots(f.params, vals).value, 0, vars);
  }

  lemma {:induction false} ArgsAgree(p: Program, names: set<string>, m: nat, n: nat, args: Args, env: Env, slots: Slots, k: nat, vars: set<nat>)
    requires OkIn(p, names) && NamesArgs(args) <= names && SlotsOk(vars) && VarsArgs(args) <= vars && Match(env, slots, vars)
    requires SrcArgs(p, m, args, env).Some? && EvalArguments(p, n, args, slots, k).Good?
    ensures var a, b := SrcArgs(p, m, args, env).value, EvalArguments(p, n, args, slots, k);
      b.vs == a.vs && Match(a.env, b.slots, vars)
    decreases n, args
  {
    hide OkIn, SlotsOk, Match;
    match args
    case NoArgs =>
    case Arg(e, tail) =>
      ExprAgrees(p, names, m, n, e, env, slots, vars);
      ArgsAgree(p, names, m, n, tail, SrcE(p, m, e, env).value.env, EvalE(p, n, e, slots).slots, k + 1, vars);
  }

  // The interpreter returns where C returns, with the same value.
  ghost predicate Agree(a: Outcome, b: Eval, vars: set<nat>) {
    b.Ok? && Match(a.env, b.slots, vars) && (b.returned <==> a.Ret?) && (a.Ret? && a.v.Some? ==> b.v == a.v.value)
  }

  lemma {:induction false} StmtAgrees(p: Program, names: set<string>, m: nat, n: nat, s: Stmt, env: Env, slots: Slots, vars: set<nat>)
    requires OkIn(p, names) && NamesS(s) <= names && SlotsOk(vars) && VarsS(s) <= vars && Match(env, slots, vars)
    requires SrcS(p, m, s, env).Some? && EvalS(p, n, s, slots).Ok?
    ensures Agree(SrcS(p, m, s, env).value, EvalS(p, n, s, slots), vars)
    decreases n, s
  {
    hide OkIn, SlotsOk, Match;
    match s
    case Block(body) => BodyAgrees(p, names, m, n, body, env, slots, 0, vars);
    case Return(value) =>
      if value.Some? {
        ExprAgrees(p, names, m, n, value.value, env, slots, vars);
      }
    case If(c, t, f) =>
      ExprAgrees(p, names, m, n, c, env, slots, vars);
      var a, s1 := SrcE(p, m, c, env).value, EvalE(p, n, c, slots).slots;
      if a.v != 0 {
        StmtAgrees(p, names, m, n, t, a.env, s1, vars);
      } else if f.Some? {
        StmtAgrees(p, names, m, n, f.value, a.env, s1, vars);
      }
    case ExprStmt(e) => ExprAgrees(p, names, m, n, e, env, slots, vars);
    case For(_, _, _, _) =>
  }

  lemma {:induction false} BodyAgrees(p: Program, names: set<string>, m: nat, n: nat, body: Body, env: Env, slots: Slots, last: I32, vars: set<nat>)
    requires OkIn(p, names) && NamesBody(body) <= names && SlotsOk(vars) && VarsBody(body) <= vars && Match(env, slots, vars)
    requires SrcBody(p, m, body, env).Some? && EvalStmts(p, n, body, slots, last).Ok?
    ensures Agree(SrcBody(p, m, body, env).value, EvalStmts(p, n, body, slots, last), vars)
    decreases n, body, 0
  {
    hide OkIn, SlotsOk, Match;
    match body
    case End =>
    case Then(s, tail) =>
      StmtAgrees(p, names, m, n, s, env, slots, vars);
      var a, b := SrcS(p, m, s, env).value, EvalS(p, n, s, slots);
      if a.Next? {
        BodyAgrees(p, names, m, n, tail, a.env, b.slots, b.v, vars);
      }
  }
}
