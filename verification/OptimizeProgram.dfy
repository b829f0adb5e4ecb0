/** The optimizer on a whole program: the functions in turn, their bodies rewritten in place. */
module OptimizeProgram {
  import opened Options
  import opened Interpreter
  import opened Optimizer
  import opened OptimizerTrees
  import opened OptimizerViews
  import opened OptimizeNodes

  class Item {
    const name: string
    const params: seq<nat>
    const cleanup: bool
    var body: Node?

    constructor (f: Func, head: Node?)
      ensures name == f.name && params == f.params && cleanup == f.cleanup && body == head
    {
      name, params, cleanup, body := f.name, f.params, f.cleanup, head;
    }
  }

  function BodyTrees(f: Func): seq<Tree> { if f.body.Some? then TreesBody(f.body.value) else [] }

  // The item is the function f, and its statements are made of the nodes in ss.
  ghost predicate IsFunc(it: Item, f: Func, ss: seq<Shape>)
    reads it, FootAll(ss)
  {
    && it.name == f.name && it.params == f.params && it.cleanup == f.cleanup
    && Chain(it.body, ss) && AllFit(ss) && TreesAt(ss) == BodyTrees(f)
  }

  ghost predicate AllApart(shapes: seq<seq<Shape>>) {
    forall i, j :: 0 <= i < j < |shapes| ==> FootAll(shapes[i]) !! FootAll(shapes[j])
  }

  ghost function FootOf(shapes: seq<seq<Shape>>): set<Node> {
    set i, n | 0 <= i < |shapes| && n in FootAll(shapes[i]) :: n
  }

  // The items are the program p, and no node is in two of them.
  ghost predicate IsProgram(items: seq<Item>, p: Program, shapes: seq<seq<Shape>>)
    reads items, FootOf(shapes)
  {
    && |items| == |p| == |shapes| && Distinct(items) && AllApart(shapes)
    && forall i :: 0 <= i < |p| ==> IsFunc(items[i], p[i], shapes[i])
  }

  // What becomes of function f.
  function RewriteFunc(p: Program, fuel: nat, f: Func): Result<Func> {
    if f.body.None? then Done(f)
    else
      var body1 :- RewriteBody(p, fuel, f.body.value);
      Done(f.(body := Some(body1)))
  }

  lemma FuncTrees(p: Program, fuel: nat, f: Func)
    ensures AllFormed(BodyTrees(f))
    ensures RewriteTrees(p, fuel, BodyTrees(f)) == Mapped(RewriteFunc(p, fuel, f), BodyTrees)
  {
    hide RewriteTrees, RewriteBody, AllFormed;
    if f.body.Some? {
      SameBody(p, fuel, f.body.value);
    } else {
      NoTrees(p, fuel);
    }
  }

  // Functions in front of others.
  function After(fs: Program, rest: Result<Program>): Result<Program> {
    var r :- rest;
    Done(fs + r)
  }

  lemma FromStep(p: Program, fuel: nat, k: nat)
    requires k < |p|
    ensures RewriteFunc(p, fuel, p[k]).Aborted? ==> RewriteFrom(p, fuel, k) == Aborted(RewriteFunc(p, fuel, p[k]).why)
    ensures RewriteFunc(p, fuel, p[k]).Done? ==>
      RewriteFrom(p, fuel, k) == After([RewriteFunc(p, fuel, p[k]).value], RewriteFrom(p, fuel, k + 1))
  {
    hide RewriteBody;
  }

  ghost function OthersOf(shapes: seq<seq<Shape>>, k: nat): set<Node> {
    if k < |shapes| then FootOf(shapes) - FootAll(shapes[k]) else {}
  }

  ghost function OtherItems(items: seq<Item>, k: nat): set<Item> { set i | 0 <= i < |items| && i != k :: items[i] }

  // All functions but k are those of the program.
  ghost predicate IsProgramBut(items: seq<Item>, p: Program, shapes: seq<seq<Shape>>, k: nat)
    reads OtherItems(items, k), OthersOf(shapes, k)
  {
    && k < |items| == |p| == |shapes| && Distinct(items) && AllApart(shapes)
    && forall i :: 0 <= i < |p| && i != k ==> FootAll(shapes[i]) !! FootAll(shapes[k]) && FootAll(shapes[i]) <= FootOf(shapes) && IsFunc(items[i], p[i], shapes[i])
  }

  // The statements of one function.
  method OptimizeItem(p: Program, fuel: nat, it: Item, ghost f: Func, ghost ss: seq<Shape>) returns (stop: Option<Reason>, ghost ss1: seq<Shape>)
    requires IsFunc(it, f, ss)
    modifies it, FootAll(ss)
    ensures stop.Some? ==> RewriteFunc(p, fuel, f) == Aborted(stop.value)
    ensures stop.None? ==> RewriteFunc(p, fuel, f).Done? && IsFunc(it, RewriteFunc(p, fuel, f).value, ss1)
    ensures stop.None? ==> forall x <- FootAll(ss1) :: x in FootAll(ss) || fresh(x)
  {
    hide RewriteTrees, RewriteBody, Formed, AllFormed, FootAll, AllFit, TreesAt, TreesBody;
    FuncTrees(p, fuel, f);
    var head;
    head, stop, ss1 := OptimizeList(p, fuel, it.body, ss);
    if stop.Some? {
      return;
    }
    HeadsInside(ss1);
    ghost var heads, foot := Heads(ss1), FootAll(ss1);
    assert allocated(heads) && allocated(foot);
    it.body := head;
  }

  lemma ProgramParts(items: seq<Item>, p: Program, shapes: seq<seq<Shape>>, k: nat)
    requires IsProgram(items, p, shapes) && k < |p|
    ensures IsProgramBut(items, p, shapes, k) && IsFunc(items[k], p[k], shapes[k]) && FootAll(shapes[k]) <= FootOf(shapes)
  {
    hide IsFunc, FootAll;
  }

  // Function k is another one.
  lemma ProgramReplaced(items: seq<Item>, p: Program, shapes: seq<seq<Shape>>, k: nat, f1: Func, ss1: seq<Shape>)
    requires IsProgramBut(items, p, shapes, k) && IsFunc(items[k], f1, ss1) && FootAll(ss1) !! OthersOf(shapes, k)
    ensures IsProgram(items, p[k := f1], shapes[k := ss1]) && FootOf(shapes[k := ss1]) <= FootOf(shapes) + FootAll(ss1)
  {
    hide IsFunc, FootAll;
    var shapes1 := shapes[k := ss1];
    forall i | 0 <= i < |shapes| && i != k ensures FootAll(shapes1[i]) !! FootAll(ss1) {
      assert FootAll(shapes[i]) !! FootAll(shapes[k]) && FootAll(shapes[i]) <= FootOf(shapes);
    }
  }

  lemma ItemApart(items: seq<Item>, k: nat)
    requires Distinct(items) && k < |items|
    ensures items[k] !in OtherItems(items, k)
  {
  }

  // One function.
  method OptimizeNext(p: Program, fuel: nat, items: seq<Item>, k: nat, ghost cp: Program, ghost shapes: seq<seq<Shape>>)
    returns (stop: Option<Reason>, ghost cp1: Program, ghost shapes1: seq<seq<Shape>>)
    requires k < |items| == |p| && IsProgram(items, cp, shapes) && cp[k] == p[k]
    modifies items, FootOf(shapes)
    ensures stop.Some? ==> RewriteFunc(p, fuel, p[k]) == Aborted(stop.value)
    ensures stop.None? ==> RewriteFunc(p, fuel, p[k]).Done? && cp1 == cp[k := RewriteFunc(p, fuel, p[k]).value]
    ensures stop.None? ==> IsProgram(items, cp1, shapes1) && (forall x <- FootOf(shapes1) :: x in FootOf(shapes) || fresh(x))
  {
    hide IsFunc, FootAll, RewriteFunc;
    cp1, shapes1 := cp, shapes;
    ProgramParts(items, cp, shapes, k);
    ItemApart(items, k);
    ghost var others, rest := OthersOf(shapes, k), OtherItems(items, k);
    assert allocated(others) && allocated(rest);
    ghost var ss1;
    stop, ss1 := OptimizeItem(p, fuel, items[k], cp[k], shapes[k]);
    if stop.Some? {
      return;
    }
    assert IsProgramBut(items, cp, shapes, k);
    ghost var f1 := RewriteFunc(p, fuel, p[k]).value;
    ProgramReplaced(items, cp, shapes, k, f1, ss1);
    cp1, shapes1 := cp[k := f1], shapes[k := ss1];
  }

  // optimize: afterwards the nodes are the program that Optimize computes, or the compiler is gone.
  method OptimizeAll(p: Program, items: seq<Item>, ghost shapes: seq<seq<Shape>>) returns (stop: Option<Reason>, ghost shapes1: seq<seq<Shape>>)
    requires IsProgram(items, p, shapes) && Parsed(p)
    modifies items, FootOf(shapes)
    ensures stop.Some? ==> Optimize(p) == Aborted(stop.value)
    ensures stop.None? ==> Optimize(p).Done? && IsProgram(items, Optimize(p).value, shapes1)
  {
    hide IsFunc, FootAll, FootOf, RewriteFunc, RewriteFrom, OptProgram, Parsed, AllApart, IsProgram;
    RewrittenInPlace(p, |p|, |p|);
    ghost var cp := p;
    shapes1 := shapes;
    SameLength(items, p, shapes);
    assert p[..0] == [];
    NothingYet(RewriteFrom(p, |p|, 0));
    for k := 0 to |items|
      invariant |cp| == |p| == |items| && (forall i :: k <= i < |p| ==> cp[i] == p[i])
      invariant IsProgram(items, cp, shapes1) && (forall x <- FootOf(shapes1) :: x in FootOf(shapes) || fresh(x))
      invariant RewriteFrom(p, |p|, 0) == After(cp[..k], RewriteFrom(p, |p|, k))
    {
      FromStep(p, |p|, k);
      ghost var before := cp;
      stop, cp, shapes1 := OptimizeNext(p, |p|, items, k, before, shapes1);
      if stop.Some? {
        return;
      }
      OneDone(p, before, cp, k);
    }
    NoneLeft(p, cp);
    stop := None;
  }

  lemma SameLength(items: seq<Item>, p: Program, shapes: seq<seq<Shape>>)
    requires IsProgram(items, p, shapes)
    ensures |items| == |p|
  {
  }

  lemma NothingYet(r: Result<Program>)
    ensures After([], r) == r
  {
    if r.Done? {
      assert [] + r.value == r.value;
    }
  }

  lemma OneDone(p: Program, before: Program, cp: Program, k: nat)
    requires k < |p| == |before| && RewriteFunc(p, |p|, p[k]).Done? && cp == before[k := RewriteFunc(p, |p|, p[k]).value]
    requires RewriteFrom(p, |p|, 0) == After(before[..k], RewriteFrom(p, |p|, k))
    ensures RewriteFrom(p, |p|, 0) == After(cp[..k + 1], RewriteFrom(p, |p|, k + 1))
  {
    hide RewriteFunc, RewriteFrom;
    FromStep(p, |p|, k);
    var f1, r := RewriteFunc(p, |p|, p[k]).value, RewriteFrom(p, |p|, k + 1);
    assert cp[..k + 1] == before[..k] + [f1];
    if r.Done? {
      assert before[..k] + ([f1] + r.value) == cp[..k + 1] + r.value;
    }
  }

  lemma NoneLeft(p: Program, cp: Program)
    requires |cp| == |p| && RewriteFrom(p, |p|, 0) == After(cp[..|p|], RewriteFrom(p, |p|, |p|))
    ensures RewriteFrom(p, |p|, 0) == Done(cp)
  {
    assert cp[..|p|] + [] == cp;
  }
}
