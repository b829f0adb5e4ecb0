/** The optimizer as it runs: nodes whose links are rewritten in place. */
module OptimizeNodes {
  import opened Words
  import opened Options
  import opened Interpreter
  import opened Optimizer
  import opened OptimizerTrees
  import EvalAst

  class Node {
    const kind: Kind
    var lhs: Node?
    var rhs: Node?
    var cond: Node?
    var thn: Node?
    var els: Node?
    var init: Node?
    var inc: Node?
    var body: Node?
    var args: Node?
    var next: Node?

    constructor (k: Kind)
      ensures kind == k && next == null && body == null && args == null && forall i :: 0 <= i < KIDS ==> Kid(i) == null
    {
      kind := k;
      lhs, rhs, cond, thn, els, init, inc, body, args, next := null, null, null, null, null, null, null, null, null, null;
    }

    function Kid(i: nat): Node?
      reads this
    {
      if i == 0 then lhs
      else if i == 1 then rhs
      else if i == 2 then cond
      else if i == 3 then thn
      else if i == 4 then els
      else if i == 5 then init
      else inc
    }

    method SetKid(i: nat, n: Node?)
      requires i < KIDS
      modifies this
      ensures Kid(i) == n && forall j :: 0 <= j < KIDS && j != i ==> Kid(j) == old(Kid(j))
      ensures body == old(body) && args == old(args) && next == old(next)
    {
      match i
      case 0 => lhs := n;
      case 1 => rhs := n;
      case 2 => cond := n;
      case 3 => thn := n;
      case 4 => els := n;
      case 5 => init := n;
      case _ => inc := n;
    }

    function List(isArgs: bool): Node?
      reads this
    {
      if isArgs then args else body
    }

    method SetList(isArgs: bool, n: Node?)
      modifies this
      ensures List(isArgs) == n && List(!isArgs) == old(List(!isArgs)) && next == old(next)
      ensures forall i :: 0 <= i < KIDS ==> Kid(i) == old(Kid(i))
    {
      if isArgs { args := n; } else { body := n; }
    }
  }

  // ----- which nodes a tree is made of -----

  datatype Shape = Gone | At(node: Node, kids: seq<Shape>, body: seq<Shape>, args: seq<Shape>)

  ghost function Root(s: Shape): Node? { if s.At? then s.node else null }

  ghost function Foot(s: Shape): set<Node> {
    if s.Gone? then {} else {s.node} + FootAll(s.kids) + FootAll(s.body) + FootAll(s.args)
  }

  ghost function FootAll(ss: seq<Shape>): (nodes: set<Node>)
    ensures forall i :: 0 <= i < |ss| ==> Foot(ss[i]) <= nodes
  {
    set i, n | 0 <= i < |ss| && n in Foot(ss[i]) :: n
  }

  ghost function TreeAt(s: Shape): Tree {
    if s.Gone? then Null else T(s.node.kind, TreesAt(s.kids), TreesAt(s.body), TreesAt(s.args))
  }

  ghost function TreesAt(ss: seq<Shape>): (ts: seq<Tree>)
    ensures |ts| == |ss| && forall i :: 0 <= i < |ss| ==> ts[i] == TreeAt(ss[i])
  {
    seq(|ss|, i requires 0 <= i < |ss| => TreeAt(ss[i]))
  }

  ghost function RootOf(ss: seq<Shape>, i: nat): Node? { if i < |ss| then Root(ss[i]) else null }

  ghost function Heads(ss: seq<Shape>): (nodes: set<Node>)
    ensures nodes <= FootAll(ss)
  {
    assert forall i :: 0 <= i < |ss| && ss[i].At? ==> ss[i].node in Foot(ss[i]);
    set i | 0 <= i < |ss| && ss[i].At? :: ss[i].node
  }

  // A list of nodes.
  ghost predicate Chain(head: Node?, ss: seq<Shape>)
    reads Heads(ss)
  {
    && (forall i :: 0 <= i < |ss| ==> ss[i].At?) && head == RootOf(ss, 0)
    && (forall i :: 0 <= i < |ss| ==> ss[i].node.next == RootOf(ss, i + 1))
  }

  // The nodes are linked as the shape says, and no node is in two places.
  ghost predicate Fits(s: Shape)
    reads Foot(s)
    decreases s, 0
  {
    s.At? ==>
      && |s.kids| == KIDS && (forall i :: 0 <= i < KIDS ==> s.node.Kid(i) == Root(s.kids[i]))
      && Chain(s.node.body, s.body) && Chain(s.node.args, s.args)
      && AllFit(s.kids) && AllFit(s.body) && AllFit(s.args) && Apart(s)
  }

  ghost predicate Apart(s: Shape)
    requires s.At?
  {
    && s.node !in FootAll(s.kids) + FootAll(s.body) + FootAll(s.args)
    && FootAll(s.kids) !! FootAll(s.body) !! FootAll(s.args)
  }

  ghost predicate Separate(ss: seq<Shape>) { forall i, j :: 0 <= i < j < |ss| ==> Foot(ss[i]) !! Foot(ss[j]) }

  ghost predicate AllFit(ss: seq<Shape>)
    reads FootAll(ss)
    decreases ss, 0
  {
    Separate(ss) && forall i :: 0 <= i < |ss| ==> Fits(ss[i])
  }

  // ----- rewriting one tree after the other -----

  lemma {:induction false} TreesDone(p: Program, fuel: nat, ts: seq<Tree>, us: seq<Tree>)
    requires AllFormed(ts) && |us| == |ts| && forall i :: 0 <= i < |ts| ==> RewriteTree(p, fuel, ts[i]) == Done(us[i])
    ensures RewriteTrees(p, fuel, ts) == Done(us)
    decreases |ts|
  {
    hide RewriteTree;
    if ts != [] {
      TreesDone(p, fuel, ts[1..], us[1..]);
      assert us == [us[0]] + us[1..];
    }
  }

  lemma {:induction false} TreesAborted(p: Program, fuel: nat, ts: seq<Tree>, k: nat)
    requires AllFormed(ts) && k < |ts| && (forall i :: 0 <= i < k ==> RewriteTree(p, fuel, ts[i]).Done?)
    requires RewriteTree(p, fuel, ts[k]).Aborted?
    ensures RewriteTrees(p, fuel, ts) == Aborted(RewriteTree(p, fuel, ts[k]).why)
    decreases |ts|
  {
    hide RewriteTree;
    if k > 0 {
      TreesAborted(p, fuel, ts[1..], k - 1);
    }
  }

  // ----- optimize_node -----

  // s1 is what the rewriting makes of s, or the reason why it stopped.
  ghost predicate Becomes(r: Result<Tree>, stop: Option<Reason>, s1: Shape) {
    match r
    case Done(t) => stop == None && TreeAt(s1) == t
    case Aborted(why) => stop == Some(why)
  }

  lemma FootIn(ss: seq<Shape>, i: nat)
    requires i < |ss|
    ensures Foot(ss[i]) <= FootAll(ss)
  {
  }

  // The nodes that are not part of child i.
  ghost function Others(s: Shape, i: nat): set<Node> {
    if s.At? && i < |s.kids| then Foot(s) - Foot(s.kids[i]) else {}
  }

  // Everything but child i is linked as the shape says.
  ghost predicate FitsBut(s: Shape, i: nat)
    reads Others(s, i)
  {
    && s.At? && |s.kids| == KIDS && i < KIDS && Apart(s) && Separate(s.kids)
    && (forall j :: 0 <= j < KIDS && j != i ==> s.node.Kid(j) == Root(s.kids[j]))
    && Chain(s.node.body, s.body) && Chain(s.node.args, s.args) && AllFit(s.body) && AllFit(s.args)
    && (forall j :: 0 <= j < KIDS && j != i ==> Foot(s.kids[j]) !! Foot(s.kids[i]) && Fits(s.kids[j]))
  }

  lemma FitsParts(s: Shape, i: nat)
    requires Fits(s) && s.At? && i < KIDS
    ensures |s.kids| == KIDS && Apart(s) && Separate(s.kids) && FitsBut(s, i) && Fits(s.kids[i]) && s.node.Kid(i) == Root(s.kids[i])
    ensures s.node !in Foot(s.kids[i])
  {
    FootIn(s.kids, i);
    forall j | 0 <= j < KIDS && j != i ensures Foot(s.kids[j]) !! Foot(s.kids[i]) && Foot(s.kids[j]) <= FootAll(s.kids) {
      FootIn(s.kids, j);
    }
  }

  // The nodes of a shape whose child i is another one.
  lemma FootReplaced(s: Shape, i: nat, k: Shape)
    requires s.At? && |s.kids| == KIDS && i < KIDS && Apart(s) && Separate(s.kids)
    requires Foot(k) !! (Foot(s) - Foot(s.kids[i]))
    ensures var s1 := s.(kids := s.kids[i := k]);
      && Foot(s1) <= Foot(s) + Foot(k) && Apart(s1) && Separate(s1.kids)
  {
    var s1 := s.(kids := s.kids[i := k]);
    FootIn(s.kids, i);
    forall j | 0 <= j < KIDS && j != i ensures Foot(s.kids[j]) <= FootAll(s.kids) && Foot(s.kids[j]) !! Foot(s.kids[i]) && Foot(s.kids[j]) !! Foot(k) {
      FootIn(s.kids, j);
    }
    assert FootAll(s1.kids) <= FootAll(s.kids) + Foot(k);
    assert FootAll(s.body) !! Foot(k) && FootAll(s.args) !! Foot(k) && s.node !in Foot(k);
  }

  lemma MakeFits(s: Shape)
    requires s.At? && |s.kids| == KIDS && Apart(s)
    requires forall i :: 0 <= i < KIDS ==> s.node.Kid(i) == Root(s.kids[i])
    requires Chain(s.node.body, s.body) && Chain(s.node.args, s.args)
    requires AllFit(s.kids) && AllFit(s.body) && AllFit(s.args)
    ensures Fits(s)
  {
  }

  twostate lemma StillFits(s: Shape)
    requires old(Fits(s)) && old(allocated(Foot(s))) && unchanged(Foot(s))
    ensures Fits(s)
  {
  }

  twostate lemma StillAllFit(ss: seq<Shape>)
    requires old(AllFit(ss)) && old(allocated(FootAll(ss))) && unchanged(FootAll(ss))
    ensures AllFit(ss)
  {
  }

  // Child i is replaced by k.
  method ReplaceKid(node: Node, i: nat, k: Node?, ghost s: Shape, ghost k1: Shape)
    requires FitsBut(s, i) && node == s.node
    requires Fits(k1) && k == Root(k1) && Foot(k1) !! (Foot(s) - Foot(s.kids[i])) && node !in Foot(k1)
    modifies node
    ensures Fits(s.(kids := s.kids[i := k1])) && node.next == old(node.next)
  {
    hide Foot, FootAll, Fits, AllFit, Chain, Heads;
    ghost var s1 := s.(kids := s.kids[i := k1]);
    FootReplaced(s, i, k1);
    FootParts(s);
    HeadsParts(s);
    label before:
    assert Fits(k1);
    node.SetKid(i, k);
    forall j | 0 <= j < KIDS && j != i ensures Fits(s.kids[j]) {
      StillFits@before(s.kids[j]);
    }
    StillFits@before(k1);
    StillAllFit@before(s.body);
    StillAllFit@before(s.args);
    assert AllFit(s1.kids) by { MakeAllFit(s1.kids); }
    MakeFits(s1);
  }

  lemma FootParts(s: Shape)
    requires s.At?
    ensures Foot(s) == {s.node} + FootAll(s.kids) + FootAll(s.body) + FootAll(s.args)
  {
  }

  lemma HeadsParts(s: Shape)
    requires s.At?
    ensures Heads(s.body) <= FootAll(s.body) && Heads(s.args) <= FootAll(s.args)
  {
  }

  lemma MakeAllFit(ss: seq<Shape>)
    requires Separate(ss) && forall i :: 0 <= i < |ss| ==> Fits(ss[i])
    ensures AllFit(ss)
  {
  }

  // The first i children of s have been rewritten.
  ghost predicate KidsDone(p: Program, fuel: nat, s: Shape, cur: Shape, i: nat)
    requires s.At? && |s.kids| == KIDS && AllFormed(TreesAt(s.kids))
  {
    && cur.At? && |cur.kids| == KIDS && cur.node == s.node && cur.body == s.body && cur.args == s.args
    && (forall j :: 0 <= j < i && j < KIDS ==> DoneAt(p, fuel, TreesAt(s.kids)[j], cur.kids[j]))
    && (forall j :: i <= j < KIDS ==> cur.kids[j] == s.kids[j])
  }

  ghost predicate DoneAt(p: Program, fuel: nat, t: Tree, s1: Shape)
    requires Formed(t)
  {
    RewriteTree(p, fuel, t) == Done(TreeAt(s1))
  }

  lemma NextKid(p: Program, fuel: nat, s: Shape, cur: Shape, i: nat, k: Shape)
    requires s.At? && |s.kids| == KIDS && AllFormed(TreesAt(s.kids)) && i < KIDS && KidsDone(p, fuel, s, cur, i)
    requires DoneAt(p, fuel, TreesAt(s.kids)[i], k)
    ensures KidsDone(p, fuel, s, cur.(kids := cur.kids[i := k]), i + 1)
  {
    hide DoneAt;
  }

  lemma KidStops(p: Program, fuel: nat, s: Shape, cur: Shape, i: nat)
    requires s.At? && |s.kids| == KIDS && AllFormed(TreesAt(s.kids)) && i < KIDS && KidsDone(p, fuel, s, cur, i)
    requires RewriteTree(p, fuel, TreesAt(s.kids)[i]).Aborted?
    ensures RewriteTrees(p, fuel, TreesAt(s.kids)) == Aborted(RewriteTree(p, fuel, TreesAt(s.kids)[i]).why)
  {
    hide RewriteTree;
    forall j | 0 <= j < i ensures RewriteTree(p, fuel, TreesAt(s.kids)[j]).Done? {
      assert DoneAt(p, fuel, TreesAt(s.kids)[j], cur.kids[j]);
    }
    TreesAborted(p, fuel, TreesAt(s.kids), i);
  }

  method OptimizeKid(p: Program, fuel: nat, node: Node, i: nat, ghost s: Shape, ghost cur: Shape)
    returns (stop: Option<Reason>, ghost cur1: Shape)
    requires s.At? && |s.kids| == KIDS && AllFormed(TreesAt(s.kids)) && i < KIDS
    requires KidsDone(p, fuel, s, cur, i) && Fits(cur) && node == cur.node
    modifies Foot(cur)
    ensures stop.Some? ==> RewriteTrees(p, fuel, TreesAt(s.kids)) == Aborted(stop.value)
    ensures stop.None? ==> KidsDone(p, fuel, s, cur1, i + 1) && Fits(cur1) && (forall x <- Foot(cur1) :: x in Foot(cur) || fresh(x)) && node.next == old(node.next)
    decreases s.kids[i], 2
  {
    hide RewriteTree, RewriteTrees, Formed, Foot, FootAll, Fits, FitsBut, KidsDone, TreeAt, Apart, Separate;
    cur1 := cur;
    var k;
    ghost var k1;
    KidsAt(p, fuel, s, cur, i);
    FitsParts(cur, i);
    FootParts(cur);
    FootIn(cur.kids, i);
    ghost var others := Others(cur, i);
    assert allocated(others);
    k, stop, k1 := OptimizeNode(p, fuel, node.Kid(i), cur.kids[i]);
    if stop.Some? {
      KidStops(p, fuel, s, cur, i);
      return;
    }
    assert FitsBut(cur, i);
    ReplaceKid(node, i, k, cur, k1);
    cur1 := cur.(kids := cur.kids[i := k1]);
    NextKid(p, fuel, s, cur, i, k1);
    FootReplaced(cur, i, k1);
  }

  lemma KidsAt(p: Program, fuel: nat, s: Shape, cur: Shape, i: nat)
    requires s.At? && |s.kids| == KIDS && AllFormed(TreesAt(s.kids)) && i < KIDS && KidsDone(p, fuel, s, cur, i)
    ensures cur.At? && |cur.kids| == KIDS && cur.kids[i] == s.kids[i] && TreesAt(s.kids)[i] == TreeAt(s.kids[i]) && Formed(TreeAt(s.kids[i]))
    ensures cur.node == s.node
  {
    assert Formed(TreesAt(s.kids)[i]);
  }

  // ----- a list of nodes -----

  // The first k nodes of a list have been rewritten, prev is the last of them, and n the next to do;
  // if prev is a new node, its successor is not linked yet.
  ghost predicate Walking(ss: seq<Shape>, cur: seq<Shape>, k: nat, head: Node?, prev: Node?, n: Node?)
    reads Heads(cur)
  {
    && k <= |ss| == |cur| && (forall i :: 0 <= i < |cur| ==> cur[i].At?)
    && head == RootOf(cur, 0) && n == RootOf(ss, k) && prev == (if k > 0 then RootOf(cur, k - 1) else null)
    && (forall i :: 0 <= i < k - 1 ==> cur[i].node.next == RootOf(cur, i + 1))
    && (k > 0 ==> cur[k - 1].node.next == null || cur[k - 1].node.next == RootOf(ss, k))
    && (forall i :: k <= i < |ss| ==> cur[i] == ss[i] && cur[i].node.next == RootOf(ss, i + 1))
  }

  lemma WalkingStart(head: Node?, ss: seq<Shape>)
    requires Chain(head, ss)
    ensures Walking(ss, ss, 0, head, null, head)
  {
  }

  lemma WalkingEnd(ss: seq<Shape>, cur: seq<Shape>, head: Node?, prev: Node?, n: Node?)
    requires Walking(ss, cur, |ss|, head, prev, n)
    ensures Chain(head, cur)
  {
  }

  // Another node follows.
  method SetNext(node: Node, o: Node, ghost s: Shape)
    requires Fits(s) && s.At? && node == s.node
    modifies node`next
    ensures node.next == o && Fits(s)
  {
    hide Foot, FootAll, Chain, AllFit, Heads;
    FitsRoot(s);
    HeadsParts(s);
    ghost var inBody, inArgs := Heads(s.body), Heads(s.args);
    assert allocated(inBody) && allocated(inArgs);
    label before:
    node.next := o;
    StillAllFit@before(s.kids);
    StillAllFit@before(s.body);
    StillAllFit@before(s.args);
    MakeFits(s);
  }

  lemma FitsRoot(s: Shape)
    requires Fits(s) && s.At?
    ensures |s.kids| == KIDS && Apart(s) && (forall i :: 0 <= i < KIDS ==> s.node.Kid(i) == Root(s.kids[i]))
    ensures Chain(s.node.body, s.body) && Chain(s.node.args, s.args) && AllFit(s.kids) && AllFit(s.body) && AllFit(s.args)
  {
  }

  // The first k trees of a list have been rewritten.
  ghost predicate ListDone(p: Program, fuel: nat, ts: seq<Tree>, ss: seq<Shape>, cur: seq<Shape>, k: nat)
    requires AllFormed(ts)
  {
    && k <= |ss| == |cur| == |ts|
    && (forall i :: 0 <= i < k ==> DoneAt(p, fuel, ts[i], cur[i]))
    && (forall i :: k <= i < |ss| ==> cur[i] == ss[i])
  }

  ghost function OthersIn(ss: seq<Shape>, k: nat): set<Node> {
    if k < |ss| then FootAll(ss) - Foot(ss[k]) else {}
  }

  // All trees of a list but one are linked as their shapes say.
  ghost predicate AllFitBut(ss: seq<Shape>, k: nat)
    reads OthersIn(ss, k)
  {
    && k < |ss| && Separate(ss)
    && (forall i :: 0 <= i < |ss| && i != k ==> Foot(ss[i]) !! Foot(ss[k]) && Fits(ss[i]))
  }

  lemma ListParts(ss: seq<Shape>, k: nat)
    requires AllFit(ss) && k < |ss|
    ensures AllFitBut(ss, k) && Fits(ss[k]) && Foot(ss[k]) <= FootAll(ss)
  {
  }

  // Tree k of a list is another one.
  lemma ListReplaced(ss: seq<Shape>, k: nat, s1: Shape)
    requires AllFitBut(ss, k) && Fits(s1) && Foot(s1) !! OthersIn(ss, k)
    ensures AllFit(ss[k := s1]) && FootAll(ss[k := s1]) <= FootAll(ss) + Foot(s1)
  {
    hide Fits, Foot;
    var ss1 := ss[k := s1];
    forall i | 0 <= i < |ss| && i != k ensures Foot(ss[i]) !! Foot(s1) {
      assert Foot(ss[i]) <= FootAll(ss) && Foot(ss[i]) !! Foot(ss[k]);
    }
  }

  // The heads of the others are not part of tree k.
  lemma HeadApart(ss: seq<Shape>, k: nat)
    requires k < |ss| && Separate(ss)
    ensures forall i :: 0 <= i < |ss| && i != k && ss[i].At? ==> ss[i].node !in Foot(ss[k]) && ss[i].node in OthersIn(ss, k)
  {
    forall i | 0 <= i < |ss| && i != k && ss[i].At? ensures ss[i].node !in Foot(ss[k]) && ss[i].node in OthersIn(ss, k) {
      assert ss[i].node in Foot(ss[i]) && Foot(ss[i]) !! Foot(ss[k]) && Foot(ss[i]) <= FootAll(ss);
    }
  }

  // Node k of a list is rewritten.
  method OptimizeAt(p: Program, fuel: nat, n: Node, ghost ts: seq<Tree>, ghost ss: seq<Shape>, ghost cur: seq<Shape>,
      ghost k: nat)
    returns (o: Node?, stop: Option<Reason>, ghost s1: Shape)
    requires ts == TreesAt(ss) && AllFormed(ts) && k < |ss| && ListDone(p, fuel, ts, ss, cur, k) && AllFit(cur)
    requires (forall i :: 0 <= i < |cur| ==> cur[i].At?) && n == cur[k].node
    modifies Foot(cur[k])
    ensures stop.Some? ==> RewriteTrees(p, fuel, ts) == Aborted(stop.value)
    ensures stop.None? ==> ListDone(p, fuel, ts, ss, cur[k := s1], k + 1) && AllFit(cur[k := s1]) && (forall x <- FootAll(cur[k := s1]) :: x in FootAll(cur) || fresh(x))
    ensures stop.None? ==> s1.At? && o == s1.node && (o == n || (fresh(o) && o.next == null)) && n.next == old(n.next)
    ensures stop.None? ==> forall i :: 0 <= i < |cur| && i != k ==> cur[i].node.next == old(cur[i].node.next)
    decreases ss[k], 2
  {
    hide RewriteTree, RewriteTrees, Formed, Foot, FootAll, Fits, AllFit, TreeAt, Separate, ListDone;
    ListAt(p, fuel, ts, ss, cur, k);
    ListParts(cur, k);
    HeadApart(cur, k);
    ghost var others := OthersIn(cur, k);
    assert allocated(others);
    o, stop, s1 := OptimizeNode(p, fuel, n, cur[k]);
    if stop.Some? {
      ListStops(p, fuel, ts, ss, cur, k);
      return;
    }
    assert AllFitBut(cur, k);
    ListReplaced(cur, k, s1);
    NextInList(p, fuel, ts, ss, cur, k, s1);
  }

  lemma ListAt(p: Program, fuel: nat, ts: seq<Tree>, ss: seq<Shape>, cur: seq<Shape>, k: nat)
    requires AllFormed(ts) && k < |ss| && ListDone(p, fuel, ts, ss, cur, k) && ts == TreesAt(ss)
    ensures |cur| == |ss| && cur[k] == ss[k] && ts[k] == TreeAt(ss[k]) && Formed(TreeAt(ss[k]))
  {
    assert Formed(ts[k]);
  }

  lemma NextInList(p: Program, fuel: nat, ts: seq<Tree>, ss: seq<Shape>, cur: seq<Shape>, k: nat, s1: Shape)
    requires AllFormed(ts) && k < |ss| && ListDone(p, fuel, ts, ss, cur, k) && DoneAt(p, fuel, ts[k], s1)
    ensures ListDone(p, fuel, ts, ss, cur[k := s1], k + 1)
  {
    hide DoneAt, TreesAt, Formed;
    var next := cur[k := s1];
    forall i | 0 <= i < k + 1 ensures DoneAt(p, fuel, ts[i], next[i]) {
      assert i < k ==> next[i] == cur[i];
    }
  }

  lemma ListStops(p: Program, fuel: nat, ts: seq<Tree>, ss: seq<Shape>, cur: seq<Shape>, k: nat)
    requires AllFormed(ts) && k < |ss| && ListDone(p, fuel, ts, ss, cur, k) && RewriteTree(p, fuel, ts[k]).Aborted?
    ensures RewriteTrees(p, fuel, ts) == Aborted(RewriteTree(p, fuel, ts[k]).why)
  {
    hide RewriteTree;
    forall j | 0 <= j < k ensures RewriteTree(p, fuel, ts[j]).Done? {
      assert DoneAt(p, fuel, ts[j], cur[j]);
    }
    TreesAborted(p, fuel, ts, k);
  }

  // Tree k has been rewritten to s1, and prev is still linked to what was there before.
  ghost predicate Between(ss: seq<Shape>, cur1: seq<Shape>, k: nat, head: Node?, prev: Node?, n: Node, o: Node)
    reads Heads(cur1), n
  {
    && k < |ss| == |cur1| && (forall i :: 0 <= i < |cur1| ==> cur1[i].At?) && cur1[k].node == o
    && prev == (if k > 0 then RootOf(cur1, k - 1) else null) && (k > 0 ==> head == RootOf(cur1, 0))
    && n.next == RootOf(ss, k + 1) && (o.next == null || o.next == n.next)
    && (forall i :: 0 <= i < k - 1 ==> cur1[i].node.next == RootOf(cur1, i + 1))
    && (forall i :: k < i < |ss| ==> cur1[i] == ss[i] && cur1[i].node.next == RootOf(ss, i + 1))
  }

  lemma NodesDiffer(ss: seq<Shape>)
    requires Separate(ss)
    ensures forall i, j :: 0 <= i < j < |ss| && ss[i].At? && ss[j].At? ==> ss[i].node != ss[j].node
  {
    forall i, j | 0 <= i < j < |ss| && ss[i].At? && ss[j].At? ensures ss[i].node != ss[j].node {
      assert ss[i].node in Foot(ss[i]) && ss[j].node in Foot(ss[j]) && Foot(ss[i]) !! Foot(ss[j]);
    }
  }

  lemma HeadIn(ss: seq<Shape>, k: nat)
    requires k < |ss| && ss[k].At?
    ensures ss[k].node in Foot(ss[k]) && ss[k].node in FootAll(ss)
  {
  }

  // The node behind prev is o now.
  method Relink(head: Node?, prev: Node?, o: Node, n: Node, ghost ss: seq<Shape>, ghost cur1: seq<Shape>, ghost k: nat)
    returns (head1: Node?)
    requires Between(ss, cur1, k, head, prev, n, o) && AllFit(cur1) && prev != n
    modifies (if prev == null then {} else {prev})`next
    ensures Walking(ss, cur1, k + 1, head1, o, n.next) && AllFit(cur1)
  {
    hide Foot, FootAll, Fits, Separate;
    head1 := head;
    if prev != null {
      ListParts(cur1, k - 1);
      NodesDiffer(cur1);
      HeadIn(cur1, k - 1);
      ghost var others := OthersIn(cur1, k - 1);
      assert allocated(others);
      SetNext(prev, o, cur1[k - 1]);
      assert AllFitBut(cur1, k - 1);
      ListReplaced(cur1, k - 1, cur1[k - 1]);
      assert cur1[k - 1 := cur1[k - 1]] == cur1;
    } else {
      head1 := o;
    }
  }

  lemma ListStarts(p: Program, fuel: nat, ss: seq<Shape>)
    requires AllFormed(TreesAt(ss))
    ensures ListDone(p, fuel, TreesAt(ss), ss, ss, 0)
  {
  }

  lemma ListEnds(p: Program, fuel: nat, ss: seq<Shape>, cur: seq<Shape>)
    requires AllFormed(TreesAt(ss)) && ListDone(p, fuel, TreesAt(ss), ss, cur, |ss|)
    ensures RewriteTrees(p, fuel, TreesAt(ss)) == Done(TreesAt(cur))
  {
    hide RewriteTree;
    forall i | 0 <= i < |ss| ensures RewriteTree(p, fuel, TreesAt(ss)[i]) == Done(TreesAt(cur)[i]) {
      assert DoneAt(p, fuel, TreesAt(ss)[i], cur[i]);
    }
    TreesDone(p, fuel, TreesAt(ss), TreesAt(cur));
  }

  // Another node of a list is to be rewritten.
  lemma WalkingAt(ss: seq<Shape>, cur: seq<Shape>, k: nat, head: Node?, prev: Node?, n: Node?)
    requires Walking(ss, cur, k, head, prev, n) && n != null && AllFit(cur)
    ensures k < |ss| == |cur| && (forall i :: 0 <= i < |cur| ==> cur[i].At?) && n == cur[k].node && cur[k] == ss[k] && prev != n
    ensures prev == if k > 0 then cur[k - 1].node else null
  {
    NodesDiffer(cur);
  }

  lemma WalkingLast(ss: seq<Shape>, cur: seq<Shape>, k: nat, head: Node?, prev: Node?, n: Node?)
    requires Walking(ss, cur, k, head, prev, n)
    ensures n == null ==> k == |ss|
  {
    if k < |ss| {
      assert cur[k] == ss[k] && cur[k].At?;
    }
  }

  // What the links of a list are while it is walked, as values.
  ghost predicate Links(ss: seq<Shape>, cur: seq<Shape>, k: nat, head: Node?, prev: Node?, nexts: seq<Node?>) {
    && k < |ss| == |cur| == |nexts| && (forall i :: 0 <= i < |cur| ==> cur[i].At?)
    && head == RootOf(cur, 0) && prev == (if k > 0 then RootOf(cur, k - 1) else null)
    && (forall i :: 0 <= i < k - 1 ==> nexts[i] == RootOf(cur, i + 1))
    && (forall i :: k <= i < |ss| ==> cur[i] == ss[i] && nexts[i] == RootOf(ss, i + 1))
  }

  lemma LinksNow(ss: seq<Shape>, cur: seq<Shape>, k: nat, head: Node?, prev: Node?, n: Node?) returns (nexts: seq<Node?>)
    requires Walking(ss, cur, k, head, prev, n) && k < |ss|
    ensures Links(ss, cur, k, head, prev, nexts) && forall i :: 0 <= i < |cur| ==> nexts[i] == cur[i].node.next
  {
    nexts := seq(|cur|, i requires 0 <= i < |cur| && cur[i].At? reads Heads(cur) => cur[i].node.next);
  }

  lemma NowBetween(ss: seq<Shape>, cur: seq<Shape>, k: nat, head: Node?, prev: Node?, n: Node, o: Node, s1: Shape, nexts: seq<Node?>)
    requires Links(ss, cur, k, head, prev, nexts) && s1.At? && s1.node == o && n.next == nexts[k] && (o == n || o.next == null)
    requires forall i :: 0 <= i < |cur| && i != k ==> cur[i].node.next == nexts[i]
    ensures Between(ss, cur[k := s1], k, head, prev, n, o)
  {
  }

  // One round of the loop.
  method OptimizeNext(p: Program, fuel: nat, head: Node?, prev: Node?, n: Node, ghost ts: seq<Tree>, ghost ss: seq<Shape>,
      ghost cur: seq<Shape>, ghost k: nat)
    returns (head1: Node?, o: Node?, stop: Option<Reason>, ghost cur1: seq<Shape>)
    requires ts == TreesAt(ss) && AllFormed(ts) && k < |ss| && ListDone(p, fuel, ts, ss, cur, k) && AllFit(cur)
    requires Walking(ss, cur, k, head, prev, n)
    modifies FootAll(cur)
    ensures stop.Some? ==> RewriteTrees(p, fuel, ts) == Aborted(stop.value)
    ensures stop.None? ==> ListDone(p, fuel, ts, ss, cur1, k + 1) && AllFit(cur1) && (forall x <- FootAll(cur1) :: x in FootAll(cur) || fresh(x))
    ensures stop.None? ==> o != null && Walking(ss, cur1, k + 1, head1, o, n.next)
    decreases ss[k], 3
  {
    hide RewriteTrees, Foot, FootAll, Fits, AllFit, Separate, ListDone, Formed, TreesAt, TreeAt, AllFormed, Heads, Walking, Between, Links;
    head1, cur1 := head, cur;
    WalkingAt(ss, cur, k, head, prev, n);
    ListParts(cur, k);
    ghost var nexts := LinksNow(ss, cur, k, head, prev, n);
    ghost var s1;
    o, stop, s1 := OptimizeAt(p, fuel, n, ts, ss, cur, k);
    if stop.Some? {
      return;
    }
    cur1 := cur[k := s1];
    if k > 0 { HeadIn(cur, k - 1); }
    NowBetween(ss, cur, k, head, prev, n, o, s1, nexts);
    head1 := Relink(head, prev, o, n, ss, cur1, k);
  }

  // The whole list, front to back.
  method OptimizeList(p: Program, fuel: nat, head: Node?, ghost ss: seq<Shape>) returns (head1: Node?, stop: Option<Reason>, ghost ss1: seq<Shape>)
    requires Chain(head, ss) && AllFit(ss) && AllFormed(TreesAt(ss))
    modifies FootAll(ss)
    ensures stop.Some? ==> RewriteTrees(p, fuel, TreesAt(ss)) == Aborted(stop.value)
    ensures stop.None? ==> RewriteTrees(p, fuel, TreesAt(ss)) == Done(TreesAt(ss1))
    ensures stop.None? ==> Chain(head1, ss1) && AllFit(ss1) && (forall x <- FootAll(ss1) :: x in FootAll(ss) || fresh(x))
    decreases ss, 0
  {
    hide RewriteTrees, Foot, FootAll, Fits, AllFit, Separate, Walking, ListDone, Chain, Formed, TreesAt, AllFormed;
    ghost var ts := TreesAt(ss);
    var prev: Node?, n := null, head;
    head1, stop, ss1 := head, None, ss;
    ghost var k := 0;
    WalkingStart(head, ss);
    ListStarts(p, fuel, ss);
    while n != null
      invariant stop.None? && Walking(ss, ss1, k, head1, prev, n) && AllFit(ss1)
      invariant ListDone(p, fuel, ts, ss, ss1, k) && (forall x <- FootAll(ss1) :: x in FootAll(ss) || fresh(x))
      decreases |ss| - k
    {
      WalkingAt(ss, ss1, k, head1, prev, n);
      var o;
      ghost var cur := ss1;
      head1, o, stop, ss1 := OptimizeNext(p, fuel, head1, prev, n, ts, ss, cur, k);
      if stop.Some? {
        return;
      }
      prev, n, k := o, n.next, k + 1;
    }
    WalkingLast(ss, ss1, k, head1, prev, n);
    WalkingEnd(ss, ss1, head1, prev, n);
    ListEnds(p, fuel, ss, ss1);
  }

  // ----- the node itself -----

  // A new node for a number.
  method NewNumber(v: int) returns (o: Node, ghost s1: Shape)
    ensures fresh(o) && o.next == null && s1.At? && s1.node == o && Foot(s1) == {o} && Fits(s1) && TreeAt(s1) == Leaf(KNum(v))
  {
    o := new Node(KNum(v));
    s1 := At(o, seq(KIDS, _ => Gone), [], []);
    assert TreesAt(s1.kids) == Leaf(KNum(v)).kids;
  }

  // The values of trees, where they are numbers.
  ghost function Numbers(ts: seq<Tree>): seq<I32> {
    if ts == [] then [] else [if IsNum(ts[0]) then Truncate(ts[0].kind.val) else 0] + Numbers(ts[1..])
  }

  lemma {:induction false} NumbersAre(ts: seq<Tree>)
    ensures NumArgsOf(ts).Some? <==> forall i :: 0 <= i < |ts| ==> IsNum(ts[i])
    ensures NumArgsOf(ts).Some? ==> ConstArgs(NumArgsOf(ts).value) == Some(Numbers(ts))
  {
    if ts != [] {
      NumbersAre(ts[1..]);
    }
  }

  lemma {:induction false} NumbersSplit(ts: seq<Tree>, t: Tree)
    requires IsNum(t)
    ensures Numbers(ts + [t]) == Numbers(ts) + [Truncate(t.kind.val)] && |Numbers(ts)| == |ts|
  {
    if ts == [] {
      assert (ts + [t])[1..] == [];
    } else {
      assert (ts + [t])[1..] == ts[1..] + [t];
      NumbersSplit(ts[1..], t);
    }
  }

  // The values of the arguments, the first ten of them, if all are numbers.
  method ConstantsIn(head: Node?, ghost ss: seq<Shape>, ghost ts: seq<Tree>) returns (all: bool, vals: seq<I32>)
    requires Chain(head, ss) && ts == TreesAt(ss)
    ensures NumArgsOf(ts).Some? <==> all
    ensures all ==> ConstArgs(NumArgsOf(ts).value) == Some(Numbers(ts)) && vals == Kept(Numbers(ts))
  {
    hide TreesAt, TreeAt, Numbers, NumArgsOf, ConstArgs, Kept, Truncate, Chain, RootOf;
    NumbersAre(ts);
    var arg := head;
    all, vals := true, [];
    ghost var k := 0;
    NoNumbers();
    ChainAt(head, ss, 0);
    assert ts[..0] == [];
    while arg != null
      invariant k <= |ss| == |ts| && arg == RootOf(ss, k) && all && Chain(head, ss)
      invariant forall i :: 0 <= i < k ==> IsNum(ts[i])
      invariant vals == Kept(Numbers(ts[..k]))
      decreases |ss| - k
    {
      ChainAt(head, ss, k);
      KindAt(ss, k);
      if !arg.kind.KNum? {
        all := false;
        return;
      }
      NextNumber(ts, k);
      KeptMore(Numbers(ts[..k]), Truncate(arg.kind.val));
      if |vals| < MAX_ARGS {
        vals := vals + [Truncate(arg.kind.val)];
      }
      arg, k := arg.next, k + 1;
    }
    ChainAt(head, ss, k);
    assert ts[..k] == ts;
  }

  lemma NoNumbers()
    ensures Numbers([]) == [] && Kept([]) == []
  {
  }

  lemma NextNumber(ts: seq<Tree>, k: nat)
    requires k < |ts| && IsNum(ts[k])
    ensures Numbers(ts[..k + 1]) == Numbers(ts[..k]) + [Truncate(ts[k].kind.val)]
  {
    NumbersSplit(ts[..k], ts[k]);
    assert ts[..k] + [ts[k]] == ts[..k + 1];
  }

  lemma KeptMore(vals: seq<I32>, v: I32)
    ensures Kept(vals + [v]) == (if |Kept(vals)| < MAX_ARGS then Kept(vals) + [v] else Kept(vals))
  {
  }

  lemma ChainAt(head: Node?, ss: seq<Shape>, k: nat)
    requires Chain(head, ss) && k <= |ss|
    ensures head == RootOf(ss, 0)
    ensures if k < |ss| then ss[k].At? && RootOf(ss, k) == ss[k].node && ss[k].node.next == RootOf(ss, k + 1) else RootOf(ss, k) == null
  {
  }

  lemma KindAt(ss: seq<Shape>, k: nat)
    requires k < |ss| && ss[k].At?
    ensures TreesAt(ss)[k].T? && TreesAt(ss)[k].kind == ss[k].node.kind
  {
  }

  // The interpreter on the target of a call.
  method RunTarget(p: Program, fuel: nat, f: Func, vals: seq<I32>, ghost given: seq<I32>) returns (v: I32, st: EvalAst.Status)
    requires f.body.Some? && vals == Kept(given)
    ensures var r := RunCall(p, fuel, f, given); if r.Ok? then st == EvalAst.Success && v == r.v else EvalAst.Stopped(r, st)
  {
    hide EvalStmts, BindInto;
    var env := new I32[SLOTS](_ => 0);
    assert env[..] == NoSlots();
    var fits := EvalAst.BindParams(f.params, vals, env);
    if !fits { return 0, EvalAst.Crashed; }
    var returned;
    v, returned, st := EvalAst.EvalBody(p, fuel, f.body.value, env);
  }

  // A call is replaced by a number, or left as it is.
  method FoldCallNode(p: Program, fuel: nat, node: Node, ghost s: Shape) returns (o: Node, stop: Option<Reason>, ghost s1: Shape)
    requires Fits(s) && s.At? && node == s.node && node.kind.KCall? && |s.kids| == KIDS
    ensures Becomes(FoldTree(p, fuel, TreeAt(s)), stop, s1)
    ensures stop.None? ==> (o == node && s1 == s) || (fresh(o) && o.next == null && s1.At? && s1.node == o && Foot(s1) == {o} && Fits(s1))
  {
    hide EvalStmts, Fits, Foot, FootAll, RunCall, Find, TreesAt, NumArgsOf, ConstArgs, Chain, AllFit, Apart, Kept;
    o, stop, s1 := node, None, s;
    FitsRoot(s);
    if !node.kind.named || node.kind.name == PRINTF { return; }
    ghost var ts := TreesAt(s.args);
    var all, vals := ConstantsIn(node.args, s.args, ts);
    if !all { return; }
    var target := Find(p, node.kind.name);
    if target.None? || target.value.body.None? || target.value.cleanup { return; }
    var v, st := RunTarget(p, fuel, target.value, vals, Numbers(ts));
    match st
    case Success => o, s1 := NewNumber(v);
    case NameMissing => stop := Some(NullCompared);
    case Crashed => stop := Some(Undefined);
    case _ =>
  }

  method FoldNode(p: Program, fuel: nat, node: Node, ghost s: Shape) returns (o: Node, stop: Option<Reason>, ghost s1: Shape)
    requires Fits(s) && s.At? && node == s.node && |s.kids| == KIDS
    ensures Becomes(FoldTree(p, fuel, TreeAt(s)), stop, s1)
    ensures stop.None? ==> Fits(s1) && ((o == node && s1 == s) || (fresh(o) && o.next == null && s1.At? && s1.node == o && Foot(s1) == {o}))
  {
    hide Fits, Foot, FootAll, FoldCall, FoldVal, Overflows;
    ghost var foot := Foot(s);
    assert allocated(foot);
    o, stop, s1 := node, None, s;
    FitsRoot(s);
    match node.kind
    case KBin(op) =>
      if node.lhs != null && node.lhs.kind.KNum? && node.rhs != null && node.rhs.kind.KNum? {
        assert node.lhs == node.Kid(0) && node.rhs == node.Kid(1);
        var l, r := node.lhs.kind.val, node.rhs.kind.val;
        if FoldVal(op, l, r).None? { return; }
        if Overflows(op, l, r) { stop := Some(Undefined); return; }
        o, s1 := NewNumber(FoldVal(op, l, r).value);
      }
    case KCall(_, _) => o, stop, s1 := FoldCallNode(p, fuel, node, s);
    case _ =>
  }

  // ----- a node: its children, its lists, and itself -----

  lemma NoKidsDone(p: Program, fuel: nat, s: Shape)
    requires s.At? && |s.kids| == KIDS && AllFormed(TreesAt(s.kids))
    ensures KidsDone(p, fuel, s, s, 0)
  {
  }

  lemma AllKidsDone(p: Program, fuel: nat, s: Shape, cur: Shape)
    requires s.At? && |s.kids| == KIDS && AllFormed(TreesAt(s.kids)) && KidsDone(p, fuel, s, cur, KIDS)
    ensures cur.At? && cur.node == s.node && cur.body == s.body && cur.args == s.args && |cur.kids| == KIDS
    ensures RewriteTrees(p, fuel, TreesAt(s.kids)) == Done(TreesAt(cur.kids))
  {
    hide RewriteTree;
    forall i | 0 <= i < KIDS ensures RewriteTree(p, fuel, TreesAt(s.kids)[i]) == Done(TreesAt(cur.kids)[i]) {
      assert DoneAt(p, fuel, TreesAt(s.kids)[i], cur.kids[i]);
    }
    TreesDone(p, fuel, TreesAt(s.kids), TreesAt(cur.kids));
  }

  // All children in turn: lhs, rhs, cond, then, els, init, inc.
  method OptimizeKids(p: Program, fuel: nat, node: Node, ghost s: Shape) returns (stop: Option<Reason>, ghost cur: Shape)
    requires s.At? && |s.kids| == KIDS && AllFormed(TreesAt(s.kids)) && Fits(s) && node == s.node
    modifies Foot(s)
    ensures stop.Some? ==> RewriteTrees(p, fuel, TreesAt(s.kids)) == Aborted(stop.value)
    ensures stop.None? ==> KidsDone(p, fuel, s, cur, KIDS) && Fits(cur) && (forall x <- Foot(cur) :: x in Foot(s) || fresh(x)) && node.next == old(node.next)
    decreases s.kids
  {
    hide RewriteTrees, RewriteTree, Formed, AllFormed, TreeAt, TreesAt, Foot, FootAll, Fits, DoneAt;
    NoKidsDone(p, fuel, s);
    stop, cur := OptimizeKid(p, fuel, node, 0, s, s);
    if stop.Some? { return; }
    stop, cur := OptimizeKid(p, fuel, node, 1, s, cur);
    if stop.Some? { return; }
    stop, cur := OptimizeKid(p, fuel, node, 2, s, cur);
    if stop.Some? { return; }
    stop, cur := OptimizeKid(p, fuel, node, 3, s, cur);
    if stop.Some? { return; }
    stop, cur := OptimizeKid(p, fuel, node, 4, s, cur);
    if stop.Some? { return; }
    stop, cur := OptimizeKid(p, fuel, node, 5, s, cur);
    if stop.Some? { return; }
    stop, cur := OptimizeKid(p, fuel, node, 6, s, cur);
  }

  // One of the two lists of a node: its arguments, or its statements.
  ghost function ListIn(s: Shape, isArgs: bool): seq<Shape>
    requires s.At?
  {
    if isArgs then s.args else s.body
  }

  ghost function WithList(s: Shape, isArgs: bool, ss: seq<Shape>): Shape
    requires s.At?
  {
    if isArgs then s.(args := ss) else s.(body := ss)
  }

  ghost function OthersBut(s: Shape, isArgs: bool): set<Node> {
    if s.At? then Foot(s) - FootAll(ListIn(s, isArgs)) else {}
  }

  // Everything but one of the lists is linked as the shape says.
  ghost predicate FitsButList(s: Shape, isArgs: bool)
    reads OthersBut(s, isArgs)
  {
    && s.At? && |s.kids| == KIDS && Apart(s)
    && (forall i :: 0 <= i < KIDS ==> s.node.Kid(i) == Root(s.kids[i])) && AllFit(s.kids)
    && Chain(s.node.List(!isArgs), ListIn(s, !isArgs)) && AllFit(ListIn(s, !isArgs))
  }

  lemma FitsLists(s: Shape, isArgs: bool)
    requires Fits(s) && s.At?
    ensures FitsButList(s, isArgs) && Chain(s.node.List(isArgs), ListIn(s, isArgs)) && AllFit(ListIn(s, isArgs))
    ensures FootAll(ListIn(s, isArgs)) <= Foot(s) && s.node !in FootAll(ListIn(s, isArgs)) && s.node in Foot(s)
  {
  }

  lemma ListApart(s: Shape, isArgs: bool, ss: seq<Shape>)
    requires s.At? && Apart(s) && FootAll(ss) !! (Foot(s) - FootAll(ListIn(s, isArgs)))
    ensures var s1 := WithList(s, isArgs, ss); Apart(s1) && Foot(s1) <= Foot(s) + FootAll(ss) && s.node !in FootAll(ss)
  {
  }

  // A list is replaced by another one.
  method ReplaceList(node: Node, isArgs: bool, head: Node?, ghost s: Shape, ghost ss: seq<Shape>)
    requires FitsButList(s, isArgs) && node == s.node
    requires Chain(head, ss) && AllFit(ss) && FootAll(ss) !! (Foot(s) - FootAll(ListIn(s, isArgs)))
    modifies node
    ensures Fits(WithList(s, isArgs, ss)) && node.next == old(node.next)
  {
    hide Foot, FootAll, Fits, AllFit, Heads;
    ListApart(s, isArgs, ss);
    FootParts(s);
    HeadsParts(s);
    HeadsInside(ss);
    ghost var mine, other := Heads(ss), Heads(ListIn(s, !isArgs));
    assert allocated(mine) && allocated(other);
    label before:
    node.SetList(isArgs, head);
    StillAllFit@before(ss);
    StillAllFit@before(s.kids);
    StillAllFit@before(ListIn(s, !isArgs));
    MakeFits(WithList(s, isArgs, ss));
  }

  lemma HeadsInside(ss: seq<Shape>)
    ensures Heads(ss) <= FootAll(ss)
  {
  }

  method OptimizeLists(p: Program, fuel: nat, node: Node, isArgs: bool, ghost cur: Shape) returns (stop: Option<Reason>, ghost cur1: Shape)
    requires cur.At? && Fits(cur) && node == cur.node && AllFormed(TreesAt(ListIn(cur, isArgs)))
    modifies Foot(cur)
    ensures stop.Some? ==> RewriteTrees(p, fuel, TreesAt(ListIn(cur, isArgs))) == Aborted(stop.value)
    ensures stop.None? ==> cur1.At? && cur1 == WithList(cur, isArgs, ListIn(cur1, isArgs))
    ensures stop.None? ==> RewriteTrees(p, fuel, TreesAt(ListIn(cur, isArgs))) == Done(TreesAt(ListIn(cur1, isArgs)))
    ensures stop.None? ==> Fits(cur1) && (forall x <- Foot(cur1) :: x in Foot(cur) || fresh(x)) && node.next == old(node.next)
    decreases ListIn(cur, isArgs), 1
  {
    hide RewriteTrees, Formed, AllFormed, TreesAt, Foot, FootAll, Fits, AllFit, Chain, Apart;
    cur1 := cur;
    FitsLists(cur, isArgs);
    ghost var others := OthersBut(cur, isArgs);
    assert allocated(others);
    var head;
    ghost var ss;
    head, stop, ss := OptimizeList(p, fuel, node.List(isArgs), ListIn(cur, isArgs));
    if stop.Some? {
      return;
    }
    assert FitsButList(cur, isArgs);
    ListApart(cur, isArgs, ss);
    ReplaceList(node, isArgs, head, cur, ss);
    cur1 := WithList(cur, isArgs, ss);
  }

  lemma FormedRoot(s: Shape)
    requires s.At? && Formed(TreeAt(s)) && |s.kids| == KIDS
    ensures AllFormed(TreesAt(s.kids)) && AllFormed(TreesAt(s.body)) && AllFormed(TreesAt(s.args))
  {
  }

  lemma NodeTree(p: Program, fuel: nat, s: Shape)
    requires s.At? && Formed(TreeAt(s)) && |s.kids| == KIDS
    requires AllFormed(TreesAt(s.kids)) && AllFormed(TreesAt(s.body)) && AllFormed(TreesAt(s.args))
    ensures RewriteTree(p, fuel, TreeAt(s)) == Rebuilt(p, fuel, s.node.kind,
        RewriteTrees(p, fuel, TreesAt(s.kids)), RewriteTrees(p, fuel, TreesAt(s.body)), RewriteTrees(p, fuel, TreesAt(s.args)))
  {
    hide RewriteTrees, FoldTree;
  }

  lemma TreeParts(s: Shape)
    requires s.At?
    ensures TreeAt(s) == T(s.node.kind, TreesAt(s.kids), TreesAt(s.body), TreesAt(s.args))
  {
  }

  // The children and lists of a node.
  method OptimizeParts(p: Program, fuel: nat, node: Node, ghost s: Shape) returns (stop: Option<Reason>, ghost cur: Shape)
    requires Fits(s) && s.At? && node == s.node && Formed(TreeAt(s))
    modifies Foot(s)
    ensures stop.Some? ==> RewriteTree(p, fuel, TreeAt(s)) == Aborted(stop.value)
    ensures stop.None? ==> cur.At? && cur.node == node && |cur.kids| == KIDS && Fits(cur) && (forall x <- Foot(cur) :: x in Foot(s) || fresh(x))
    ensures stop.None? ==> RewriteTree(p, fuel, TreeAt(s)) == FoldTree(p, fuel, TreeAt(cur)) && node.next == old(node.next)
    decreases s, 0
  {
    hide RewriteTree, RewriteTrees, FoldTree, Formed, AllFormed, TreeAt, TreesAt, Foot, FootAll, Fits, KidsDone, Chain, AllFit;
    FitsRoot(s);
    FormedRoot(s);
    NodeTree(p, fuel, s);
    stop, cur := OptimizeKids(p, fuel, node, s);
    if stop.Some? { return; }
    AllKidsDone(p, fuel, s, cur);
    ghost var c := cur;
    stop, cur := OptimizeLists(p, fuel, node, false, c);
    if stop.Some? { return; }
    c := cur;
    stop, cur := OptimizeLists(p, fuel, node, true, c);
    if stop.Some? { return; }
    TreeParts(cur);
  }

  // optimize_node: children, statements, arguments, and then the node; a folded node is a new one.
  method OptimizeNode(p: Program, fuel: nat, node: Node?, ghost s: Shape) returns (o: Node?, stop: Option<Reason>, ghost s1: Shape)
    requires Fits(s) && node == Root(s) && Formed(TreeAt(s))
    modifies Foot(s)
    ensures Becomes(RewriteTree(p, fuel, TreeAt(s)), stop, s1)
    ensures stop.None? ==> Fits(s1) && o == Root(s1) && (s1.At? <==> s.At?) && (forall x <- Foot(s1) :: x in Foot(s) || fresh(x))
    ensures stop.None? && s.At? ==> s.node.next == old(s.node.next) && (o == s.node || (fresh(o) && o.next == null))
    decreases s, 1
  {
    hide RewriteTree, RewriteTrees, FoldTree, Formed, AllFormed, TreeAt, TreesAt, Foot, FootAll, Fits, Chain, AllFit;
    o, stop, s1 := node, None, s;
    if node == null {
      NothingThere(p, fuel, s);
      return;
    }
    ghost var cur;
    stop, cur := OptimizeParts(p, fuel, node, s);
    if stop.Some? { return; }
    o, stop, s1 := FoldNode(p, fuel, node, cur);
  }

  lemma NothingThere(p: Program, fuel: nat, s: Shape)
    requires Root(s) == null && Formed(TreeAt(s))
    ensures s.Gone? && Becomes(RewriteTree(p, fuel, TreeAt(s)), None, s)
  {
  }
}
