/** The preprocessor's macros: a list, a hash index over the same nodes, and a stack for
    #pragma push_macro and pop_macro. */
module MacroTable {
  import opened Options
  import opened Hashing

  // is_function, is_variadic, is_gnu_variadic, params, body.
  datatype Def = Def(isFunction: bool, isVariadic: bool, isGnuVariadic: bool, params: seq<string>, body: string)

  // ----- what the directives mean -----

  // saved[n]: what push_macro has saved for n, latest first; None if n was not defined then.
  datatype Table = Table(defs: map<string, Def>, saved: map<string, seq<Option<Def>>>)

  datatype Op = Define(name: string, def: Def) | Undef(name: string) | Push(name: string) | Pop(name: string)

  function Lookup(t: Table, name: string): Option<Def> {
    if name in t.defs then Some(t.defs[name]) else None
  }

  function SavedFor(t: Table, name: string): seq<Option<Def>> {
    if name in t.saved then t.saved[name] else []
  }

  function SetDef(t: Table, name: string, d: Option<Def>): Table {
    t.(defs := if d.Some? then t.defs[name := d.value] else t.defs - {name})
  }

  function Apply(t: Table, op: Op): Table {
    match op
    case Define(n, d) => SetDef(t, n, Some(d))
    case Undef(n) => SetDef(t, n, None)
    case Push(n) => t.(saved := t.saved[n := [Lookup(t, n)] + SavedFor(t, n)])
    case Pop(n) =>
      var s := SavedFor(t, n);
      if s == [] then t else SetDef(t, n, s[0]).(saved := t.saved[n := s[1..]])
  }

  function ApplyAll(t: Table, ops: seq<Op>): Table
    decreases |ops|
  {
    if ops == [] then t else ApplyAll(Apply(t, ops[0]), ops[1..])
  }

  // The pushes and pops of one name match, starting depth pushes deep.
  predicate Matched(ops: seq<Op>, name: string, depth: nat) {
    if ops == [] then depth == 0
    else if ops[0] == Push(name) then Matched(ops[1..], name, depth + 1)
    else if ops[0] == Pop(name) then depth > 0 && Matched(ops[1..], name, depth - 1)
    else Matched(ops[1..], name, depth)
  }

  // What happens to one name does not concern another.
  lemma OtherName(t: Table, op: Op, name: string)
    requires op.name != name
    ensures Lookup(Apply(t, op), name) == Lookup(t, name) && SavedFor(Apply(t, op), name) == SavedFor(t, name)
  {
  }

  lemma {:induction false} ApplyConcat(t: Table, a: seq<Op>, b: seq<Op>)
    ensures ApplyAll(t, a + b) == ApplyAll(ApplyAll(t, a), b)
    decreases |a|
  {
    if a == [] {
      assert a + b == b;
    } else {
      assert (a + b)[1..] == a[1..] + b;
      ApplyConcat(Apply(t, a[0]), a[1..], b);
    }
  }

  // Nothing but pushes of the name, which leave it as it is.
  predicate Leaves(ops: seq<Op>, name: string) { forall op :: op in ops ==> op.name != name || op.Push? }

  lemma {:induction false} LeavesLookup(t: Table, ops: seq<Op>, name: string)
    requires Leaves(ops, name)
    ensures Lookup(ApplyAll(t, ops), name) == Lookup(t, name)
    decreases |ops|
  {
    if ops != [] {
      assert ops[0] in ops && forall op :: op in ops[1..] ==> op in ops;
      LeavesLookup(Apply(t, ops[0]), ops[1..], name);
    }
  }

  // The latest definition counts, until the name is undefined.
  lemma LatestCounts(t: Table, before: seq<Op>, name: string, d: Def, after: seq<Op>)
    requires Leaves(after, name)
    ensures Lookup(ApplyAll(t, before + ([Define(name, d)] + after)), name) == Some(d)
    ensures Lookup(ApplyAll(t, before + ([Undef(name)] + after)), name) == None
  {
    var t1 := ApplyAll(t, before);
    ApplyConcat(t, before, [Define(name, d)] + after);
    ApplyConcat(t, before, [Undef(name)] + after);
    assert ([Define(name, d)] + after)[1..] == after && ([Undef(name)] + after)[1..] == after;
    LeavesLookup(Apply(t1, Define(name, d)), after, name);
    LeavesLookup(Apply(t1, Undef(name)), after, name);
  }

  lemma {:induction false} MatchedKeeps(t: Table, ops: seq<Op>, name: string, depth: nat, below: seq<Option<Def>>)
    requires Matched(ops, name, depth) && |SavedFor(t, name)| == depth + |below| && SavedFor(t, name)[depth..] == below
    ensures SavedFor(ApplyAll(t, ops), name) == below
    decreases |ops|
  {
    if ops != [] {
      var t1 := Apply(t, ops[0]);
      if ops[0].name != name {
        OtherName(t, ops[0], name);
      }
      MatchedKeeps(t1, ops[1..], name,
                   if ops[0] == Push(name) then depth + 1 else if ops[0] == Pop(name) then depth - 1 else depth, below);
    }
  }

  // Whatever happens between a push and its pop, the pop restores the definition of that name, or
  // its absence, and the saved definitions below.
  lemma PushPopRestores(t: Table, name: string, ops: seq<Op>)
    requires Matched(ops, name, 0)
    ensures var t1 := Apply(ApplyAll(Apply(t, Push(name)), ops), Pop(name));
      Lookup(t1, name) == Lookup(t, name) && SavedFor(t1, name) == SavedFor(t, name)
  {
    var pushed := Apply(t, Push(name));
    MatchedKeeps(pushed, ops, name, 0, SavedFor(pushed, name));
  }

  // ----- the data structures -----

  const HT_SIZE: nat := 2048

  function Hash(name: string): (h: nat)
    ensures h < HT_SIZE
  {
    Fnv(name, FNV_BASIS) % HT_SIZE
  }

  datatype Node = Node(name: string, def: Def)
  datatype Save = Save(name: string, def: Option<Def>)

  type Chain = seq<nat>

  // Every list entry is a node; no two have the same name.
  ghost predicate ListOk(nodes: seq<Node>, list: Chain) {
    && (forall i :: 0 <= i < |list| ==> list[i] < |nodes|)
    && (forall i, j :: 0 <= i < j < |list| ==> list[i] < |nodes| && list[j] < |nodes| && nodes[list[i]].name != nodes[list[j]].name)
  }

  // The chain of hash value h holds exactly the listed nodes with that hash.
  ghost predicate ChainOk(nodes: seq<Node>, list: Chain, h: nat, chain: Chain) {
    && (forall n :: n in chain <==> n in list && n < |nodes| && Hash(nodes[n].name) == h)
    && (forall i, j :: 0 <= i < j < |chain| ==> chain[i] != chain[j])
  }

  ghost predicate IndexOk(nodes: seq<Node>, list: Chain, htab: seq<Chain>) {
    |htab| == HT_SIZE && forall h :: 0 <= h < HT_SIZE ==> ChainOk(nodes, list, h, htab[h])
  }

  // The list holds the definitions.
  ghost predicate DefsOk(nodes: seq<Node>, list: Chain, defs: map<string, Def>) {
    && (forall n :: n in list && n < |nodes| ==> nodes[n].name in defs && defs[nodes[n].name] == nodes[n].def)
    && (forall name :: name in defs ==> exists i :: 0 <= i < |list| && list[i] < |nodes| && nodes[list[i]].name == name)
  }

  function SavesOf(stack: seq<Save>, name: string): seq<Option<Def>> {
    if stack == [] then []
    else if stack[0].name == name then [stack[0].def] + SavesOf(stack[1..], name)
    else SavesOf(stack[1..], name)
  }

  ghost predicate StackOk(stack: seq<Save>, t: Table) {
    forall name :: SavesOf(stack, name) == SavedFor(t, name)
  }

  // First node with the name in a chain, or -1.
  function FindIn(nodes: seq<Node>, chain: Chain, name: string): (k: int)
    ensures k == -1 || (0 <= k < |chain| && chain[k] < |nodes| && nodes[chain[k]].name == name)
    ensures forall j :: 0 <= j < (if k == -1 then |chain| else k) ==> chain[j] >= |nodes| || nodes[chain[j]].name != name
  {
    if chain == [] then -1
    else if chain[0] < |nodes| && nodes[chain[0]].name == name then 0
    else
      var k := FindIn(nodes, chain[1..], name);
      if k == -1 then -1 else k + 1
  }

  function Without(chain: Chain, k: int): Chain {
    if 0 <= k < |chain| then chain[..k] + chain[k + 1..] else chain
  }

  lemma WithoutMembers(chain: Chain, k: int)
    requires 0 <= k < |chain| && forall i, j :: 0 <= i < j < |chain| ==> chain[i] != chain[j]
    ensures forall n :: n in Without(chain, k) <==> n in chain && n != chain[k]
    ensures forall i, j :: 0 <= i < j < |Without(chain, k)| ==> Without(chain, k)[i] != Without(chain, k)[j]
  {
    var w := Without(chain, k);
    forall n | n in chain && n != chain[k]
      ensures n in w
    {
      var i :| 0 <= i < |chain| && chain[i] == n;
      assert w[if i < k then i else i - 1] == n;
    }
  }

  // ----- removing, adding and changing a node -----

  lemma ListDistinct(nodes: seq<Node>, list: Chain)
    requires ListOk(nodes, list)
    ensures forall i, j :: 0 <= i < j < |list| ==> list[i] != list[j]
  {
  }

  lemma RemoveOk(nodes: seq<Node>, list: Chain, htab: seq<Chain>, defs: map<string, Def>, name: string)
    requires ListOk(nodes, list) && IndexOk(nodes, list, htab) && DefsOk(nodes, list, defs)
    ensures var list1 := Without(list, FindIn(nodes, list, name));
      var h := Hash(name);
      var htab1 := htab[h := Without(htab[h], FindIn(nodes, htab[h], name))];
      ListOk(nodes, list1) && IndexOk(nodes, list1, htab1) && DefsOk(nodes, list1, defs - {name})
  {
    hide DefsOk, ChainOk, Hash;
    var k, h := FindIn(nodes, list, name), Hash(name);
    var c := FindIn(nodes, htab[h], name);
    ListDistinct(nodes, list);
    IndexAt(nodes, list, htab, h);
    SameNode(nodes, list, htab[h], name);
    if k >= 0 {
      WithoutMembers(list, k);
      RemovedIndex(nodes, list, htab, name, k, c);
      RemovedDefs(nodes, list, defs, name, k);
    } else {
      assert htab[h := htab[h]] == htab;
      AbsentDefs(nodes, list, defs, name);
    }
  }

  lemma AbsentDefs(nodes: seq<Node>, list: Chain, defs: map<string, Def>, name: string)
    requires DefsOk(nodes, list, defs) && FindIn(nodes, list, name) == -1
    ensures defs - {name} == defs
  {
    assert name !in defs;
  }

  // List and chain find the same node.
  lemma SameNode(nodes: seq<Node>, list: Chain, chain: Chain, name: string)
    requires ListOk(nodes, list) && ChainOk(nodes, list, Hash(name), chain)
    ensures var k, c := FindIn(nodes, list, name), FindIn(nodes, chain, name);
      (k == -1 <==> c == -1) && (k >= 0 ==> c >= 0 && chain[c] == list[k])
  {
    var k, c := FindIn(nodes, list, name), FindIn(nodes, chain, name);
    if k >= 0 {
      assert list[k] in list;
      assert list[k] in chain;
    }
    if c >= 0 {
      assert chain[c] in chain;
      assert chain[c] in list;
    }
  }

  lemma RemovedIndex(nodes: seq<Node>, list: Chain, htab: seq<Chain>, name: string, k: nat, c: nat)
    requires ListOk(nodes, list) && IndexOk(nodes, list, htab) && k < |list| && nodes[list[k]].name == name
    requires c < |htab[Hash(name)]| && htab[Hash(name)][c] == list[k]
    requires forall n :: n in Without(list, k) <==> n in list && n != list[k]
    ensures ListOk(nodes, Without(list, k))
    ensures IndexOk(nodes, Without(list, k), htab[Hash(name) := Without(htab[Hash(name)], c)])
  {
    var h, list1 := Hash(name), Without(list, k);
    var htab1 := htab[h := Without(htab[h], c)];
    assert ChainOk(nodes, list, h, htab[h]);
    WithoutMembers(htab[h], c);
    forall g | 0 <= g < HT_SIZE
      ensures ChainOk(nodes, list1, g, htab1[g])
    {
      assert ChainOk(nodes, list, g, htab[g]);
    }
  }

  lemma RemovedDefs(nodes: seq<Node>, list: Chain, defs: map<string, Def>, name: string, k: nat)
    requires ListOk(nodes, list) && DefsOk(nodes, list, defs) && k < |list| && nodes[list[k]].name == name
    requires forall n :: n in Without(list, k) <==> n in list && n != list[k]
    ensures DefsOk(nodes, Without(list, k), defs - {name})
  {
    hide Without;
    var list1, defs1 := Without(list, k), defs - {name};
    forall x | x in defs1
      ensures exists i :: 0 <= i < |list1| && list1[i] < |nodes| && nodes[list1[i]].name == x
    {
      var i :| 0 <= i < |list| && list[i] < |nodes| && nodes[list[i]].name == x;
      assert list[i] in list1;
      var j :| 0 <= j < |list1| && list1[j] == list[i];
    }
    forall n | n in list1 && n < |nodes|
      ensures nodes[n].name in defs1 && defs1[nodes[n].name] == nodes[n].def
    {
      var i :| 0 <= i < |list| && list[i] == n;
      assert nodes[list[i]].name != nodes[list[k]].name;
    }
  }

  // A new node at the front of the list and of its chain.
  lemma AddOk(nodes: seq<Node>, list: Chain, htab: seq<Chain>, defs: map<string, Def>, name: string, d: Def)
    requires ListOk(nodes, list) && IndexOk(nodes, list, htab) && DefsOk(nodes, list, defs)
    requires FindIn(nodes, htab[Hash(name)], name) == -1
    ensures var nodes1, list1, h := nodes + [Node(name, d)], [|nodes|] + list, Hash(name);
      ListOk(nodes1, list1) && IndexOk(nodes1, list1, htab[h := [|nodes|] + htab[h]]) && DefsOk(nodes1, list1, defs[name := d])
  {
    hide ListOk, DefsOk, ChainOk, Hash;
    IndexAt(nodes, list, htab, Hash(name));
    SameNode(nodes, list, htab[Hash(name)], name);
    AddedList(nodes, list, name, d);
    AddedIndex(nodes, list, htab, name, d);
    AddedDefs(nodes, list, defs, name, d);
  }

  lemma IndexAt(nodes: seq<Node>, list: Chain, htab: seq<Chain>, h: nat)
    requires IndexOk(nodes, list, htab) && h < HT_SIZE
    ensures ChainOk(nodes, list, h, htab[h])
  {
  }

  lemma AddedList(nodes: seq<Node>, list: Chain, name: string, d: Def)
    requires ListOk(nodes, list) && FindIn(nodes, list, name) == -1
    ensures ListOk(nodes + [Node(name, d)], [|nodes|] + list)
    ensures forall i :: 0 <= i < |list| ==> list[i] < |nodes| && nodes[list[i]].name != name
  {
    var nodes1, list1 := nodes + [Node(name, d)], [|nodes|] + list;
    forall i | 0 <= i < |list|
      ensures list1[i + 1] == list[i] < |nodes| && nodes1[list[i]] == nodes[list[i]] && nodes[list[i]].name != name
    {
    }
  }

  lemma AddedIndex(nodes: seq<Node>, list: Chain, htab: seq<Chain>, name: string, d: Def)
    requires ListOk(nodes, list) && IndexOk(nodes, list, htab)
    ensures var nodes1, list1, h := nodes + [Node(name, d)], [|nodes|] + list, Hash(name);
      IndexOk(nodes1, list1, htab[h := [|nodes|] + htab[h]])
  {
    var nodes1, list1, h := nodes + [Node(name, d)], [|nodes|] + list, Hash(name);
    var htab1 := htab[h := [|nodes|] + htab[h]];
    forall g | 0 <= g < HT_SIZE
      ensures ChainOk(nodes1, list1, g, htab1[g])
    {
      assert ChainOk(nodes, list, g, htab[g]);
      assert |nodes| !in htab[g];
    }
  }

  lemma AddedDefs(nodes: seq<Node>, list: Chain, defs: map<string, Def>, name: string, d: Def)
    requires ListOk(nodes, list) && DefsOk(nodes, list, defs)
    requires forall i :: 0 <= i < |list| ==> list[i] < |nodes| && nodes[list[i]].name != name
    ensures DefsOk(nodes + [Node(name, d)], [|nodes|] + list, defs[name := d])
  {
    var nodes1, list1, defs1 := nodes + [Node(name, d)], [|nodes|] + list, defs[name := d];
    forall x | x in defs1
      ensures exists i :: 0 <= i < |list1| && list1[i] < |nodes1| && nodes1[list1[i]].name == x
    {
      if x == name {
        assert list1[0] == |nodes|;
      } else {
        assert x in defs;
        var i :| 0 <= i < |list| && list[i] < |nodes| && nodes[list[i]].name == x;
        assert list1[i + 1] == list[i];
      }
    }
    forall n | n in list1 && n < |nodes1|
      ensures nodes1[n].name in defs1 && defs1[nodes1[n].name] == nodes1[n].def
    {
      if n != |nodes| {
        assert n in list;
        var i :| 0 <= i < |list| && list[i] == n;
      }
    }
  }

  // A new definition in an existing node.
  lemma ChangeOk(nodes: seq<Node>, list: Chain, htab: seq<Chain>, defs: map<string, Def>, n: nat, d: Def)
    requires ListOk(nodes, list) && IndexOk(nodes, list, htab) && DefsOk(nodes, list, defs) && n in list && n < |nodes|
    ensures var nodes1 := nodes[n := nodes[n].(def := d)];
      ListOk(nodes1, list) && IndexOk(nodes1, list, htab) && DefsOk(nodes1, list, defs[nodes[n].name := d])
  {
    hide DefsOk, ChainOk;
    var nodes1 := nodes[n := nodes[n].(def := d)];
    forall g | 0 <= g < HT_SIZE
      ensures ChainOk(nodes1, list, g, htab[g])
    {
      IndexAt(nodes, list, htab, g);
      ChangedChain(nodes, list, g, htab[g], n, d);
    }
    ChangedDefs(nodes, list, defs, n, d);
  }

  lemma ChangedChain(nodes: seq<Node>, list: Chain, h: nat, chain: Chain, n: nat, d: Def)
    requires ChainOk(nodes, list, h, chain) && n < |nodes|
    ensures ChainOk(nodes[n := nodes[n].(def := d)], list, h, chain)
  {
    hide Hash;
  }

  lemma ChangedDefs(nodes: seq<Node>, list: Chain, defs: map<string, Def>, n: nat, d: Def)
    requires ListOk(nodes, list) && DefsOk(nodes, list, defs) && n in list && n < |nodes|
    ensures DefsOk(nodes[n := nodes[n].(def := d)], list, defs[nodes[n].name := d])
  {
    var nodes1, defs1 := nodes[n := nodes[n].(def := d)], defs[nodes[n].name := d];
    var at :| 0 <= at < |list| && list[at] == n;
    forall m | m in list && m < |nodes1|
      ensures nodes1[m].name in defs1 && defs1[nodes1[m].name] == nodes1[m].def
    {
      var i :| 0 <= i < |list| && list[i] == m;
      assert i != at ==> nodes[list[i]].name != nodes[list[at]].name;
    }
    forall x | x in defs1
      ensures exists i :: 0 <= i < |list| && list[i] < |nodes1| && nodes1[list[i]].name == x
    {
      if x == nodes[n].name {
        assert nodes1[list[at]].name == x;
      } else {
        assert x in defs;
        var i :| 0 <= i < |list| && list[i] < |nodes| && nodes[list[i]].name == x;
        assert nodes1[list[i]].name == x;
      }
    }
  }

  lemma LookupFound(nodes: seq<Node>, list: Chain, htab: seq<Chain>, t: Table, name: string)
    requires ListOk(nodes, list) && IndexOk(nodes, list, htab) && DefsOk(nodes, list, t.defs)
    ensures var h := Hash(name);
      var c := FindIn(nodes, htab[h], name);
      && Lookup(t, name) == (if c == -1 then None else Some(nodes[htab[h][c]].def))
      && (c >= 0 ==> htab[h][c] in list)
  {
    var h := Hash(name);
    assert ChainOk(nodes, list, h, htab[h]);
    SameNode(nodes, list, htab[h], name);
    var k := FindIn(nodes, list, name);
    if k >= 0 {
      assert list[k] in list;
    }
  }

  // ----- the table itself -----

  class Macros {
    var nodes: seq<Node>               // the arena
    var list: Chain                    // macros, latest first
    const htab: array<Chain>
    var stack: seq<Save>
    ghost var table: Table

    ghost predicate Valid()
      reads this, htab
    {
      && htab.Length == HT_SIZE
      && ListOk(nodes, list) && IndexOk(nodes, list, htab[..]) && DefsOk(nodes, list, table.defs) && StackOk(stack, table)
    }

    constructor ()
      ensures Valid() && table == Table(map[], map[]) && fresh(htab)
    {
      nodes, list, stack, table := [], [], [], Table(map[], map[]);
      htab := new Chain[HT_SIZE](_ => []);
    }

    // find_macro: the node, or -1.
    method FindMacro(name: string) returns (n: int)
      requires Valid()
      ensures n >= 0 ==> n < |nodes| && n in list && nodes[n].name == name && Lookup(table, name) == Some(nodes[n].def)
      ensures n < 0 ==> Lookup(table, name) == None && FindIn(nodes, htab[Hash(name)], name) == -1
    {
      hide IndexOk, ListOk, DefsOk, StackOk;
      var h := Hash(name);
      var chain := htab[h];
      LookupFound(nodes, list, htab[..], table, name);
      var k := FindLoop(chain, name);
      n := if k >= 0 then chain[k] else -1;
    }

    method FindLoop(chain: Chain, name: string) returns (k: int)
      ensures k == FindIn(nodes, chain, name)
    {
      assert chain[0..] == chain;
      for i := 0 to |chain|
        invariant FindIn(nodes, chain, name) == (var r := FindIn(nodes, chain[i..], name); if r == -1 then -1 else r + i)
      {
        assert chain[i..][1..] == chain[i + 1..];
        if chain[i] < |nodes| && nodes[chain[i]].name == name {
          return i;
        }
      }
      k := -1;
    }

    // The chain without its first node of the name.
    method Unlink(chain: Chain, name: string) returns (rest: Chain)
      ensures rest == Without(chain, FindIn(nodes, chain, name))
    {
      var k := FindLoop(chain, name);
      rest := if k >= 0 then chain[..k] + chain[k + 1..] else chain;
    }

    // Unlink the macro from the index and from the list.
    method Remove(name: string)
      requires Valid()
      modifies this`list, this`table, htab
      ensures Valid() && table == SetDef(old(table), name, None)
    {
      hide IndexOk, ListOk, DefsOk, Without, FindIn, StackOk;
      RemoveOk(nodes, list, htab[..], table.defs, name);
      var h := Hash(name);
      ghost var before := htab[..];
      var chain := Unlink(htab[h], name);
      htab[h] := chain;
      assert htab[..] == before[h := chain];
      list := Unlink(list, name);
      table := SetDef(table, name, None);
      SameSaves(stack, old(table), table);
    }

    // Give name the definition d, in its node or a new one.
    method SetMacro(name: string, d: Def)
      requires Valid()
      modifies this`nodes, this`list, this`table, htab
      ensures Valid() && table == SetDef(old(table), name, Some(d))
    {
      hide IndexOk, ListOk, DefsOk;
      var n := FindMacro(name);
      if n < 0 {
        var h := Hash(name);
        AddOk(nodes, list, htab[..], table.defs, name, d);
        ghost var before := htab[..];
        var m := |nodes|;
        nodes := nodes + [Node(name, d)];
        list := [m] + list;
        htab[h] := [m] + htab[h];
        assert htab[..] == before[h := [m] + before[h]];
      } else {
        ChangeOk(nodes, list, htab[..], table.defs, n, d);
        nodes := nodes[n := nodes[n].(def := d)];
      }
      table := SetDef(table, name, Some(d));
      SameSaves(stack, old(table), table);
    }

    method DefineMacro(name: string, d: Def)
      requires Valid()
      modifies this, htab
      ensures Valid() && table == Apply(old(table), Define(name, d))
    {
      SetMacro(name, d);
    }

    method UndefMacro(name: string)
      requires Valid()
      modifies this, htab
      ensures Valid() && table == Apply(old(table), Undef(name))
    {
      Remove(name);
    }

    method PushMacro(name: string)
      requires Valid()
      modifies this`stack, this`table
      ensures Valid() && table == Apply(old(table), Push(name))
    {
      hide IndexOk, ListOk, DefsOk;
      var n := FindMacro(name);
      var ms := Save(name, if n >= 0 then Some(nodes[n].def) else None);
      PushedSaves(stack, table, ms);
      stack := [ms] + stack;
      table := Apply(table, Push(name));
    }

    method PopMacro(name: string)
      requires Valid()
      modifies this, htab
      ensures Valid() && table == Apply(old(table), Pop(name))
    {
      hide IndexOk, ListOk, DefsOk;
      var i := 0;
      while i < |stack| && stack[i].name != name
        invariant i <= |stack| && SavesOf(stack, name) == SavesOf(stack[i..], name)
        invariant forall j :: 0 <= j < i ==> stack[j].name != name
      {
        assert stack[i..][1..] == stack[i + 1..];
        i := i + 1;
      }
      if i == |stack| {
        return;
      }
      var ms := stack[i];
      PoppedSaves(stack, table, i);
      stack := stack[..i] + stack[i + 1..];
      table := table.(saved := table.saved[name := SavedFor(table, name)[1..]]);
      if ms.def.None? {
        Remove(name);
      } else {
        SetMacro(name, ms.def.value);
      }
    }
  }

  lemma SameSaves(stack: seq<Save>, t: Table, t1: Table)
    requires StackOk(stack, t) && t1.saved == t.saved
    ensures StackOk(stack, t1)
  {
    forall name: string
      ensures SavesOf(stack, name) == SavedFor(t1, name)
    {
      assert SavesOf(stack, name) == SavedFor(t, name);
    }
  }

  lemma PushedSaves(stack: seq<Save>, t: Table, ms: Save)
    requires StackOk(stack, t) && ms.def == Lookup(t, ms.name)
    ensures StackOk([ms] + stack, Apply(t, Push(ms.name)))
  {
    var t1 := Apply(t, Push(ms.name));
    forall name: string
      ensures SavesOf([ms] + stack, name) == SavedFor(t1, name)
    {
      assert ([ms] + stack)[1..] == stack;
      assert SavesOf(stack, name) == SavedFor(t, name);
    }
  }

  // Taking out the first entry of a name leaves the other names' entries alone.
  lemma {:induction false} TakenOut(stack: seq<Save>, i: nat, name: string)
    requires i < |stack| && forall j :: 0 <= j < i ==> stack[j].name != stack[i].name
    ensures SavesOf(stack, stack[i].name) != [] && SavesOf(stack, stack[i].name)[0] == stack[i].def
    ensures SavesOf(stack[..i] + stack[i + 1..], name)
      == if name == stack[i].name then SavesOf(stack, name)[1..] else SavesOf(stack, name)
  {
    var rest := stack[..i] + stack[i + 1..];
    if i == 0 {
      assert rest == stack[1..];
    } else {
      assert rest[1..] == stack[1..][..i - 1] + stack[1..][i..];
      assert stack[1..][i - 1] == stack[i];
      TakenOut(stack[1..], i - 1, name);
    }
  }

  lemma PoppedSaves(stack: seq<Save>, t: Table, i: nat)
    requires StackOk(stack, t) && i < |stack| && forall j :: 0 <= j < i ==> stack[j].name != stack[i].name
    ensures SavedFor(t, stack[i].name) != [] && SavedFor(t, stack[i].name)[0] == stack[i].def
    ensures StackOk(stack[..i] + stack[i + 1..], t.(saved := t.saved[stack[i].name := SavedFor(t, stack[i].name)[1..]]))
  {
    var n := stack[i].name;
    TakenOut(stack, i, n);
    assert SavesOf(stack, n) == SavedFor(t, n);
    var t1 := t.(saved := t.saved[n := SavedFor(t, n)[1..]]);
    forall name: string
      ensures SavesOf(stack[..i] + stack[i + 1..], name) == SavedFor(t1, name)
    {
      TakenOut(stack, i, name);
      assert SavesOf(stack, name) == SavedFor(t, name);
    }
  }

  // ----- duplicate names -----

  // The index built from a list in order, as at the start of a run: the last entry is found first.
  function IndexFrom(nodes: seq<Node>, list: Chain, h: nat): Chain {
    if list == [] then []
    else
      var rest := IndexFrom(nodes, list[..|list| - 1], h);
      var n := list[|list| - 1];
      if n < |nodes| && Hash(nodes[n].name) == h then [n] + rest else rest
  }

  lemma {:induction false} IndexFromMembers(nodes: seq<Node>, list: Chain, h: nat)
    requires forall i :: 0 <= i < |list| ==> list[i] < |nodes|
    ensures forall n :: n in IndexFrom(nodes, list, h) <==> n in list && Hash(nodes[n].name) == h
    ensures (forall i, j :: 0 <= i < j < |list| ==> list[i] != list[j]) ==>
      forall i, j :: 0 <= i < j < |IndexFrom(nodes, list, h)| ==> IndexFrom(nodes, list, h)[i] != IndexFrom(nodes, list, h)[j]
    decreases |list|
  {
    if list != [] {
      IndexFromMembers(nodes, list[..|list| - 1], h);
    }
  }

  // List and index agree on every name exactly if the names in the list are distinct: of two
  // entries for a name the index finds the older one.
  lemma DistinctIff(nodes: seq<Node>, list: Chain)
    requires forall i :: 0 <= i < |list| ==> list[i] < |nodes|
    requires forall i, j :: 0 <= i < j < |list| ==> list[i] != list[j]
    ensures ListOk(nodes, list) <==> forall name: string :: Agrees(nodes, list, name)
  {
    if ListOk(nodes, list) {
      forall name: string
        ensures Agrees(nodes, list, name)
      {
        IndexFromMembers(nodes, list, Hash(name));
        SameNode(nodes, list, IndexFrom(nodes, list, Hash(name)), name);
      }
    } else {
      var i, j :| 0 <= i < j < |list| && nodes[list[i]].name == nodes[list[j]].name;
      OldestFirst(nodes, list, i, j);
    }
  }

  // The index built at the start of a run.
  function BuiltIndex(nodes: seq<Node>, list: Chain): (htab: seq<Chain>)
    ensures |htab| == HT_SIZE
  {
    seq(HT_SIZE, h requires 0 <= h < HT_SIZE => IndexFrom(nodes, list, h))
  }

  // With distinct names, list and index are in agreement from the start, and stay so when a name
  // is removed from both.
  lemma StartOk(nodes: seq<Node>, list: Chain, name: string, other: string)
    requires ListOk(nodes, list)
    ensures IndexOk(nodes, list, BuiltIndex(nodes, list))
    ensures var htab := BuiltIndex(nodes, list);
      var list1 := Without(list, FindIn(nodes, list, name));
      var htab1 := htab[Hash(name) := Without(htab[Hash(name)], FindIn(nodes, htab[Hash(name)], name))];
      var k, c := FindIn(nodes, list1, other), FindIn(nodes, htab1[Hash(other)], other);
      && IndexOk(nodes, list1, htab1)
      && (k == -1 <==> c == -1) && (k >= 0 ==> c >= 0 && htab1[Hash(other)][c] == list1[k])
      && (other == name ==> k == -1)
  {
    hide ChainOk, Hash;
    var htab := BuiltIndex(nodes, list);
    forall h | 0 <= h < HT_SIZE
      ensures ChainOk(nodes, list, h, htab[h])
    {
      BuiltChain(nodes, list, h);
    }
    var k := FindIn(nodes, list, name);
    var list1 := Without(list, k);
    var htab1 := htab[Hash(name) := Without(htab[Hash(name)], FindIn(nodes, htab[Hash(name)], name))];
    ListDistinct(nodes, list);
    IndexAt(nodes, list, htab, Hash(name));
    SameNode(nodes, list, htab[Hash(name)], name);
    if k >= 0 {
      WithoutMembers(list, k);
      RemovedIndex(nodes, list, htab, name, k, FindIn(nodes, htab[Hash(name)], name));
      NameGone(nodes, list, name, k);
    } else {
      assert htab[Hash(name) := htab[Hash(name)]] == htab;
    }
    IndexAt(nodes, list1, htab1, Hash(other));
    SameNode(nodes, list1, htab1[Hash(other)], other);
  }

  lemma BuiltChain(nodes: seq<Node>, list: Chain, h: nat)
    requires ListOk(nodes, list)
    ensures ChainOk(nodes, list, h, IndexFrom(nodes, list, h))
  {
    ListDistinct(nodes, list);
    IndexFromMembers(nodes, list, h);
  }

  lemma NameGone(nodes: seq<Node>, list: Chain, name: string, k: nat)
    requires ListOk(nodes, list) && k < |list| && nodes[list[k]].name == name
    ensures FindIn(nodes, Without(list, k), name) == -1
  {
  }

  ghost predicate Agrees(nodes: seq<Node>, list: Chain, name: string) {
    var chain := IndexFrom(nodes, list, Hash(name));
    var k, c := FindIn(nodes, list, name), FindIn(nodes, chain, name);
    (k == -1 <==> c == -1) && (k >= 0 && c >= 0 ==> list[k] == chain[c])
  }

  lemma OldestFirst(nodes: seq<Node>, list: Chain, i: nat, j: nat)
    requires i < j < |list| && (forall k :: 0 <= k < |list| ==> list[k] < |nodes|)
    requires forall a, b :: 0 <= a < b < |list| ==> list[a] != list[b]
    requires nodes[list[i]].name == nodes[list[j]].name
    ensures !Agrees(nodes, list, nodes[list[i]].name)
  {
    var name := nodes[list[i]].name;
    var k := FindIn(nodes, list, name);
    assert k <= i;
    LastFound(nodes, list, name, j);
  }

  // The index finds an entry at or behind any given one of the name.
  lemma {:induction false} LastFound(nodes: seq<Node>, list: Chain, name: string, j: nat)
    requires j < |list| && (forall k :: 0 <= k < |list| ==> list[k] < |nodes|) && nodes[list[j]].name == name
    ensures var chain := IndexFrom(nodes, list, Hash(name));
      var c := FindIn(nodes, chain, name);
      c >= 0 && exists l :: j <= l < |list| && chain[c] == list[l]
    decreases |list|
  {
    var n, h := |list| - 1, Hash(name);
    if nodes[list[n]].name == name {
      assert IndexFrom(nodes, list, h)[0] == list[n];
    } else {
      LastFound(nodes, list[..n], name, j);
      var rest := IndexFrom(nodes, list[..n], h);
      var chain := IndexFrom(nodes, list, h);
      if chain != rest {
        assert chain[1..] == rest;
      }
      var c := FindIn(nodes, rest, name);
      var l :| j <= l < n && rest[c] == list[..n][l];
      assert list[l] == rest[c];
    }
  }
}
