/** Moving evaluated arguments from scratch registers to the argument registers.  One register,
    rsi, is both: the last scratch register and the second argument register. */
module ArgPlacement {
  import opened Varargs

  const RSI_SCRATCH: nat := 7

  datatype Reg = Scratch(i: nat) | ArgReg(k: nat)

  type RegFile = Reg -> int

  function SourceReg(i: nat): Reg { if i == RSI_SCRATCH then ArgReg(1) else Scratch(i) }

  function Put(rf: RegFile, r: Reg, v: int): RegFile { q => if q == r then v else rf(q) }

  // An argument that travels in a register: where it goes and the scratch register it is in.
  datatype Item = Item(loc: Loc, src: nat)

  ghost predicate ValidItems(items: seq<Item>) {
    && (forall i :: 0 <= i < |items| ==> !items[i].loc.Stack? && items[i].src <= RSI_SCRATCH)
    && (forall i, j :: 0 <= i < j < |items| ==> items[i].loc != items[j].loc && items[i].src != items[j].src)
  }

  // Placed in the first pass: an integer argument waiting in rsi.
  predicate FromRsi(x: Item) { x.loc.Gp? && x.src == RSI_SCRATCH }

  // What rsi holds once the first n items have been placed.
  function RsiAfter(items: seq<Item>, rf: RegFile, n: nat): int
    requires n <= |items|
  {
    if n == 0 then rf(ArgReg(1))
    else if items[n - 1].loc == Gp(1) && !FromRsi(items[n - 1]) then rf(SourceReg(items[n - 1].src))
    else RsiAfter(items, rf, n - 1)
  }

  // What an item's target receives.
  function Received(items: seq<Item>, rf: RegFile, i: nat): int
    requires i < |items|
  {
    if items[i].loc.Fp? && items[i].src == RSI_SCRATCH then RsiAfter(items, rf, i) else rf(SourceReg(items[i].src))
  }

  // The two-pass loop of gen_funcall.
  method PlaceArgs(items: seq<Item>, rf: RegFile) returns (regs: RegFile, xmm: nat -> int)
    requires ValidItems(items)
    ensures forall i :: 0 <= i < |items| ==>
      Received(items, rf, i) == (if items[i].loc.Gp? then regs(ArgReg(items[i].loc.k)) else xmm(items[i].loc.k))
  {
    regs, xmm := rf, (_: nat) => 0;
    for i := 0 to |items|
      invariant forall s :: regs(Scratch(s)) == rf(Scratch(s))
      invariant regs(ArgReg(1)) == rf(ArgReg(1))
      invariant forall j :: 0 <= j < i && FromRsi(items[j]) ==> regs(ArgReg(items[j].loc.k)) == rf(ArgReg(1))
    {
      if FromRsi(items[i]) {
        regs := Put(regs, ArgReg(items[i].loc.k), regs(SourceReg(items[i].src)));
      }
    }
    for i := 0 to |items|
      invariant forall s :: regs(Scratch(s)) == rf(Scratch(s))
      invariant regs(ArgReg(1)) == RsiAfter(items, rf, i)
      invariant forall j :: 0 <= j < |items| && FromRsi(items[j]) ==> regs(ArgReg(items[j].loc.k)) == rf(ArgReg(1))
      invariant forall j :: 0 <= j < i && items[j].loc.Gp? ==> regs(ArgReg(items[j].loc.k)) == rf(SourceReg(items[j].src))
      invariant forall j :: 0 <= j < i && items[j].loc.Fp? ==> xmm(items[j].loc.k) == Received(items, rf, j)
    {
      if items[i].loc.Fp? {
        var x, k, v := xmm, items[i].loc.k, regs(SourceReg(items[i].src));
        xmm := (q: nat) => if q == k then v else x(q);
      } else if !FromRsi(items[i]) {
        regs := Put(regs, ArgReg(items[i].loc.k), regs(SourceReg(items[i].src)));
      }
    }
  }

  // A double waits in rsi while an earlier argument goes there.
  ghost predicate Hazard(items: seq<Item>) {
    exists i, j :: 0 <= i < j < |items| && items[i].loc == Gp(1) && items[j].loc.Fp? && items[j].src == RSI_SCRATCH
  }

  lemma {:induction false} RsiOverwritten(items: seq<Item>, rf: RegFile, i: nat, n: nat)
    requires ValidItems(items) && i < n <= |items| && items[i].loc == Gp(1) && items[i].src != RSI_SCRATCH
    ensures RsiAfter(items, rf, n) == rf(SourceReg(items[i].src))
    decreases n
  {
    if n - 1 > i {
      RsiOverwritten(items, rf, i, n - 1);
    }
  }

  lemma {:induction false} RsiUntouched(items: seq<Item>, rf: RegFile, n: nat)
    requires n <= |items| && forall i :: 0 <= i < n ==> items[i].loc != Gp(1)
    ensures RsiAfter(items, rf, n) == rf(ArgReg(1))
    decreases n
  {
    if n > 0 {
      RsiUntouched(items, rf, n - 1);
    }
  }

  // Every argument arrives, whatever the values, exactly if there is no such double.
  lemma PlacementIff(items: seq<Item>)
    requires ValidItems(items)
    ensures (forall rf: RegFile, i: nat :: i < |items| ==> Received(items, rf, i) == rf(SourceReg(items[i].src))) <==> !Hazard(items)
  {
    if Hazard(items) {
      var i, j :| 0 <= i < j < |items| && items[i].loc == Gp(1) && items[j].loc.Fp? && items[j].src == RSI_SCRATCH;
      var rf: RegFile := r => if r == ArgReg(1) then 1 else 0;
      RsiOverwritten(items, rf, i, j);
      assert Received(items, rf, j) != rf(SourceReg(items[j].src));
    } else {
      forall rf: RegFile, j: nat | j < |items|
        ensures Received(items, rf, j) == rf(SourceReg(items[j].src))
      {
        if items[j].loc.Fp? && items[j].src == RSI_SCRATCH {
          RsiUntouched(items, rf, j);
        }
      }
    }
  }

  // Six integers and two doubles, evaluated into the eight scratch registers in order: the second
  // double is in rsi, and the second integer arrives in its place.
  lemma SecondDoubleLost()
    ensures var items := [Item(Gp(0), 0), Item(Gp(1), 1), Item(Gp(2), 2), Item(Gp(3), 3), Item(Gp(4), 4), Item(Gp(5), 5),
                          Item(Fp(0), 6), Item(Fp(1), 7)];
      && ValidItems(items)
      && forall rf: RegFile :: Received(items, rf, 7) == rf(Scratch(1))
  {
    var items := [Item(Gp(0), 0), Item(Gp(1), 1), Item(Gp(2), 2), Item(Gp(3), 3), Item(Gp(4), 4), Item(Gp(5), 5),
                  Item(Fp(0), 6), Item(Fp(1), 7)];
    forall rf: RegFile
      ensures Received(items, rf, 7) == rf(Scratch(1))
    {
      RsiOverwritten(items, rf, 1, 7);
    }
  }
}
