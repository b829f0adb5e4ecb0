/** What happens where an expression needs more registers than there are. */
module SpillLimits {
  import opened Machine
  import opened Source
  import opened CodegenSpec

  // How many registers are free.
  predicate AtMostOneFree(g: GState) { FirstFree(g.used) >= NUM_REGS - 1 }

  lemma FirstFreeIs(used: set<nat>, i: nat, r: nat)
    requires i <= r < NUM_REGS && r !in used && forall j :: i <= j < r ==> j in used
    ensures FirstFree(used, i) == r
    decreases r - i
  {
    if i < r {
      FirstFreeIs(used, i + 1, r);
    }
  }

  // The registers below the last one are the first to be handed out: two variables are loaded into
  // the same register, and the operation combines that register with itself, exactly if no register
  // but perhaps the last one is free.
  lemma OperandLostIff(op: BinOp, x: nat, y: nat, g: GState)
    ensures var a := GenE(Var(x), g);
      var b := GenE(Var(y), a.g);
      && (a.r == b.r <==> AtMostOneFree(g))
      && GenE(Bin(op, Var(x), Var(y)), g).r == a.r
      && GenE(Bin(op, Var(x), Var(y)), g).code
         == a.code + (b.code + (BinCode(op, a.r, b.r) + (Free(b.g, b.r).code + SetCode(op, a.r))))
  {
    hide FirstFree, BinCode, SetCode;
    var i := FirstFree(g.used);
    var a := GenE(Var(x), g);
    if i < NUM_REGS - 1 {
      var j := FirstFree(a.g.used);
      assert i in a.g.used;
    } else {
      NoneFree(g, i);
    }
  }

  // Then the second operand takes the last register, whoever has it.
  lemma NoneFree(g: GState, i: nat)
    requires i == FirstFree(g.used) && i >= NUM_REGS - 1
    ensures Alloc(g).r == NUM_REGS - 1 && Alloc(Alloc(g).g).r == NUM_REGS - 1
  {
    var g1 := Alloc(g).g;
    assert forall j :: 0 <= j < NUM_REGS ==> j in g1.used;
  }

  // A register that was spilled is given back with what it held before, but as a free one: the next
  // to ask for a register gets it, and nothing is saved.
  lemma SpilledIsFree(g: GState)
    requires FirstFree(g.used) == NUM_REGS
    ensures var a := Alloc(g);
      var f := Free(a.g, a.r);
      && a.r == NUM_REGS - 1 && a.code != [] && f.code == [Mov(NoSuffix, a.code[0].dst, a.code[0].src)]
      && Alloc(f.g).r == a.r && Alloc(f.g).code == []
  {
    var a := Alloc(g);
    var f := Free(a.g, a.r);
    assert forall j :: 0 <= j < NUM_REGS - 1 ==> j in f.g.used;
    FirstFreeIs(f.g.used, 0, NUM_REGS - 1);
  }
}
