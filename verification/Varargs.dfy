/** Passing arguments to a variadic function: the caller's placement, the callee's save area and
    va_arg, on the System V x86-64 convention. */
module Varargs {

  const MAX_GP: nat := 6
  const MAX_FP: nat := 8

  // Integers, pointers and structs of at most eight bytes; doubles; larger structs, by pointer, with
  // their size in cells of eight bytes.
  datatype Class = Integer | Double | Big(cells: nat)

  // bits is what travels in the register or slot.
  datatype Arg = Arg(cls: Class, bits: int)

  datatype Loc = Gp(k: nat) | Fp(k: nat) | Stack(k: nat)
  datatype Counts = Counts(gp: nat, fp: nat, st: nat)

  // ----- where an argument goes -----

  function LocOf(c: Counts, cls: Class): Loc {
    if cls.Double? then if c.fp < MAX_FP then Fp(c.fp) else Stack(c.st)
    else if c.gp < MAX_GP then Gp(c.gp) else Stack(c.st)
  }

  function Bump(c: Counts, l: Loc): Counts {
    match l
    case Gp(_) => c.(gp := c.gp + 1)
    case Fp(_) => c.(fp := c.fp + 1)
    case Stack(_) => c.(st := c.st + 1)
  }

  // Registers and slots taken by a hidden result pointer and the first n arguments.
  function CountAt(cs: seq<Class>, hidden: bool, n: nat): Counts
    requires n <= |cs|
  {
    if n == 0 then Counts(if hidden then 1 else 0, 0, 0)
    else Bump(CountAt(cs, hidden, n - 1), LocOf(CountAt(cs, hidden, n - 1), cs[n - 1]))
  }

  function LocAt(cs: seq<Class>, hidden: bool, i: nat): Loc
    requires i < |cs|
  {
    LocOf(CountAt(cs, hidden, i), cs[i])
  }

  function Classes(args: seq<Arg>): (cs: seq<Class>)
    ensures |cs| == |args|
  {
    seq(|args|, i requires 0 <= i < |args| => args[i].cls)
  }

  lemma {:induction false} CountGrows(cs: seq<Class>, hidden: bool, i: nat, n: nat)
    requires i <= n <= |cs|
    ensures var a, b := CountAt(cs, hidden, i), CountAt(cs, hidden, n);
      a.gp <= b.gp && a.fp <= b.fp && a.st <= b.st && b.gp <= MAX_GP && b.fp <= MAX_FP
    decreases n
  {
    if n > i {
      CountGrows(cs, hidden, i, n - 1);
    } else if n > 0 {
      CountGrows(cs, hidden, i - 1, n - 1);
    }
  }

  // No two arguments share a register or a slot.
  lemma LocsDiffer(cs: seq<Class>, hidden: bool, i: nat, j: nat)
    requires i < j < |cs|
    ensures LocAt(cs, hidden, i) != LocAt(cs, hidden, j)
  {
    CountGrows(cs, hidden, i + 1, j);
  }

  // How many of the first n arguments are doubles.
  function Doubles(cs: seq<Class>, n: nat): (d: nat)
    requires n <= |cs|
    ensures d <= n
  {
    if n == 0 then 0 else Doubles(cs, n - 1) + if cs[n - 1].Double? then 1 else 0
  }

  // Six general registers, a hidden result pointer's included, and eight vector registers; what does
  // not get one goes on the stack, in order.
  lemma {:induction false} RegistersFirst(cs: seq<Class>, hidden: bool, n: nat)
    requires n <= |cs|
    ensures var d := Doubles(cs, n);
      var g := n - d + if hidden then 1 else 0;
      CountAt(cs, hidden, n) == Counts(if g < 6 then g else 6, if d < 8 then d else 8, (if g < 6 then 0 else g - 6) + if d < 8 then 0 else d - 8)
    decreases n
  {
    if n > 0 {
      RegistersFirst(cs, hidden, n - 1);
    }
  }

  // The loop of gen_funcall over the arguments.
  method ClassifyArgs(cs: seq<Class>, hidden: bool)
    returns (gpIdx: seq<int>, fpIdx: seq<int>, stackIdx: seq<int>, fpArgs: nat, stackReserve: nat)
    ensures |gpIdx| == |fpIdx| == |stackIdx| == |cs|
    ensures forall i :: 0 <= i < |cs| ==> IndexIs(LocAt(cs, hidden, i), gpIdx[i], fpIdx[i], stackIdx[i])
    ensures fpArgs == CountAt(cs, hidden, |cs|).fp
    ensures stackReserve % 16 == 0 && 8 * CountAt(cs, hidden, |cs|).st <= stackReserve < 8 * CountAt(cs, hidden, |cs|).st + 16
  {
    var gpArgs: nat, stackArgs: nat := if hidden then 1 else 0, 0;
    fpArgs := 0;
    gpIdx, fpIdx, stackIdx := seq(|cs|, _ => -1), seq(|cs|, _ => -1), seq(|cs|, _ => -1);
    for i := 0 to |cs|
      invariant |gpIdx| == |fpIdx| == |stackIdx| == |cs|
      invariant CountAt(cs, hidden, i) == Counts(gpArgs, fpArgs, stackArgs)
      invariant forall j :: 0 <= j < i ==> IndexIs(LocAt(cs, hidden, j), gpIdx[j], fpIdx[j], stackIdx[j])
      invariant forall j :: i <= j < |cs| ==> gpIdx[j] == -1 && fpIdx[j] == -1 && stackIdx[j] == -1
    {
      if cs[i].Double? {
        if fpArgs < MAX_FP {
          fpIdx := fpIdx[i := fpArgs];
          fpArgs := fpArgs + 1;
        } else {
          stackIdx := stackIdx[i := stackArgs];
          stackArgs := stackArgs + 1;
        }
        continue;
      }
      if gpArgs < MAX_GP {
        gpIdx := gpIdx[i := gpArgs];
        gpArgs := gpArgs + 1;
      } else {
        stackIdx := stackIdx[i := stackArgs];
        stackArgs := stackArgs + 1;
      }
    }
    var pad := if stackArgs % 2 == 1 then 8 else 0;
    stackReserve := stackArgs * 8 + pad;
  }

  predicate IndexIs(l: Loc, g: int, f: int, s: int) {
    match l
    case Gp(k) => g == k && f == -1 && s == -1
    case Fp(k) => g == -1 && f == k && s == -1
    case Stack(k) => g == -1 && f == -1 && s == k
  }

  // ----- at the call -----

  // The machine on entry to the callee; memory holds eight-byte cells, mem(a) at address a.
  datatype Machine = Machine(gp: seq<int>, fp: seq<int>, al: int, mem: int -> int, rbp: int)

  // The first stack argument lies above the return address and the saved rbp.
  function SlotAddr(rbp: int, k: nat): int { rbp + 16 + 8 * k }

  function ValueAt(m: Machine, l: Loc): int {
    match l
    case Gp(k) => if k < |m.gp| then m.gp[k] else 0
    case Fp(k) => if k < |m.fp| then m.fp[k] else 0
    case Stack(k) => m.mem(SlotAddr(m.rbp, k))
  }

  // The caller has put every argument in its place, and al holds the number of vector registers.
  ghost predicate Passed(args: seq<Arg>, hidden: bool, m: Machine) {
    var cs := Classes(args);
    && |m.gp| == MAX_GP && |m.fp| == MAX_FP && m.al == CountAt(cs, hidden, |cs|).fp
    && forall i :: 0 <= i < |args| ==> ValueAt(m, LocAt(cs, hidden, i)) == args[i].bits
  }

  // ----- the callee's prologue -----

  // What storing a named parameter does to al: the copy loop of a struct ends with its first
  // byte in al, and an integer on the stack goes through rax.
  function AlStep(mem: int -> int, al: int, a: Arg, l: Loc): int {
    if l.Gp? && a.cls.Big? then mem(a.bits) % 256
    else if l.Stack? && !a.cls.Double? then a.bits % 256
    else al
  }

  function AlAfter(args: seq<Arg>, hidden: bool, m: Machine, n: nat): int
    requires n <= |args|
  {
    if n == 0 then m.al
    else AlStep(m.mem, AlAfter(args, hidden, m, n - 1), args[n - 1], LocAt(Classes(args), hidden, n - 1))
  }

  // What the storage of a parameter holds: a value, or the cells of a struct.
  datatype Param = Scalar(v: int) | Struct(cells: seq<int>)

  function CellsFrom(mem: int -> int, a: int, n: nat): (c: seq<int>)
    ensures |c| == n
  {
    seq(n, k => mem(a + 8 * k))
  }

  // What was passed.
  function Meant(a: Arg, m: Machine): Param {
    if a.cls.Big? then Struct(CellsFrom(m.mem, a.bits, a.cls.cells)) else Scalar(a.bits)
  }

  // What is stored: a struct is copied from where the register points, but a struct on the stack is
  // copied from the slot itself, which holds its address.
  function Stored(a: Arg, l: Loc, m: Machine): Param {
    if a.cls.Big? && l.Stack? then Struct(CellsFrom(m.mem, SlotAddr(m.rbp, l.k), a.cls.cells)) else Meant(a, m)
  }

  lemma ClassesAre(args: seq<Arg>)
    ensures forall i :: 0 <= i < |args| ==> Classes(args)[i] == args[i].cls
  {
  }

  lemma Beginning(args: seq<Arg>, hidden: bool, m: Machine)
    ensures CountAt(Classes(args), hidden, 0) == Counts(if hidden then 1 else 0, 0, 0) && AlAfter(args, hidden, m, 0) == m.al
  {
  }

  lemma PassedAt(args: seq<Arg>, hidden: bool, m: Machine, i: nat)
    requires Passed(args, hidden, m) && i < |args|
    ensures |m.gp| == MAX_GP && |m.fp| == MAX_FP && ValueAt(m, LocAt(Classes(args), hidden, i)) == args[i].bits
  {
  }

  lemma CountStep(args: seq<Arg>, hidden: bool, m: Machine, i: nat)
    requires i < |args|
    ensures var cs := Classes(args); CountAt(cs, hidden, i + 1) == Bump(CountAt(cs, hidden, i), LocAt(cs, hidden, i))
    ensures AlAfter(args, hidden, m, i + 1) == AlStep(m.mem, AlAfter(args, hidden, m, i), args[i], LocAt(Classes(args), hidden, i))
  {
  }

  // The callee's own walk over its parameters, args[..n] being what was passed for them.
  method SaveParams(args: seq<Arg>, n: nat, hidden: bool, m: Machine)
    returns (values: seq<Param>, gpCount: nat, fpCount: nat, stCount: nat, al: int)
    requires n <= |args| && Passed(args, hidden, m)
    ensures |values| == n && forall i :: 0 <= i < n ==> values[i] == Stored(args[i], LocAt(Classes(args), hidden, i), m)
    ensures CountAt(Classes(args), hidden, n) == Counts(gpCount, fpCount, stCount)
    ensures al == AlAfter(args, hidden, m, n)
  {
    hide CountAt, AlAfter, Passed, Classes, CellsFrom;
    ClassesAre(args);
    Beginning(args, hidden, m);
    gpCount, fpCount, stCount, al, values := if hidden then 1 else 0, 0, 0, m.al, [];
    ghost var cs := Classes(args);
    for i := 0 to n
      invariant |values| == i && forall j :: 0 <= j < i ==> values[j] == Stored(args[j], LocAt(cs, hidden, j), m)
      invariant CountAt(cs, hidden, i) == Counts(gpCount, fpCount, stCount)
      invariant al == AlAfter(args, hidden, m, i)
    {
      PassedAt(args, hidden, m, i);
      CountStep(args, hidden, m, i);
      if args[i].cls.Double? {
        if fpCount < MAX_FP {
          values := values + [Scalar(m.fp[fpCount])];
          fpCount := fpCount + 1;
        } else {
          values := values + [Scalar(m.mem(16 + stCount * 8 + m.rbp))];
          stCount := stCount + 1;
        }
      } else if gpCount < MAX_GP {
        if args[i].cls.Big? {
          var r11 := m.gp[gpCount];
          values := values + [Struct(CellsFrom(m.mem, r11, args[i].cls.cells))];
          al := m.mem(r11) % 256;
        } else {
          values := values + [Scalar(m.gp[gpCount])];
        }
        gpCount := gpCount + 1;
      } else {
        var slot := 16 + stCount * 8 + m.rbp;
        if args[i].cls.Big? {
          values := values + [Struct(CellsFrom(m.mem, slot, args[i].cls.cells))];
        } else {
          values := values + [Scalar(m.mem(slot))];
        }
        al := m.mem(slot) % 256;
        stCount := stCount + 1;
      }
    }
  }

  // ----- when every named parameter is received -----

  // Structs passed by pointer have more than eight bytes.
  predicate Sized(cs: seq<Class>) { forall i :: 0 <= i < |cs| ==> cs[i].Big? ==> cs[i].cells >= 2 }

  // With these classes, whatever is passed is what the parameters hold.
  ghost predicate AllReceived(cs: seq<Class>, hidden: bool, n: nat)
    requires n <= |cs|
  {
    forall args: seq<Arg>, m: Machine, i: nat :: Classes(args) == cs && Passed(args, hidden, m) && i < n ==>
      ParamReceived(args[i], LocAt(cs, hidden, i), m)
  }

  predicate ParamReceived(a: Arg, l: Loc, m: Machine) { Stored(a, l, m) == Meant(a, m) }

  predicate StructOnStack(cs: seq<Class>, hidden: bool, i: nat)
    requires i < |cs|
  {
    cs[i].Big? && LocAt(cs, hidden, i).Stack?
  }

  // Every named parameter is received, whatever the values, exactly if no named struct of more than
  // eight bytes is passed on the stack.
  lemma ReceivedIff(cs: seq<Class>, hidden: bool, n: nat)
    requires n <= |cs| && Sized(cs)
    ensures AllReceived(cs, hidden, n) <==> forall i :: 0 <= i < n ==> !StructOnStack(cs, hidden, i)
  {
    hide Passed, LocAt, Meant;
    if i :| 0 <= i < n && StructOnStack(cs, hidden, i) {
      StructLost(cs, hidden, i);
    } else {
      forall args: seq<Arg>, m: Machine, i: nat | Classes(args) == cs && Passed(args, hidden, m) && i < n
        ensures ParamReceived(args[i], LocAt(cs, hidden, i), m)
      {
        ClassesAre(args);
        assert !StructOnStack(cs, hidden, i);
      }
    }
  }

  // The struct lies at address 1, away from all slots: its parameter gets 1 as its first cell.
  lemma StructLost(cs: seq<Class>, hidden: bool, i: nat)
    requires i < |cs| && Sized(cs) && StructOnStack(cs, hidden, i)
    ensures exists args: seq<Arg>, m: Machine :: Classes(args) == cs && Passed(args, hidden, m) && !ParamReceived(args[i], LocAt(cs, hidden, i), m)
  {
    hide CountAt, LocAt;
    var args := seq(|cs|, j requires 0 <= j < |cs| => Arg(cs[j], if j == i then 1 else 0));
    var k := LocAt(cs, hidden, i).k;
    var mem := (a: int) => if a == SlotAddr(0, k) then 1 else 0;
    var m := Machine(seq(MAX_GP, _ => 0), seq(MAX_FP, _ => 0), CountAt(cs, hidden, |cs|).fp, mem, 0);
    assert Classes(args) == cs;
    forall j | 0 <= j < |args|
      ensures ValueAt(m, LocAt(cs, hidden, j)) == args[j].bits
    {
      LocBounds(cs, hidden, j, j);
      if j < i {
        LocsDiffer(cs, hidden, j, i);
      } else if i < j {
        LocsDiffer(cs, hidden, i, j);
      }
    }
    assert CellsFrom(mem, 1, cs[i].cells)[0] == 0;
    assert CellsFrom(mem, SlotAddr(0, k), cs[i].cells)[0] == 1;
    assert !ParamReceived(args[i], LocAt(cs, hidden, i), m);
  }

  // For instance the seventh parameter, behind six integers.
  lemma SeventhStructLost(cells: nat)
    requires cells >= 2
    ensures !AllReceived([Integer, Integer, Integer, Integer, Integer, Integer, Big(cells)], false, 7)
  {
    var cs := [Integer, Integer, Integer, Integer, Integer, Integer, Big(cells)];
    SixIntegers(cs);
    assert StructOnStack(cs, false, 6);
    ReceivedIff(cs, false, 7);
  }

  lemma SixIntegers(cs: seq<Class>)
    requires |cs| == 7 && forall i :: 0 <= i < 6 ==> cs[i] == Integer
    ensures CountAt(cs, false, 6) == Counts(6, 0, 0)
  {
    assert CountAt(cs, false, 1) == Counts(1, 0, 0);
    assert CountAt(cs, false, 2) == Counts(2, 0, 0);
    assert CountAt(cs, false, 3) == Counts(3, 0, 0);
    assert CountAt(cs, false, 4) == Counts(4, 0, 0);
    assert CountAt(cs, false, 5) == Counts(5, 0, 0);
  }

  // The save area lies at least 176 bytes below rbp.
  const SAVE_AREA: nat := 176

  function Store(mem: int -> int, a: int, v: int): int -> int { b => if b == a then v else mem(b) }

  // movq of the argument registers k.. into the save area, falling through the cases.
  function SaveGp(mem: int -> int, gp: seq<int>, save: int, k: nat): int -> int
    requires |gp| == MAX_GP
    decreases MAX_GP - k
  {
    if k >= MAX_GP then mem else SaveGp(Store(mem, save + 8 * k, gp[k]), gp, save, k + 1)
  }

  function SaveFp(mem: int -> int, fp: seq<int>, save: int, k: nat): int -> int
    requires |fp| == MAX_FP
    decreases MAX_FP - k
  {
    if k >= MAX_FP then mem else SaveFp(Store(mem, save + 48 + 16 * k, fp[k]), fp, save, k + 1)
  }

  // The vector registers are saved only if al is not zero.
  function Saved(m: Machine, c: Counts, al: int, save: int): int -> int
    requires |m.gp| == MAX_GP && |m.fp| == MAX_FP
  {
    var mem := SaveGp(m.mem, m.gp, save, c.gp);
    if c.fp < MAX_FP && al != 0 then SaveFp(mem, m.fp, save, c.fp) else mem
  }

  lemma {:induction false} SaveGpAt(mem: int -> int, gp: seq<int>, save: int, k: nat, a: int)
    requires |gp| == MAX_GP && k <= MAX_GP
    ensures forall j :: k <= j < MAX_GP ==> SaveGp(mem, gp, save, k)(save + 8 * j) == gp[j]
    ensures a < save + 8 * k || a >= save + 48 ==> SaveGp(mem, gp, save, k)(a) == mem(a)
    decreases MAX_GP - k
  {
    if k < MAX_GP {
      SaveGpAt(Store(mem, save + 8 * k, gp[k]), gp, save, k + 1, save + 8 * k);
      SaveGpAt(Store(mem, save + 8 * k, gp[k]), gp, save, k + 1, a);
    }
  }

  lemma {:induction false} SaveFpAt(mem: int -> int, fp: seq<int>, save: int, k: nat, a: int)
    requires |fp| == MAX_FP && k <= MAX_FP
    ensures forall j :: k <= j < MAX_FP ==> SaveFp(mem, fp, save, k)(save + 48 + 16 * j) == fp[j]
    ensures a < save + 48 + 16 * k || a >= save + SAVE_AREA ==> SaveFp(mem, fp, save, k)(a) == mem(a)
    decreases MAX_FP - k
  {
    if k < MAX_FP {
      SaveFpAt(Store(mem, save + 48 + 16 * k, fp[k]), fp, save, k + 1, save + 48 + 16 * k);
      SaveFpAt(Store(mem, save + 48 + 16 * k, fp[k]), fp, save, k + 1, a);
    }
  }

  // ----- va_start and va_arg -----

  datatype VaList = VaList(gpOff: int, fpOff: int, over: int)

  function VaStart(c: Counts, rbp: int): VaList {
    VaList(8 * c.gp, 48 + 16 * c.fp, SlotAddr(rbp, c.st))
  }

  datatype Fetched = Fetched(addr: int, ap: VaList)

  function VaArg(ap: VaList, cls: Class, save: int): Fetched {
    if cls.Double? then
      if ap.fpOff > 160 then Fetched(ap.over, ap.(over := ap.over + 8))
      else Fetched(save + ap.fpOff, ap.(fpOff := ap.fpOff + 16))
    else
      if ap.gpOff > 40 then Fetched(ap.over, ap.(over := ap.over + 8))
      else Fetched(save + ap.gpOff, ap.(gpOff := ap.gpOff + 8))
  }

  // The list after va_start behind n parameters and va_arg for the arguments n..i.
  function VaAt(cs: seq<Class>, hidden: bool, n: nat, i: nat, rbp: int, save: int): VaList
    requires n <= i <= |cs|
    decreases i - n
  {
    if i == n then VaStart(CountAt(cs, hidden, n), rbp) else VaArg(VaAt(cs, hidden, n, i - 1, rbp, save), cs[i - 1], save).ap
  }

  // Where va_arg finds an argument that was passed at l.
  function Home(l: Loc, rbp: int, save: int): int {
    match l
    case Gp(k) => save + 8 * k
    case Fp(k) => save + 48 + 16 * k
    case Stack(k) => SlotAddr(rbp, k)
  }

  // The callee's list moves exactly as the caller's counters did.
  lemma {:induction false} VaFollows(cs: seq<Class>, hidden: bool, n: nat, i: nat, rbp: int, save: int)
    requires n <= i <= |cs|
    ensures VaAt(cs, hidden, n, i, rbp, save) == VaStart(CountAt(cs, hidden, i), rbp)
    ensures i < |cs| ==> VaArg(VaAt(cs, hidden, n, i, rbp, save), cs[i], save).addr == Home(LocAt(cs, hidden, i), rbp, save)
    decreases i - n
  {
    CountGrows(cs, hidden, 0, i);
    if i > n {
      VaFollows(cs, hidden, n, i - 1, rbp, save);
    }
  }

  // The i-th argument as va_arg reads it.
  function Read(args: seq<Arg>, hidden: bool, n: nat, i: nat, m: Machine, save: int): int
    requires n <= i < |args| && |m.gp| == MAX_GP && |m.fp| == MAX_FP
  {
    var cs := Classes(args);
    var mem := Saved(m, CountAt(cs, hidden, n), AlAfter(args, hidden, m, n), save);
    mem(VaArg(VaAt(cs, hidden, n, i, m.rbp, save), cs[i], save).addr)
  }

  // Every unnamed argument is read as passed.
  ghost predicate AllRead(args: seq<Arg>, hidden: bool, n: nat, m: Machine, save: int)
    requires n <= |args| && |m.gp| == MAX_GP && |m.fp| == MAX_FP
  {
    forall i :: n <= i < |args| ==> Read(args, hidden, n, i, m, save) == args[i].bits
  }

  lemma ReadsOne(args: seq<Arg>, hidden: bool, n: nat, i: nat, m: Machine, save: int)
    requires n <= i < |args| && Passed(args, hidden, m) && save <= m.rbp - SAVE_AREA
    requires LocAt(Classes(args), hidden, i).Fp? ==> AlAfter(args, hidden, m, n) != 0
    ensures Read(args, hidden, n, i, m, save) == args[i].bits
  {
    hide CountAt, AlAfter, Passed, Classes, VaAt, SaveGp, SaveFp, LocAt;
    var cs := Classes(args);
    var c, l := CountAt(cs, hidden, n), LocAt(cs, hidden, i);
    VaFollows(cs, hidden, n, i, m.rbp, save);
    LocBounds(cs, hidden, n, i);
    PassedAt(args, hidden, m, i);
    SavedAt(m, c, AlAfter(args, hidden, m, n), save, l);
  }

  lemma LocBounds(cs: seq<Class>, hidden: bool, n: nat, i: nat)
    requires n <= i < |cs|
    ensures var c, l := CountAt(cs, hidden, n), LocAt(cs, hidden, i);
      c.gp <= MAX_GP && c.fp <= MAX_FP && (l.Gp? ==> c.gp <= l.k < MAX_GP) && (l.Fp? ==> c.fp <= l.k < MAX_FP)
  {
    CountGrows(cs, hidden, n, i);
  }

  // What the callee finds at an argument's home after its prologue.
  lemma SavedAt(m: Machine, c: Counts, al: int, save: int, l: Loc)
    requires |m.gp| == MAX_GP && |m.fp| == MAX_FP && c.gp <= MAX_GP && c.fp <= MAX_FP && save <= m.rbp - SAVE_AREA
    requires (l.Gp? ==> c.gp <= l.k < MAX_GP) && (l.Fp? ==> c.fp <= l.k < MAX_FP)
    ensures Saved(m, c, al, save)(Home(l, m.rbp, save))
      == if l.Fp? && al == 0 then m.mem(save + 48 + 16 * l.k) else ValueAt(m, l)
  {
    hide SaveGp, SaveFp;
    var a := Home(l, m.rbp, save);
    var mem := SaveGp(m.mem, m.gp, save, c.gp);
    SaveGpAt(m.mem, m.gp, save, c.gp, a);
    SaveFpAt(mem, m.fp, save, c.fp, a);
  }

  // ----- when every argument is read as passed -----

  // Storing one of the n named parameters overwrites al.
  ghost predicate Clobbers(cs: seq<Class>, hidden: bool, n: nat)
    requires n <= |cs|
  {
    exists i :: 0 <= i < n && ClobbersAt(cs, hidden, i)
  }

  predicate ClobbersAt(cs: seq<Class>, hidden: bool, i: nat)
    requires i < |cs|
  {
    (LocAt(cs, hidden, i).Gp? && cs[i].Big?) || (LocAt(cs, hidden, i).Stack? && !cs[i].Double?)
  }

  // An unnamed argument travels in a vector register.
  ghost predicate UnnamedInVector(cs: seq<Class>, hidden: bool, n: nat) {
    exists i :: n <= i < |cs| && LocAt(cs, hidden, i).Fp?
  }

  lemma {:induction false} AlKept(args: seq<Arg>, hidden: bool, m: Machine, n: nat)
    requires n <= |args| && !Clobbers(Classes(args), hidden, n)
    ensures AlAfter(args, hidden, m, n) == m.al
    decreases n
  {
    if n > 0 {
      assert !ClobbersAt(Classes(args), hidden, n - 1);
      AlKept(args, hidden, m, n - 1);
    }
  }

  lemma {:induction false} AlZeroed(args: seq<Arg>, hidden: bool, m: Machine, n: nat)
    requires n <= |args| && Clobbers(Classes(args), hidden, n) && (forall a :: m.mem(a) == 0)
    requires forall i :: 0 <= i < n ==> args[i].bits == 0
    ensures AlAfter(args, hidden, m, n) == 0
    decreases n
  {
    if !ClobbersAt(Classes(args), hidden, n - 1) {
      AlZeroed(args, hidden, m, n - 1);
    }
  }

  // With these classes, whatever is passed is read back.
  ghost predicate Agreement(cs: seq<Class>, hidden: bool, n: nat)
    requires n <= |cs|
  {
    forall args: seq<Arg>, m: Machine, save: int ::
      Classes(args) == cs && Passed(args, hidden, m) && save <= m.rbp - SAVE_AREA ==> AllRead(args, hidden, n, m, save)
  }

  // The protocol agrees for all values exactly if no named parameter overwrites al before the
  // vector registers are saved, or no unnamed argument is in one.
  lemma AgreementIff(cs: seq<Class>, hidden: bool, n: nat)
    requires n <= |cs|
    ensures Agreement(cs, hidden, n) <==> !Clobbers(cs, hidden, n) || !UnnamedInVector(cs, hidden, n)
  {
    hide Clobbers, UnnamedInVector, Passed, AllRead, Classes, CountAt;
    if Clobbers(cs, hidden, n) && UnnamedInVector(cs, hidden, n) {
      Disagreement(cs, hidden, n);
    } else {
      forall args: seq<Arg>, m: Machine, save: int |
        Classes(args) == cs && Passed(args, hidden, m) && save <= m.rbp - SAVE_AREA
        ensures |m.gp| == MAX_GP && |m.fp| == MAX_FP && AllRead(args, hidden, n, m, save)
      {
        ReadsAll(args, hidden, n, m, save);
      }
    }
  }

  lemma ReadsAll(args: seq<Arg>, hidden: bool, n: nat, m: Machine, save: int)
    requires n <= |args| && Passed(args, hidden, m) && save <= m.rbp - SAVE_AREA
    requires !Clobbers(Classes(args), hidden, n) || !UnnamedInVector(Classes(args), hidden, n)
    ensures |m.gp| == MAX_GP && |m.fp| == MAX_FP && AllRead(args, hidden, n, m, save)
  {
    hide Classes, CountAt, AlAfter, LocAt, Read, Clobbers;
    forall i | n <= i < |args|
      ensures Read(args, hidden, n, i, m, save) == args[i].bits
    {
      if LocAt(Classes(args), hidden, i).Fp? {
        AlKept(args, hidden, m, n);
        VectorUsed(Classes(args), hidden, i);
      }
      ReadsOne(args, hidden, n, i, m, save);
    }
  }

  lemma VectorUsed(cs: seq<Class>, hidden: bool, i: nat)
    requires i < |cs| && LocAt(cs, hidden, i).Fp?
    ensures CountAt(cs, hidden, |cs|).fp > 0
  {
    CountGrows(cs, hidden, i + 1, |cs|);
  }

  // Zeros everywhere but in one vector register: it is not saved, and va_arg reads a zero.
  lemma Disagreement(cs: seq<Class>, hidden: bool, n: nat)
    requires n <= |cs| && Clobbers(cs, hidden, n) && UnnamedInVector(cs, hidden, n)
    ensures !Agreement(cs, hidden, n)
  {
    hide CountAt, AlAfter, Passed, Classes, VaAt, LocAt, Clobbers;
    var u :| n <= u < |cs| && LocAt(cs, hidden, u).Fp?;
    var l := LocAt(cs, hidden, u);
    LocBounds(cs, hidden, n, u);
    var args, m := LoneOne(cs, hidden, u);
    var save := 0 - SAVE_AREA;
    AlZeroed(args, hidden, m, n);
    VaFollows(cs, hidden, n, u, m.rbp, save);
    SavedAt(m, CountAt(cs, hidden, n), 0, save, l);
    assert Read(args, hidden, n, u, m, save) == 0;
    assert !AllRead(args, hidden, n, m, save);
  }

  lemma LoneOne(cs: seq<Class>, hidden: bool, u: nat) returns (args: seq<Arg>, m: Machine)
    requires u < |cs| && LocAt(cs, hidden, u).Fp?
    ensures Classes(args) == cs && Passed(args, hidden, m) && m.rbp == 0 && (forall a :: m.mem(a) == 0)
    ensures |m.gp| == MAX_GP && |m.fp| == MAX_FP
    ensures forall i :: 0 <= i < |args| ==> args[i].bits == if i == u then 1 else 0
  {
    hide CountAt, LocAt;
    var k := LocAt(cs, hidden, u).k;
    LocBounds(cs, hidden, u, u);
    args := seq(|cs|, i requires 0 <= i < |cs| => Arg(cs[i], if i == u then 1 else 0));
    assert Classes(args) == cs;
    var zeros := seq(MAX_FP, _ => 0);
    m := Machine(seq(MAX_GP, _ => 0), zeros[k := 1], CountAt(cs, hidden, |cs|).fp, (_: int) => 0, 0);
    forall i | 0 <= i < |args|
      ensures ValueAt(m, LocAt(cs, hidden, i)) == args[i].bits
    {
      if i < u {
        LocsDiffer(cs, hidden, i, u);
      } else if u < i {
        LocsDiffer(cs, hidden, u, i);
      }
    }
  }

  // For instance a named struct of more than eight bytes followed by an unnamed double.
  lemma NamedStructThenDouble(cells: nat)
    ensures !Agreement([Big(cells), Double], false, 1)
  {
    var cs := [Big(cells), Double];
    assert LocAt(cs, false, 0) == Gp(0);
    assert CountAt(cs, false, 1) == Counts(1, 0, 0);
    assert LocAt(cs, false, 1) == Fp(0);
    assert ClobbersAt(cs, false, 0);
    AgreementIff(cs, false, 1);
  }
}
