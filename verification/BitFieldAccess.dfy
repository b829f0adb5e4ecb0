/** How a bit-field is read and written: mask-and-shift code on 64-bit registers, over a memory
    of individual bits. */
module BitFieldAccess {
  import opened Words

  // ----- words and memory -----

  // Bit i of a register.
  type Word = w: seq<bool> | |w| == 64 witness seq(64, _ => false)

  // Bit k of the byte at address a is bit 8 * a + k of memory.
  type Bits = int -> bool

  function Ones(n: nat): Word { seq(64, i => i < n) }

  function Not(a: Word): Word { seq(64, i requires 0 <= i < 64 => !a[i]) }

  function And(a: Word, b: Word): Word { seq(64, i requires 0 <= i < 64 => a[i] && b[i]) }

  function Or(a: Word, b: Word): Word { seq(64, i requires 0 <= i < 64 => a[i] || b[i]) }

  // Shift counts are taken modulo 64.
  function Shl(a: Word, k: nat): Word {
    seq(64, i requires 0 <= i < 64 => i >= k % 64 && a[i - k % 64])
  }

  function Shr(a: Word, k: nat): Word {
    seq(64, i requires 0 <= i < 64 => i + k % 64 < 64 && a[i + k % 64])
  }

  function Sar(a: Word, k: nat): Word {
    seq(64, i requires 0 <= i < 64 => if i + k % 64 < 64 then a[i + k % 64] else a[63])
  }

  // A write to a 32-bit register clears the upper half.
  function Low(a: Word): Word { And(a, Ones(32)) }

  // sz bytes from address a, zero-extended.
  function LoadZero(m: Bits, a: int, sz: nat): Word {
    seq(64, i => i < 8 * sz && m(8 * a + i))
  }

  // sz bytes from address a, sign-extended to 32 bits.
  function LoadSign(m: Bits, a: int, sz: nat): Word
    requires sz >= 1
  {
    seq(64, i => if i < 8 * sz then m(8 * a + i) else i < 32 && m(8 * a + 8 * sz - 1))
  }

  function StoreBytes(m: Bits, a: int, sz: nat, w: Word): Bits {
    b => if 8 * a <= b < 8 * a + 8 * sz && b < 8 * a + 64 then w[b - 8 * a] else m(b)
  }

  // ----- the instructions -----

  datatype Temp = R2 | RT | RV | TMP         // the value to store, and scratch registers

  datatype Line =
    | LoadZx(sz: nat, disp: nat, dst: Temp)  // movz/mov disp(%ra), dst
    | LoadSx(sz: nat, dst: Temp)             // movsbl, movswl (%ra), dst
    | AndMask(mask: Word, dst: Temp)         // movabsq $mask, %rax; andq %rax, dst
    | And32(mask: Word, dst: Temp)           // and $mask, 32-bit dst
    | Copy(src: Temp, dst: Temp)
    | ShlBy(k: nat, dst: Temp)
    | ShrBy(k: nat, dst: Temp)
    | SarBy(k: nat, dst: Temp)
    | OrReg(src: Temp, dst: Temp)
    | Or32(src: Temp, dst: Temp)
    | StoreN(sz: nat, src: Temp)             // mov src, (%ra)
    | NextEight                              // add $8, %ra

  datatype Access = Access(r2: Word, rt: Word, rv: Word, tmp: Word, ra: int, mem: Bits)

  function Get(s: Access, r: Temp): Word {
    match r
    case R2 => s.r2
    case RT => s.rt
    case RV => s.rv
    case TMP => s.tmp
  }

  function Set(s: Access, r: Temp, w: Word): Access {
    match r
    case R2 => s.(r2 := w)
    case RT => s.(rt := w)
    case RV => s.(rv := w)
    case TMP => s.(tmp := w)
  }

  function Exec(i: Line, s: Access): Access {
    match i
    case LoadZx(sz, disp, dst) => Set(s, dst, LoadZero(s.mem, s.ra + disp, sz))
    case LoadSx(sz, dst) => if sz == 0 then s else Set(s, dst, LoadSign(s.mem, s.ra, sz))
    case AndMask(mask, dst) => Set(s, dst, And(Get(s, dst), mask))
    case And32(mask, dst) => Set(s, dst, Low(And(Get(s, dst), mask)))
    case Copy(src, dst) => Set(s, dst, Get(s, src))
    case ShlBy(k, dst) => Set(s, dst, Shl(Get(s, dst), k))
    case ShrBy(k, dst) => Set(s, dst, Shr(Get(s, dst), k))
    case SarBy(k, dst) => Set(s, dst, Sar(Get(s, dst), k))
    case OrReg(src, dst) => Set(s, dst, Or(Get(s, dst), Get(s, src)))
    case Or32(src, dst) => Set(s, dst, Low(Or(Get(s, dst), Get(s, src))))
    case StoreN(sz, src) => s.(mem := StoreBytes(s.mem, s.ra, sz, Get(s, src)))
    case NextEight => s.(ra := s.ra + 8)
  }

  function Run(code: seq<Line>, s: Access): Access {
    if code == [] then s else Run(code[1..], Exec(code[0], s))
  }

  lemma {:induction false} RunConcat(a: seq<Line>, b: seq<Line>, s: Access)
    ensures Run(a + b, s) == Run(b, Run(a, s))
  {
    if a == [] {
      assert a + b == b;
    } else {
      assert (a + b)[1..] == a[1..] + b;
      RunConcat(a[1..], b, Exec(a[0], s));
    }
  }

  // ----- the code -----

  // What access needs to know of a bit-field: its place in the unit at its byte offset, the size
  // of its declared type, the larger load size recorded by dense packing (0 if none).
  datatype Field = Field(bo: nat, bw: nat, size: nat, loadSize: nat, unsigned: bool)

  function AccessSize(f: Field): nat { if f.loadSize != 0 then f.loadSize else f.size }

  function Min(a: nat, b: nat): nat { if a < b then a else b }

  predicate NineBytes(f: Field) { AccessSize(f) > 8 && f.bo + f.bw > 64 }

  // Read-modify-write of the first (at most) eight bytes.
  function StoreUnit(f: Field): seq<Line> {
    var eff := Min(AccessSize(f), 8);
    [LoadZx(eff, 0, RT), AndMask(Not(Shl(Ones(f.bw), f.bo)), RT), Copy(R2, RV), AndMask(Ones(f.bw), RV)]
    + (if f.bo > 0 then [ShlBy(f.bo, RV)] else [])
    + [OrReg(RV, RT), StoreN(eff, RT)]
  }

  // Read-modify-write of the ninth byte.
  function StoreRest(f: Field): seq<Line>
    requires NineBytes(f) && f.bo <= 64
  {
    var over := f.bo + f.bw - 64;
    [NextEight, LoadZx(1, 0, RT), And32(And(Not(Ones(over)), Ones(8)), RT), Copy(R2, RV), ShrBy(64 - f.bo, RV),
     And32(Ones(over), RV), Or32(RV, RT), StoreN(1, RT)]
  }

  // A simple assignment to the field.
  function StoreCode(f: Field): seq<Line>
    requires Sized(f)
  {
    StoreUnit(f) + if NineBytes(f) then StoreRest(f) else []
  }

  // An assignment whose right side reads the field itself.
  function CompoundStoreCode(f: Field): seq<Line> {
    StoreUnit(f)
  }

  function Extend(f: Field, loadBits: nat): seq<Line>
    requires f.bw <= 64
  {
    if f.bw >= loadBits then []
    else if f.unsigned then [AndMask(Ones(f.bw), RT)]
    else [ShlBy(64 - f.bw, RT), SarBy(64 - f.bw, RT)]
  }

  function LoadUnit(f: Field): seq<Line> {
    if f.loadSize == 0 && f.size < 4 && !f.unsigned then [LoadSx(f.size, RT)]
    else [LoadZx(Min(AccessSize(f), 8), 0, RT)]
  }

  function LoadRest(f: Field): seq<Line>
    requires NineBytes(f) && f.bo <= 64
  {
    [LoadZx(1, 8, TMP), And32(Ones(f.bo + f.bw - 64), TMP), ShlBy(64 - f.bo, TMP), OrReg(TMP, RT)]
  }

  // A read of the field.
  function LoadCode(f: Field): seq<Line>
    requires Sized(f)
  {
    LoadUnit(f) + (if f.bo > 0 then [ShrBy(f.bo, RT)] else [])
    + (if NineBytes(f) then LoadRest(f) else []) + Extend(f, 8 * AccessSize(f))
  }

  // What layout guarantees of a field: it is narrower than 64 bits and lies inside the bytes that
  // are accessed; sixteen recorded bytes mean nine.
  predicate Sized(f: Field) {
    && 1 <= f.bw < 64 && f.size in {1, 2, 4, 8} && f.loadSize in {0, 2, 4, 8, 16}
    && f.bw <= 8 * f.size && (f.loadSize == 0 || f.loadSize > f.size)
    && f.bo + f.bw <= 8 * AccessSize(f) && (f.loadSize == 16 ==> f.bo < 8)
  }

  // ----- what the code does -----

  // First bit of the field in memory, for a unit at byte address a.
  function Start(f: Field, a: int): int { 8 * a + f.bo }

  // Of the field's bits, those below address limit change to the low bits of v; nothing else does.
  ghost predicate Written(f: Field, a: int, v: Word, m: Bits, m1: Bits, limit: int)
    requires f.bw < 64
  {
    forall b: int ::
      (m1(b) == if Start(f, a) <= b < Start(f, a) + f.bw && b < limit then v[b - Start(f, a)] else m(b))
  }

  // Exactly the field's bits change.
  ghost predicate Stored(f: Field, a: int, v: Word, m: Bits, m1: Bits)
    requires f.bw < 64
  {
    Written(f, a, v, m, m1, Start(f, a) + f.bw)
  }

  function Op(f: Field): nat { if f.size == 8 then 64 else 32 }

  // The operand bits of w are the field's bits, extended by its type.
  ghost predicate Loaded(f: Field, a: int, m: Bits, w: Word) {
    forall i :: 0 <= i < Op(f) ==>
      (w[i] == if i < f.bw then m(Start(f, a) + i) else !f.unsigned && m(Start(f, a) + f.bw - 1))
  }

  // The first part writes the bits that lie in the first eight bytes.
  lemma StoreUnitBits(f: Field, s: Access)
    requires Sized(f)
    ensures var t := Run(StoreUnit(f), s);
      && t.r2 == s.r2 && t.ra == s.ra && Written(f, s.ra, s.r2, s.mem, t.mem, 8 * s.ra + 64)
  {
    hide And, Or, Not, Shl, Ones, LoadZero, StoreBytes;
    var eff := Min(AccessSize(f), 8);
    var old0 := LoadZero(s.mem, s.ra, eff);
    var cleared := And(old0, Not(Shl(Ones(f.bw), f.bo)));
    var v := And(s.r2, Ones(f.bw));
    var placed := if f.bo > 0 then Shl(v, f.bo) else v;
    var w := Or(cleared, placed);
    var c1 := [LoadZx(eff, 0, RT), AndMask(Not(Shl(Ones(f.bw), f.bo)), RT), Copy(R2, RV), AndMask(Ones(f.bw), RV)];
    var c2 := if f.bo > 0 then [ShlBy(f.bo, RV)] else [];
    var c3 := [OrReg(RV, RT), StoreN(eff, RT)];
    RunConcat(c1 + c2, c3, s);
    RunConcat(c1, c2, s);
    var s1 := s.(rt := cleared, rv := v);
    assert Run(c1, s) == s1 by { Run4(c1, s); }
    var s2 := s1.(rv := placed);
    assert Run(c2, s1) == s2 by {
      if f.bo > 0 {
        Run1(c2, s1);
      }
    }
    Run2(c3, s2);
    var t := Run(StoreUnit(f), s);
    assert t.mem == StoreBytes(s.mem, s.ra, eff, w);
    UnitWord(f, s, old0, w);
    UnitMemory(f, s.mem, s.ra, s.r2, eff, w);
  }

  lemma Run1(c: seq<Line>, s: Access)
    requires |c| == 1
    ensures Run(c, s) == Exec(c[0], s)
  {
  }

  lemma Run2(c: seq<Line>, s: Access)
    requires |c| == 2
    ensures Run(c, s) == Exec(c[1], Exec(c[0], s))
  {
    hide Exec;
    assert c == [c[0]] + [c[1]];
    RunConcat([c[0]], [c[1]], s);
  }

  lemma Run4(c: seq<Line>, s: Access)
    requires |c| == 4
    ensures Run(c, s) == Exec(c[3], Exec(c[2], Exec(c[1], Exec(c[0], s))))
  {
    hide Exec;
    assert c == c[..2] + c[2..];
    RunConcat(c[..2], c[2..], s);
    Run2(c[..2], s);
    Run2(c[2..], Run(c[..2], s));
  }

  // Bit by bit, the new unit.
  lemma UnitWord(f: Field, s: Access, old0: Word, w: Word)
    requires Sized(f)
    requires var v := And(s.r2, Ones(f.bw));
      w == Or(And(old0, Not(Shl(Ones(f.bw), f.bo))), if f.bo > 0 then Shl(v, f.bo) else v)
    ensures forall i :: 0 <= i < 64 ==> w[i] == if f.bo <= i < f.bo + f.bw then s.r2[i - f.bo] else old0[i]
  {
    var v := And(s.r2, Ones(f.bw));
    var mask, placed := Shl(Ones(f.bw), f.bo), if f.bo > 0 then Shl(v, f.bo) else v;
    forall i | 0 <= i < 64
      ensures w[i] == if f.bo <= i < f.bo + f.bw then s.r2[i - f.bo] else old0[i]
    {
      assert f.bo % 64 == f.bo;
      assert mask[i] == (f.bo <= i < f.bo + f.bw);
      assert placed[i] == (f.bo <= i < f.bo + f.bw && s.r2[i - f.bo]);
    }
  }

  lemma UnitMemory(f: Field, m: Bits, a: int, v: Word, eff: nat, w: Word)
    requires Sized(f) && eff == Min(AccessSize(f), 8)
    requires forall i :: 0 <= i < 64 ==> w[i] == if f.bo <= i < f.bo + f.bw then v[i - f.bo] else LoadZero(m, a, eff)[i]
    ensures Written(f, a, v, m, StoreBytes(m, a, eff, w), 8 * a + 64)
  {
  }

  // The ninth byte: the bits above the first eight bytes.
  lemma StoreRestBits(f: Field, s: Access, m: Bits)
    requires Sized(f) && NineBytes(f) && Written(f, s.ra, s.r2, m, s.mem, 8 * s.ra + 64)
    ensures Stored(f, s.ra, s.r2, m, Run(StoreRest(f), s).mem)
  {
    hide And, Or, Not, Shr, Ones, LoadZero, StoreBytes, Low, Written;
    var over, c := f.bo + f.bw - 64, StoreRest(f);
    var old0 := LoadZero(s.mem, s.ra + 8, 1);
    var cleared := Low(And(old0, And(Not(Ones(over)), Ones(8))));
    var rest := Low(And(Shr(s.r2, 64 - f.bo), Ones(over)));
    var w := Low(Or(cleared, rest));
    assert c == c[..4] + c[4..];
    RunConcat(c[..4], c[4..], s);
    Run4(c[..4], s);
    Run4(c[4..], Run(c[..4], s));
    assert Run(c, s).mem == StoreBytes(s.mem, s.ra + 8, 1, w);
    NinthByte(f, s.r2, old0, w);
    NinthMemory(f, s.ra, s.r2, m, s.mem, w);
  }

  lemma NinthByte(f: Field, v: Word, old0: Word, w: Word)
    requires Sized(f) && NineBytes(f)
    requires var over := f.bo + f.bw - 64;
      w == Low(Or(Low(And(old0, And(Not(Ones(over)), Ones(8)))), Low(And(Shr(v, 64 - f.bo), Ones(over)))))
    ensures forall i :: 0 <= i < 8 ==> (w[i] == if i < f.bo + f.bw - 64 then v[64 - f.bo + i] else old0[i])
  {
    assert (64 - f.bo) % 64 == 64 - f.bo;
  }

  lemma NinthMemory(f: Field, a: int, v: Word, m: Bits, m1: Bits, w: Word)
    requires Sized(f) && NineBytes(f) && Written(f, a, v, m, m1, 8 * a + 64)
    requires forall i :: 0 <= i < 8 ==> (w[i] == if i < f.bo + f.bw - 64 then v[64 - f.bo + i] else LoadZero(m1, a + 8, 1)[i])
    ensures Stored(f, a, v, m, StoreBytes(m1, a + 8, 1, w))
  {
    var m2 := StoreBytes(m1, a + 8, 1, w);
    forall b: int
      ensures m2(b) == if Start(f, a) <= b < Start(f, a) + f.bw then v[b - Start(f, a)] else m(b)
    {
      assert m1(b) == if Start(f, a) <= b < Start(f, a) + f.bw && b < 8 * a + 64 then v[b - Start(f, a)] else m(b);
      if 8 * (a + 8) <= b < 8 * (a + 8) + 8 {
        assert m2(b) == w[b - 8 * (a + 8)];
      }
    }
  }

  // A simple store changes exactly the field's bits, to the low bits of the value.
  lemma StoreCorrect(f: Field, s: Access)
    requires Sized(f)
    ensures Stored(f, s.ra, s.r2, s.mem, Run(StoreCode(f), s).mem)
  {
    hide StoreUnit, StoreRest, Written;
    StoreUnitBits(f, s);
    var t := Run(StoreUnit(f), s);
    if NineBytes(f) {
      RunConcat(StoreUnit(f), StoreRest(f), s);
      StoreRestBits(f, t, s.mem);
    } else {
      assert StoreUnit(f) + [] == StoreUnit(f);
      WrittenWhole(f, s.ra, s.r2, s.mem, t.mem);
    }
  }

  lemma WrittenWhole(f: Field, a: int, v: Word, m: Bits, m1: Bits)
    requires Sized(f) && !NineBytes(f) && Written(f, a, v, m, m1, 8 * a + 64)
    ensures Stored(f, a, v, m, m1)
  {
  }

  // ----- loads -----

  // The unit, shifted down.
  function Shifted(f: Field): seq<Line> {
    LoadUnit(f) + if f.bo > 0 then [ShrBy(f.bo, RT)] else []
  }

  lemma ShiftedBits(f: Field, s: Access)
    requires Sized(f)
    ensures var t := Run(Shifted(f), s);
      && t.mem == s.mem && t.ra == s.ra
      && (forall i :: 0 <= i < f.bw && f.bo + i < 64 ==> t.rt[i] == s.mem(Start(f, s.ra) + i))
      && (NineBytes(f) ==> t.rt == Shr(LoadZero(s.mem, s.ra, 8), f.bo))
      && (f.bw == 8 * AccessSize(f) ==> Loaded(f, s.ra, s.mem, t.rt))
  {
    hide LoadZero, LoadSign, Shr;
    var c1, c2 := LoadUnit(f), if f.bo > 0 then [ShrBy(f.bo, RT)] else [];
    RunConcat(c1, c2, s);
    Run1(c1, s);
    var t1 := Run(c1, s);
    if f.bo > 0 {
      Run1(c2, t1);
    }
    UnitBits(f, s.mem, s.ra, t1.rt, Run(c2, t1).rt);
  }

  lemma UnitBits(f: Field, m: Bits, a: int, w: Word, w1: Word)
    requires Sized(f)
    requires w == if f.loadSize == 0 && f.size < 4 && !f.unsigned then LoadSign(m, a, f.size) else LoadZero(m, a, Min(AccessSize(f), 8))
    requires w1 == if f.bo > 0 then Shr(w, f.bo) else w
    ensures forall i :: 0 <= i < f.bw && f.bo + i < 64 ==> w1[i] == m(Start(f, a) + i)
    ensures f.bw == 8 * AccessSize(f) ==> Loaded(f, a, m, w1)
  {
  }

  // After the shift and the ninth byte, the low bits of the register are the field's.
  lemma LoadRaw(f: Field, s: Access) returns (t: Access)
    requires Sized(f)
    ensures Run(LoadCode(f), s) == Run(Extend(f, 8 * AccessSize(f)), t)
    ensures forall i :: 0 <= i < f.bw ==> t.rt[i] == s.mem(Start(f, s.ra) + i)
    ensures f.bw == 8 * AccessSize(f) ==> Loaded(f, s.ra, s.mem, t.rt)
  {
    hide Shifted, Extend, Exec, LoadZero, Shr, Loaded;
    var c3, c4 := if NineBytes(f) then LoadRest(f) else [], Extend(f, 8 * AccessSize(f));
    LoadParts(f);
    RunConcat(Shifted(f) + c3, c4, s);
    RunConcat(Shifted(f), c3, s);
    ShiftedBits(f, s);
    var t2 := Run(Shifted(f), s);
    t := t2;
    if NineBytes(f) {
      t := Run(c3, t2);
      RestRun(f, t2);
      NinthLoad(f, s, t2, t);
    }
  }

  lemma LoadParts(f: Field)
    requires Sized(f)
    ensures LoadCode(f) == Shifted(f) + (if NineBytes(f) then LoadRest(f) else []) + Extend(f, 8 * AccessSize(f))
  {
  }

  lemma RestRun(f: Field, s: Access)
    requires Sized(f) && NineBytes(f)
    ensures Run(LoadRest(f), s).rt
      == Or(s.rt, Shl(Low(And(LoadZero(s.mem, s.ra + 8, 1), Ones(f.bo + f.bw - 64))), 64 - f.bo))
  {
    hide LoadZero, Low, And, Ones, Shl, Or, Run;
    var c := LoadRest(f);
    Run4(c, s);
    var s1 := Exec(c[0], s);
    assert s1 == s.(tmp := LoadZero(s.mem, s.ra + 8, 1));
    var s2 := Exec(c[1], s1);
    assert s2 == s1.(tmp := Low(And(s1.tmp, Ones(f.bo + f.bw - 64))));
    var s3 := Exec(c[2], s2);
    assert s3 == s2.(tmp := Shl(s2.tmp, 64 - f.bo));
  }

  lemma NinthLoad(f: Field, s: Access, t2: Access, t: Access)
    requires Sized(f) && NineBytes(f) && t2.mem == s.mem && t2.ra == s.ra
    requires t2.rt == Shr(LoadZero(s.mem, s.ra, 8), f.bo)
    requires t.rt == Or(t2.rt, Shl(Low(And(LoadZero(s.mem, s.ra + 8, 1), Ones(f.bo + f.bw - 64))), 64 - f.bo))
    ensures forall i :: 0 <= i < f.bw ==> t.rt[i] == s.mem(Start(f, s.ra) + i)
  {
    var ninth := Low(And(LoadZero(s.mem, s.ra + 8, 1), Ones(f.bo + f.bw - 64)));
    assert (64 - f.bo) % 64 == 64 - f.bo;
    forall i | 0 <= i < f.bw
      ensures t.rt[i] == s.mem(Start(f, s.ra) + i)
    {
      assert t2.rt[i] == (i + f.bo < 64 && s.mem(8 * s.ra + i + f.bo));
      if i >= 64 - f.bo {
        assert ninth[i - (64 - f.bo)] == s.mem(8 * (s.ra + 8) + (i - (64 - f.bo)));
      }
    }
  }

  // A load yields the field's bits, zero- or sign-extended.
  lemma LoadCorrect(f: Field, s: Access)
    requires Sized(f)
    ensures Loaded(f, s.ra, s.mem, Run(LoadCode(f), s).rt)
  {
    hide LoadCode, Loaded;
    var t := LoadRaw(f, s);
    var c := Extend(f, 8 * AccessSize(f));
    if f.bw < 8 * AccessSize(f) {
      if f.unsigned {
        Run1(c, t);
      } else {
        Run2(c, t);
      }
      ExtendBits(f, s.ra, s.mem, t.rt, Run(c, t).rt);
    }
  }

  lemma ExtendBits(f: Field, a: int, m: Bits, w: Word, w1: Word)
    requires Sized(f) && forall i :: 0 <= i < f.bw ==> w[i] == m(Start(f, a) + i)
    requires w1 == if f.unsigned then And(w, Ones(f.bw)) else Sar(Shl(w, 64 - f.bw), 64 - f.bw)
    ensures Loaded(f, a, m, w1)
  {
    assert (64 - f.bw) % 64 == 64 - f.bw;
  }

  // An assignment whose right side reads the field skips the ninth byte, so it is a store of the
  // whole field exactly if the field does not reach into one.
  lemma CompoundCorrectIff(f: Field)
    requires Sized(f)
    ensures (forall s: Access :: Stored(f, s.ra, s.r2, s.mem, Run(CompoundStoreCode(f), s).mem)) <==> !NineBytes(f)
  {
    hide StoreUnit, Written;
    if NineBytes(f) {
      var s := Access(Ones(64), Ones(0), Ones(0), Ones(0), 0, (_: int) => false);
      StoreUnitBits(f, s);
      var m1 := Run(CompoundStoreCode(f), s).mem;
      LostBit(f, s.r2, s.mem, m1);
      assert !Stored(f, s.ra, s.r2, s.mem, m1);
    } else {
      forall s: Access
        ensures Stored(f, s.ra, s.r2, s.mem, Run(CompoundStoreCode(f), s).mem)
      {
        StoreUnitBits(f, s);
        WrittenWhole(f, s.ra, s.r2, s.mem, Run(CompoundStoreCode(f), s).mem);
      }
    }
  }

  lemma LostBit(f: Field, v: Word, m: Bits, m1: Bits)
    requires Sized(f) && NineBytes(f) && Written(f, 0, v, m, m1, 64)
    requires (forall i :: 0 <= i < 64 ==> v[i]) && !m(64)
    ensures !Stored(f, 0, v, m, m1)
  {
    assert m1(64) == m(64);
  }

  // ----- as integers -----

  function Nat(s: seq<bool>): nat {
    if s == [] then 0 else (if s[0] then 1 else 0) + 2 * Nat(s[1..])
  }

  // Two's complement.
  function Signed(s: seq<bool>): int
    requires s != []
  {
    if |s| == 1 then if s[0] then -1 else 0 else (if s[0] then 1 else 0) + 2 * Signed(s[1..])
  }

  function AsInt(s: seq<bool>, unsigned: bool): int
    requires s != []
  {
    if unsigned then Nat(s) else Signed(s)
  }

  // n reduced to bw bits, as the type of the field reads them.
  function Truncated(n: nat, bw: nat, unsigned: bool): int
    requires bw > 0
  {
    var u := n % Pow2(bw);
    if unsigned || u < Pow2(bw - 1) then u else u - Pow2(bw)
  }

  lemma {:induction false} NatBound(s: seq<bool>)
    ensures Nat(s) < Pow2(|s|)
  {
    if s != [] {
      NatBound(s[1..]);
    }
  }

  lemma {:induction false} NatTake(s: seq<bool>, k: nat)
    requires k <= |s|
    ensures Nat(s[..k]) == Nat(s) % Pow2(k)
  {
    if k > 0 {
      NatTake(s[1..], k - 1);
      assert s[..k][1..] == s[1..][..k - 1];
      DoubleMod(Nat(s[1..]), Pow2(k - 1), if s[0] then 1 else 0);
    }
  }

  lemma DoubleMod(n: nat, p: nat, d: nat)
    requires p > 0 && d <= 1
    ensures (d + 2 * n) % (2 * p) == d + 2 * (n % p)
  {
    var q := n / p;
    assert d + 2 * n == (2 * p) * q + (d + 2 * (n % p));
    ModUnique(d + 2 * n, 2 * p, q, d + 2 * (n % p));
  }

  lemma {:induction false} SignedNat(s: seq<bool>)
    requires s != []
    ensures Signed(s) == Nat(s) - (if s[|s| - 1] then Pow2(|s|) else 0)
    ensures s[|s| - 1] <==> Nat(s) >= Pow2(|s| - 1)
  {
    if |s| == 1 {
      assert s[1..] == [];
    } else {
      SignedNat(s[1..]);
      assert s[1..][|s| - 2] == s[|s| - 1];
    }
  }

  lemma SignedOf(s: seq<bool>)
    requires s != []
    ensures Signed(s) == Truncated(Nat(s), |s|, false)
  {
    hide Signed, Nat, Pow2;
    NatBound(s);
    SignedNat(s);
    ModUnique(Nat(s), Pow2(|s|), 0, Nat(s));
  }

  // Extension does not change the value.
  lemma {:induction false} ExtendedValue(s: seq<bool>, k: nat, unsigned: bool)
    requires 0 < k <= |s|
    requires forall i :: k <= i < |s| ==> s[i] == (!unsigned && s[k - 1])
    ensures AsInt(s, unsigned) == AsInt(s[..k], unsigned)
  {
    if k == |s| {
      assert s[..k] == s;
    } else if k == 1 {
      var one := [s[0]];
      assert s[..1] == one && one[1..] == [];
      assert Nat(one) == if s[0] then 1 else 0;
      ConstantTail(s[1..], !unsigned && s[0]);
    } else {
      ExtendedValue(s[1..], k - 1, unsigned);
      assert s[..k][1..] == s[1..][..k - 1];
    }
  }

  lemma {:induction false} ConstantTail(s: seq<bool>, b: bool)
    requires s != [] && forall i :: 0 <= i < |s| ==> s[i] == b
    ensures !b ==> Nat(s) == 0
    ensures Signed(s) == if b then -1 else 0
  {
    if |s| > 1 {
      ConstantTail(s[1..], b);
    } else {
      assert s[1..] == [];
    }
  }

  // The value of the register after a load, in the width of the field's type.
  function LoadedValue(f: Field, s: Access): int
    requires Sized(f)
  {
    AsInt(Run(LoadCode(f), s).rt[..Op(f)], f.unsigned)
  }

  // A field read back after a simple store has the stored value, truncated to its width.
  lemma ReadAfterWrite(f: Field, s: Access, t: Access)
    requires Sized(f) && t.ra == s.ra && t.mem == Run(StoreCode(f), s).mem
    ensures LoadedValue(f, t) == Truncated(Nat(s.r2), f.bw, f.unsigned)
  {
    hide StoreCode, LoadCode, Run, Signed, Nat, Truncated;
    StoreCorrect(f, s);
    LoadCorrect(f, t);
    var w := Run(LoadCode(f), t).rt[..Op(f)];
    assert w[..f.bw] == s.r2[..f.bw];
    ExtendedValue(w, f.bw, f.unsigned);
    TruncatedBits(s.r2, f.bw, f.unsigned);
  }

  lemma TruncatedBits(v: Word, k: nat, unsigned: bool)
    requires 0 < k < 64
    ensures AsInt(v[..k], unsigned) == Truncated(Nat(v), k, unsigned)
  {
    NatTake(v, k);
    NatBound(v[..k]);
    ModUnique(Nat(v[..k]), Pow2(k), 0, Nat(v[..k]));
    SignedOf(v[..k]);
  }

  ghost predicate SameField(f: Field, a: int, m: Bits, m1: Bits) {
    forall b: int :: Start(f, a) <= b < Start(f, a) + f.bw ==> m(b) == m1(b)
  }

  // A field whose bits did not change reads as before.
  lemma ReadUnchanged(f: Field, s: Access, t: Access)
    requires Sized(f) && t.ra == s.ra && SameField(f, s.ra, s.mem, t.mem)
    ensures LoadedValue(f, t) == LoadedValue(f, s)
  {
    hide LoadCode, Run, Signed, Nat;
    LoadCorrect(f, s);
    LoadCorrect(f, t);
    forall i | 0 <= i < Op(f)
      ensures Run(LoadCode(f), t).rt[i] == Run(LoadCode(f), s).rt[i]
    {
      var b := Start(f, s.ra) + if i < f.bw then i else f.bw - 1;
      assert s.mem(b) == t.mem(b);
    }
    assert Run(LoadCode(f), t).rt[..Op(f)] == Run(LoadCode(f), s).rt[..Op(f)];
  }
}
