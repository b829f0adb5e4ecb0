/** Struct layout with bit-fields: the three packing algorithms, and why fields laid out by one of
    them can be read and written without disturbing each other. */
module BitFieldLayout {
  import opened Words
  import opened Options
  import opened BitFieldAccess

  // ----- declarations and members -----

  datatype Kind = KBool | KChar | KShort | KInt | KLong | KLLong

  function SizeOf(k: Kind): nat {
    match k
    case KBool => 1
    case KChar => 1
    case KShort => 2
    case KInt => 4
    case KLong => 8
    case KLLong => 8
  }

  // A named bit-field, an unnamed one, and any other member (perhaps an anonymous aggregate).
  // Bit-field types have their natural alignment.
  datatype Decl =
    | BitField(kind: Kind, unsigned: bool, width: nat)
    | Gap(kind: Kind, width: nat)
    | Plain(size: nat, align: nat, anonymous: bool)

  ghost predicate ValidDecl(d: Decl) {
    match d
    case BitField(k, _, w) => 1 <= w <= 8 * SizeOf(k)
    case Gap(k, w) => w <= 8 * SizeOf(k)
    case Plain(_, align, _) => IsPow2(align)
  }

  // width is 0 and size and align are the member's own for a member that is no bit-field;
  // for a bit-field size and align are those of its storage unit.
  datatype Member = Member(offset: nat, bitOffset: nat, width: nat, loadSize: nat, size: nat, align: nat, unsigned: bool)

  function BitStart(m: Member): nat { 8 * m.offset + m.bitOffset }

  function BitEnd(m: Member): nat { BitStart(m) + if m.width > 0 then m.width else 8 * m.size }

  // ----- powers of two -----

  ghost predicate IsPow2(a: nat) { exists k: nat :: a == Pow2(k) }

  lemma {:induction false} AndHighBits(x: int, k: nat)
    ensures Bitwise(BAnd, x, 0 - Pow2(k)) == x - x % Pow2(k)
    decreases k
  {
    hide Bitwise;
    if k == 0 {
      AndOnes(x);
    } else {
      var p := Pow2(k - 1);
      AndHighBits(x / 2, k - 1);
      AndUnfold(x, 0 - 2 * p);
      EvenHalf(p);
      HalfMod(x, p);
    }
  }

  lemma EvenHalf(p: int)
    ensures (0 - 2 * p) / 2 == 0 - p && (0 - 2 * p) % 2 == 0
  {
  }

  // One digit of x & y for y other than the constant expansions.
  lemma AndUnfold(x: int, y: int)
    requires y < -1
    ensures Bitwise(BAnd, x, y) == Digit(BAnd, x % 2, y % 2) + 2 * Bitwise(BAnd, x / 2, y / 2)
  {
  }

  lemma {:induction false} AndOnes(x: int)
    ensures Bitwise(BAnd, x, -1) == x
    decreases Abs(x)
  {
    if x < -1 || x > 0 {
      AndOnes(x / 2);
    }
  }

  lemma HalfMod(x: int, p: nat)
    requires p > 0
    ensures 2 * (x / 2 - (x / 2) % p) == x - x % (2 * p)
  {
    var q, r := (x / 2) / p, (x / 2) % p;
    assert x / 2 == p * q + r;
    assert x == (2 * p) * q + (2 * r + x % 2);
    ModUnique(x, 2 * p, q, 2 * r + x % 2);
  }

  // align_to: (n + align - 1) & ~(align - 1)
  function AlignTo(n: nat, align: nat): int {
    Bitwise(BAnd, n + align - 1, 0 - align)
  }

  // The least multiple of a that is at least n.
  function RoundUp(n: nat, a: nat): (r: nat)
    requires a > 0
    ensures n <= r < n + a
  {
    if n % a == 0 then n else n - n % a + a
  }

  lemma RoundUpMultiple(n: nat, a: nat)
    requires a > 0
    ensures RoundUp(n, a) % a == 0
    ensures forall s :: n <= s < RoundUp(n, a) ==> s % a != 0
  {
    var q, r := n / a, n % a;
    assert n == a * q + r;
    if r > 0 {
      ModUnique(RoundUp(n, a), a, q + 1, 0);
      forall s | n <= s < RoundUp(n, a)
        ensures s % a != 0
      {
        ModUnique(s, a, q, s - a * q);
      }
    }
  }

  lemma AlignToRoundUp(n: nat, a: nat)
    requires IsPow2(a)
    ensures AlignTo(n, a) == RoundUp(n, a)
  {
    hide Bitwise, Pow2;
    var k: nat :| a == Pow2(k);
    AndHighBits(n + a - 1, k);
    UpperMultiple(n, a);
  }

  lemma UpperMultiple(n: nat, a: nat)
    requires a > 0
    ensures n + a - 1 - (n + a - 1) % a == RoundUp(n, a)
  {
    var q, r := n / a, n % a;
    assert n == a * q + r;
    if r == 0 {
      ModUnique(n + a - 1, a, q, a - 1);
    } else {
      ModUnique(n + a - 1, a, q + 1, r - 1);
    }
  }

  lemma {:induction false} Pow2Divides(j: nat, k: nat)
    requires Pow2(j) <= Pow2(k)
    ensures Pow2(k) % Pow2(j) == 0
    decreases k
  {
    if k == 0 || j == 0 {
    } else {
      Pow2Divides(j - 1, k - 1);
      HalfMod(Pow2(k), Pow2(j - 1));
    }
  }

  lemma ModTrans(n: nat, a: nat, b: nat)
    requires a > 0 && b > 0 && n % b == 0 && b % a == 0
    ensures n % a == 0
  {
    var q, r := n / b, b / a;
    assert n == b * q && b == a * r;
    assert n == a * (r * q);
    ModUnique(n, a, r * q, 0);
  }

  lemma UnitPow2(k: Kind)
    ensures IsPow2(SizeOf(k))
  {
    assert Pow2(0) == 1 && Pow2(1) == 2 && Pow2(2) == 4 && Pow2(3) == 8;
  }

  lemma Pow2Multiple(a: nat, b: nat)
    requires IsPow2(a) && IsPow2(b) && a <= b
    ensures b % a == 0
  {
    var j: nat, k: nat :| a == Pow2(j) && b == Pow2(k);
    Pow2Divides(j, k);
  }

  // ----- the rules, on a single bit cursor -----

  function EffAlign(pack: nat, align: nat): nat {
    if 0 < pack < align then pack else align
  }

  // Where the ABI puts the next declaration, given the first bit after the previous one: without
  // packing a bit-field must not straddle a unit of its type, with packing it follows at once, and
  // a zero-width field closes the unit.
  function Place(pack: nat, p: nat, d: Decl): nat
    requires ValidDecl(d) && (pack == 0 || IsPow2(pack))
  {
    match d
    case BitField(k, _, w) => if pack > 0 || p % (8 * SizeOf(k)) + w <= 8 * SizeOf(k) then p else RoundUp(p, 8 * SizeOf(k))
    case Gap(k, w) =>
      if w > 0 && (pack > 0 || p % (8 * SizeOf(k)) + w <= 8 * SizeOf(k)) then p else RoundUp(p, 8 * SizeOf(k))
    case Plain(_, align, _) => RoundUp(p, 8 * EffAlign(pack, align))
  }

  function Width(d: Decl): nat {
    match d
    case BitField(_, _, w) => w
    case Gap(_, w) => w
    case Plain(size, _, _) => 8 * size
  }

  ghost predicate ValidDecls(decls: seq<Decl>, pack: nat) {
    (forall i :: 0 <= i < |decls| ==> ValidDecl(decls[i])) && (pack == 0 || IsPow2(pack))
  }

  // The first free bit after n declarations.
  ghost function Cursor(decls: seq<Decl>, pack: nat, n: nat): nat
    requires n <= |decls| && ValidDecls(decls, pack)
  {
    if n == 0 then 0 else Place(pack, Cursor(decls, pack, n - 1), decls[n - 1]) + Width(decls[n - 1])
  }

  // The smallest doubling of unit that is at least needed.
  function LoadSize(unit: nat, needed: nat): (ls: nat)
    requires unit > 0
    ensures ls >= needed && ls >= unit
    decreases needed - unit
  {
    if unit >= needed then unit else LoadSize(2 * unit, needed)
  }

  function MemberAt(pack: nat, start: nat, d: Decl): Member
    requires !d.Gap?
  {
    match d
    case BitField(k, u, w) =>
      var unit := SizeOf(k);
      if pack > 0 then
        var needed := (start % 8 + w + 7) / 8;
        Member(start / 8, start % 8, w, if needed > unit then LoadSize(unit, needed) else 0, unit, unit, u)
      else Member(start / (8 * unit) * unit, start % (8 * unit), w, 0, unit, unit, u)
    case Plain(size, align, _) => Member(start / 8, 0, 0, 0, size, EffAlign(pack, align), false)
  }

  ghost function Expected(decls: seq<Decl>, pack: nat, n: nat): seq<Member>
    requires n <= |decls| && ValidDecls(decls, pack)
  {
    if n == 0 then []
    else if decls[n - 1].Gap? then Expected(decls, pack, n - 1)
    else Expected(decls, pack, n - 1) + [MemberAt(pack, Place(pack, Cursor(decls, pack, n - 1), decls[n - 1]), decls[n - 1])]
  }

  // Place is the least position that the rules admit.
  predicate Admissible(pack: nat, s: nat, d: Decl)
    requires d.Plain? ==> d.align > 0
  {
    match d
    case BitField(k, _, w) => pack > 0 || s % (8 * SizeOf(k)) + w <= 8 * SizeOf(k)
    case Gap(k, w) => if w == 0 then s % (8 * SizeOf(k)) == 0 else pack > 0 || s % (8 * SizeOf(k)) + w <= 8 * SizeOf(k)
    case Plain(_, align, _) => s % (8 * EffAlign(pack, align)) == 0
  }

  lemma PlaceLeast(pack: nat, p: nat, d: Decl)
    requires ValidDecl(d) && (pack == 0 || IsPow2(pack))
    ensures var s := Place(pack, p, d);
      && p <= s && Admissible(pack, s, d)
      && (forall t :: p <= t < s ==> !Admissible(pack, t, d))
  {
    hide RoundUp;
    match d
    case BitField(k, _, w) => UnitLeast(p, SizeOf(k), w);
    case Gap(k, w) => UnitLeast(p, SizeOf(k), w); RoundUpMultiple(p, 8 * SizeOf(k));
    case Plain(_, align, _) => RoundUpMultiple(p, 8 * EffAlign(pack, align));
  }

  lemma UnitLeast(p: nat, unit: nat, w: nat)
    requires unit in {1, 2, 4, 8} && w <= 8 * unit
    ensures var s := RoundUp(p, 8 * unit);
      && s % (8 * unit) == 0
      && (p % (8 * unit) + w > 8 * unit ==> forall t :: p <= t < s ==> t % (8 * unit) + w > 8 * unit)
  {
    if unit == 1 {
    } else if unit == 2 {
    } else if unit == 4 {
    } else {
    }
  }

  // ----- properties of a laid-out member list -----

  ghost predicate Ordered(ms: seq<Member>) {
    forall i, j :: 0 <= i < j < |ms| ==> BitEnd(ms[i]) <= BitStart(ms[j])
  }

  ghost predicate Bound(ms: seq<Member>, limit: int) {
    forall i :: 0 <= i < |ms| ==> BitEnd(ms[i]) <= limit
  }

  // A bit-field lies inside the bytes that are loaded for it.
  predicate Fitting(m: Member) {
    m.width > 0 ==>
      && m.size in {1, 2, 4, 8} && m.align == m.size && m.width <= 8 * m.size
      && m.loadSize in {0, 2, 4, 8, 16} && (m.loadSize == 0 || m.loadSize > m.size)
      && m.bitOffset + m.width <= 8 * (if m.loadSize != 0 then m.loadSize else m.size)
      && (m.loadSize == 16 ==> m.bitOffset < 8)
  }

  // Without packing a storage unit is aligned; any other member always is.
  predicate Aligned(m: Member, pack: nat) {
    m.align > 0 && (pack == 0 || m.width == 0 ==> m.offset % m.align == 0)
  }

  ghost predicate AllFit(ms: seq<Member>, pack: nat) {
    forall i :: 0 <= i < |ms| ==> Fitting(ms[i]) && Aligned(ms[i], pack)
  }

  ghost predicate Good(ms: seq<Member>, pack: nat, limit: int) {
    Ordered(ms) && Bound(ms, limit) && AllFit(ms, pack)
  }

  lemma GoodAppend(ms: seq<Member>, pack: nat, limit: int, m: Member)
    requires Good(ms, pack, limit) && limit <= BitStart(m) && Fitting(m) && Aligned(m, pack)
    ensures Good(ms + [m], pack, BitEnd(m))
  {
  }

  lemma GoodWiden(ms: seq<Member>, pack: nat, limit: int, limit1: int)
    requires Good(ms, pack, limit) && limit <= limit1
    ensures Good(ms, pack, limit1)
  {
  }

  // The member put at an admissible position has its bits there.
  lemma MemberPlaced(pack: nat, p: nat, d: Decl)
    requires ValidDecl(d) && !d.Gap? && (pack == 0 || IsPow2(pack))
    ensures var s := Place(pack, p, d);
      var m := MemberAt(pack, s, d);
      BitStart(m) == s && BitEnd(m) == s + Width(d) && Fitting(m) && Aligned(m, pack)
  {
    hide Place;
    PlaceLeast(pack, p, d);
    var s := Place(pack, p, d);
    match d
    case BitField(k, u, w) =>
      if pack == 0 {
        UnitPlaced(s, k, u, w);
      } else {
        DensePlaced(s, pack, k, u, w);
      }
    case Plain(size, align, _) => MultipleSplit(s, EffAlign(pack, align));
  }

  lemma MultipleSplit(s: nat, a: nat)
    requires a > 0 && s % (8 * a) == 0
    ensures s % 8 == 0 && s / 8 % a == 0
  {
    var q := s / (8 * a);
    assert s == (8 * a) * q;
    assert s == 8 * (a * q);
    ModUnique(s / 8, a, q, 0);
  }

  lemma UnitPlaced(s: nat, k: Kind, u: bool, w: nat)
    requires 1 <= w && s % (8 * SizeOf(k)) + w <= 8 * SizeOf(k)
    ensures var m := MemberAt(0, s, BitField(k, u, w));
      BitStart(m) == s && Fitting(m) && Aligned(m, 0)
  {
    UnitSplit(s, SizeOf(k));
  }

  lemma DensePlaced(s: nat, pack: nat, k: Kind, u: bool, w: nat)
    requires pack > 0 && 1 <= w <= 8 * SizeOf(k)
    ensures var m := MemberAt(pack, s, BitField(k, u, w));
      BitStart(m) == s && Fitting(m) && Aligned(m, pack)
  {
    var needed := (s % 8 + w + 7) / 8;
    if needed > SizeOf(k) {
      LoadSizes(SizeOf(k), needed);
    }
  }

  lemma UnitSplit(s: nat, unit: nat)
    requires unit in {1, 2, 4, 8}
    ensures 8 * (s / (8 * unit) * unit) + s % (8 * unit) == s
    ensures (s / (8 * unit) * unit) % unit == 0
  {
    var q, r := s / (8 * unit), s % (8 * unit);
    assert s == (8 * unit) * q + r;
    assert (8 * unit) * q == 8 * (q * unit);
    ModUnique(q * unit, unit, q, 0);
  }

  lemma LoadSizes(unit: nat, needed: nat)
    requires unit in {1, 2, 4, 8} && unit < needed <= unit + 1
    ensures LoadSize(unit, needed) == 2 * unit
  {
  }

  // What the rules lay out is in order, fits and is aligned.
  lemma {:induction false} ExpectedGood(decls: seq<Decl>, pack: nat, n: nat)
    requires n <= |decls| && ValidDecls(decls, pack)
    ensures Good(Expected(decls, pack, n), pack, Cursor(decls, pack, n))
  {
    hide Place, MemberAt, Good;
    if n == 0 {
      NothingGood(pack);
    } else {
      ExpectedGood(decls, pack, n - 1);
      var d, p := decls[n - 1], Cursor(decls, pack, n - 1);
      PlaceLeast(pack, p, d);
      if d.Gap? {
        GoodWiden(Expected(decls, pack, n - 1), pack, p, Cursor(decls, pack, n));
      } else {
        MemberPlaced(pack, p, d);
        GoodAppend(Expected(decls, pack, n - 1), pack, p, MemberAt(pack, Place(pack, p, d), d));
      }
    }
  }

  lemma NothingGood(pack: nat)
    ensures Good([], pack, 0)
  {
  }

  // ----- one declaration at a time, as the compiler does it -----

  // Bytes needed for the first p bits.
  function Bytes(p: nat): nat { (p + 7) / 8 }

  // Without packing: find the aligned unit that holds the cursor, or go on to the next one.
  method PlaceInUnit(unit: nat, width: nat, offset: nat, bitPos: nat)
    returns (unitBase: nat, bitOff: nat, offset1: nat, bitPos1: nat)
    requires unit in {1, 2, 4, 8} && width <= 8 * unit && offset == Bytes(bitPos)
    ensures var s := if bitPos % (8 * unit) + width <= 8 * unit then bitPos else RoundUp(bitPos, 8 * unit);
      && unitBase == s / (8 * unit) * unit && bitOff == s % (8 * unit)
      && bitPos1 == s + width && offset1 == Bytes(bitPos1)
  {
    var unitBits := 8 * unit;
    unitBase := bitPos / unitBits * unit;
    bitOff, bitPos1, offset1 := 0, bitPos, offset;
    UnitSplit(bitPos, unit);
    bitOff := bitPos - unitBase * 8;
    if bitOff + width > unitBits {
      unitBase := unitBase + unit;
      bitOff := 0;
      NextUnit(bitPos, unit);
      bitPos1 := unitBase * 8;
    }
    if unitBase > offset1 {
      offset1 := unitBase;
    }
    bitPos1 := unitBase * 8 + bitOff + width;
    var endByte := (bitPos1 + 7) / 8;
    if endByte > offset1 {
      offset1 := endByte;
    }
  }

  lemma NextMultiple(p: nat, a: nat)
    requires a > 0 && p % a > 0
    ensures RoundUp(p, a) == a * (p / a + 1) && RoundUp(p, a) / a == p / a + 1
  {
    var q, r := p / a, p % a;
    assert p == a * q + r;
    assert a * (q + 1) == a * q + a;
    ModUnique(a * (q + 1), a, q + 1, 0);
    DivUnique(a * (q + 1), a, q + 1);
  }

  lemma DivUnique(x: nat, a: nat, q: nat)
    requires a > 0 && x == a * q
    ensures x / a == q
  {
    assert a * (x / a - q) == 0 - x % a;
    MultipleBound(a, x / a - q);
  }

  lemma NextUnit(p: nat, unit: nat)
    requires unit in {1, 2, 4, 8} && p % (8 * unit) > 0
    ensures RoundUp(p, 8 * unit) == 8 * (p / (8 * unit) * unit + unit)
    ensures RoundUp(p, 8 * unit) / (8 * unit) * unit == p / (8 * unit) * unit + unit
    ensures RoundUp(p, 8 * unit) % (8 * unit) == 0
  {
    hide RoundUp;
    var q := p / (8 * unit);
    NextMultiple(p, 8 * unit);
    ModUnique(RoundUp(p, 8 * unit), 8 * unit, q + 1, 0);
    UnitTimes(q, unit);
  }

  lemma UnitTimes(q: nat, unit: nat)
    ensures (q + 1) * unit == q * unit + unit
    ensures 8 * unit * (q + 1) == 8 * (q * unit + unit)
  {
    assert 8 * unit * (q + 1) == 8 * ((q + 1) * unit);
  }

  // A zero-width field: go to the next unit boundary.
  method CloseUnit(unit: nat, offset: nat, bitPos: nat) returns (offset1: nat, bitPos1: nat)
    requires unit in {1, 2, 4, 8} && offset == Bytes(bitPos)
    ensures bitPos1 == RoundUp(bitPos, 8 * unit) && offset1 == Bytes(bitPos1)
  {
    var unitBits := 8 * unit;
    var unitBase := bitPos / unitBits * unit;
    UnitSplit(bitPos, unit);
    if bitPos % unitBits != 0 {
      NextUnit(bitPos, unit);
      unitBase := unitBase + unit;
    }
    offset1 := if unitBase > offset then unitBase else offset;
    bitPos1 := unitBase * 8;
  }

  // With packing: place at the cursor and record how much must be loaded.
  method PlaceDense(unit: nat, width: nat, offset: nat, bitPos: nat)
    returns (bytePos: nat, bitOff: nat, loadSize: nat, offset1: nat, bitPos1: nat)
    requires unit in {1, 2, 4, 8} && width <= 8 * unit && offset == Bytes(bitPos)
    ensures bytePos == bitPos / 8 && bitOff == bitPos % 8
    ensures var needed := Bytes(bitPos % 8 + width); loadSize == if needed > unit then LoadSize(unit, needed) else 0
    ensures bitPos1 == bitPos + width && offset1 == Bytes(bitPos1)
  {
    bytePos, bitOff, loadSize := bitPos / 8, bitPos % 8, 0;
    var needed := (bitOff + width + 7) / 8;
    if needed > unit {
      var ls := unit;
      while ls < needed
        invariant ls > 0 && LoadSize(ls, needed) == LoadSize(unit, needed)
        decreases needed - ls
      {
        ls := ls * 2;
      }
      loadSize := ls;
    }
    bitPos1 := bitPos + width;
    var endByte := (bitPos1 + 7) / 8;
    offset1 := if endByte > offset then endByte else offset;
  }

  // Microsoft rules: fields of one kind share a unit as long as they fit.
  predicate NewRun(bitPos: nat, prevKind: Option<Kind>, kind: Kind, width: nat) {
    bitPos + width > 8 * SizeOf(kind) || ((width > 0) == (Some(kind) != prevKind))
  }

  // Where Microsoft layout is: the end of what is laid out, the current unit, the first free bit in
  // it, and the kind and width of the bit-field just placed.
  datatype MsCursor = MsCursor(offset: nat, base: nat, bitPos: nat, kind: Option<Kind>, width: nat)

  datatype MsLaid = MsLaid(members: seq<Member>, at: MsCursor)

  // A bit-field joins the unit of the one before it if that has the same kind and there is room; a
  // zero-width field ends the unit of a field of its kind, and is ignored behind any other.
  predicate Joins(c: MsCursor, kind: Kind, width: nat) {
    if width > 0 then c.kind == Some(kind) && c.bitPos + width <= 8 * SizeOf(kind)
    else c.kind != Some(kind) && c.bitPos <= 8 * SizeOf(kind)
  }

  function MsField(c: MsCursor, align: nat, kind: Kind, width: nat): MsCursor
    requires align > 0
  {
    if Joins(c, kind, width) then MsCursor(c.offset, c.base, c.bitPos + width, Some(kind), width)
    else
      var base := RoundUp(c.offset, align);
      MsCursor(base + (if width > 0 || c.width > 0 then SizeOf(kind) else 0), base, width, Some(kind), width)
  }

  ghost function MsStep(l: MsLaid, pack: nat, d: Decl): MsLaid
    requires ValidDecl(d) && (pack == 0 || IsPow2(pack))
  {
    match d
    case BitField(k, u, w) =>
      var c := MsField(l.at, EffAlign(pack, SizeOf(k)), k, w);
      MsLaid(l.members + [Member(c.base, c.bitPos - w, w, 0, SizeOf(k), SizeOf(k), u)], c)
    case Gap(k, w) => l.(at := MsField(l.at, EffAlign(pack, SizeOf(k)), k, w))
    case Plain(size, align, anonymous) =>
      var a := EffAlign(pack, align);
      var offset := RoundUp(l.at.offset, a);
      var c := l.at.(offset := offset + size, bitPos := 8 * (offset + size));
      MsLaid(l.members + [Member(offset, 0, 0, 0, size, a, false)], if anonymous then c else c.(kind := None, width := 0))
  }

  // What the rules lay out for the first n declarations.
  ghost function MsAt(decls: seq<Decl>, pack: nat, n: nat): MsLaid
    requires n <= |decls| && ValidDecls(decls, pack)
  {
    if n == 0 then MsLaid([], MsCursor(0, 0, 0, None, 0)) else MsStep(MsAt(decls, pack, n - 1), pack, decls[n - 1])
  }

  // Two bit-fields declared one after the other share a unit exactly if they have the same kind and
  // the second fits behind the first; otherwise it starts the next unit.
  lemma MsNeighbours(decls: seq<Decl>, pack: nat, n: nat)
    requires n + 2 <= |decls| && ValidDecls(decls, pack) && decls[n].BitField? && decls[n + 1].BitField?
    ensures var l, ms := MsAt(decls, pack, n + 1), MsAt(decls, pack, n + 2).members;
      var i, d, e := |l.members| - 1, decls[n], decls[n + 1];
      && i >= 0 && |ms| == i + 2 && ms[i] == l.members[i]
      && EffAlign(pack, SizeOf(e.kind)) > 0
      && BitStart(ms[i + 1]) ==
         (if e.kind == d.kind && ms[i].bitOffset + d.width + e.width <= 8 * SizeOf(e.kind) then BitEnd(ms[i])
          else 8 * RoundUp(l.at.offset, EffAlign(pack, SizeOf(e.kind))))
  {
    hide RoundUp;
    UnitPow2(decls[n].kind);
    UnitPow2(decls[n + 1].kind);
    EffPow2(pack, SizeOf(decls[n].kind));
    EffPow2(pack, SizeOf(decls[n + 1].kind));
  }

  method PlaceInRun(kind: Kind, align: nat, width: nat, offset: nat, base: nat, bitPos: nat, prevKind: Option<Kind>, prevWidth: nat)
    returns (base1: nat, bitOff: nat, offset1: nat, bitPos1: nat)
    requires IsPow2(align) && align > 0
    ensures bitPos1 == bitOff + width
    ensures MsField(MsCursor(offset, base, bitPos, prevKind, prevWidth), align, kind, width)
      == MsCursor(offset1, base1, bitPos1, Some(kind), width)
    ensures if NewRun(bitPos, prevKind, kind, width) then
        base1 == RoundUp(offset, align) && bitOff == 0
        && offset1 == base1 + (if width > 0 || prevWidth > 0 then SizeOf(kind) else 0)
      else base1 == base && bitOff == bitPos && offset1 == offset
  {
    base1, bitOff, offset1 := base, bitPos, offset;
    if NewRun(bitPos, prevKind, kind, width) {
      AlignToRoundUp(offset, align);
      offset1 := AlignTo(offset, align);
      base1, bitOff := offset1, 0;
      if width > 0 || prevWidth > 0 {
        offset1 := offset1 + SizeOf(kind);
      }
    }
    bitPos1 := bitOff + width;
  }

  // What Microsoft layout keeps: everything placed lies below offset, and while the current unit
  // has room, below the cursor in it.
  ghost predicate RunOk(ms: seq<Member>, pack: nat, offset: nat, base: nat, bitPos: nat, prevKind: Option<Kind>) {
    && Good(ms, pack, 8 * offset)
    && (prevKind.Some? ==>
          var unit := SizeOf(prevKind.value);
          && unit <= offset
          && (bitPos < 8 * unit ==> base + unit <= offset && Bound(ms, 8 * base + bitPos) && (pack == 0 ==> base % unit == 0)))
  }

  lemma RunStep(ms: seq<Member>, pack: nat, offset: nat, base: nat, bitPos: nat, prevKind: Option<Kind>, prevWidth: nat,
                kind: Kind, u: bool, width: nat, base1: nat, bitOff: nat, offset1: nat)
    requires RunOk(ms, pack, offset, base, bitPos, prevKind) && 1 <= width <= 8 * SizeOf(kind) && (pack == 0 || IsPow2(pack))
    requires if NewRun(bitPos, prevKind, kind, width) then
        base1 == RoundUp(offset, EffAlign(pack, SizeOf(kind))) && bitOff == 0 && offset1 == base1 + SizeOf(kind)
      else base1 == base && bitOff == bitPos && offset1 == offset
    ensures RunOk(ms, pack, offset1, base1, bitOff + width, Some(kind))
    ensures RunOk(ms + [Member(base1, bitOff, width, 0, SizeOf(kind), SizeOf(kind), u)], pack, offset1, base1, bitOff + width, Some(kind))
  {
    var m := Member(base1, bitOff, width, 0, SizeOf(kind), SizeOf(kind), u);
    RoundUpMultiple(offset, EffAlign(pack, SizeOf(kind)));
    assert Good(ms, pack, BitStart(m));
    GoodAppend(ms, pack, BitStart(m), m);
    GoodWiden(ms + [m], pack, BitEnd(m), 8 * offset1);
    GoodWiden(ms, pack, BitStart(m), 8 * offset1);
  }

  predicate NoZeroGaps(decls: seq<Decl>) {
    forall i :: 0 <= i < |decls| ==> decls[i].Gap? ==> decls[i].width > 0
  }

  // max_align covers every alignment that was used.
  ghost predicate Covered(ms: seq<Member>, pack: nat, maxAlign: nat) {
    IsPow2(maxAlign) && forall i :: 0 <= i < |ms| ==> ms[i].align <= maxAlign && IsPow2(ms[i].align)
  }

  lemma CoveredAppend(ms: seq<Member>, pack: nat, a: nat, b: nat, m: Member)
    requires Covered(ms, pack, a) && IsPow2(b) && a <= b && m.align <= b && IsPow2(m.align)
    ensures Covered(ms + [m], pack, b) && Covered(ms, pack, b)
  {
    hide IsPow2;
  }

  lemma EffPow2(pack: nat, align: nat)
    requires (pack == 0 || IsPow2(pack)) && IsPow2(align)
    ensures IsPow2(EffAlign(pack, align)) && EffAlign(pack, align) > 0
  {
  }

  // Placing an ordinary member after byte offset is placing it after the last bit.
  lemma PlainOffset(p: nat, a: nat)
    requires a > 0
    ensures RoundUp(p, 8 * a) == 8 * RoundUp(Bytes(p), a)
  {
    RoundUpMultiple(p, 8 * a);
    RoundUpMultiple(Bytes(p), a);
    var s, t := RoundUp(p, 8 * a), 8 * RoundUp(Bytes(p), a);
    var q := RoundUp(Bytes(p), a) / a;
    assert RoundUp(Bytes(p), a) == a * q;
    assert t == (8 * a) * q;
    ModUnique(t, 8 * a, q, 0);
    MultipleSplit(s, a);
    assert !(t < s);
    assert !(s / 8 < RoundUp(Bytes(p), a));
  }

  lemma PlainRun(ms: seq<Member>, pack: nat, offset: nat, base: nat, bitPos: nat, prevKind: Option<Kind>, size: nat, a: nat, anonymous: bool)
    requires RunOk(ms, pack, offset, base, bitPos, prevKind) && a > 0
    ensures var at := RoundUp(offset, a);
      RunOk(ms + [Member(at, 0, 0, 0, size, a, false)], pack, at + size, base, 8 * (at + size), if anonymous then prevKind else None)
  {
    var at := RoundUp(offset, a);
    RoundUpMultiple(offset, a);
    var m := Member(at, 0, 0, 0, size, a, false);
    GoodWiden(ms, pack, 8 * offset, BitStart(m));
    GoodAppend(ms, pack, BitStart(m), m);
  }

  // The storage unit of an unpacked bit-field ends inside the struct.
  lemma UnitInside(m: Member, limit: nat, size: nat, align: nat)
    requires m.width > 0 && Fitting(m) && Aligned(m, 0) && BitEnd(m) <= 8 * limit && limit <= size
    requires IsPow2(align) && IsPow2(m.align) && m.align <= align && size % align == 0
    ensures m.offset + m.size <= size
  {
    hide IsPow2;
    Pow2Multiple(m.align, align);
    ModTrans(size, m.align, align);
    UnitEnd(m.offset, size, m.size);
  }

  lemma UnitEnd(a: nat, b: nat, unit: nat)
    requires unit in {1, 2, 4, 8} && a % unit == 0 && b % unit == 0 && a < b
    ensures a + unit <= b
  {
    if unit == 1 {
    } else if unit == 2 {
    } else if unit == 4 {
    } else {
    }
  }

  // The alignment that a declaration asks for: a bit-field that of its unit, also where the struct is
  // packed; a gap none, except in Microsoft layout.
  function AlignUsed(d: Decl, pack: nat, ms: bool): nat {
    match d
    case BitField(k, _, _) => SizeOf(k)
    case Gap(k, w) => if ms && w > 0 then EffAlign(pack, SizeOf(k)) else 0
    case Plain(_, align, _) => EffAlign(pack, align)
  }

  // a is the largest of 1 and what the declarations ask for.
  ghost predicate LargestUsed(decls: seq<Decl>, pack: nat, ms: bool, a: nat) {
    && a >= 1 && (a == 1 || exists i :: 0 <= i < |decls| && AlignUsed(decls[i], pack, ms) == a)
    && forall i :: 0 <= i < |decls| ==> AlignUsed(decls[i], pack, ms) <= a
  }

  lemma LargestUnique(decls: seq<Decl>, pack: nat, ms: bool, a: nat, b: nat)
    requires LargestUsed(decls, pack, ms, a) && LargestUsed(decls, pack, ms, b)
    ensures a == b
  {
  }

  lemma NothingUsed(pack: nat, ms: bool)
    ensures LargestUsed([], pack, ms, 1)
  {
  }

  lemma LargestOneMore(decls: seq<Decl>, pack: nat, ms: bool, a: nat, d: Decl)
    requires LargestUsed(decls, pack, ms, a)
    ensures LargestUsed(decls + [d], pack, ms, if a < AlignUsed(d, pack, ms) then AlignUsed(d, pack, ms) else a)
  {
    var more := decls + [d];
    assert more[|decls|] == d;
    if a > 1 {
      var i :| 0 <= i < |decls| && AlignUsed(decls[i], pack, ms) == a;
      assert more[i] == decls[i];
    }
  }

  // What the largest alignment becomes: packing caps it, and an attribute can only raise it.
  function FinalAlign(largest: nat, pack: nat, attrAlign: nat): nat {
    var capped := EffAlign(pack, largest);
    if attrAlign > capped then attrAlign else capped
  }

  // The three packing algorithms on a bit-field.
  method PlaceField(pack: nat, ms: bool, kind: Kind, unsigned: bool, width: nat, offset: nat, base: nat, bitPos: nat,
      prevKind: Option<Kind>, prevWidth: nat, ghost members: seq<Member>)
    returns (m: Member, offset1: nat, base1: nat, bitPos1: nat, kind1: Option<Kind>, width1: nat)
    requires 1 <= width <= 8 * SizeOf(kind) && (pack == 0 || IsPow2(pack)) && (!ms ==> offset == Bytes(bitPos))
    ensures m.align == SizeOf(kind)
    ensures var l := MsLaid(members, MsCursor(offset, base, bitPos, prevKind, prevWidth));
      ms ==> MsStep(l, pack, BitField(kind, unsigned, width)) == MsLaid(members + [m], MsCursor(offset1, base1, bitPos1, kind1, width1))
    ensures var d := BitField(kind, unsigned, width);
      !ms ==> m == MemberAt(pack, Place(pack, bitPos, d), d) && bitPos1 == Place(pack, bitPos, d) + width && offset1 == Bytes(bitPos1)
  {
    hide RoundUp, Place, MemberAt, IsPow2, MsStep, MsField;
    var unit := SizeOf(kind);
    var a := EffAlign(pack, unit);
    base1, kind1, width1 := base, prevKind, prevWidth;
    UnitPow2(kind);
    EffPow2(pack, unit);
    if ms {
      ghost var l := MsLaid(members, MsCursor(offset, base, bitPos, prevKind, prevWidth));
      var bitOff;
      base1, bitOff, offset1, bitPos1 := PlaceInRun(kind, a, width, offset, base, bitPos, prevKind, prevWidth);
      m := Member(base1, bitOff, width, 0, unit, unit, unsigned);
      MsBitField(l, pack, kind, unsigned, width);
      kind1, width1 := Some(kind), width;
    } else if pack > 0 {
      var bytePos, bitOff, loadSize;
      bytePos, bitOff, loadSize, offset1, bitPos1 := PlaceDense(unit, width, offset, bitPos);
      m := Member(bytePos, bitOff, width, loadSize, unit, unit, unsigned);
      DenseIs(pack, bitPos, kind, unsigned, width);
    } else {
      var unitBase, bitOff;
      unitBase, bitOff, offset1, bitPos1 := PlaceInUnit(unit, width, offset, bitPos);
      m := Member(unitBase, bitOff, width, 0, unit, unit, unsigned);
      UnitIs(bitPos, kind, unsigned, width);
    }
  }

  // The same for an unnamed one, which is no member.
  method PlaceGap(pack: nat, ms: bool, kind: Kind, width: nat, offset: nat, base: nat, bitPos: nat,
      prevKind: Option<Kind>, prevWidth: nat, ghost members: seq<Member>)
    returns (offset1: nat, base1: nat, bitPos1: nat, kind1: Option<Kind>, width1: nat)
    requires width <= 8 * SizeOf(kind) && (pack == 0 || IsPow2(pack)) && (!ms ==> offset == Bytes(bitPos))
    ensures var l := MsLaid(members, MsCursor(offset, base, bitPos, prevKind, prevWidth));
      ms ==> MsStep(l, pack, Gap(kind, width)) == MsLaid(members, MsCursor(offset1, base1, bitPos1, kind1, width1))
    ensures !ms ==> bitPos1 == Place(pack, bitPos, Gap(kind, width)) + width && offset1 == Bytes(bitPos1)
  {
    hide RoundUp, Place, IsPow2, MsStep, MsField;
    var unit := SizeOf(kind);
    var a := EffAlign(pack, unit);
    base1, kind1, width1 := base, prevKind, prevWidth;
    UnitPow2(kind);
    EffPow2(pack, unit);
    if ms {
      ghost var l := MsLaid(members, MsCursor(offset, base, bitPos, prevKind, prevWidth));
      var bitOff;
      base1, bitOff, offset1, bitPos1 := PlaceInRun(kind, a, width, offset, base, bitPos, prevKind, prevWidth);
      MsGap(l, pack, kind, width);
      kind1, width1 := Some(kind), width;
    } else {
      GapIs(pack, bitPos, kind, width);
      if width == 0 {
        offset1, bitPos1 := CloseUnit(unit, offset, bitPos);
      } else if pack > 0 {
        var bytePos, bitOff, loadSize;
        bytePos, bitOff, loadSize, offset1, bitPos1 := PlaceDense(unit, width, offset, bitPos);
      } else {
        var unitBase, bitOff;
        unitBase, bitOff, offset1, bitPos1 := PlaceInUnit(unit, width, offset, bitPos);
      }
    }
  }

  // struct_or_union_specifier, for a struct: lay out the members, then fix size and alignment.
  // attrAlign is the alignment asked for by an attribute, or 0.
  method Layout(decls: seq<Decl>, pack: nat, ms: bool, attrAlign: nat)
    returns (members: seq<Member>, size: nat, align: nat)
    requires ValidDecls(decls, pack) && (attrAlign == 0 || IsPow2(attrAlign))
    ensures IsPow2(align) && align >= attrAlign && size % align == 0
    ensures exists a: nat :: LargestUsed(decls, pack, ms, a) && align == FinalAlign(a, pack, attrAlign)
    ensures members == Members(decls, pack, ms)
    ensures size == RoundUp(if ms then MsAt(decls, pack, |decls|).at.offset else Bytes(Cursor(decls, pack, |decls|)), align)
    ensures !ms || NoZeroGaps(decls) ==> Good(members, pack, 8 * size)
    ensures pack == 0 && (!ms || NoZeroGaps(decls)) ==>
      forall i :: 0 <= i < |members| ==> members[i].align <= align && (members[i].width > 0 ==> members[i].offset + members[i].size <= size)
  {
    hide RoundUp, Place, MemberAt, Fitting, Aligned, IsPow2, Good, RunOk, Covered, AlignTo, MsStep, MsField, MsAt, Cursor, Expected, LargestUsed;
    members := [];
    var offset: nat, bitPos: nat, maxAlign: nat, msRunBase: nat := 0, 0, 1, 0;
    var msPrevKind: Option<Kind>, msPrevWidth: nat := None, 0;
    Start0(decls, pack);
    assert LargestUsed(decls[..0], pack, ms, 1) by { NothingUsed(pack, ms); }
    for n := 0 to |decls|
      invariant Covered(members, pack, maxAlign) && LargestUsed(decls[..n], pack, ms, maxAlign)
      invariant !ms ==> bitPos == Cursor(decls, pack, n) && offset == Bytes(bitPos) && members == Expected(decls, pack, n)
      invariant ms ==> MsAt(decls, pack, n) == MsLaid(members, MsCursor(offset, msRunBase, bitPos, msPrevKind, msPrevWidth))
    {
      ghost var p := bitPos;
      ghost var l := MsLaid(members, MsCursor(offset, msRunBase, bitPos, msPrevKind, msPrevWidth));
      OneMore(decls, pack, n);
      LargestOneMore(decls[..n], pack, ms, maxAlign, decls[n]);
      assert decls[..n + 1] == decls[..n] + [decls[n]];
      match decls[n]
      case BitField(kind, unsigned, width) =>
        var unit := SizeOf(kind);
        UnitPow2(kind);
        var m: Member;
        m, offset, msRunBase, bitPos, msPrevKind, msPrevWidth :=
          PlaceField(pack, ms, kind, unsigned, width, offset, msRunBase, bitPos, msPrevKind, msPrevWidth, members);
        var wider := if maxAlign < unit then unit else maxAlign;
        CoveredPow2(members, pack, maxAlign);
        CoveredAppend(members, pack, maxAlign, wider, m);
        maxAlign := wider;
        members := members + [m];
      case Gap(kind, width) =>
        var a := EffAlign(pack, SizeOf(kind));
        UnitPow2(kind);
        EffPow2(pack, SizeOf(kind));
        offset, msRunBase, bitPos, msPrevKind, msPrevWidth :=
          PlaceGap(pack, ms, kind, width, offset, msRunBase, bitPos, msPrevKind, msPrevWidth, members);
        if ms && width > 0 && a > maxAlign {
          CoveredWiden(members, pack, maxAlign, a);
          maxAlign := a;
        }
      case Plain(sz, al, anonymous) =>
        var a := EffAlign(pack, al);
        EffPow2(pack, al);
        AlignToRoundUp(offset, a);
        offset := AlignTo(offset, a);
        var m := Member(offset, 0, 0, 0, sz, a, false);
        if ms {
          MsPlain(l, pack, sz, al, anonymous);
        } else {
          PlainIs(pack, p, sz, al, anonymous);
        }
        offset := offset + sz;
        bitPos := offset * 8;
        if !anonymous {
          msPrevKind, msPrevWidth := None, 0;
        }
        var wider := if maxAlign < a then a else maxAlign;
        CoveredPow2(members, pack, maxAlign);
        CoveredAppend(members, pack, maxAlign, wider, m);
        maxAlign := wider;
        members := members + [m];
    }
    align := maxAlign;
    assert decls[..|decls|] == decls;
    CoveredPow2(members, pack, maxAlign);
    if 0 < pack < maxAlign {
      align := pack;
    }
    if attrAlign > align {
      align := attrAlign;
    }
    AlignToRoundUp(offset, align);
    size := AlignTo(offset, align);
    Finish(members, decls, pack, ms, offset, bitPos, maxAlign, size, align);
  }

  lemma MsBitField(l: MsLaid, pack: nat, k: Kind, u: bool, w: nat)
    requires 1 <= w <= 8 * SizeOf(k) && (pack == 0 || IsPow2(pack)) && EffAlign(pack, SizeOf(k)) > 0
    ensures var c := MsField(l.at, EffAlign(pack, SizeOf(k)), k, w);
      c.bitPos >= w &&
      MsStep(l, pack, BitField(k, u, w)) == MsLaid(l.members + [Member(c.base, c.bitPos - w, w, 0, SizeOf(k), SizeOf(k), u)], c)
  {
  }

  lemma MsGap(l: MsLaid, pack: nat, k: Kind, w: nat)
    requires w <= 8 * SizeOf(k) && (pack == 0 || IsPow2(pack)) && EffAlign(pack, SizeOf(k)) > 0
    ensures MsStep(l, pack, Gap(k, w)) == MsLaid(l.members, MsField(l.at, EffAlign(pack, SizeOf(k)), k, w))
  {
  }

  lemma MsPlain(l: MsLaid, pack: nat, size: nat, align: nat, anonymous: bool)
    requires (pack == 0 || IsPow2(pack)) && IsPow2(align) && EffAlign(pack, align) > 0
    ensures var a := EffAlign(pack, align);
      var offset := RoundUp(l.at.offset, a);
      MsStep(l, pack, Plain(size, align, anonymous)) == MsLaid(l.members + [Member(offset, 0, 0, 0, size, a, false)],
        MsCursor(offset + size, l.at.base, 8 * (offset + size), if anonymous then l.at.kind else None, if anonymous then l.at.width else 0))
  {
  }

  lemma OneMore(decls: seq<Decl>, pack: nat, n: nat)
    requires n < |decls| && ValidDecls(decls, pack)
    ensures var d, s := decls[n], Place(pack, Cursor(decls, pack, n), decls[n]);
      && Cursor(decls, pack, n + 1) == s + Width(d)
      && Expected(decls, pack, n + 1) == Expected(decls, pack, n) + (if d.Gap? then [] else [MemberAt(pack, s, d)])
      && MsAt(decls, pack, n + 1) == MsStep(MsAt(decls, pack, n), pack, d)
  {
  }

  lemma Start0(decls: seq<Decl>, pack: nat)
    requires ValidDecls(decls, pack)
    ensures Covered([], pack, 1) && RunOk([], pack, 0, 0, 0, None)
    ensures Cursor(decls, pack, 0) == 0 && Expected(decls, pack, 0) == []
    ensures MsAt(decls, pack, 0) == MsLaid([], MsCursor(0, 0, 0, None, 0))
  {
    assert Pow2(0) == 1;
  }

  lemma CoveredPow2(ms: seq<Member>, pack: nat, a: nat)
    requires Covered(ms, pack, a)
    ensures IsPow2(a) && a > 0
  {
  }

  lemma CoveredWiden(ms: seq<Member>, pack: nat, a: nat, b: nat)
    requires Covered(ms, pack, a) && IsPow2(b) && a <= b
    ensures Covered(ms, pack, b)
  {
  }

  lemma UnitIs(p: nat, k: Kind, u: bool, w: nat)
    requires 1 <= w <= 8 * SizeOf(k)
    ensures var s := Place(0, p, BitField(k, u, w));
      && s == (if p % (8 * SizeOf(k)) + w <= 8 * SizeOf(k) then p else RoundUp(p, 8 * SizeOf(k)))
      && MemberAt(0, s, BitField(k, u, w))
        == Member(s / (8 * SizeOf(k)) * SizeOf(k), s % (8 * SizeOf(k)), w, 0, SizeOf(k), SizeOf(k), u)
  {
  }

  lemma DenseIs(pack: nat, p: nat, k: Kind, u: bool, w: nat)
    requires pack > 0 && IsPow2(pack) && 1 <= w <= 8 * SizeOf(k)
    ensures Place(pack, p, BitField(k, u, w)) == p
    ensures var needed := Bytes(p % 8 + w);
      MemberAt(pack, p, BitField(k, u, w))
        == Member(p / 8, p % 8, w, if needed > SizeOf(k) then LoadSize(SizeOf(k), needed) else 0, SizeOf(k), SizeOf(k), u)
  {
  }

  lemma GapIs(pack: nat, p: nat, k: Kind, w: nat)
    requires (pack == 0 || IsPow2(pack)) && w <= 8 * SizeOf(k)
    ensures Place(pack, p, Gap(k, w))
      == if w > 0 && (pack > 0 || p % (8 * SizeOf(k)) + w <= 8 * SizeOf(k)) then p else RoundUp(p, 8 * SizeOf(k))
  {
  }

  lemma PlainIs(pack: nat, p: nat, size: nat, align: nat, anonymous: bool)
    requires (pack == 0 || IsPow2(pack)) && IsPow2(align)
    ensures var s, a := Place(pack, p, Plain(size, align, anonymous)), EffAlign(pack, align);
      && a > 0 && s == 8 * RoundUp(Bytes(p), a)
      && MemberAt(pack, s, Plain(size, align, anonymous)) == Member(RoundUp(Bytes(p), a), 0, 0, 0, size, a, false)
      && Bytes(s + 8 * size) == RoundUp(Bytes(p), a) + size
  {
    PlainOffset(p, EffAlign(pack, align));
  }

  lemma Finish(members: seq<Member>, decls: seq<Decl>, pack: nat, ms: bool, offset: nat, bitPos: nat,
               maxAlign: nat, size: nat, align: nat)
    requires ValidDecls(decls, pack) && Covered(members, pack, maxAlign) && IsPow2(align) && align > 0
    requires pack == 0 ==> maxAlign <= align
    requires !ms ==> bitPos == Cursor(decls, pack, |decls|) && offset == Bytes(bitPos) && members == Expected(decls, pack, |decls|)
    requires ms ==> members == MsAt(decls, pack, |decls|).members && offset == MsAt(decls, pack, |decls|).at.offset
    requires size == RoundUp(offset, align)
    ensures size % align == 0
    ensures !ms || NoZeroGaps(decls) ==> Good(members, pack, 8 * size)
    ensures pack == 0 && (!ms || NoZeroGaps(decls)) ==>
      forall i :: 0 <= i < |members| ==> members[i].align <= align && (members[i].width > 0 ==> members[i].offset + members[i].size <= size)
  {
    hide Place, Fitting, Aligned, IsPow2, RoundUp;
    RoundUpMultiple(offset, align);
    RoundUpBounds(offset, align);
    if !ms || NoZeroGaps(decls) {
      if !ms {
        ExpectedGood(decls, pack, |decls|);
        GoodWiden(members, pack, bitPos, 8 * size);
      } else {
        MsRun(decls, pack, |decls|);
        RunGood(MsAt(decls, pack, |decls|), pack);
        GoodWiden(members, pack, 8 * offset, 8 * size);
      }
      if pack == 0 {
        forall i | 0 <= i < |members| && members[i].width > 0
          ensures members[i].offset + members[i].size <= size
        {
          UnitInside(members[i], size, size, align);
        }
      }
    }
  }

  lemma RoundUpBounds(n: nat, a: nat)
    requires a > 0
    ensures n <= RoundUp(n, a)
  {
  }

  // ----- layout and access together -----

  function FieldOf(m: Member): Field { Field(m.bitOffset, m.width, m.size, m.loadSize, m.unsigned) }

  predicate IsField(m: Member) { Fitting(m) && 0 < m.width < 64 }

  // s.m read from a struct at address base, and s.m = v, by the generated code.
  function ReadField(m: Member, base: int, mem: Bits): int
    requires IsField(m)
  {
    LoadedValue(FieldOf(m), Access(Ones(0), Ones(0), Ones(0), Ones(0), base + m.offset, mem))
  }

  function WriteField(m: Member, base: int, v: Word, mem: Bits): Bits
    requires IsField(m)
  {
    Run(StoreCode(FieldOf(m)), Access(v, Ones(0), Ones(0), Ones(0), base + m.offset, mem)).mem
  }

  // What Microsoft layout keeps over the declarations.
  lemma {:induction false} MsRun(decls: seq<Decl>, pack: nat, n: nat)
    requires n <= |decls| && ValidDecls(decls, pack) && NoZeroGaps(decls)
    ensures var l := MsAt(decls, pack, n); RunOk(l.members, pack, l.at.offset, l.at.base, l.at.bitPos, l.at.kind)
    decreases n
  {
    hide RunOk, MsField, IsPow2;
    if n == 0 {
      Start0(decls, pack);
    } else {
      MsRun(decls, pack, n - 1);
      var l, d := MsAt(decls, pack, n - 1), decls[n - 1];
      match d
      case BitField(k, u, w) => MsFieldRun(l, pack, k, u, w);
      case Gap(k, w) => MsFieldRun(l, pack, k, true, w);
      case Plain(size, align, anonymous) =>
        EffPow2(pack, align);
        PlainRun(l.members, pack, l.at.offset, l.at.base, l.at.bitPos, l.at.kind, size, EffAlign(pack, align), anonymous);
    }
  }

  lemma MsFieldRun(l: MsLaid, pack: nat, k: Kind, u: bool, w: nat)
    requires RunOk(l.members, pack, l.at.offset, l.at.base, l.at.bitPos, l.at.kind)
    requires 1 <= w <= 8 * SizeOf(k) && (pack == 0 || IsPow2(pack)) && EffAlign(pack, SizeOf(k)) > 0
    ensures var c := MsField(l.at, EffAlign(pack, SizeOf(k)), k, w);
      && c.bitPos >= w
      && RunOk(l.members, pack, c.offset, c.base, c.bitPos, c.kind)
      && RunOk(l.members + [Member(c.base, c.bitPos - w, w, 0, SizeOf(k), SizeOf(k), u)], pack, c.offset, c.base, c.bitPos, c.kind)
  {
    hide RunOk, RoundUp;
    var c := MsField(l.at, EffAlign(pack, SizeOf(k)), k, w);
    RunStep(l.members, pack, l.at.offset, l.at.base, l.at.bitPos, l.at.kind, l.at.width, k, u, w, c.base, c.bitPos - w, c.offset);
  }

  // In any member list the layout rules produce: a store to one bit-field is seen by a load of it,
  // truncated to its width; no other bit-field changes, and no bit of the memory outside it.
  lemma EndToEnd(ms: seq<Member>, pack: nat, limit: int, i: nat, base: int, v: Word, mem: Bits)
    requires Good(ms, pack, limit) && i < |ms| && IsField(ms[i])
    ensures var mem1 := WriteField(ms[i], base, v, mem);
      && ReadField(ms[i], base, mem1) == Truncated(Nat(v), ms[i].width, ms[i].unsigned)
      && (forall j :: 0 <= j < |ms| && j != i && IsField(ms[j]) ==>
            ReadField(ms[j], base, mem1) == ReadField(ms[j], base, mem))
      && (forall b: int :: b < 8 * base + BitStart(ms[i]) || b >= 8 * base + BitEnd(ms[i]) ==> mem1(b) == mem(b))
  {
    hide StoreCode, LoadCode, Run, LoadedValue, Truncated, Nat;
    var f, m := FieldOf(ms[i]), ms[i];
    var s := Access(v, Ones(0), Ones(0), Ones(0), base + m.offset, mem);
    var mem1 := WriteField(m, base, v, mem);
    StoreCorrect(f, s);
    ReadAfterWrite(f, s, s.(r2 := Ones(0), mem := mem1));
    forall j | 0 <= j < |ms| && j != i && IsField(ms[j])
      ensures ReadField(ms[j], base, mem1) == ReadField(ms[j], base, mem)
    {
      var t := Access(Ones(0), Ones(0), Ones(0), Ones(0), base + ms[j].offset, mem);
      OtherField(ms, i, j, base, v, mem, mem1);
      ReadUnchanged(FieldOf(ms[j]), t, t.(mem := mem1));
    }
  }

  lemma OtherField(ms: seq<Member>, i: nat, j: nat, base: int, v: Word, mem: Bits, mem1: Bits)
    requires Ordered(ms) && i < |ms| && j < |ms| && i != j && IsField(ms[i]) && IsField(ms[j])
    requires Stored(FieldOf(ms[i]), base + ms[i].offset, v, mem, mem1)
    ensures SameField(FieldOf(ms[j]), base + ms[j].offset, mem, mem1)
  {
    assert if i < j then BitEnd(ms[i]) <= BitStart(ms[j]) else BitEnd(ms[j]) <= BitStart(ms[i]);
  }

  // A field that reaches into a ninth byte: char a : 3; long long b : 63; packed.
  lemma NinthByteArises(u: bool)
    ensures var d := [BitField(KChar, u, 3), BitField(KLLong, u, 63)];
      && ValidDecls(d, 1)
      && Expected(d, 1, 2) == [Member(0, 0, 3, 0, 1, 1, u), Member(0, 3, 63, 16, 8, 8, u)]
    ensures NineBytes(FieldOf(Member(0, 3, 63, 16, 8, 8, u)))
  {
    var d := [BitField(KChar, u, 3), BitField(KLLong, u, 63)];
    assert Pow2(0) == 1;
    assert Cursor(d, 1, 0) == 0 && Cursor(d, 1, 1) == 3;
    LoadSizes(8, 9);
    assert Expected(d, 1, 0) == [];
    assert Expected(d, 1, 1) == [MemberAt(1, 0, d[0])] == [Member(0, 0, 3, 0, 1, 1, u)];
    assert MemberAt(1, 3, d[1]) == Member(0, 3, 63, 16, 8, 8, u);
  }

  // The members of a struct, from its declarations.
  ghost function Members(decls: seq<Decl>, pack: nat, ms: bool): seq<Member>
    requires ValidDecls(decls, pack)
  {
    if ms then MsAt(decls, pack, |decls|).members else Expected(decls, pack, |decls|)
  }

  // From the declarations of a struct: a store to one of its bit-fields is seen by a load of it,
  // truncated to its width; no other bit-field changes, and no bit of the memory outside it.
  lemma DeclaredFields(decls: seq<Decl>, pack: nat, ms: bool, i: nat, base: int, v: Word, mem: Bits)
    requires ValidDecls(decls, pack) && (ms ==> NoZeroGaps(decls))
    requires i < |Members(decls, pack, ms)| && IsField(Members(decls, pack, ms)[i])
    ensures var s := Members(decls, pack, ms);
      var mem1 := WriteField(s[i], base, v, mem);
      && ReadField(s[i], base, mem1) == Truncated(Nat(v), s[i].width, s[i].unsigned)
      && (forall j :: 0 <= j < |s| && j != i && IsField(s[j]) ==> ReadField(s[j], base, mem1) == ReadField(s[j], base, mem))
      && (forall b: int :: b < 8 * base + BitStart(s[i]) || b >= 8 * base + BitEnd(s[i]) ==> mem1(b) == mem(b))
  {
    hide WriteField, ReadField, Truncated, Good, RunOk, IsField, MsAt, Expected;
    var s := Members(decls, pack, ms);
    var limit: int := 0;
    if ms {
      MsRun(decls, pack, |decls|);
      limit := 8 * MsAt(decls, pack, |decls|).at.offset;
      RunGood(MsAt(decls, pack, |decls|), pack);
    } else {
      ExpectedGood(decls, pack, |decls|);
      limit := Cursor(decls, pack, |decls|);
    }
    EndToEnd(s, pack, limit, i, base, v, mem);
  }

  lemma RunGood(l: MsLaid, pack: nat)
    requires RunOk(l.members, pack, l.at.offset, l.at.base, l.at.bitPos, l.at.kind)
    ensures Good(l.members, pack, 8 * l.at.offset)
  {
  }
}
