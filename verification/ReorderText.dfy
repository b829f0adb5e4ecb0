/** Canonical reordering of a UTF-8 text in a buffer: decoding, sorting the runs, encoding, and when the
    buffer is long enough. */
module ReorderText {
  import opened Options
  import opened Reorder
  import opened Utf8

  // ----- texts -----

  const MAX_CODE_POINT: nat := 0x10_ffff

  // No NUL and nothing beyond Unicode.
  predicate IsText(cs: seq<nat>) { forall i :: 0 <= i < |cs| ==> 1 <= cs[i] <= MAX_CODE_POINT }

  // Nothing is written for a value beyond Unicode.
  function CodeBytes(c: nat): seq<Byte> { if c <= MAX_CODE_POINT then Encode(c) else [] }

  function BytesOf(cs: seq<nat>): seq<Byte> {
    if cs == [] then [] else CodeBytes(cs[0]) + BytesOf(cs[1..])
  }

  lemma {:induction false} BytesConcat(a: seq<nat>, b: seq<nat>)
    ensures BytesOf(a + b) == BytesOf(a) + BytesOf(b)
  {
    hide CodeBytes;
    if a == [] {
      assert a + b == b;
    } else {
      assert (a + b)[1..] == a[1..] + b;
      BytesConcat(a[1..], b);
    }
  }

  lemma OneCodePoint(c: nat)
    ensures BytesOf([c]) == CodeBytes(c)
  {
    assert [c][1..] == [];
  }

  lemma {:induction false} LongEnough(cs: seq<nat>)
    requires IsText(cs)
    ensures |BytesOf(cs)| >= |cs|
  {
    if cs != [] {
      LongEnough(cs[1..]);
    }
  }

  // ----- sorting keeps the number of bytes -----

  lemma {:induction false} InsertBytes(cc: ClassOf, x: nat, s: seq<nat>)
    ensures |BytesOf(Insert(cc, x, s))| == |CodeBytes(x)| + |BytesOf(s)|
    ensures IsText(s) && 1 <= x <= MAX_CODE_POINT ==> IsText(Insert(cc, x, s))
  {
    hide CodeBytes;
    if s == [] || cc(x) <= cc(s[0]) {
      assert ([x] + s)[1..] == s;
    } else {
      InsertBytes(cc, x, s[1..]);
      assert ([s[0]] + Insert(cc, x, s[1..]))[1..] == Insert(cc, x, s[1..]);
    }
  }

  lemma {:induction false} SortBytes(cc: ClassOf, s: seq<nat>)
    ensures |BytesOf(StableSort(cc, s))| == |BytesOf(s)| && (IsText(s) ==> IsText(StableSort(cc, s)))
    decreases |s|
  {
    hide CodeBytes;
    if s != [] {
      SortBytes(cc, s[1..]);
      InsertBytes(cc, s[0], StableSort(cc, s[1..]));
    }
  }

  // ----- enc_utf8 and dec_utf8 -----

  // The weight of the last of n digits to the base 64 is 1.
  function Weight(n: nat): (w: nat)
    ensures w > 0
  {
    if n == 0 then 1 else 0x40 * Weight(n - 1)
  }

  lemma Weights()
    ensures Weight(0) == 1 && Weight(1) == 0x40 && Weight(2) == 0x1000 && Weight(3) == 0x4_0000
  {
  }

  // cp_len, by the ranges of the table.
  function CpLen(c: nat): nat
    requires 1 <= c <= MAX_CODE_POINT
  {
    if c <= 0x7f then 1 else if c <= 0x7ff then 2 else if c <= 0xffff then 3 else 4
  }

  // Mask plus one, and lead, of the first byte.
  function MaskOf(n: nat): nat { if n == 1 then 0x80 else if n == 2 then 0x20 else if n == 3 then 0x10 else 8 }

  function LeadOf(n: nat): nat { if n == 1 then 0 else if n == 2 then 0xc0 else if n == 3 then 0xe0 else 0xf0 }

  // Byte i of n bytes.
  function TableByte(c: nat, n: nat, i: nat): nat
    requires i < n
  {
    if i == 0 then LeadOf(n) + c / Weight(n - 1) % MaskOf(n) else 0x80 + c / Weight(n - 1 - i) % 0x40
  }

  // The bytes that the table gives are those of Encode.
  lemma EncodedByTable(c: nat)
    requires 1 <= c <= MAX_CODE_POINT
    ensures |Encode(c)| == CpLen(c)
    ensures forall i :: 0 <= i < CpLen(c) ==> Encode(c)[i] == TableByte(c, CpLen(c), i)
  {
    forall i | 0 <= i < CpLen(c) ensures Encode(c)[i] == TableByte(c, CpLen(c), i) {
      EncodedAt(c, i);
    }
  }

  lemma EncodedAt(c: nat, i: nat)
    requires 1 <= c <= MAX_CODE_POINT && i < CpLen(c)
    ensures |Encode(c)| == CpLen(c) && Encode(c)[i] == TableByte(c, CpLen(c), i)
  {
    hide Weight;
    Weights();
    if CpLen(c) == 4 && i == 0 {
      LeadDigit(c / 0x4_0000);
    } else if i == 0 {
      FirstSmall(c);
    }
  }

  lemma LeadDigit(x: nat)
    requires x <= 4
    ensures x % 8 == x && x % 0x10 == x
  {
  }

  lemma FirstSmall(c: nat)
    ensures c <= 0x7f ==> c / 1 % 0x80 == c
    ensures c <= 0x7ff ==> c / 0x40 % 0x20 == c / 0x40
    ensures c <= 0xffff ==> c / 0x1000 % 0x10 == c / 0x1000
  {
  }

  // enc_utf8: the bytes, and a NUL behind them.
  method EncUtf8(buf: array<Byte>, at: nat, c: nat) returns (len: nat)
    requires 1 <= c <= MAX_CODE_POINT && at + |Encode(c)| < buf.Length
    modifies buf
    ensures len == |Encode(c)| && buf[..at + len] == old(buf[..at]) + Encode(c) && buf[at + len] == 0
    ensures buf[at + len + 1..] == old(buf[at + len + 1..])
  {
    hide Encode, TableByte;
    EncodedByTable(c);
    var n := CpLen(c);
    ghost var before := buf[..];
    assert TableByte(c, n, 0) == LeadOf(n) + c / Weight(n - 1) % MaskOf(n) by { FirstByte(c, n); }
    buf[at] := LeadOf(n) + c / Weight(n - 1) % MaskOf(n);
    for i := 1 to n
      invariant buf[..at] == before[..at] && buf[at + n + 1..] == before[at + n + 1..]
      invariant forall j :: 0 <= j < i ==> buf[at + j] == Encode(c)[j]
    {
      LaterByte(c, n, i);
      buf[at + i] := 0x80 + c / Weight(n - 1 - i) % 0x40;
    }
    buf[at + n] := 0;
    len := n;
  }

  lemma FirstByte(c: nat, n: nat)
    requires n > 0
    ensures TableByte(c, n, 0) == LeadOf(n) + c / Weight(n - 1) % MaskOf(n)
  {
  }

  lemma LaterByte(c: nat, n: nat, i: nat)
    requires 0 < i < n
    ensures TableByte(c, n, i) == 0x80 + c / Weight(n - 1 - i) % 0x40
  {
  }

  // utf8_byte_len, for a byte that starts a code point.
  function ByteLen(b: Byte): nat { if b < 0x80 then 1 else if b < 0xc0 then 0 else if b < 0xe0 then 2 else if b < 0xf0 then 3 else 4 }

  // The digits of c above a weight.
  function Above(c: nat, w: nat): nat
    requires w > 0
  {
    c - c % w
  }

  lemma FirstDigit(c: nat)
    requires 1 <= c <= MAX_CODE_POINT
    ensures var n := CpLen(c);
      && ByteLen(Encode(c)[0]) == n == |Encode(c)|
      && Encode(c)[0] % MaskOf(n) * Weight(n - 1) == Above(c, Weight(n - 1))
  {
    hide Encode;
    EncodedByTable(c);
    Weights();
    var n := CpLen(c);
    FirstByte(c, n);
    var x := c / Weight(n - 1);
    assert x < MaskOf(n);
    LeadGone(n, x);
    assert x * Weight(n - 1) == c - c % Weight(n - 1);
  }

  lemma LeadGone(n: nat, x: nat)
    requires 1 <= n <= 4 && x < MaskOf(n) && (n == 4 ==> x <= 4)
    ensures (LeadOf(n) + x % MaskOf(n)) % MaskOf(n) == x
    ensures LeadOf(n) + x % MaskOf(n) < 256 && ByteLen(LeadOf(n) + x % MaskOf(n)) == n
  {
    if n == 1 {
      assert x % 0x80 == x;
    } else if n == 2 {
      assert x % 0x20 == x && (0xc0 + x) % 0x20 == x;
    } else if n == 3 {
      assert x % 0x10 == x && (0xe0 + x) % 0x10 == x;
    } else {
      assert x % 8 == x && (0xf0 + x) % 8 == x;
    }
  }

  lemma Digits(c: nat)
    ensures Above(c, 0x40) + c % 0x40 == Above(c, 1)
    ensures Above(c, 0x1000) + c / 0x40 % 0x40 * 0x40 == Above(c, 0x40)
    ensures Above(c, 0x4_0000) + c / 0x1000 % 0x40 * 0x1000 == Above(c, 0x1000)
  {
    SecondDigit(c);
    ThirdDigit(c);
  }

  lemma SecondDigit(c: nat)
    ensures c / 0x40 % 0x40 * 0x40 + c % 0x40 == c % 0x1000
  {
    var a, b := c / 0x40, c % 0x40;
    var d, e := a / 0x40, a % 0x40;
    assert c == 0x1000 * d + (0x40 * e + b) && 0x40 * e + b < 0x1000;
  }

  lemma ThirdDigit(c: nat)
    ensures c / 0x1000 % 0x40 * 0x1000 + c % 0x1000 == c % 0x4_0000
  {
    var a, b := c / 0x1000, c % 0x1000;
    Remainder(c, a / 0x40, 0x1000 * (a % 0x40) + b);
  }

  lemma Remainder(c: nat, q: nat, r: nat)
    requires c == 0x4_0000 * q + r && r < 0x4_0000
    ensures c % 0x4_0000 == r
  {
  }

  lemma NextDigit(c: nat, n: nat, i: nat)
    requires 1 <= c <= MAX_CODE_POINT && n == CpLen(c) && 0 < i < n
    ensures |Encode(c)| == n
    ensures Above(c, Weight(n - i)) + Encode(c)[i] % 0x40 * Weight(n - 1 - i) == Above(c, Weight(n - 1 - i))
  {
    hide Encode, Above, Weight;
    EncodedByTable(c);
    LaterByte(c, n, i);
    Weights();
    Digits(c);
    var x := c / Weight(n - 1 - i) % 0x40;
    assert (0x80 + x) % 0x40 == x;
    assert n - i == 1 || n - i == 2 || n - i == 3;
  }

  // dec_utf8 where the text holds the code point c.
  method DecUtf8(s: seq<Byte>, p: nat, ghost c: nat) returns (cp: nat, q: nat)
    requires 1 <= c <= MAX_CODE_POINT && p + |Encode(c)| <= |s| && s[p..p + |Encode(c)|] == Encode(c)
    ensures cp == c && q == p + |Encode(c)|
  {
    hide Encode, CpLen, Above;
    FirstDigit(c);
    ghost var e := s[p..p + |Encode(c)|];
    assert s[p] == e[0];
    var n := ByteLen(s[p]);
    cp := s[p] % MaskOf(n) * Weight(n - 1);
    for i := 1 to n
      invariant cp == Above(c, Weight(n - i))
    {
      assert s[p + i] == e[i];
      NextDigit(c, n, i);
      cp := cp + s[p + i] % 0x40 * Weight(n - 1 - i);
    }
    NothingBelow(c);
    q := p + n;
  }

  lemma NothingBelow(c: nat)
    ensures Weight(0) == 1 && Above(c, 1) == c
  {
  }

  // Several code points, one behind the other.
  method EncAll(buf: array<Byte>, at: nat, out: seq<nat>) returns (end: nat)
    requires IsText(out) && at + |BytesOf(out)| < buf.Length
    modifies buf
    ensures end == at + |BytesOf(out)| && buf[..end] == old(buf[..at]) + BytesOf(out)
    ensures buf[end + 1..] == old(buf[end + 1..])
  {
    hide BytesOf, CodeBytes;
    end := at;
    NoBytesOf();
    for i := 0 to |out|
      invariant end == at + |BytesOf(out[..i])| && end < buf.Length
      invariant buf[..end] == old(buf[..at]) + BytesOf(out[..i]) && buf[end + 1..] == old(buf[end + 1..])
    {
      assert out[..i + 1] == out[..i] + [out[i]] && out == out[..i + 1] + out[i + 1..];
      BytesConcat(out[..i], [out[i]]);
      BytesConcat(out[..i + 1], out[i + 1..]);
      OneCodePoint(out[i]);
      TextBytes(out[i]);
      ghost var before := buf[..];
      var len := EncUtf8(buf, end, out[i]);
      assert buf[end + len + 1..] == before[end + 1..][len..];
      end := end + len;
    }
    assert out[..|out|] == out;
  }

  lemma NoBytesOf()
    ensures BytesOf([]) == []
  {
  }

  lemma TextBytes(c: nat)
    requires 1 <= c <= MAX_CODE_POINT
    ensures CodeBytes(c) == Encode(c)
  {
  }

  // ----- when the buffer is long enough -----

  // Fits: everything is written.  Refused: a run has as many code points as bytes are left, and is not
  // written.  Overrun: something is written behind the end before that is noticed.
  datatype Ending = Fits | Refused | Overrun

  // How many code points are written before the space is checked again: a run and the starter behind it.
  function Piece(cc: ClassOf, cs: seq<nat>): (m: nat)
    requires cs != []
    ensures 0 < m <= |cs|
  {
    var n := RunLength(cc, cs);
    if n < |cs| then n + 1 else n
  }

  function EndingOf(cc: ClassOf, cs: seq<nat>, room: nat): Ending
    decreases |cs|
  {
    if cs == [] then Fits
    else
      var n, m := RunLength(cc, cs), Piece(cc, cs);
      var len := |BytesOf(cs[..m])|;
      if n > 0 && n == room then Refused
      else if len >= room then Overrun
      else EndingOf(cc, cs[m..], room - len)
  }

  // Everything is written exactly if there is room for the text and a NUL.
  lemma {:induction false} FitsIff(cc: ClassOf, cs: seq<nat>, room: nat)
    requires IsText(cs) && room > 0
    ensures EndingOf(cc, cs, room) == Fits <==> |BytesOf(cs)| < room
    decreases |cs|
  {
    if cs != [] {
      var n, m := RunLength(cc, cs), Piece(cc, cs);
      var len := |BytesOf(cs[..m])|;
      LongEnough(cs[..m]);
      assert cs == cs[..m] + cs[m..];
      BytesConcat(cs[..m], cs[m..]);
      if len < room {
        FitsIff(cc, cs[m..], room - len);
      }
    } else {
      NoBytesOf();
    }
  }

  // A run and what follows it.
  lemma PieceIs(cc: ClassOf, run: seq<nat>, next: seq<nat>, room: nat)
    requires (forall i :: 0 <= i < |run| ==> cc(run[i]) != 0) && (next == [] || cc(next[0]) == 0) && run + next != []
    ensures RunLength(cc, run + next) == |run|
    ensures var first := run + (if next == [] then [] else [next[0]]);
      EndingOf(cc, run + next, room)
      == if run != [] && |run| == room then Refused
         else if |BytesOf(first)| >= room then Overrun
         else EndingOf(cc, if next == [] then [] else next[1..], room - |BytesOf(first)|)
  {
    hide BytesOf;
    RunLengthIs(cc, run, next);
    var cs, m := run + next, Piece(cc, run + next);
    var first := run + (if next == [] then [] else [next[0]]);
    assert cs[..m] == first && cs[m..] == if next == [] then [] else next[1..];
  }

  // A single run that does not fit is refused only if it has exactly as many code points as there are
  // bytes left.
  lemma RunEnding(cc: ClassOf, run: seq<nat>, room: nat)
    requires IsText(run) && run != [] && room > 0 && forall i :: 0 <= i < |run| ==> cc(run[i]) != 0
    ensures EndingOf(cc, run, room) == if |run| == room then Refused else if |BytesOf(run)| >= room then Overrun else Fits
  {
    assert run + [] == run;
    PieceIs(cc, run, [], room);
  }

  // ----- the loop -----

  // at bytes have been written, and pend is still to be reordered and written.
  ghost predicate Progress(cc: ClassOf, cs: seq<nat>, pend: seq<nat>, written: seq<Byte>, dmax: nat) {
    && IsText(pend) && |written| + |BytesOf(pend)| == |BytesOf(cs)| && |written| < dmax
    && EndingOf(cc, cs, dmax) == EndingOf(cc, pend, dmax - |written|)
    && written + BytesOf(Reordered(cc, pend)) == BytesOf(Reordered(cc, cs))
  }

  lemma ProgressStarts(cc: ClassOf, cs: seq<nat>, dmax: nat)
    requires IsText(cs) && dmax > 0
    ensures Progress(cc, cs, cs, [], dmax)
  {
    assert [] + BytesOf(Reordered(cc, cs)) == BytesOf(Reordered(cc, cs));
  }

  // A run that is being collected, its elements numbered from 0.
  ghost predicate Gathered(cc: ClassOf, run: seq<Pending>) {
    Collected(cc, run) && forall i :: 0 <= i < |run| ==> run[i].pos == i && run[i].cc != 0
  }

  lemma NoneGathered(cc: ClassOf)
    ensures Gathered(cc, [])
  {
  }

  lemma GatheredOne(cc: ClassOf, run: seq<Pending>, cp: nat)
    requires Gathered(cc, run)
    ensures cc(cp) != 0 ==> Gathered(cc, run + [Pending(cc(cp), cp, |run|)])
  {
  }

  function Starters(starter: Option<nat>): seq<nat> { if starter.Some? then [starter.value] else [] }

  lemma StarterAndRest(starter: Option<nat>, rest: seq<nat>)
    ensures Starters(starter) + rest == if starter.Some? then [starter.value] + rest else rest
  {
  }

  // What a run and a starter behind it contribute.
  lemma PieceWritten(cc: ClassOf, pending: seq<Pending>, starter: Option<nat>, rest: seq<nat>)
    requires Gathered(cc, pending)
    requires if starter.Some? then cc(starter.value) == 0 else rest == []
    ensures var run, next := CodePoints(pending), Starters(starter) + rest;
      && BytesOf(Reordered(cc, run + next)) == BytesOf(StableSort(cc, run)) + BytesOf(Starters(starter)) + BytesOf(Reordered(cc, rest))
      && BytesOf(run + next) == BytesOf(run + Starters(starter)) + BytesOf(rest)
      && |BytesOf(run + Starters(starter))| == |BytesOf(StableSort(cc, run))| + |BytesOf(Starters(starter))|
  {
    hide BytesOf, Reordered, StableSort, CodePoints;
    var run, next := CodePoints(pending), Starters(starter) + rest;
    RunFirst(cc, pending, next);
    BytesConcat(StableSort(cc, run), Reordered(cc, next));
    assert run + next == (run + Starters(starter)) + rest;
    BytesConcat(run + Starters(starter), rest);
    BytesConcat(run, Starters(starter));
    SortBytes(cc, run);
    if starter.Some? {
      StarterFirst(cc, starter.value, rest);
      BytesConcat([starter.value], Reordered(cc, rest));
    } else {
      NoneReordered(cc);
      NoBytesOf();
      assert next == [];
    }
  }

  // A piece that leaves room.
  lemma ProgressGoes(cc: ClassOf, cs: seq<nat>, pending: seq<Pending>, starter: Option<nat>, rest: seq<nat>, written: seq<Byte>, dmax: nat)
    requires Gathered(cc, pending)
    requires if starter.Some? then cc(starter.value) == 0 else rest == [] && pending != []
    requires Progress(cc, cs, CodePoints(pending) + (Starters(starter) + rest), written, dmax)
    ensures IsText(CodePoints(pending)) && IsText(Starters(starter)) && IsText(rest)
    ensures var run := CodePoints(pending);
      var more := BytesOf(StableSort(cc, run)) + BytesOf(Starters(starter));
      && |written| + |more| <= |BytesOf(cs)|
      && (pending != [] && |pending| == dmax - |written| ==> EndingOf(cc, cs, dmax) == Refused)
      && (!(pending != [] && |pending| == dmax - |written|) ==>
          if |written| + |more| >= dmax then EndingOf(cc, cs, dmax) == Overrun else Progress(cc, cs, rest, written + more, dmax))
  {
    hide BytesOf, Reordered, StableSort, RunLength, EndingOf;
    var run, next := CodePoints(pending), Starters(starter) + rest;
    var pend := run + next;
    assert forall i :: 0 <= i < |run| ==> pend[i] == run[i];
    assert forall i :: 0 <= i < |next| ==> pend[|run| + i] == next[i];
    assert forall i :: 0 <= i < |rest| ==> next[|Starters(starter)| + i] == rest[i];
    PieceWritten(cc, pending, starter, rest);
    PieceIs(cc, run, next, dmax - |written|);
    assert (if next == [] then [] else [next[0]]) == Starters(starter);
    assert (if next == [] then [] else next[1..]) == rest;
    var more := BytesOf(StableSort(cc, run)) + BytesOf(Starters(starter));
    assert written + (more + BytesOf(Reordered(cc, rest))) == (written + more) + BytesOf(Reordered(cc, rest));
  }

  // A run, sorted, and the starter behind it.
  method WritePiece(cc: ClassOf, buf: array<Byte>, at: nat, run: seq<Pending>, starter: Option<nat>) returns (end: nat)
    requires Gathered(cc, run) && IsText(CodePoints(run)) && IsText(Starters(starter))
    requires at + |BytesOf(StableSort(cc, CodePoints(run)))| + |BytesOf(Starters(starter))| < buf.Length
    modifies buf
    ensures end == at + |BytesOf(StableSort(cc, CodePoints(run)))| + |BytesOf(Starters(starter))|
    ensures buf[..end] == old(buf[..at]) + (BytesOf(StableSort(cc, CodePoints(run))) + BytesOf(Starters(starter)))
    ensures buf[end + 1..] == old(buf[end + 1..])
  {
    hide BytesOf, StableSort;
    SortBytes(cc, CodePoints(run));
    var sorted := Flush(cc, run);
    end := EncAll(buf, at, sorted);
    NoBytesOf();
    if starter.Some? {
      OneCodePoint(starter.value);
      assert 1 <= Starters(starter)[0] <= MAX_CODE_POINT;
      TextBytes(starter.value);
      ghost var middle := buf[..];
      var len := EncUtf8(buf, end, starter.value);
      assert buf[end + len + 1..] == middle[end + 1..][len..];
      end := end + len;
    }
  }

  // The front of a text.
  lemma FrontOf(src: seq<Byte>, p: nat, cs: seq<nat>)
    requires IsText(cs) && p < |src| && src[p..] == BytesOf(cs)
    ensures cs != [] && p + |Encode(cs[0])| <= |src| && src[p..p + |Encode(cs[0])|] == Encode(cs[0])
    ensures src[p + |Encode(cs[0])|..] == BytesOf(cs[1..])
  {
    NoBytesOf();
    TextBytes(cs[0]);
    var n := |Encode(cs[0])|;
    assert src[p..][..n] == Encode(cs[0]) && src[p..][n..] == BytesOf(cs[1..]);
  }

  // The handler's memset.
  method Clear(buf: array<Byte>, dmax: nat)
    requires dmax <= buf.Length
    modifies buf
    ensures (forall i :: 0 <= i < dmax ==> buf[i] == 0) && forall i :: dmax <= i < buf.Length ==> buf[i] == old(buf[i])
  {
    for i := 0 to dmax
      invariant forall j :: 0 <= j < buf.Length ==> buf[j] == if j < i then 0 else old(buf[j])
    {
      buf[i] := 0;
    }
  }

  // The end of the loop's body: None where it returns with an error.  start is what the buffer held
  // at first, and reached the end of what has been written since.
  method Output(cc: ClassOf, buf: array<Byte>, dmax: nat, at: nat, run: seq<Pending>, starter: Option<nat>,
      ghost cs: seq<nat>, ghost rest: seq<nat>, ghost start: seq<Byte>, ghost reached: nat)
    returns (end: Option<nat>, ghost reach: nat)
    requires Gathered(cc, run) && if starter.Some? then cc(starter.value) == 0 else rest == [] && run != []
    requires at < dmax <= buf.Length && |BytesOf(cs)| < buf.Length
    requires Progress(cc, cs, CodePoints(run) + (Starters(starter) + rest), buf[..at], dmax)
    requires |start| == buf.Length && reached <= at + 1 && buf[reached..] == start[reached..]
    modifies buf
    ensures reach <= buf.Length && buf[reach..] == start[reach..]
    ensures end.Some? ==> end.value <= |BytesOf(cs)| && end.value < dmax && reach == end.value + 1
    ensures end.Some? ==> Progress(cc, cs, rest, buf[..end.value], dmax) && IsText(rest)
    ensures end.None? ==> EndingOf(cc, cs, dmax) == if reach > dmax then Overrun else Refused
    ensures end.None? && reach > dmax ==> forall i :: 0 <= i < dmax ==> buf[i] == 0
  {
    hide *;
    ProgressGoes(cc, cs, run, starter, rest, buf[..at], dmax);
    if |run| > 0 && |run| == dmax - at {
      return None, reached;
    }
    ghost var before := buf[..];
    var next := WritePiece(cc, buf, at, run, starter);
    reach := next + 1;
    Beyond(start, before, buf[..], reached, reach);
    if next >= dmax {
      before := buf[..];
      Clear(buf, dmax);
      Beyond(start, before, buf[..], reach, reach);
      return None, reach;
    }
    end := Some(next);
  }

  // u8id_reorder_s: the text holds the code points cs.  buf may be longer than dmax says; reach is
  // the end of what was written.
  method ReorderBytes(cc: ClassOf, buf: array<Byte>, dmax: nat, src: seq<Byte>, ghost cs: seq<nat>) returns (ok: bool, ghost reach: nat)
    requires IsText(cs) && src == BytesOf(cs) && 0 < dmax <= buf.Length && |src| < buf.Length
    modifies buf
    ensures ok <==> |src| < dmax
    ensures ok ==> buf[..|src| + 1] == BytesOf(Reordered(cc, cs)) + [0]
    ensures reach <= buf.Length && buf[reach..] == old(buf[reach..])
    ensures reach <= dmax <==> !EndingOf(cc, cs, dmax).Overrun?
    ensures !ok && reach > dmax ==> forall i :: 0 <= i < dmax ==> buf[i] == 0
  {
    hide *;
    var p: nat, at: nat, run: seq<Pending> := 0, 0, [];
    ghost var k := 0;
    reach := 0;
    FitsIff(cc, cs, dmax);
    ProgressStarts(cc, cs, dmax);
    NoCodePoints(cs);
    NoneGathered(cc);
    assert buf[..0] == [];
    while p < |src|
      invariant p <= |src| && k <= |cs| && src[p..] == BytesOf(cs[k..]) && IsText(cs[k..]) && at <= |src| && at < dmax
      invariant Gathered(cc, run)
      invariant p == |src| ==> run == []
      invariant Progress(cc, cs, CodePoints(run) + cs[k..], buf[..at], dmax)
      invariant reach <= at + 1 && buf[reach..] == old(buf[reach..])
      decreases |src| - p
    {
      FrontOf(src, p, cs[k..]);
      ghost var rest := cs[k..][1..];
      TextTail(cs[k..]);
      var cp, q := DecUtf8(src, p, cs[k]);
      assert cs[k..] == [cp] + rest && rest == cs[k + 1..];
      p, k := q, k + 1;
      if cc(cp) != 0 {
        OneMore(run, Pending(cc(cp), cp, |run|), rest);
        GatheredOne(cc, run, cp);
        run := run + [Pending(cc(cp), cp, |run|)];
        if p < |src| {
          continue;
        }
        TextEnds(cs[k..]);
      }
      var starter := if cc(cp) == 0 then Some(cp) else None;
      StarterAndRest(starter, rest);
      var end: Option<nat>;
      end, reach := Output(cc, buf, dmax, at, run, starter, cs, rest, old(buf[..]), reach);
      if end.None? {
        return false, reach;
      }
      at := end.value;
      NoCodePoints(rest);
      run := [];
    }
    AllDone(cc, cs, src, p, k, buf[..at], dmax);
    ghost var before, reached := buf[..], reach;
    buf[at] := 0;
    ok, reach := true, at + 1;
    Beyond(old(buf[..]), before, buf[..], reached, reach);
  }

  // Nothing changed behind the later of two ends.
  lemma Beyond(a: seq<Byte>, b: seq<Byte>, c: seq<Byte>, m: nat, n: nat)
    requires |a| == |b| == |c| && m <= n <= |a| && b[m..] == a[m..] && c[n..] == b[n..]
    ensures c[n..] == a[n..]
  {
    assert b[n..] == b[m..][n - m..] && a[n..] == a[m..][n - m..];
  }

  lemma TextTail(cs: seq<nat>)
    requires IsText(cs) && cs != []
    ensures IsText(cs[1..]) && 1 <= cs[0] <= MAX_CODE_POINT
  {
  }

  lemma TextEnds(cs: seq<nat>)
    requires IsText(cs)
    ensures BytesOf(cs) == [] ==> cs == []
  {
    LongEnough(cs);
  }

  lemma AllDone(cc: ClassOf, cs: seq<nat>, src: seq<Byte>, p: nat, k: nat, written: seq<Byte>, dmax: nat)
    requires p == |src| && k <= |cs| && src[p..] == BytesOf(cs[k..]) && IsText(cs[k..]) && src == BytesOf(cs)
    requires Progress(cc, cs, CodePoints([]) + cs[k..], written, dmax)
    ensures written == BytesOf(Reordered(cc, cs)) && |written| == |src| && EndingOf(cc, cs, dmax) == Fits
  {
    TextEnds(cs[k..]);
    NoneReordered(cc);
    assert CodePoints([]) + cs[k..] == [];
    assert written + [] == written;
  }
}
