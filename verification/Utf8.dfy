/** UTF-8 (section 3 of RFC 3629) as the compiler encodes and decodes it. */
module Utf8 {
  import opened Options

  type Byte = b: int | 0 <= b < 256
  type U32 = c: int | 0 <= c < 0x1_0000_0000

  // encode_utf8: four bytes hold 21 bits; anything above is cut off.
  function Encode(c: U32): (e: seq<Byte>)
    ensures 1 <= |e| <= 4
  {
    if c <= 0x7f then [c]
    else if c <= 0x7ff then [0xc0 + c / 0x40, 0x80 + c % 0x40]
    else if c <= 0xffff then [0xe0 + c / 0x1000, 0x80 + c / 0x40 % 0x40, 0x80 + c % 0x40]
    else [OrTop(c / 0x4_0000), 0x80 + c / 0x1000 % 0x40, 0x80 + c / 0x40 % 0x40, 0x80 + c % 0x40]
  }

  // (0xf0 | x) stored in a byte.
  function OrTop(x: nat): Byte { 0xf0 + x % 0x10 }

  datatype Decoded = Decoded(c: nat, len: nat)

  predicate Continuation(b: Byte) { b / 0x40 == 2 }

  // How many bytes a first byte announces; none for a stray continuation byte.
  function Announced(b: Byte): nat {
    if b < 0x80 then 1 else if b >= 0xf0 then 4 else if b >= 0xe0 then 3 else if b >= 0xc0 then 2 else 0
  }

  // The payload of a first byte.
  function FirstBits(b: Byte): nat {
    if b < 0x80 then b else if b >= 0xf0 then b % 8 else if b >= 0xe0 then b % 0x10 else b % 0x20
  }

  function Accumulate(c: nat, bs: seq<Byte>): Option<nat>
    decreases |bs|
  {
    if bs == [] then Some(c)
    else if !Continuation(bs[0]) then None
    else Accumulate(c * 0x40 + bs[0] % 0x40, bs[1..])
  }

  // decode_utf8 at the front of s; None where it reports an error or runs past the text.
  function Decode(s: seq<Byte>): (r: Option<Decoded>)
    ensures r.Some? ==> 1 <= r.value.len <= |s|
  {
    if s == [] || Announced(s[0]) == 0 || Announced(s[0]) > |s| then None
    else
      match Accumulate(FirstBits(s[0]), s[1..Announced(s[0])])
      case Some(c) => Some(Decoded(c, Announced(s[0])))
      case None => None
  }

  function EncodeAll(cs: seq<U32>): seq<Byte> {
    if cs == [] then [] else Encode(cs[0]) + EncodeAll(cs[1..])
  }

  function DecodeAll(s: seq<Byte>): Option<seq<nat>>
    decreases |s|
  {
    if s == [] then Some([])
    else
      match Decode(s)
      case None => None
      case Some(d) =>
        (match DecodeAll(s[d.len..])
         case Some(cs) => Some([d.c] + cs)
         case None => None)
  }

  // ----- what is accepted -----

  predicate Follows(b: Byte) { 0x80 <= b < 0xc0 }

  // A first byte decides how many bytes there are, and none of the bytes 0x80 to 0xbf is one; the
  // others must be of these.  Nothing else is asked: overlong forms and surrogates pass.
  lemma AcceptedIff(s: seq<Byte>)
    requires s != []
    ensures var n := if s[0] < 0x80 then 1 else if s[0] < 0xc0 then 0 else if s[0] < 0xe0 then 2 else if s[0] < 0xf0 then 3 else 4;
      && (Decode(s).Some? <==> 0 < n <= |s| && forall i :: 1 <= i < n ==> Follows(s[i]))
      && (Decode(s).Some? ==> Decode(s).value.len == n)
  {
    var n := Announced(s[0]);
    if 0 < n <= |s| {
      AccumulateIff(FirstBits(s[0]), s[1..n]);
      assert forall i :: 1 <= i < n ==> s[i] == s[1..n][i - 1];
      assert forall i :: 0 <= i < n - 1 ==> s[1..n][i] == s[i + 1];
    }
  }

  lemma {:induction false} AccumulateIff(c: nat, bs: seq<Byte>)
    ensures Accumulate(c, bs).Some? <==> forall i :: 0 <= i < |bs| ==> Follows(bs[i])
    decreases |bs|
  {
    if bs != [] {
      AccumulateIff(c * 0x40 + bs[0] % 0x40, bs[1..]);
      assert Continuation(bs[0]) <==> Follows(bs[0]);
      assert forall i :: 1 <= i < |bs| ==> bs[i] == bs[1..][i - 1];
      assert forall i :: 0 <= i < |bs| - 1 ==> bs[1..][i] == bs[i + 1];
    }
  }

  // ----- one code point -----

  lemma Continue1(c: nat, b: Byte)
    requires Continuation(b)
    ensures Accumulate(c, [b]) == Some(c * 0x40 + b % 0x40)
  {
    assert [b][1..] == [];
  }

  lemma Continue2(c: nat, a: Byte, b: Byte)
    requires Continuation(a) && Continuation(b)
    ensures Accumulate(c, [a, b]) == Some((c * 0x40 + a % 0x40) * 0x40 + b % 0x40)
  {
    assert [a, b][1..] == [b];
    Continue1(c * 0x40 + a % 0x40, b);
  }

  lemma Continue3(c: nat, a: Byte, b: Byte, d: Byte)
    requires Continuation(a) && Continuation(b) && Continuation(d)
    ensures Accumulate(c, [a, b, d]) == Some(((c * 0x40 + a % 0x40) * 0x40 + b % 0x40) * 0x40 + d % 0x40)
  {
    assert [a, b, d][1..] == [b, d];
    Continue2(c * 0x40 + a % 0x40, b, d);
  }

  // The six-bit pieces put together again.
  lemma Pieces2(c: nat)
    ensures c / 0x40 * 0x40 + c % 0x40 == c
    ensures c / 0x40 / 0x40 == c / 0x1000
  {
  }

  lemma Pieces3(c: nat)
    ensures (c / 0x1000 * 0x40 + c / 0x40 % 0x40) * 0x40 + c % 0x40 == c
  {
    Pieces2(c / 0x40);
    Pieces2(c);
  }

  lemma Low21(c: nat, q: nat, r: nat)
    requires c == q * 0x20_0000 + r && r < 0x20_0000
    ensures c % 0x20_0000 == r
  {
  }

  lemma Low9(a: nat)
    ensures a / 0x40 % 8 * 0x40 + a % 0x40 == a % 0x200
  {
  }

  lemma TopByte(x: nat)
    ensures OrTop(x) % 8 == x % 8
  {
  }

  lemma TopBits(c: U32)
    ensures (OrTop(c / 0x4_0000) % 8 * 0x40 + c / 0x1000 % 0x40) * 0x1000 + c / 0x40 % 0x40 * 0x40 + c % 0x40 == c % 0x20_0000
  {
    var a, b, d := c / 0x1000, c / 0x40 % 0x40, c % 0x40;
    TopByte(c / 0x4_0000);
    assert a / 0x40 == c / 0x4_0000;
    Low9(a);
    Pieces3(c);
    var q, r := a / 0x200, a % 0x200;
    assert a == q * 0x200 + r;
    Low21(c, q, r * 0x1000 + b * 0x40 + d);
  }

  lemma Decode2(c: U32, rest: seq<Byte>)
    requires 0x7f < c <= 0x7ff
    ensures Decode(Encode(c) + rest) == Some(Decoded(c, 2))
  {
    var e := Encode(c);
    assert (e + rest)[1..2] == [e[1]];
    Continue1(FirstBits(e[0]), e[1]);
  }

  lemma Decode3(c: U32, rest: seq<Byte>)
    requires 0x7ff < c <= 0xffff
    ensures Decode(Encode(c) + rest) == Some(Decoded(c, 3))
  {
    var e := Encode(c);
    assert (e + rest)[1..3] == [e[1], e[2]];
    Continue2(FirstBits(e[0]), e[1], e[2]);
    Pieces3(c);
  }

  lemma Decode4(c: U32, rest: seq<Byte>)
    requires c > 0xffff
    ensures Decode(Encode(c) + rest) == Some(Decoded(c % 0x20_0000, 4))
  {
    hide Accumulate;
    var e := Encode(c);
    assert (e + rest)[1..4] == [e[1], e[2], e[3]];
    Continue3(FirstBits(e[0]), e[1], e[2], e[3]);
    TopBits(c);
  }

  // Whatever follows, decoding reads back the 21 low bits of what was encoded and consumes
  // exactly its bytes.
  lemma DecodeEncoded(c: U32, rest: seq<Byte>)
    ensures Decode(Encode(c) + rest) == Some(Decoded(if c <= 0xffff then c else c % 0x20_0000, |Encode(c)|))
  {
    hide Accumulate;
    if c <= 0x7f {
      Decode1(c, rest);
    } else if c <= 0x7ff {
      Decode2(c, rest);
    } else if c <= 0xffff {
      Decode3(c, rest);
    } else {
      Decode4(c, rest);
    }
  }

  lemma Decode1(c: U32, rest: seq<Byte>)
    requires c <= 0x7f
    ensures Decode(Encode(c) + rest) == Some(Decoded(c, 1))
  {
    assert (Encode(c) + rest)[1..1] == [];
  }

  // A code point survives exactly if it has at most 21 bits; every Unicode code point does.
  lemma RoundTripIff(c: U32, rest: seq<Byte>)
    ensures Decode(Encode(c) + rest) == Some(Decoded(c, |Encode(c)|)) <==> c < 0x20_0000
  {
    DecodeEncoded(c, rest);
  }

  // ----- sequences -----

  lemma {:induction false} RoundTrip(cs: seq<U32>)
    requires forall i :: 0 <= i < |cs| ==> cs[i] <= 0x10_ffff
    ensures DecodeAll(EncodeAll(cs)) == Some(cs)
    decreases |cs|
  {
    if cs != [] {
      var e, rest := Encode(cs[0]), EncodeAll(cs[1..]);
      RoundTripIff(cs[0], rest);
      assert (e + rest)[|e|..] == rest;
      RoundTrip(cs[1..]);
      assert [cs[0]] + cs[1..] == cs;
    }
  }

  // The code is prefix-free: the text of a sequence determines the sequence.
  lemma EncodeInjective(a: seq<U32>, b: seq<U32>)
    requires forall i :: 0 <= i < |a| ==> a[i] <= 0x10_ffff
    requires forall i :: 0 <= i < |b| ==> b[i] <= 0x10_ffff
    requires EncodeAll(a) == EncodeAll(b)
    ensures a == b
  {
    RoundTrip(a);
    RoundTrip(b);
  }

  // ----- the functions as they run -----

  // encode_utf8 into a buffer at position at.
  method EncodeInto(buf: array<Byte>, at: nat, c: U32) returns (n: nat)
    requires at + |Encode(c)| <= buf.Length
    modifies buf
    ensures n == |Encode(c)| && buf[at..at + n] == Encode(c)
    ensures buf[..at] == old(buf[..at]) && buf[at + n..] == old(buf[at + n..])
  {
    if c <= 0x7f {
      buf[at] := c;
      return 1;
    }
    if c <= 0x7ff {
      buf[at] := 0xc0 + c / 0x40;
      buf[at + 1] := 0x80 + c % 0x40;
      return 2;
    }
    if c <= 0xffff {
      buf[at] := 0xe0 + c / 0x1000;
      buf[at + 1] := 0x80 + c / 0x40 % 0x40;
      buf[at + 2] := 0x80 + c % 0x40;
      return 3;
    }
    buf[at] := OrTop(c / 0x4_0000);
    buf[at + 1] := 0x80 + c / 0x1000 % 0x40;
    buf[at + 2] := 0x80 + c / 0x40 % 0x40;
    buf[at + 3] := 0x80 + c % 0x40;
    n := 4;
  }

  // decode_utf8 at the front of the text: the code point and its length.
  method DecodeFront(s: seq<Byte>) returns (ok: bool, c: nat, len: nat)
    requires s != []
    ensures Decode(s) == if ok then Some(Decoded(c, len)) else None
  {
    ok, c, len := true, 0, 0;
    if s[0] < 128 {
      assert s[1..1] == [];
      return true, s[0], 1;
    }
    if s[0] >= 0xf0 {
      len, c := 4, s[0] % 8;
    } else if s[0] >= 0xe0 {
      len, c := 3, s[0] % 0x10;
    } else if s[0] >= 0xc0 {
      len, c := 2, s[0] % 0x20;
    } else {
      return false, 0, 0;
    }
    if len > |s| {
      return false, 0, 0;
    }
    ok, c := Continue(c, s[1..len]);
  }

  method Continue(first: nat, body: seq<Byte>) returns (ok: bool, c: nat)
    ensures Accumulate(first, body) == if ok then Some(c) else None
  {
    c := first;
    assert body[0..] == body;
    for i := 0 to |body|
      invariant Accumulate(first, body) == Accumulate(c, body[i..])
    {
      assert body[i..][1..] == body[i + 1..];
      if body[i] / 0x40 != 2 {
        return false, 0;
      }
      c := c * 0x40 + body[i] % 0x40;
    }
    ok := true;
  }

  // Decoding a whole text, one code point after the other.
  method DecodeText(s: seq<Byte>) returns (ok: bool, cs: seq<nat>)
    ensures DecodeAll(s) == if ok then Some(cs) else None
  {
    hide Decode;
    cs := [];
    var p := 0;
    assert s[0..] == s;
    if DecodeAll(s).Some? {
      assert [] + DecodeAll(s).value == DecodeAll(s).value;
    }
    while p < |s|
      invariant p <= |s|
      invariant DecodeAll(s) == (match DecodeAll(s[p..]) case Some(r) => Some(cs + r) case None => None)
    {
      var rest := s[p..];
      var good, c, len := DecodeFront(rest);
      if !good {
        return false, [];
      }
      assert rest[len..] == s[p + len..];
      ghost var before := cs;
      cs := cs + [c];
      if DecodeAll(s[p + len..]).Some? {
        assert before + ([c] + DecodeAll(s[p + len..]).value) == cs + DecodeAll(s[p + len..]).value;
      }
      p := p + len;
    }
    assert cs + [] == cs;
    ok := true;
  }
}
