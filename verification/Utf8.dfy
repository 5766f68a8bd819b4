/**
 The UTF-8 decoder of libuv/src/idna.c, and the encoding of section 3 of RFC 3629 that it undoes.
 */
module Utf8 {
  import opened Options

  type Byte = n: nat | n < 256

  /** Unicode scalar values. */
  predicate Scalar(c: nat) {
    c <= 0x10FFFF && !(0xD800 <= c <= 0xDFFF)
  }

  predicate Scalars(text: seq<nat>) {
    forall i :: 0 <= i < |text| ==> Scalar(text[i])
  }

  // ---------- the decoder ----------

  /** The top two bits of the exclusive or of three bytes are 1 and 0. */
  predicate TopBits(b: Byte, c: Byte, d: Byte) {
    (b / 128 + c / 128 + d / 128) % 2 == 1 && (b / 64 + c / 64 + d / 64) % 2 == 0
  }

  /** The checks at the end of uv__utf8_decode1_slow. */
  function Finish(min: nat, a: nat, b: Byte, c: Byte, d: Byte, used: nat): (r: Option<(nat, nat)>)
    ensures r.Some? ==> Scalar(r.value.0) && r.value.0 >= min && r.value.1 == used
  {
    var v := a * 0x40000 + b % 64 * 0x1000 + c % 64 * 0x40 + d % 64;
    if !TopBits(b, c, d) || v < min || !Scalar(v) then None else Some((v, used))
  }

  /** uv__utf8_decode1: the code point at the head of `s` and the number of its bytes. */
  function Decode1(s: seq<Byte>): (r: Option<(nat, nat)>)
    requires s != []
    ensures r.Some? ==> Scalar(r.value.0) && 1 <= r.value.1 <= |s| && (r.value.0 < 128 <==> r.value.1 == 1)
  {
    var a, left := s[0], |s| - 1;
    if a < 128 then Some((a, 1))
    else if a > 0xF7 then None
    else if left >= 3 && a > 0xEF then Finish(0x10000, a % 8, s[1], s[2], s[3], 4)
    else if left >= 2 && a > 0xDF then Finish(0x800, 0, 0x80 + a % 16, s[1], s[2], 3)
    else if left >= 1 && a > 0xBF then Finish(0x80, 0, 0x80, 0x80 + a % 32, s[1], 2)
    else None
  }

  function DecodeAll(s: seq<Byte>): (r: Option<seq<nat>>)
    ensures r.Some? ==> Scalars(r.value) && |r.value| <= |s| && (r.value == [] <==> s == [])
  {
    if s == [] then Some([])
    else
      var r := Decode1(s);
      if r.None? then None
      else
        var tail := DecodeAll(s[r.value.1..]);
        if tail.None? then None else Some([r.value.0] + tail.value)
  }

  // ---------- section 3 of RFC 3629 ----------

  function Encode(c: nat): (r: seq<Byte>)
    requires Scalar(c)
    ensures 1 <= |r| <= 4
  {
    if c < 0x80 then [c]
    else if c < 0x800 then [0xC0 + c / 0x40, 0x80 + c % 0x40]
    else if c < 0x10000 then [0xE0 + c / 0x1000, 0x80 + c / 0x40 % 0x40, 0x80 + c % 0x40]
    else [0xF0 + c / 0x40000, 0x80 + c / 0x1000 % 0x40, 0x80 + c / 0x40 % 0x40, 0x80 + c % 0x40]
  }

  function EncodeAll(text: seq<nat>): seq<Byte>
    requires Scalars(text)
  {
    if text == [] then [] else Encode(text[0]) + EncodeAll(text[1..])
  }

  /** Characters of the examples in section 7 of RFC 3629. */
  lemma Examples()
    ensures Encode(0x41) == [0x41] && Encode(0x391) == [0xCE, 0x91] && Encode(0x2262) == [0xE2, 0x89, 0xA2]
    ensures Encode(0xD55C) == [0xED, 0x95, 0x9C] && Encode(0xAD6D) == [0xEA, 0xB5, 0xAD]
    ensures Encode(0xC5B4) == [0xEC, 0x96, 0xB4] && Encode(0x233B4) == [0xF0, 0xA3, 0x8E, 0xB4]
  {
  }

  lemma Sextets(c: nat)
    requires c <= 0x10FFFF
    ensures c == c / 0x40000 * 0x40000 + c / 0x1000 % 0x40 * 0x1000 + c / 0x40 % 0x40 * 0x40 + c % 0x40
    ensures c / 0x40000 <= 4
  {
    var c1, c2 := c / 0x40, c / 0x1000;
    assert c2 == c1 / 0x40 && c / 0x40000 == c2 / 0x40;
  }

  lemma Continuation(x: nat)
    requires x < 0x40
    ensures (0x80 + x) % 64 == x && (0x80 + x) / 128 == 1 && (0x80 + x) / 64 == 2
  {
  }

  lemma Decode2(c: nat, s: seq<Byte>)
    requires 0x80 <= c < 0x800 && Encode(c) <= s
    ensures Decode1(s) == Some((c, 2))
  {
    var x, z := c / 0x40, c % 0x40;
    Continuation(z);
    assert s[0] == 0xC0 + x && s[1] == 0x80 + z && (0x80 + s[0] % 32) % 64 == x;
    assert TopBits(0x80, 0x80 + x, s[1]);
  }

  /** Three bytes that carry `x`, `y` and `z` are decoded. */
  lemma Carried3(x: nat, y: nat, z: nat, s: seq<Byte>)
    requires x < 0x10 && y < 0x40 && z < 0x40
    requires var v := x * 0x1000 + y * 0x40 + z; v >= 0x800 && Scalar(v)
    requires |s| >= 3 && s[0] == 0xE0 + x && s[1] == 0x80 + y && s[2] == 0x80 + z
    ensures Decode1(s) == Some((x * 0x1000 + y * 0x40 + z, 3))
  {
    Continuation(x);
    Continuation(y);
    Continuation(z);
    assert s[0] % 16 == x;
    assert Finish(0x800, 0, 0x80 + s[0] % 16, s[1], s[2], 3) == Some((x * 0x1000 + y * 0x40 + z, 3));
  }

  lemma Decode3(c: nat, s: seq<Byte>)
    requires 0x800 <= c < 0x10000 && Scalar(c) && Encode(c) <= s
    ensures Decode1(s) == Some((c, 3))
  {
    var x, y, z := c / 0x1000, c / 0x40 % 0x40, c % 0x40;
    assert x < 0x10 && c == x * 0x1000 + y * 0x40 + z by { Sextets3(c); }
    assert s[0] == 0xE0 + x && s[1] == 0x80 + y && s[2] == 0x80 + z;
    Carried3(x, y, z, s);
  }

  lemma Sextets3(c: nat)
    requires c < 0x10000
    ensures c / 0x1000 < 0x10 && c == c / 0x1000 * 0x1000 + c / 0x40 % 0x40 * 0x40 + c % 0x40
  {
    var c1 := c / 0x40;
    assert c / 0x1000 == c1 / 0x40;
  }

  /** Four bytes that carry `w`, `x`, `y` and `z` are decoded. */
  lemma Carried4(w: nat, x: nat, y: nat, z: nat, s: seq<Byte>)
    requires w <= 4 && x < 0x40 && y < 0x40 && z < 0x40
    requires var v := w * 0x40000 + x * 0x1000 + y * 0x40 + z; v >= 0x10000 && Scalar(v)
    requires |s| >= 4 && s[0] == 0xF0 + w && s[1] == 0x80 + x && s[2] == 0x80 + y && s[3] == 0x80 + z
    ensures Decode1(s) == Some((w * 0x40000 + x * 0x1000 + y * 0x40 + z, 4))
  {
    Continuation(x);
    Continuation(y);
    Continuation(z);
    assert s[0] % 8 == w;
    assert Finish(0x10000, s[0] % 8, s[1], s[2], s[3], 4) == Some((w * 0x40000 + x * 0x1000 + y * 0x40 + z, 4));
  }

  lemma Decode4(c: nat, s: seq<Byte>)
    requires 0x10000 <= c <= 0x10FFFF && Encode(c) <= s
    ensures Decode1(s) == Some((c, 4))
  {
    Sextets(c);
    Carried4(c / 0x40000, c / 0x1000 % 0x40, c / 0x40 % 0x40, c % 0x40, s);
  }

  /** The encoding of a scalar value is decoded to it, whatever follows. */
  lemma DecodeEncode(c: nat, rest: seq<Byte>)
    requires Scalar(c)
    ensures Decode1(Encode(c) + rest) == Some((c, |Encode(c)|))
  {
    if c < 0x80 {
    } else if c < 0x800 {
      Decode2(c, Encode(c) + rest);
    } else if c < 0x10000 {
      Decode3(c, Encode(c) + rest);
    } else {
      Decode4(c, Encode(c) + rest);
    }
  }

  lemma {:induction false} DecodeAllEncode(text: seq<nat>)
    requires Scalars(text)
    ensures DecodeAll(EncodeAll(text)) == Some(text)
  {
    if text != [] {
      var head, tail := Encode(text[0]), EncodeAll(text[1..]);
      DecodeEncode(text[0], tail);
      assert (head + tail)[|head|..] == tail && [text[0]] + text[1..] == text;
      DecodeAllEncode(text[1..]);
    }
  }

  /** A code point is decoded the same when the text is cut anywhere behind it. */
  lemma DecodeCut(s: seq<Byte>, n: nat)
    requires s != [] && n <= |s| && Decode1(s).Some? && Decode1(s).value.1 <= n
    ensures n > 0 && Decode1(s[..n]) == Decode1(s)
  {
  }

  // ---------- how much it checks ----------

  predicate IsContinuation(b: Byte) { 0x80 <= b < 0xC0 }

  /** How many bytes a lead byte asks for. */
  function Demand(a: Byte): nat {
    if a < 0x80 then 1 else if a < 0xE0 then 2 else if a < 0xF0 then 3 else 4
  }

  /** All the bytes the lead byte asks for are there and look like continuation bytes. */
  predicate Framed(s: seq<Byte>) {
    s != [] && Demand(s[0]) <= |s| && forall i :: 1 <= i < Demand(s[0]) ==> IsContinuation(s[i])
  }

  function Value2(a: nat, d: nat): nat { a % 32 * 0x40 + d % 64 }

  function Value3(a: nat, c: nat, d: nat): nat { a % 16 * 0x1000 + c % 64 * 0x40 + d % 64 }

  function Value4(a: nat, b: nat, c: nat, d: nat): nat { a % 8 * 0x40000 + b % 64 * 0x1000 + c % 64 * 0x40 + d % 64 }

  lemma Exact2(a: nat, d: nat)
    requires 0xC0 <= a < 0xE0 && 0x80 <= d < 0xC0
    ensures 0xC0 + Value2(a, d) / 0x40 == a && 0x80 + Value2(a, d) % 0x40 == d
  {
  }

  lemma Exact3(a: nat, c: nat, d: nat)
    requires 0xE0 <= a < 0xF0 && 0x80 <= c < 0xC0 && 0x80 <= d < 0xC0
    ensures var v := Value3(a, c, d); 0xE0 + v / 0x1000 == a && 0x80 + v / 0x40 % 0x40 == c && 0x80 + v % 0x40 == d
  {
    assert Value3(a, c, d) / 0x40 == a % 16 * 0x40 + c % 64;
  }

  lemma Exact4(a: nat, b: nat, c: nat, d: nat)
    requires 0xF0 <= a < 0xF8 && 0x80 <= b < 0xC0 && 0x80 <= c < 0xC0 && 0x80 <= d < 0xC0
    ensures var v := Value4(a, b, c, d);
      && 0xF0 + v / 0x40000 == a && 0x80 + v / 0x1000 % 0x40 == b
      && 0x80 + v / 0x40 % 0x40 == c && 0x80 + v % 0x40 == d
  {
    assert Value4(a, b, c, d) / 0x40 == a % 8 * 0x1000 + b % 64 * 0x40 + c % 64;
    assert Value4(a, b, c, d) / 0x1000 == a % 8 * 0x40 + b % 64;
  }

  lemma Framed2(s: seq<Byte>)
    requires Framed(s) && Decode1(s).Some? && 0x80 <= s[0] < 0xE0
    ensures Decode1(s) == Some((Value2(s[0], s[1]), 2)) && 0xC0 <= s[0] && 0x80 <= Value2(s[0], s[1]) < 0x800
  {
  }

  lemma Framed3(s: seq<Byte>)
    requires Framed(s) && Decode1(s).Some? && 0xE0 <= s[0] < 0xF0
    ensures Decode1(s) == Some((Value3(s[0], s[1], s[2]), 3)) && 0x800 <= Value3(s[0], s[1], s[2]) < 0x10000
  {
    var b: Byte := 0x80 + s[0] % 16;
    assert b % 64 == s[0] % 16;
    assert Decode1(s) == Finish(0x800, 0, b, s[1], s[2], 3);
  }

  lemma Framed4(s: seq<Byte>)
    requires Framed(s) && Decode1(s).Some? && 0xF0 <= s[0]
    ensures Decode1(s) == Some((Value4(s[0], s[1], s[2], s[3]), 4))
    ensures s[0] < 0xF8 && Value4(s[0], s[1], s[2], s[3]) >= 0x10000
  {
  }

  lemma Encode3(a: Byte, c: Byte, d: Byte)
    requires 0xE0 <= a < 0xF0 && 0x80 <= c < 0xC0 && 0x80 <= d < 0xC0
    requires 0x800 <= Value3(a, c, d) < 0x10000 && Scalar(Value3(a, c, d))
    ensures Encode(Value3(a, c, d)) == [a, c, d]
  {
    Exact3(a, c, d);
    Three(Value3(a, c, d), a, c, d);
  }

  lemma Three(v: nat, a: Byte, c: Byte, d: Byte)
    requires 0x800 <= v < 0x10000 && Scalar(v)
    requires 0xE0 + v / 0x1000 == a && 0x80 + v / 0x40 % 0x40 == c && 0x80 + v % 0x40 == d
    ensures Encode(v) == [a, c, d]
  {
  }

  lemma Encode4(a: Byte, b: Byte, c: Byte, d: Byte)
    requires 0xF0 <= a < 0xF8 && 0x80 <= b < 0xC0 && 0x80 <= c < 0xC0 && 0x80 <= d < 0xC0
    requires 0x10000 <= Value4(a, b, c, d) && Scalar(Value4(a, b, c, d))
    ensures Encode(Value4(a, b, c, d)) == [a, b, c, d]
  {
    Exact4(a, b, c, d);
    Four(Value4(a, b, c, d), a, b, c, d);
  }

  lemma Four(v: nat, a: Byte, b: Byte, c: Byte, d: Byte)
    requires 0x10000 <= v && Scalar(v)
    requires 0xF0 + v / 0x40000 == a && 0x80 + v / 0x1000 % 0x40 == b && 0x80 + v / 0x40 % 0x40 == c &&
             0x80 + v % 0x40 == d
    ensures Encode(v) == [a, b, c, d]
  {
  }

  /** On framed input the decoder accepts nothing but the encoding of what it returns. */
  lemma DecodeExact(s: seq<Byte>)
    requires Framed(s) && Decode1(s).Some?
    ensures s[..Decode1(s).value.1] == Encode(Decode1(s).value.0)
  {
    if s[0] < 0x80 {
      assert Encode(s[0]) == [s[0]];
    } else if s[0] < 0xE0 {
      Framed2(s);
      Exact2(s[0], s[1]);
      assert Encode(Value2(s[0], s[1])) == [s[0], s[1]];
    } else if s[0] < 0xF0 {
      Framed3(s);
      Encode3(s[0], s[1], s[2]);
    } else {
      Framed4(s);
      Encode4(s[0], s[1], s[2], s[3]);
    }
  }

  lemma EncodeFramed(c: nat, s: seq<Byte>)
    requires Scalar(c) && Encode(c) <= s
    ensures Framed(s)
  {
    var e := Encode(c);
    assert Demand(e[0]) == |e| && forall i :: 1 <= i < |e| ==> IsContinuation(e[i]);
    assert forall i :: 0 <= i < |e| ==> e[i] == s[i];
  }

  /** When the decoder accepts a code point it has read its encoding exactly if all bytes that the lead byte
      asks for are there and look like continuation bytes. */
  lemma AcceptsExactly(s: seq<Byte>)
    requires s != [] && Decode1(s).Some?
    ensures var (c, k) := Decode1(s).value; s[..k] == Encode(c) <==> Framed(s)
  {
    var (c, k) := Decode1(s).value;
    if Framed(s) { DecodeExact(s); }
    if s[..k] == Encode(c) { EncodeFramed(c, s); }
  }

  /** A lead byte with one byte to go with it, because it asks for no more or because no more are left: the
      second byte must look like a continuation byte, and the lead byte carries its low five bits. */
  lemma DecodeTwo(s: seq<Byte>)
    requires |s| >= 2 && (0xC0 <= s[0] < 0xE0 || (|s| == 2 && 0xC0 <= s[0] <= 0xF7))
    ensures Decode1(s) == if IsContinuation(s[1]) && s[0] % 32 >= 2 then Some((Value2(s[0], s[1]), 2)) else None
  {
    var c: Byte := 0x80 + s[0] % 32;
    assert c / 128 == 1 && c / 64 == 2 && c % 64 == s[0] % 32;
    HighBits(s[1]);
    assert TopBits(0x80, c, s[1]) <==> IsContinuation(s[1]);
  }

  /** A lead byte with two bytes to go with it: they need only agree in their top bits. */
  lemma DecodeThree(s: seq<Byte>)
    requires |s| >= 3 && (0xE0 <= s[0] <= 0xEF || (|s| == 3 && 0xF0 <= s[0] <= 0xF7))
    ensures var v := Value3(s[0], s[1], s[2]);
      Decode1(s) == if s[1] / 64 == s[2] / 64 && v >= 0x800 && Scalar(v) then Some((v, 3)) else None
  {
    var b: Byte := 0x80 + s[0] % 16;
    assert b / 128 == 1 && b / 64 == 2 && b % 64 == s[0] % 16;
    assert TopBits(b, s[1], s[2]) <==> s[1] / 64 == s[2] / 64 by {
      HighBits(s[1]);
      HighBits(s[2]);
    }
  }

  /** A lead byte with three bytes to go with it: only the exclusive or of their top bits is looked at. */
  lemma DecodeFour(s: seq<Byte>)
    requires |s| >= 4 && 0xF0 <= s[0] <= 0xF7
    ensures var v := Value4(s[0], s[1], s[2], s[3]);
      Decode1(s) == if TopBits(s[1], s[2], s[3]) && v >= 0x10000 && Scalar(v) then Some((v, 4)) else None
  {
    FinishFour(s[0], s[1], s[2], s[3]);
    assert Decode1(s) == Finish(0x10000, s[0] % 8, s[1], s[2], s[3], 4);
  }

  lemma FinishFour(a: Byte, b: Byte, c: Byte, d: Byte)
    ensures var v := Value4(a, b, c, d);
      Finish(0x10000, a % 8, b, c, d, 4) == if TopBits(b, c, d) && v >= 0x10000 && Scalar(v) then Some((v, 4)) else None
  {
  }

  /** Nothing else but ASCII is accepted. */
  lemma DecodeNone(s: seq<Byte>)
    requires s != [] && (0x80 <= s[0] < 0xC0 || s[0] > 0xF7 || (|s| == 1 && s[0] >= 0x80))
    ensures Decode1(s) == None
  {
    if |s| >= 2 { assert !(s[0] > 0xBF && s[0] <= 0xF7); }
  }

  /** So some malformed input is accepted: a sequence cut short, and bytes with stray top bits. */
  lemma DecodeLax()
    ensures Decode1([0xE2, 0x82]) == Some((0x82, 2)) && !Framed([0xE2, 0x82])
    ensures Decode1([0xE2, 0x42, 0x42]) == Some((0x2082, 3)) && !Framed([0xE2, 0x42, 0x42])
    ensures Decode1([0xF1, 0xC0, 0xC0, 0x80]) == Some((0x40000, 4)) && !Framed([0xF1, 0xC0, 0xC0, 0x80])
  {
    LaxTwo([0xE2, 0x82]);
    LaxThree([0xE2, 0x42, 0x42]);
    LaxFour([0xF1, 0xC0, 0xC0, 0x80]);
  }

  lemma LaxTwo(s: seq<Byte>)
    requires |s| == 2 && s[0] == 0xE2 && s[1] == 0x82
    ensures Decode1(s) == Some((0x82, 2)) && !Framed(s)
  {
    DecodeTwo(s);
    assert Value2(s[0], s[1]) == 0x82;
  }

  lemma LaxThree(s: seq<Byte>)
    requires |s| == 3 && s[0] == 0xE2 && s[1] == 0x42 && s[2] == 0x42
    ensures Decode1(s) == Some((0x2082, 3)) && !Framed(s)
  {
    DecodeThree(s);
    assert Value3(s[0], s[1], s[2]) == 0x2082 && !IsContinuation(s[1]);
  }

  lemma LaxFour(s: seq<Byte>)
    requires |s| == 4 && s[0] == 0xF1 && s[1] == 0xC0 && s[2] == 0xC0 && s[3] == 0x80
    ensures Decode1(s) == Some((0x40000, 4)) && !Framed(s)
  {
    DecodeFour(s);
    assert TopBits(s[1], s[2], s[3]) && Value4(s[0], s[1], s[2], s[3]) == 0x40000 && !IsContinuation(s[1]);
  }

  lemma HighBits(b: Byte)
    ensures b / 64 == b / 128 * 2 + b / 64 % 2 && b / 128 < 2 && b / 64 < 4
  {
  }
}
