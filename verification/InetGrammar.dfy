/**
 The grammar of internet addresses as text, written apart from the code that reads and prints them: inet_pton4 and
 inet_pton6 accept exactly these texts, and inet_ntop6 prints the canonical one among them.
 */
module InetGrammar {
  import opened Basics
  import opened Options
  import opened InetText

  // ---------- numbers ----------

  /** The character is the digit `v`; a canonical one is small. */
  predicate HexChar(c: Char, v: nat, canon: bool) {
    if v < 10 then c == '0' as nat + v
    else v < 16 && (c == 'a' as nat + (v - 10) || (!canon && c == 'A' as nat + (v - 10)))
  }

  /** The text is `n` in hexadecimal: the last digit is its remainder by 16. */
  predicate IsHex(t: Text, n: nat, canon: bool) {
    t != [] && HexChar(t[|t| - 1], n % 16, canon) &&
    if |t| == 1 then n < 16 else IsHex(t[..|t| - 1], n / 16, canon)
  }

  /** One to four digits.  A canonical group has no leading zeros. */
  predicate Group(t: Text, w: nat, canon: bool) {
    1 <= |t| <= 4 && IsHex(t, w, canon) && (canon && |t| > 1 ==> t[0] != '0' as nat)
  }

  predicate IsDecimal(t: Text, n: nat) {
    t != [] && t[|t| - 1] == '0' as nat + n % 10 &&
    if |t| == 1 then n < 10 else IsDecimal(t[..|t| - 1], n / 10)
  }

  /** A decimal number without leading zeros. */
  predicate Octet(t: Text, n: Byte) {
    IsDecimal(t, n) && (|t| > 1 ==> t[0] != '0' as nat)
  }

  // ---------- addresses ----------

  /** Where the first `c` is, or the length of the text if there is none. */
  function Cut(t: Text, c: nat): (i: nat)
    ensures i <= |t|
  {
    if t == [] || t[0] == c then 0 else 1 + Cut(t[1..], c)
  }

  /** Octets with dots between them. */
  predicate Octets(t: Text, b: seq<Byte>)
    decreases |b|
  {
    if b == [] then false
    else if |b| == 1 then Octet(t, b[0])
    else
      var i := Cut(t, '.' as nat);
      i < |t| && Octet(t[..i], b[0]) && Octets(t[i + 1..], b[1..])
  }

  predicate Address4(t: Text, b: seq<Byte>) { |b| == 4 && Octets(t, b) }

  /** Whether the last four bytes are written as an IPv4 address. */
  datatype Quad = Never | MayBe | Always

  /** Two bytes, the first being the more significant one. */
  function Big(hi: nat, lo: nat): nat { 256 * hi + lo }

  /** A list of groups with colons between them, the last two of which may be an IPv4 address; no groups at all are the
      empty text. */
  predicate Part(t: Text, b: seq<Byte>, quad: Quad, canon: bool)
    decreases |b|
  {
    if b == [] then t == [] && quad != Always
    else if |b| == 2 then quad != Always && Group(t, Big(b[0], b[1]), canon)
    else if quad != Never && Address4(t, b) then true
    else
      var i := Cut(t, ':' as nat);
      First(t, b, i, canon) && Part(t[i + 1..], b[2..], quad, canon)
  }

  /** The first group and the colon behind it, at `i`. */
  predicate First(t: Text, b: seq<Byte>, i: nat, canon: bool) {
    i < |t| && |b| >= 2 && t[i] == ':' as nat && Group(t[..i], Big(b[0], b[1]), canon)
  }

  /** The address begins with `x`, ends with `y` and has zeros between them, one group of them at least. */
  predicate Fills(b: seq<Byte>, x: seq<Byte>, y: seq<Byte>) {
    && |b| == 16 && |x| + |y| <= 14
    && b[..|x|] == x && b[16 - |y|..] == y && forall j :: |x| <= j < 16 - |y| ==> b[j] == 0
  }

  /** Two lists of groups with "::" between them. */
  predicate Gapped(t: Text, b: seq<Byte>, left: Text, right: Text, x: seq<Byte>, y: seq<Byte>, quad: Quad, canon: bool)
  {
    && t == left + [':' as nat] + [':' as nat] + right && Fills(b, x, y)
    && Part(left, x, Never, canon) && Part(right, y, quad, canon)
  }

  /** The texts for an IPv6 address. */
  ghost predicate Address6(t: Text, b: seq<Byte>) {
    || (|b| == 16 && Part(t, b, MayBe, false))
    || exists left, right, x, y :: Gapped(t, b, left, right, x, y, MayBe, false)
  }

  // ---------- inet_pton4 ----------

  lemma {:induction false} DecIs(n: nat)
    ensures IsDecimal(Dec(n), n) && (n > 0 ==> Dec(n)[0] != '0' as nat) && (n < 10 <==> |Dec(n)| == 1)
    decreases n
  {
    if n >= 10 {
      DecIs(n / 10);
      assert Dec(n)[..|Dec(n)| - 1] == Dec(n / 10);
    }
  }

  lemma {:induction false} IsDec0(t: Text, n: nat)
    requires IsDecimal(t, n) && (|t| > 1 ==> t[0] != '0' as nat)
    ensures t == Dec(n)
    decreases |t|
  {
    var front := t[..|t| - 1];
    assert t == front + [t[|t| - 1]];
    if |t| == 1 {
    } else {
      assert front[0] == t[0];
      IsDec0(front, n / 10);
    }
  }

  lemma OctetExact(t: Text, n: Byte)
    ensures Octet(t, n) <==> t == Dec(n)
  {
    DecIs(n);
    if Octet(t, n) { IsDec0(t, n); }
  }

  /** The texts of inet_pton4 are four numbers with dots between them. */
  lemma Parse4Exact(t: Text, b: seq<Byte>)
    requires |b| == 4
    ensures Parse4(t) == Some(b) <==> Address4(t, b)
  {
    Exact4(t, b);
    DottedAll(b);
    OctetsAre(t, b);
  }

  /** Octets with dots between them, from the front. */
  function Written(b: seq<Byte>): Text
    requires b != []
  {
    if |b| == 1 then Dec(b[0]) else Dec(b[0]) + [DOT] + Written(b[1..])
  }

  lemma {:induction false} DottedFirst(b: seq<Byte>)
    requires b != []
    ensures Dotted(b) == Dec(b[0]) + [DOT] + Dotted(b[1..])
  {
    var n := |b| - 1;
    if n > 0 {
      DottedFirst(b[..n]);
      assert b[..n][1..] == b[1..][..n - 1];
      Assoc(Dec(b[0]) + [DOT], Dotted(b[1..][..n - 1]), Dec(b[n]));
      Assoc(Dec(b[0]) + [DOT], Dotted(b[1..][..n - 1]) + Dec(b[n]), [DOT]);
    }
  }

  lemma {:induction false} DottedAll(b: seq<Byte>)
    requires b != []
    ensures Dotted(b[..|b| - 1]) + Dec(b[|b| - 1]) == Written(b)
  {
    var n := |b| - 1;
    if n > 0 {
      DottedAll(b[1..]);
      DottedFirst(b[..n]);
      assert b[..n][1..] == b[1..][..n - 1];
      Assoc(Dec(b[0]) + [DOT], Dotted(b[1..][..n - 1]), Dec(b[n]));
    }
  }

  lemma {:induction false} OctetsAre(t: Text, b: seq<Byte>)
    requires b != []
    ensures Octets(t, b) <==> t == Written(b)
    decreases |b|
  {
    OctetExact(t, b[0]);
    if |b| > 1 {
      if Octets(t, b) {
        var i := Cut(t, DOT);
        CutFirst(t, DOT);
        OctetsAre(t[i + 1..], b[1..]);
        OctetsWritten(t, b, i);
      }
      OctetsAre(Written(b[1..]), b[1..]);
      WrittenOctets(b);
    }
  }

  lemma OctetsWritten(t: Text, b: seq<Byte>, i: nat)
    requires i < |t| && |b| > 1 && t[i] == DOT && Octet(t[..i], b[0]) && t[i + 1..] == Written(b[1..])
    ensures t == Written(b)
  {
    OctetExact(t[..i], b[0]);
    assert t == t[..i] + [t[i]] + t[i + 1..];
  }

  lemma WrittenOctets(b: seq<Byte>)
    requires |b| > 1 && Octets(Written(b[1..]), b[1..])
    ensures Octets(Written(b), b)
  {
    var n := Dec(b[0]);
    Pieces(n, DOT, Written(b[1..]));
    OctetExact(n, b[0]);
    DecDigits(b[0]);
    CutAt(Written(b), |n|, DOT);
    OctetsStep(Written(b), b, |n|);
  }

  lemma OctetsStep(t: Text, b: seq<Byte>, i: nat)
    requires |b| > 1 && i == Cut(t, DOT) < |t| && Octet(t[..i], b[0]) && Octets(t[i + 1..], b[1..])
    ensures Octets(t, b)
  {
  }

  lemma Pieces(a: Text, c: Char, r: Text)
    ensures var t := a + [c] + r; t[..|a|] == a && t[|a|] == c && t[|a| + 1..] == r
  {
  }

  lemma CutAt(t: Text, i: nat, c: nat)
    requires i < |t| && t[i] == c && forall j :: 0 <= j < i ==> t[..i][j] != c
    ensures Cut(t, c) == i
  {
    assert forall j :: 0 <= j < i ==> t[j] == t[..i][j];
    CutFirst(t, c);
  }

  /** The first `c` is there, and none is in front of it. */
  lemma {:induction false} CutFirst(t: Text, c: nat)
    ensures var i := Cut(t, c); (i < |t| ==> t[i] == c) && forall j :: 0 <= j < i ==> t[j] != c
  {
    if t != [] && t[0] != c { CutFirst(t[1..], c); }
  }

  lemma {:induction false} HexNoColons(t: Text, n: nat, canon: bool)
    requires IsHex(t, n, canon)
    ensures forall j :: 0 <= j < |t| ==> t[j] != COLON
    decreases |t|
  {
    if |t| > 1 { HexNoColons(t[..|t| - 1], n / 16, canon); }
  }

  /** The colon behind the first group is the first colon. */
  lemma FirstIsFirst(t: Text, b: seq<Byte>, i: nat, canon: bool)
    requires First(t, b, i, canon)
    ensures Cut(t, COLON) == i
  {
    HexNoColons(t[..i], Big(b[0], b[1]), canon);
    CutAt(t, i, COLON);
  }

  // ---------- inet_pton6 reads every such text ----------

  lemma HexCharValue(c: Char, v: nat)
    ensures HexChar(c, v, false) <==> HexValue(c) == Some(v)
  {
  }

  lemma HexCharCanon(c: Char, v: nat, canon: bool)
    requires HexChar(c, v, canon)
    ensures HexChar(c, v, false)
  {
  }

  /** Digits become their value. */
  lemma {:induction false} ReadDigits(g: Groups, tok: Text, t: Text, w: nat, rest: Text, canon: bool)
    requires Sane(g) && g.seen == 0 && g.val == 0 && |t| <= 4 && IsHex(t, w, canon)
    ensures Loop6(g, tok, t + rest) == Loop6(g.(seen := |t|, val := w), tok, rest)
    decreases |t|
  {
    var k := |t| - 1;
    HexCharCanon(t[k], w % 16, canon);
    HexCharValue(t[k], w % 16);
    if k == 0 {
      assert (t + rest)[1..] == rest;
    } else {
      assert t[..k] + ([t[k]] + rest) == t + rest;
      ReadDigits(g, tok, t[..k], w / 16, [t[k]] + rest, canon);
      assert ([t[k]] + rest)[1..] == rest;
    }
  }

  lemma PairBig(hi: Byte, lo: Byte)
    ensures Pair(Big(hi, lo)) == [hi, lo]
  {
    var w := Big(hi, lo);
    assert w / 256 == hi && w % 256 == lo;
  }

  /** A group and the colon behind it. */
  lemma ReadFirst(out: seq<Byte>, colon: Option<nat>, t: Text, b: seq<Byte>, i: nat, canon: bool)
    requires Sane(Groups(out, colon, 0, 0)) && |out| + 2 <= 16 && First(t, b, i, canon) && t[i + 1..] != []
    ensures Loop6(Groups(out, colon, 0, 0), t, t) == Loop6(Groups(out + b[..2], colon, 0, 0), t[i + 1..], t[i + 1..])
  {
    var w := Big(b[0], b[1]);
    assert t == t[..i] + ([COLON] + t[i + 1..]);
    ReadDigits(Groups(out, colon, 0, 0), t, t[..i], w, [COLON] + t[i + 1..], canon);
    ReadColon(Groups(out, colon, i, w), t, t[i + 1..]);
    PairBig(b[0], b[1]);
    assert b[..2] == [b[0], b[1]];
  }

  lemma PartNonempty(t: Text, b: seq<Byte>, quad: Quad, canon: bool)
    requires Part(t, b, quad, canon) && b != []
    ensures t != [] && t[0] != COLON
  {
    if |b| > 2 && !(quad != Never && Address4(t, b)) {
      var i := Cut(t, COLON);
      GroupStarts(t[..i], Big(b[0], b[1]), canon);
    } else if quad != Never && Address4(t, b) {
      QuadStarts(t, b);
    } else {
      GroupStarts(t, Big(b[0], b[1]), canon);
    }
  }

  lemma {:induction false} HexStarts(t: Text, n: nat, canon: bool)
    requires IsHex(t, n, canon)
    ensures t[0] != COLON && HexValue(t[0]).Some?
    decreases |t|
  {
    if |t| > 1 { HexStarts(t[..|t| - 1], n / 16, canon); }
  }

  lemma GroupStarts(t: Text, w: nat, canon: bool)
    requires Group(t, w, canon)
    ensures t[0] != COLON && HexValue(t[0]).Some?
  {
    HexStarts(t, w, canon);
  }

  lemma QuadStarts(t: Text, b: seq<Byte>)
    requires Address4(t, b)
    ensures t != [] && t[0] != COLON
  {
    OctetsAre(t, b);
    DecDigits(b[0]);
    assert t[0] == Dec(b[0])[0];
  }

  /** Reading `t` to its end adds the bytes `b`. */
  predicate ReadsAs(out: seq<Byte>, colon: Option<nat>, t: Text, b: seq<Byte>)
    requires Sane(Groups(out, colon, 0, 0))
  {
    var r := Loop6(Groups(out, colon, 0, 0), t, t);
    r.Some? && r.value.colon == colon && Flush(r.value) == Some(out + b)
  }

  lemma ReadQuad(out: seq<Byte>, colon: Option<nat>, t: Text, b: seq<Byte>)
    requires Sane(Groups(out, colon, 0, 0)) && |out| + |b| <= 16 && Address4(t, b)
    ensures ReadsAs(out, colon, t, b)
  {
    Parse4Exact(t, b);
    Exact4(t, b);
    ReadPrint4(Groups(out, colon, 0, 0), b);
  }

  lemma ReadLast(out: seq<Byte>, colon: Option<nat>, t: Text, b: seq<Byte>, canon: bool)
    requires Sane(Groups(out, colon, 0, 0)) && |out| + |b| <= 16 && |b| == 2 && Group(t, Big(b[0], b[1]), canon)
    ensures ReadsAs(out, colon, t, b)
  {
    assert t + [] == t;
    ReadDigits(Groups(out, colon, 0, 0), t, t, Big(b[0], b[1]), [], canon);
    PairBig(b[0], b[1]);
    assert b == [b[0], b[1]];
  }

  lemma ReadMore(out: seq<Byte>, colon: Option<nat>, t: Text, b: seq<Byte>, i: nat, canon: bool)
    requires Sane(Groups(out, colon, 0, 0)) && |out| + |b| <= 16 && First(t, b, i, canon) && t[i + 1..] != []
    requires ReadsAs(out + b[..2], colon, t[i + 1..], b[2..])
    ensures ReadsAs(out, colon, t, b)
  {
    ReadFirst(out, colon, t, b, i, canon);
    assert out + b[..2] + b[2..] == out + b;
  }

  /** A list of groups at the end of the text. */
  lemma {:induction false} ReadPart(out: seq<Byte>, colon: Option<nat>, t: Text, b: seq<Byte>, quad: Quad, canon: bool)
    requires Sane(Groups(out, colon, 0, 0)) && |out| + |b| <= 16 && Part(t, b, quad, canon)
    ensures ReadsAs(out, colon, t, b)
    decreases |b|
  {
    if b == [] {
      assert out + b == out;
    } else if quad != Never && Address4(t, b) {
      ReadQuad(out, colon, t, b);
    } else if |b| == 2 {
      ReadLast(out, colon, t, b, canon);
    } else {
      var i := Cut(t, COLON);
      PartNonempty(t[i + 1..], b[2..], quad, canon);
      ReadPart(out + b[..2], colon, t[i + 1..], b[2..], quad, canon);
      ReadMore(out, colon, t, b, i, canon);
    }
  }

  /** Groups with "::" behind them: `rest` begins with the second colon. */
  lemma {:induction false} ReadFront(out: seq<Byte>, t: Text, b: seq<Byte>, rest: Text, canon: bool)
    requires |out| + |b| <= 16 && Part(t, b, Never, canon) && b != [] && rest != []
    ensures PassesBy(out, t + ([COLON] + rest), b, rest)
    decreases |b|
  {
    if |b| == 2 {
      FrontLast(out, t, b, rest, canon);
    } else {
      var i := Cut(t, COLON);
      ReadFront(out + b[..2], t[i + 1..], b[2..], rest, canon);
      FrontMore(out, t, b, rest, i, canon);
    }
  }

  /** Reading `all` adds the bytes `b` and goes on with `rest`. */
  predicate PassesBy(out: seq<Byte>, all: Text, b: seq<Byte>, rest: Text)
    requires |out| + |b| <= 16
  {
    Loop6(Groups(out, None, 0, 0), all, all) == Loop6(Groups(out + b, None, 0, 0), rest, rest)
  }

  lemma FrontLast(out: seq<Byte>, t: Text, b: seq<Byte>, rest: Text, canon: bool)
    requires |out| + 2 <= 16 && |b| == 2 && Group(t, Big(b[0], b[1]), canon) && rest != []
    ensures PassesBy(out, t + ([COLON] + rest), b, rest)
  {
    var all := t + ([COLON] + rest);
    assert all[..|t|] == t && all[|t|] == COLON && all[|t| + 1..] == rest;
    ReadFirst(out, None, all, b, |t|, canon);
    assert b[..2] == b;
  }

  lemma FrontMore(out: seq<Byte>, t: Text, b: seq<Byte>, rest: Text, i: nat, canon: bool)
    requires |out| + |b| <= 16 && First(t, b, i, canon)
    requires PassesBy(out + b[..2], t[i + 1..] + ([COLON] + rest), b[2..], rest)
    ensures PassesBy(out, t + ([COLON] + rest), b, rest)
  {
    var all := t + ([COLON] + rest);
    assert all[..i] == t[..i] && all[i] == t[i] && all[i + 1..] == t[i + 1..] + ([COLON] + rest);
    ReadFirst(out, None, all, b, i, canon);
    assert out + b[..2] + b[2..] == out + b;
  }

  lemma PlainIsRead(t: Text, b: seq<Byte>, canon: bool)
    requires |b| == 16 && Part(t, b, MayBe, canon)
    ensures Parse6(t) == Some(b)
  {
    PartNonempty(t, b, MayBe, canon);
    ReadPart([], None, t, b, MayBe, canon);
    assert [] + b == b;
  }

  lemma GappedIsRead(t: Text, b: seq<Byte>, left: Text, right: Text, x: seq<Byte>, y: seq<Byte>)
    requires Gapped(t, b, left, right, x, y, MayBe, false)
    ensures Parse6(t) == Some(b)
  {
    GapStart(left, right, x, false);
    ReadPart(x, Some(|x|), right, y, MayBe, false);
    GapFills(b, x, y);
  }

  /** Reading up to the gap. */
  lemma GapStart(left: Text, right: Text, x: seq<Byte>, canon: bool)
    requires |x| <= 14 && Part(left, x, Never, canon)
    ensures var start := Start6(left + [COLON] + [COLON] + right);
      && start.Some?
      && Loop6(Groups([], None, 0, 0), start.value, start.value) == Loop6(Groups(x, Some(|x|), 0, 0), right, right)
  {
    var t, rest := left + [COLON] + [COLON] + right, [COLON] + right;
    ReadGap(Groups(x, None, 0, 0), rest, right);
    if x == [] {
      assert t[1..] == rest;
    } else {
      PartNonempty(left, x, Never, canon);
      assert t == left + ([COLON] + rest);
      ReadFront([], left, x, rest, canon);
      assert [] + x == x;
    }
  }

  /** What the shift makes of the bytes before and behind the gap. */
  lemma GapFills(b: seq<Byte>, x: seq<Byte>, y: seq<Byte>)
    requires Fills(b, x, y)
    ensures Opened(x + y, |x|) == b
  {
    var out := x + y;
    assert out[..|x|] == x && out[|x|..] == y;
    assert Zeros(16 - |out|) == b[|x|..16 - |y|];
  }

  // ---------- and accepts nothing else ----------

  /** How many hexadecimal digits a text begins with. */
  function DigitsAhead(t: Text): (n: nat)
    ensures n <= |t| && (n < |t| ==> HexValue(t[n]).None?)
    ensures forall i :: 0 <= i < n ==> HexValue(t[i]).Some?
  {
    if t == [] || HexValue(t[0]).None? then 0 else 1 + DigitsAhead(t[1..])
  }

  function ValueOf(t: Text): nat
    requires forall i :: 0 <= i < |t| ==> HexValue(t[i]).Some?
  {
    if t == [] then 0 else ValueOf(t[..|t| - 1]) * 16 + HexValue(t[|t| - 1]).value
  }

  lemma {:induction false} ValueIs(t: Text)
    requires t != [] && forall i :: 0 <= i < |t| ==> HexValue(t[i]).Some?
    ensures IsHex(t, ValueOf(t), false)
  {
    var k := |t| - 1;
    var d := HexValue(t[k]).value;
    HexCharValue(t[k], d);
    LastDigit(ValueOf(t[..k]), d);
    if k > 0 { ValueIs(t[..k]); }
  }

  lemma LastDigit(n: nat, d: nat)
    requires d < 16
    ensures (n * 16 + d) % 16 == d && (n * 16 + d) / 16 == n
  {
  }

  lemma {:induction false} ValueBound(t: Text)
    requires |t| <= 4 && forall i :: 0 <= i < |t| ==> HexValue(t[i]).Some?
    ensures ValueOf(t) <
            if |t| == 0 then 1 else if |t| == 1 then 16 else if |t| == 2 then 256 else if |t| == 3 then 4096 else 65536
  {
    if t != [] { ValueBound(t[..|t| - 1]); }
  }

  /** A fifth digit is refused. */
  lemma {:induction false} FiveDigits(g: Groups, tok: Text, src: Text)
    requires Sane(g) && g.seen <= 4 && g.seen + DigitsAhead(src) > 4
    ensures Loop6(g, tok, src) == None
    decreases |src|
  {
    if g.seen < 4 { FiveDigits(g.(seen := g.seen + 1, val := g.val * 16 + HexValue(src[0]).value), tok, src[1..]); }
  }

  /** The loop behind the digits that it begins with. */
  lemma BehindDigits(out: seq<Byte>, colon: Option<nat>, src: Text)
    requires Sane(Groups(out, colon, 0, 0)) && Loop6(Groups(out, colon, 0, 0), src, src).Some?
    ensures var n := DigitsAhead(src);
      && n <= 4 && ValueOf(src[..n]) < 0x10000 && (n > 0 ==> Group(src[..n], ValueOf(src[..n]), false))
      && Loop6(Groups(out, colon, 0, 0), src, src) == Loop6(Groups(out, colon, n, ValueOf(src[..n])), src, src[n..])
  {
    var n := DigitsAhead(src);
    if n > 4 { FiveDigits(Groups(out, colon, 0, 0), src, src); }
    ValueBound(src[..n]);
    if n > 0 {
      ValueIs(src[..n]);
      assert src == src[..n] + src[n..];
      ReadDigits(Groups(out, colon, 0, 0), src, src[..n], ValueOf(src[..n]), src[n..], false);
    } else {
      assert src[0..] == src;
    }
  }

  lemma PairOf(w: nat)
    requires w < 0x10000
    ensures Big(Pair(w)[0], Pair(w)[1]) == w
  {
  }

  /** Groups with a colon behind them, if there are any. */
  function Ahead(left: Text): Text { if left == [] then [] else left + [COLON] }

  function Joined(first: Text, left: Text): Text { if left == [] then first else first + [COLON] + left }

  /** A text that has been read to its end with the bytes `o` is made up of groups for `y`. */
  predicate Plain(out: seq<Byte>, colon: Option<nat>, src: Text, after: Option<nat>, o: seq<Byte>, y: seq<Byte>) {
    |y| % 2 == 0 && o == out + y && after == colon && Part(src, y, MayBe, false)
  }

  /** Or of groups for `x`, the second colon of "::", and groups for `y`. */
  predicate WithGap(out: seq<Byte>, colon: Option<nat>, src: Text, after: Option<nat>, o: seq<Byte>,
                    left: Text, x: seq<Byte>, right: Text, y: seq<Byte>)
  {
    && |x| % 2 == 0 && |y| % 2 == 0 && colon == None && after == Some(|out| + |x|) && o == out + x + y
    && src == Ahead(left) + [COLON] + right
  }

  predicate Around(left: Text, x: seq<Byte>, right: Text, y: seq<Byte>) {
    Part(left, x, Never, false) && Part(right, y, MayBe, false)
  }

  lemma LongerPart(front: Text, rest: Text, w: nat, y: seq<Byte>, quad: Quad)
    requires Group(front, w, false) && w < 0x10000 && Part(rest, y, quad, false) && y != []
    ensures Part(front + [COLON] + rest, Pair(w) + y, quad, false)
  {
    var t, b := front + [COLON] + rest, Pair(w) + y;
    PairOf(w);
    Pieces(front, COLON, rest);
    HexNoColons(front, w, false);
    CutAt(t, |front|, COLON);
    assert b[2..] == y && b[0] == Pair(w)[0] && b[1] == Pair(w)[1];
  }

  lemma LongerLead(first: Text, left: Text, w: nat, x: seq<Byte>)
    requires Group(first, w, false) && w < 0x10000 && Part(left, x, Never, false)
    ensures Part(Joined(first, left), Pair(w) + x, Never, false)
  {
    if x == [] {
      assert Pair(w) + x == Pair(w);
      PairOf(w);
    } else {
      PartNonempty(left, x, Never, false);
      LongerPart(first, left, w, x, Never);
    }
  }

  /** One more group in front. */
  lemma LongerPlain(out: seq<Byte>, colon: Option<nat>, first: Text, rest: Text, w: nat, after: Option<nat>,
                    o: seq<Byte>, y: seq<Byte>)
    requires Group(first, w, false) && w < 0x10000 && rest != [] && Plain(out + Pair(w), colon, rest, after, o, y)
    ensures Plain(out, colon, first + [COLON] + rest, after, o, Pair(w) + y)
  {
    LongerPart(first, rest, w, y, MayBe);
    Assoc(out, Pair(w), y);
  }

  lemma LongerGap(out: seq<Byte>, colon: Option<nat>, first: Text, rest: Text, w: nat, after: Option<nat>, o: seq<Byte>,
                  left: Text, x: seq<Byte>, right: Text, y: seq<Byte>)
    requires first != [] && WithGap(out + Pair(w), colon, rest, after, o, left, x, right, y)
    ensures WithGap(out, colon, first + [COLON] + rest, after, o, Joined(first, left), Pair(w) + x, right, y)
  {
    GapMoves(first, left, right, rest);
    SumMoves(out, Pair(w), x, y);
  }

  lemma LongerAround(first: Text, w: nat, left: Text, x: seq<Byte>, right: Text, y: seq<Byte>)
    requires Group(first, w, false) && w < 0x10000 && Around(left, x, right, y)
    ensures Around(Joined(first, left), Pair(w) + x, right, y)
  {
    LongerLead(first, left, w, x);
  }

  lemma GapMoves(first: Text, left: Text, right: Text, rest: Text)
    requires first != [] && rest == Ahead(left) + [COLON] + right
    ensures first + [COLON] + rest == Ahead(Joined(first, left)) + [COLON] + right
  {
    Assoc(first + [COLON], Ahead(left) + [COLON], right);
    Assoc(first + [COLON], Ahead(left), [COLON]);
    Assoc(first + [COLON], left, [COLON]);
    assert left == [] ==> first + [COLON] + [] == first + [COLON];
  }

  lemma SumMoves(out: seq<Byte>, head: seq<Byte>, x: seq<Byte>, y: seq<Byte>)
    ensures out + head + x + y == out + (head + x) + y
  {
    Assoc(out, head, x);
  }

  lemma ColonComes(out: seq<Byte>, src: Text, after: Option<nat>, o: seq<Byte>, y: seq<Byte>)
    requires src != [] && src[0] == COLON && Plain(out, Some(|out|), src[1..], after, o, y)
    ensures WithGap(out, None, src, after, o, [], [], src[1..], y) && Around([], [], src[1..], y)
  {
    assert out + [] == out;
  }

  /** What the loop makes of a text, from the beginning of a group on. */
  function LoopOf(out: seq<Byte>, colon: Option<nat>, src: Text): Option<Groups>
    requires Sane(Groups(out, colon, 0, 0))
  {
    Loop6(Groups(out, colon, 0, 0), src, src)
  }

  predicate Accepted(out: seq<Byte>, colon: Option<nat>, src: Text)
    requires Sane(Groups(out, colon, 0, 0))
  {
    LoopOf(out, colon, src).Some? && Flush(LoopOf(out, colon, src).value).Some?
  }

  /** What the bytes are when the text ends. */
  function BytesRead(out: seq<Byte>, colon: Option<nat>, src: Text): seq<Byte>
    requires Sane(Groups(out, colon, 0, 0)) && Accepted(out, colon, src)
  {
    Flush(LoopOf(out, colon, src).value).value
  }

  function GapRead(out: seq<Byte>, colon: Option<nat>, src: Text): Option<nat>
    requires Sane(Groups(out, colon, 0, 0)) && Accepted(out, colon, src)
  {
    LoopOf(out, colon, src).value.colon
  }

  /** What the loop has read. */
  lemma {:induction false} Analyse(out: seq<Byte>, colon: Option<nat>, src: Text)
      returns (gap: bool, left: Text, x: seq<Byte>, right: Text, y: seq<Byte>)
    requires Sane(Groups(out, colon, 0, 0)) && Accepted(out, colon, src)
    ensures var after, o := GapRead(out, colon, src), BytesRead(out, colon, src);
      if gap then WithGap(out, colon, src, after, o, left, x, right, y) && Around(left, x, right, y)
      else Plain(out, colon, src, after, o, y)
    decreases |src|
  {
    var n := DigitsAhead(src);
    var w := ValueOf(src[..n]);
    BehindDigits(out, colon, src);
    gap, left, x, right := false, [], [], [];
    if n == |src| {
      y := AtEnd(out, colon, src);
    } else if src[n] == COLON && n == 0 {
      GapGoesOn(out, colon, src);
      gap, left, x, right, y := Analyse(out, Some(|out|), src[1..]);
      ColonComes(out, src, GapRead(out, colon, src), BytesRead(out, colon, src), y);
      gap, left, x, right := true, [], [], src[1..];
    } else if src[n] == COLON {
      GroupGoesOn(out, colon, src, n, w);
      gap, left, x, right, y := Analyse(out + Pair(w), colon, src[n + 1..]);
      Rejoined(src, n);
      if gap {
        LongerGap(out, colon, src[..n], src[n + 1..], w, GapRead(out, colon, src), BytesRead(out, colon, src),
                  left, x, right, y);
        LongerAround(src[..n], w, left, x, right, y);
        left, x := Joined(src[..n], left), Pair(w) + x;
      } else {
        LongerPlain(out, colon, src[..n], src[n + 1..], w, GapRead(out, colon, src), BytesRead(out, colon, src), y);
        y := Pair(w) + y;
      }
    } else {
      y := QuadRead(out, colon, src, n, w);
    }
  }

  lemma GapGoesOn(out: seq<Byte>, colon: Option<nat>, src: Text)
    requires Sane(Groups(out, colon, 0, 0)) && Accepted(out, colon, src) && src != [] && src[0] == COLON
    ensures colon == None && LoopOf(out, colon, src) == LoopOf(out, Some(|out|), src[1..])
  {
  }

  lemma GroupGoesOn(out: seq<Byte>, colon: Option<nat>, src: Text, n: nat, w: nat)
    requires Sane(Groups(out, colon, 0, 0)) && Accepted(out, colon, src) && 0 < n < |src| && src[n] == COLON
    requires LoopOf(out, colon, src) == Loop6(Groups(out, colon, n, w), src, src[n..])
    ensures src[n + 1..] != [] && |out| + 2 <= 16
    ensures LoopOf(out, colon, src) == LoopOf(out + Pair(w), colon, src[n + 1..])
  {
    assert src[n..][1..] == src[n + 1..];
  }

  lemma Rejoined(t: Text, n: nat)
    requires n < |t| && t[n] == COLON
    ensures t == t[..n] + [COLON] + t[n + 1..]
  {
  }

  lemma QuadRead(out: seq<Byte>, colon: Option<nat>, src: Text, n: nat, w: nat) returns (y: seq<Byte>)
    requires Sane(Groups(out, colon, 0, 0)) && Accepted(out, colon, src) && n < |src| && n <= 4
    requires src[n] != COLON && HexValue(src[n]).None?
    requires LoopOf(out, colon, src) == Loop6(Groups(out, colon, n, w), src, src[n..])
    ensures Plain(out, colon, src, GapRead(out, colon, src), BytesRead(out, colon, src), y)
  {
    y := Parse4(src).value;
    Parse4Exact(src, y);
  }

  lemma AtEnd(out: seq<Byte>, colon: Option<nat>, src: Text) returns (y: seq<Byte>)
    requires Sane(Groups(out, colon, 0, 0)) && Accepted(out, colon, src) && DigitsAhead(src) == |src|
    ensures Plain(out, colon, src, GapRead(out, colon, src), BytesRead(out, colon, src), y)
  {
    BehindDigits(out, colon, src);
    var n := |src|;
    assert src[..n] == src;
    if n == 0 {
      assert out + [] == out;
      y := [];
    } else {
      PairOf(ValueOf(src));
      y := Pair(ValueOf(src));
    }
  }

  lemma OnlyAddresses(t: Text)
    requires Parse6(t).Some?
    ensures Address6(t, Parse6(t).value)
  {
    var s, b := Start6(t).value, Parse6(t).value;
    var gap, left, x, right, y := Analyse([], None, s);
    AddressRead(t, s, GapRead([], None, s), BytesRead([], None, s), b, gap, left, x, right, y);
  }

  lemma AddressRead(t: Text, s: Text, after: Option<nat>, o: seq<Byte>, b: seq<Byte>,
                    gap: bool, left: Text, x: seq<Byte>, right: Text, y: seq<Byte>)
    requires Start6(t) == Some(s) && |b| == 16
    requires if after.Some? then after.value <= |o| < 16 && b == Opened(o, after.value) else b == o
    requires if gap then WithGap([], None, s, after, o, left, x, right, y) && Around(left, x, right, y)
             else Plain([], None, s, after, o, y)
    ensures Address6(t, b)
  {
    if gap {
      assert [] + x + y == x + y;
      GapIs(t, s, b, left, x, right, y);
    } else {
      PlainIs(t, s, y);
    }
  }

  lemma PlainIs(t: Text, s: Text, y: seq<Byte>)
    requires Start6(t) == Some(s) && Part(s, y, MayBe, false) && y != []
    ensures s == t && [] + y == y
  {
    PartNonempty(s, y, MayBe, false);
  }

  /** The gap in the whole text, whose leading colon the code has skipped. */
  lemma GapIs(t: Text, s: Text, b: seq<Byte>, left: Text, x: seq<Byte>, right: Text, y: seq<Byte>)
    requires Start6(t) == Some(s) && s == Ahead(left) + [COLON] + right && Around(left, x, right, y)
    requires |x + y| <= 14 && b == Opened(x + y, |x|)
    ensures Gapped(t, b, left, right, x, y, MayBe, false)
  {
    if x != [] { PartNonempty(left, x, Never, false); }
    GapText6(t, s, right, left);
    OpenedFills(x, y);
  }

  lemma OpenedFills(x: seq<Byte>, y: seq<Byte>)
    requires |x + y| <= 14
    ensures Fills(Opened(x + y, |x|), x, y)
  {
  }

  lemma GapText6(t: Text, s: Text, right: Text, left: Text)
    requires Start6(t) == Some(s) && s == Ahead(left) + [COLON] + right && (left != [] ==> left[0] != COLON)
    ensures t == left + [COLON] + [COLON] + right
  {
    if left == [] {
      assert s[0] == COLON && t[0] == COLON && s == t[1..];
    } else {
      assert s[0] == left[0];
    }
  }

  /** inet_pton6 accepts exactly the texts for IPv6 addresses, and reads from each the address that it stands for. */
  lemma Parse6Exact(t: Text, b: seq<Byte>)
    ensures Parse6(t) == Some(b) <==> Address6(t, b)
  {
    if Parse6(t) == Some(b) { OnlyAddresses(t); }
    if |b| == 16 && Part(t, b, MayBe, false) {
      PlainIsRead(t, b, false);
    } else if left, right, x, y :| Gapped(t, b, left, right, x, y, MayBe, false) {
      GappedIsRead(t, b, left, right, x, y);
    }
  }

  // ---------- inet_ntop6 prints the canonical one ----------

  /** The text for an address in the form of section 4 of RFC 5952, `run` being the leftmost of the longest runs of at
      least two zero groups: small digits, no leading zeros, "::" for that run; and an IPv4 address at the end of an
      address that begins with six zero groups, or with five and ffff. */
  ghost predicate Canonical(t: Text, b: seq<Byte>, run: Run)
    requires |b| == 16
  {
    match run
    case NoRun => Part(t, b, Never, true)
    case Run(base, len) =>
      var v4 := base == 0 && (len == 6 || (len == 5 && b[10] == 0xFF && b[11] == 0xFF));
      GappedAt(t, b, 2 * base, 2 * (base + len), if v4 then Always else Never)
  }

  /** "::" stands for the bytes from `k` up to `m`. */
  ghost predicate GappedAt(t: Text, b: seq<Byte>, k: nat, m: nat, quad: Quad) {
    exists left, right, x, y :: Gapped(t, b, left, right, x, y, quad, true) && |x| == k && 16 - |y| == m
  }

  lemma {:induction false} HexIs(n: nat)
    ensures IsHex(Hex(n), n, true) && (n > 0 ==> Hex(n)[0] != '0' as nat) && (n < 16 <==> |Hex(n)| == 1)
    decreases n
  {
    if n >= 16 {
      HexIs(n / 16);
      assert Hex(n)[..|Hex(n)| - 1] == Hex(n / 16);
    }
  }

  lemma HexGroup(w: Word)
    ensures Group(Hex(w), w, true)
  {
    HexIs(w);
    HexShort(w);
  }

  /** One more group in front of a list. */
  lemma GroupInFront(w: Word, t: Text, b: seq<Byte>, quad: Quad)
    requires Part(t, b, quad, true) && b != []
    ensures Part(Hex(w) + ([COLON] + t), Pair(w) + b, quad, true)
  {
    var all, bytes, n := Hex(w) + ([COLON] + t), Pair(w) + b, |Hex(w)|;
    HexGroup(w);
    PairOf(w);
    assert all[..n] == Hex(w) && all[n] == COLON && all[n + 1..] == t;
    assert bytes[2..] == b && bytes[0] == Pair(w)[0] && bytes[1] == Pair(w)[1];
    FirstIsFirst(all, bytes, n, true);
  }

  /** Words with colons behind them, and a list of groups. */
  lemma {:induction false} LeadParts(ws: seq<Word>, t: Text, b: seq<Byte>, quad: Quad)
    requires Part(t, b, quad, true) && b != []
    ensures Part(Lead(ws) + t, Bytes(ws) + b, quad, true)
  {
    if ws == [] {
      assert Lead(ws) + t == t && Bytes(ws) + b == b;
    } else {
      LeadParts(ws[1..], t, b, quad);
      LeadFirst(ws, t);
      GroupInFront(ws[0], Lead(ws[1..]) + t, Bytes(ws[1..]) + b, quad);
      Assoc(Pair(ws[0]), Bytes(ws[1..]), b);
    }
  }

  lemma TailParts(ws: seq<Word>)
    ensures Part(Tail(ws), Bytes(ws), Never, true)
  {
    if ws != [] {
      var front, w := ws[..|ws| - 1], ws[|ws| - 1];
      HexGroup(w);
      PairOf(w);
      LeadParts(front, Hex(w), Pair(w), Never);
      LastPair(front, w);
      assert front + [w] == ws;
    }
  }

  lemma LeadPartsOf(ws: seq<Word>, t: Text, b: seq<Byte>, quad: Quad, all: seq<Byte>)
    requires Part(t, b, quad, true) && b != [] && all == Bytes(ws) + b
    ensures Part(Lead(ws) + t, all, quad, true)
  {
    LeadParts(ws, t, b, quad);
  }

  /** What inet_ntop6 prints is the canonical text. */
  lemma PrintsCanonical(b: seq<Byte>, run: Run)
    requires |b| == 16 && FitsRun(Words(b), run)
    ensures Canonical(Print6(b, run), b, run)
  {
    var ws := Words(b);
    BytesOfWords(b);
    if run.NoRun? {
      TailParts(ws);
    } else {
      PrintsGap(b, run.base, run.len);
    }
  }

  lemma {:induction false} WordsJoin(b: seq<Byte>, k: nat)
    requires |b| % 2 == 0 && 2 * k <= |b|
    ensures Bytes(Words(b)[..k]) == b[..2 * k] && Bytes(Words(b)[k..]) == b[2 * k..]
  {
    BytesOfWords(b);
    BytesJoin(Words(b)[..k], Words(b)[k..]);
    assert Words(b)[..k] + Words(b)[k..] == Words(b);
  }

  lemma PrintsGap(b: seq<Byte>, base: nat, len: nat)
    requires |b| == 16 && FitsRun(Words(b), Run(base, len))
    ensures Canonical(Print6(b, Run(base, len)), b, Run(base, len))
  {
    var run := Run(base, len);
    EmbeddedIs(b, run);
    GapPrinted(b, base, len, if Embedded(Words(b), run) then Always else Never);
  }

  lemma GapPrinted(b: seq<Byte>, base: nat, len: nat, quad: Quad)
    requires |b| == 16 && FitsRun(Words(b), Run(base, len))
    requires quad == if Embedded(Words(b), Run(base, len)) then Always else Never
    ensures GappedAt(Print6(b, Run(base, len)), b, 2 * base, 2 * (base + len), quad)
  {
    var back := After(Words(b), Run(base, len), Print4(b[12..]));
    AfterParts(b, Run(base, len), back, Bytes(Words(b)[base + len..]), quad);
    RunBytes(b, base, len);
    PrintedText(b, Run(base, len));
    var t := Print6(b, Run(base, len));
    GapShown(t, Words(b)[..base], back, b, Bytes(Words(b)[base + len..]), quad, 2 * (base + len));
  }

  lemma GapShown(t: Text, front: seq<Word>, back: Text, b: seq<Byte>, y: seq<Byte>, quad: Quad, m: nat)
    requires t == Tail(front) + [COLON] + [COLON] + back && Fills(b, Bytes(front), y) && m == 16 - |y|
    requires Part(back, y, quad, true)
    ensures GappedAt(t, b, 2 * |front|, m, quad)
  {
    TailParts(front);
    GapMade(t, Tail(front), back, b, Bytes(front), y, quad, 2 * |front|, m);
  }

  lemma GapMade(t: Text, left: Text, right: Text, b: seq<Byte>, x: seq<Byte>, y: seq<Byte>, quad: Quad, k: nat, m: nat)
    requires t == left + [COLON] + [COLON] + right && k == |x| && m == 16 - |y|
    requires Fills(b, x, y) && Part(left, x, Never, true) && Part(right, y, quad, true)
    ensures GappedAt(t, b, k, m, quad)
  {
    assert Gapped(t, b, left, right, x, y, quad, true);
  }

  /** The bytes before and behind a run of zero words. */
  lemma RunBytes(b: seq<Byte>, base: nat, len: nat)
    requires |b| == 16 && len >= 2 && ZeroRun(Words(b), base, len)
    ensures Fills(b, Bytes(Words(b)[..base]), Bytes(Words(b)[base + len..]))
  {
    ZeroBytes(b, base, len);
    WordsJoin(b, base);
    WordsJoin(b, base + len);
    ZerosFill(b, 2 * base, 2 * (base + len));
  }

  lemma ZerosFill(b: seq<Byte>, k: nat, m: nat)
    requires |b| == 16 && k + 2 <= m <= 16 && forall j :: k <= j < m ==> b[j] == 0
    ensures Fills(b, b[..k], b[m..])
  {
  }

  lemma PrintedText(b: seq<Byte>, run: Run)
    requires |b| == 16 && run.Run? && FitsRun(Words(b), run)
    ensures Print6(b, run) ==
            Tail(Words(b)[..run.base]) + [COLON] + [COLON] + After(Words(b), run, Print4(b[12..]))
  {
    BeforeIs(Words(b), run);
  }

  lemma BeforeIs(ws: seq<Word>, run: Run)
    requires FitsRun(ws, run) && run.Run?
    ensures Before(ws, run) == Tail(ws[..run.base]) + [COLON]
  {
    var front := ws[..run.base];
    if front != [] {
      LeadLast(front);
    }
  }

  lemma {:induction false} LeadLast(ws: seq<Word>)
    requires ws != []
    ensures Lead(ws) == Tail(ws) + [COLON]
  {
    var n := |ws| - 1;
    if n > 0 {
      LeadLast(ws[1..]);
      assert ws[1..][..n - 1] == ws[..n][1..];
      Assoc(Hex(ws[0]) + [COLON], Lead(ws[1..][..n - 1]), Hex(ws[n]));
      Assoc(Hex(ws[0]) + [COLON], Tail(ws[1..]), [COLON]);
    }
  }

  lemma EmbeddedIs(b: seq<Byte>, run: Run)
    requires |b| == 16
    ensures Embedded(Words(b), run) <==>
            run.Run? && run.base == 0 && (run.len == 6 || (run.len == 5 && b[10] == 0xFF && b[11] == 0xFF))
  {
    DropWords(b, 5);
    assert Words(b)[5..][0] == Words(b)[5];
  }

  lemma WordAt(b: seq<Byte>, k: nat)
    requires |b| % 2 == 0 && 2 * k < |b|
    ensures Words(b)[k] == WordOf(b[2 * k], b[2 * k + 1])
  {
    DropWords(b, k);
    assert Words(b)[k..][0] == Words(b)[k];
  }

  lemma ZeroBytes(b: seq<Byte>, base: nat, len: nat)
    requires |b| == 16 && ZeroRun(Words(b), base, len)
    ensures forall j :: 2 * base <= j < 2 * (base + len) ==> b[j] == 0
  {
    forall j | 2 * base <= j < 2 * (base + len) ensures b[j] == 0 { ZeroByte(b, Words(b), j); }
  }

  lemma ZeroByte(b: seq<Byte>, ws: seq<Word>, j: nat)
    requires |b| == 16 && j < 16 && ws == Words(b) && ws[j / 2] == 0
    ensures b[j] == 0
  {
    WordAt(b, j / 2);
    assert j == 2 * (j / 2) || j == 2 * (j / 2) + 1;
  }

  lemma AfterParts(b: seq<Byte>, run: Run, text: Text, y: seq<Byte>, quad: Quad)
    requires |b| == 16 && FitsRun(Words(b), run) && run.Run? && text == After(Words(b), run, Print4(b[12..]))
    requires y == Bytes(Words(b)[run.base + run.len..]) && quad == if Embedded(Words(b), run) then Always else Never
    ensures Part(text, y, quad, true)
  {
    var ws := Words(b);
    if Embedded(ws, run) {
      WordsJoin(b, 6);
      AfterQuad(ws, run.len, b[12..], y);
    } else {
      AfterPlain(ws, run, Print4(b[12..]));
      TailIs(text, y, ws[run.base + run.len..]);
    }
  }

  lemma TailIs(text: Text, y: seq<Byte>, ws: seq<Word>)
    requires text == Tail(ws) && y == Bytes(ws)
    ensures Part(text, y, Never, true)
  {
    TailParts(ws);
  }

  lemma AfterPlain(ws: seq<Word>, run: Run, v4: Text)
    requires |ws| == 8 && FitsRun(ws, run) && run.Run? && !Embedded(ws, run)
    ensures After(ws, run, v4) == Tail(ws[run.base + run.len..])
  {
  }

  lemma AfterQuad(ws: seq<Word>, k: nat, v4: seq<Byte>, y: seq<Byte>)
    requires |ws| == 8 && k <= 6 && |v4| == 4 && Bytes(ws[6..]) == v4 && y == Bytes(ws[k..])
    ensures Part(Lead(ws[k..6]) + Print4(v4), y, Always, true)
  {
    Exact4(Print4(v4), v4);
    Parse4Exact(Print4(v4), v4);
    BytesJoin(ws[k..6], ws[6..]);
    assert ws[k..6] + ws[6..] == ws[k..];
    LeadPartsOf(ws[k..6], Print4(v4), v4, Always, y);
  }
}
