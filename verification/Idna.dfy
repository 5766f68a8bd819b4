/**
 libuv/src/idna.c: internationalized domain names to ASCII, in 32-bit arithmetic and through an output
 buffer of fixed size, against the unbounded encoder of module Punycode.
 */
module Idna {
  import opened Basics
  import opened Options
  import opened Utf8
  import Punycode

  const U32_MAX := 0xFFFF_FFFF
  const INT_MAX := 0x7FFF_FFFF
  const UV_EINVAL := -22
  const UV_E2BIG := -7
  const DOT: Byte := 0x2E

  type Text = seq<nat>
  type Digit = Punycode.Digit

  // ---------- what a label becomes ----------

  datatype Outcome = Ascii(out: Text) | Failed(code: int)

  const PREFIX: Text := [0x78, 0x6E, 0x2D, 0x2D]

  predicate AllAscii(text: Text) {
    forall i :: 0 <= i < |text| ==> text[i] < 128
  }

  /** The largest delta of the unbounded encoder. */
  function Peak(text: Text): nat {
    Punycode.Peak(text, 128, Punycode.Start(text))
  }

  function LabelOut(text: Text): Outcome {
    if AllAscii(text) then Ascii(text)
    else if Peak(text) > U32_MAX then Failed(UV_E2BIG)
    else Ascii(PREFIX + Punycode.Encode(text))
  }

  predicate IsDot(c: nat) {
    c == 0x2E || c == 0x3002 || c == 0xFF0E || c == 0xFF61
  }

  /** What uv__idna_toascii makes of the bytes `s` with the code points `part` of the current label
      behind it. */
  function Convert(s: seq<Byte>, part: Text): Outcome
    decreases |s|
  {
    if s == [] then (if part == [] then Ascii([]) else LabelOut(part))
    else
      match Decode1(s)
      case None => Failed(UV_EINVAL)
      case Some((c, k)) =>
        if !IsDot(c) then Convert(s[k..], part + [c])
        else
          match LabelOut(part)
          case Failed(code) => Failed(code)
          case Ascii(out) =>
            match Convert(s[k..], [])
            case Failed(code) => Failed(code)
            case Ascii(more) => Ascii(out + [DOT] + more)
  }

  // ---------- 32-bit arithmetic ----------

  /** The overflow check `x > ~delta / y` is exact. */
  lemma OverflowCheck(x: nat, y: nat, delta: nat)
    requires y > 0 && delta <= U32_MAX
    ensures x > (U32_MAX - delta) / y <==> delta + x * y > U32_MAX
  {
    var q := (U32_MAX - delta) / y;
    assert q * y <= U32_MAX - delta < q * y + y;
    if x > q {
      MulMono(y, q + 1, x);
    } else {
      MulMono(y, x, q);
    }
  }

  /** Halving and dividing by 350 is dividing by 700. */
  lemma Damped(delta: nat)
    ensures delta / 2 / 350 == delta / Punycode.DAMP
  {
  }

  lemma AdaptStep(delta: nat, h: nat)
    requires h > 0 && delta <= U32_MAX / 2
    ensures 0 <= delta / h && delta + delta / h <= U32_MAX
  {
    Shrinks(delta, h);
  }

  // ---------- the code points of the input ----------

  /** At byte `p` of `s` the code points from `j` on are ahead. */
  ghost predicate Ahead(s: seq<Byte>, p: nat, text: Text, j: nat) {
    p <= |s| && j <= |text| && DecodeAll(s[p..]) == Some(text[j..])
  }

  lemma AheadNext(s: seq<Byte>, p: nat, text: Text, j: nat)
    requires p < |s| && Ahead(s, p, text, j)
    ensures j < |text| && Decode1(s[p..]).Some?
    ensures var (c, k) := Decode1(s[p..]).value; c == text[j] && Scalar(c) && Ahead(s, p + k, text, j + 1)
  {
    var (c, k) := Decode1(s[p..]).value;
    assert s[p..][k..] == s[p + k..];
    assert text[j..][1..] == text[j + 1..];
  }

  lemma AheadEnds(s: seq<Byte>, p: nat, text: Text, j: nat)
    requires Ahead(s, p, text, j)
    ensures p == |s| <==> j == |text|
  {
    assert p == |s| <==> s[p..] == [];
  }

  lemma AheadStart(s: seq<Byte>)
    ensures DecodeAll(s).Some? ==> Ahead(s, 0, DecodeAll(s).value, 0)
  {
    assert s[0..] == s;
    if DecodeAll(s).Some? { assert DecodeAll(s).value[0..] == DecodeAll(s).value; }
  }

  lemma DecodeStop(s: seq<Byte>, p: nat)
    requires p < |s| && DecodeAll(s[p..]).None? && Decode1(s[p..]).Some?
    ensures var k := Decode1(s[p..]).value.1; p + k <= |s| && DecodeAll(s[p + k..]).None?
  {
    var k := Decode1(s[p..]).value.1;
    assert s[p..][k..] == s[p + k..];
  }

  /** Code points are either below 128 or at least 128. */
  lemma {:induction false} CountSplit(text: Text)
    ensures |Punycode.Below(text, 128)| + Punycode.AtLeast(text, 128) == |text|
    ensures AllAscii(text) <==> Punycode.AtLeast(text, 128) == 0
  {
    if text != [] {
      CountSplit(text[1..]);
      assert AllAscii(text) <==> text[0] < 128 && AllAscii(text[1..]) by {
        assert forall i :: 0 <= i < |text[1..]| ==> text[1..][i] == text[i + 1];
        assert forall i :: 1 <= i < |text| ==> text[i] == text[1..][i - 1];
      }
    }
  }

  lemma NoneLeft(text: Text, n: nat)
    requires Punycode.AtLeast(text, n) == 0
    ensures Punycode.Least(text, n).None?
  {
    if Punycode.Least(text, n).Some? { Punycode.FewerLeft(text, n, Punycode.Least(text, n).value); }
  }

  lemma {:induction false} SomeLeft(text: Text, n: nat)
    requires Punycode.AtLeast(text, n) > 0
    ensures Punycode.Least(text, n).Some?
  {
    if text[0] < n { SomeLeft(text[1..], n); }
  }

  /** uv__utf8_decode1 on a text that is known to decode: the next code point and where it ends. */
  method ReadNext(s: seq<Byte>, p: nat, ghost text: Text, ghost j: nat) returns (c: nat, p': nat)
    requires p < |s| && Ahead(s, p, text, j)
    ensures p < p' <= |s| && j < |text| && c == text[j] && Scalar(c) && Ahead(s, p', text, j + 1)
  {
    AheadNext(s, p, text, j);
    var r := Decode1(s[p..]).value;
    c, p' := r.0, p + r.1;
  }

  // ---------- the output buffer ----------

  function Cut(s: Text, n: nat): Text {
    if |s| <= n then s else s[..n]
  }

  /** `*d` and `de`: characters go into the buffer while there is room and are dropped afterwards. */
  class Output {
    const buf: array<nat>
    var at: nat
    ghost var written: Text

    ghost predicate Valid()
      reads this, buf
    {
      at <= buf.Length && buf[..at] == Cut(written, buf.Length)
    }

    constructor (buf: array<nat>)
      ensures Valid() && this.buf == buf && at == 0 && written == []
    {
      this.buf := buf;
      at := 0;
      written := [];
    }

    method Put(c: nat)
      requires Valid()
      modifies this, buf
      ensures Valid() && written == old(written) + [c]
    {
      ghost var was := buf[..at];
      if at < buf.Length {
        buf[at] := c;
        at := at + 1;
        assert buf[..at] == was + [c];
      }
      written := written + [c];
    }
  }

  // ---------- the parts of uv__idna_toascii_label ----------

  /** What the first loop has counted in front of code point `j`. */
  ghost predicate Counted(text: Text, j: nat, h: nat, todo: nat) {
    && j <= |text|
    && h + |Punycode.Below(text[j..], 128)| == |Punycode.Below(text, 128)|
    && todo + Punycode.AtLeast(text[j..], 128) == Punycode.AtLeast(text, 128)
  }

  lemma CountedNext(text: Text, j: nat, h: nat, todo: nat)
    requires Counted(text, j, h, todo) && j < |text|
    ensures if text[j] < 128 then Counted(text, j + 1, h + 1, todo) else Counted(text, j + 1, h, todo + 1)
  {
    assert text[j..][1..] == text[j + 1..];
  }

  lemma CountedStart(text: Text)
    ensures Counted(text, 0, 0, 0)
  {
    assert text[0..] == text;
  }

  /** The first loop is at byte `p`, in front of code point `j` if the bytes decode at all. */
  ghost predicate Progress(s: seq<Byte>, p: nat, j: nat, h: nat, todo: nat) {
    && p <= |s|
    && match DecodeAll(s)
       case None => DecodeAll(s[p..]).None?
       case Some(text) => Ahead(s, p, text, j) && Counted(text, j, h, todo)
  }

  lemma ProgressStart(s: seq<Byte>)
    ensures Progress(s, 0, 0, 0, 0)
  {
    AheadStart(s);
    assert s[0..] == s;
    if DecodeAll(s).Some? { CountedStart(DecodeAll(s).value); }
  }

  lemma ProgressNext(s: seq<Byte>, p: nat, j: nat, h: nat, todo: nat)
    requires p < |s| && Progress(s, p, j, h, todo)
    ensures DecodeAll(s).Some? ==> Decode1(s[p..]).Some?
    ensures Decode1(s[p..]).Some? ==>
      var (c, k) := Decode1(s[p..]).value;
      if c < 128 then Progress(s, p + k, j + 1, h + 1, todo) else Progress(s, p + k, j + 1, h, todo + 1)
  {
    if DecodeAll(s).Some? {
      var text := DecodeAll(s).value;
      AheadNext(s, p, text, j);
      AheadEnds(s, p, text, j);
      CountedNext(text, j, h, todo);
    } else if Decode1(s[p..]).Some? {
      DecodeStop(s, p);
    }
  }

  lemma ProgressEnd(s: seq<Byte>, j: nat, h: nat, todo: nat)
    requires Progress(s, |s|, j, h, todo)
    ensures DecodeAll(s).Some?
    ensures h == |Punycode.Below(DecodeAll(s).value, 128)| && todo == Punycode.AtLeast(DecodeAll(s).value, 128)
  {
    assert s[|s|..] == [];
    AheadEnds(s, |s|, DecodeAll(s).value, j);
  }

  /** The first loop. */
  method Count(s: seq<Byte>) returns (ok: bool, h: nat, todo: nat)
    ensures ok <==> DecodeAll(s).Some?
    ensures ok ==> h == |Punycode.Below(DecodeAll(s).value, 128)| && todo == Punycode.AtLeast(DecodeAll(s).value, 128)
  {
    ghost var j: nat := 0;
    var p := 0;
    h, todo := 0, 0;
    ProgressStart(s);
    while p < |s|
      invariant p <= |s| && Progress(s, p, j, h, todo)
    {
      ProgressNext(s, p, j, h, todo);
      var r := Decode1(s[p..]);
      if r.None? {
        return false, h, todo;
      }
      p, j := p + r.value.1, j + 1;
      if r.value.0 < 128 {
        h := h + 1;
      } else {
        todo := todo + 1;
      }
    }
    ProgressEnd(s, j, h, todo);
    ok := true;
  }

  lemma BelowAt(text: Text, j: nat)
    requires j < |text|
    ensures Punycode.Below(text[j..], 128)
         == (if text[j] < 128 then [text[j]] else []) + Punycode.Below(text[j + 1..], 128)
  {
    assert text[j..][1..] == text[j + 1..];
  }

  /** One code point of the second loop: what is written and what is to come stay the same. */
  lemma AsciiNext(written: Text, text: Text, j: nat)
    requires j < |text|
    ensures text[j] < 128 ==>
      && written + Punycode.Below(text[j..], 128) == (written + [text[j]]) + Punycode.Below(text[j + 1..], 128)
      && |Punycode.Below(text[j..], 128)| == 1 + |Punycode.Below(text[j + 1..], 128)|
    ensures text[j] >= 128 ==> Punycode.Below(text[j..], 128) == Punycode.Below(text[j + 1..], 128)
  {
    BelowAt(text, j);
    Assoc(written, [text[j]], Punycode.Below(text[j + 1..], 128));
  }

  /** The second loop: the ASCII characters, up to the last of them. */
  method WriteAscii(s: seq<Byte>, h: nat, d: Output, ghost text: Text)
    requires DecodeAll(s) == Some(text) && h == |Punycode.Below(text, 128)| && d.Valid()
    modifies d, d.buf
    ensures d.Valid() && d.written == old(d.written) + Punycode.Below(text, 128)
  {
    ghost var j: nat := 0;
    var p, x := 0, 0;
    ghost var goal := d.written + Punycode.Below(text, 128);
    AheadStart(s);
    while p < |s|
      invariant Ahead(s, p, text, j) && d.Valid()
      invariant x + |Punycode.Below(text[j..], 128)| == h
      invariant d.written + Punycode.Below(text[j..], 128) == goal
    {
      AsciiNext(d.written, text, j);
      var c;
      c, p := ReadNext(s, p, text, j);
      j := j + 1;
      if c > 127 {
        continue;
      }
      d.Put(c);
      x := x + 1;
      if x == h {
        assert Punycode.Below(text[j..], 128) == [];
        break;
      }
    }
    assert Punycode.Below(text[j..], 128) == [] by {
      if p == |s| { AheadEnds(s, p, text, j); }
    }
  }

  /** The loop that looks for the least code point not handled yet. */
  method FindMin(s: seq<Byte>, n: nat, ghost text: Text) returns (m: nat)
    requires DecodeAll(s) == Some(text) && Punycode.Least(text, n).Some?
    ensures Punycode.Least(text, n) == Some(m) && m <= 0x10FFFF
  {
    ghost var j: nat := 0;
    var p := 0;
    m := U32_MAX;
    AheadStart(s);
    while p < |s|
      invariant Ahead(s, p, text, j) && p <= |s|
      invariant m == U32_MAX || (n <= m && m in text)
      invariant forall i :: 0 <= i < j ==> text[i] < n || m <= text[i]
    {
      var c;
      c, p := ReadNext(s, p, text, j);
      if c >= n {
        if c < m {
          m := c;
        }
      }
      j := j + 1;
    }
    AheadEnds(s, p, text, j);
  }

  method ThresholdOf(k: nat, bias: nat) returns (t: nat)
    ensures t == Punycode.Threshold(k, bias)
  {
    t := 1;
    if k > bias {
      t := k - bias;
    }
    if t > 26 {
      t := 26;
    }
  }

  /** One digit goes out; the rest of `q` is returned. */
  method PutDigit(q: nat, t: nat, d: Output) returns (rest: nat)
    requires 1 <= t <= 26 && t <= q && d.Valid()
    modifies d, d.buf
    ensures d.Valid() && rest == Punycode.High(q, t)
    ensures d.written == old(d.written) + [Punycode.Letter(Punycode.Low(q, t))]
  {
    var x, y := q - t, 36 - t;
    rest := x / y;
    d.Put(Punycode.Letter(t + x % y));
  }

  /** The digits of one variable-length integer. */
  method WriteInt(delta: nat, bias: nat, d: Output)
    requires d.Valid()
    modifies d, d.buf
    ensures d.Valid()
    ensures d.written == old(d.written) + Punycode.Letters(Punycode.EncodeInt(delta, 36, bias))
  {
    ghost var all := Punycode.EncodeInt(delta, 36, bias);
    ghost var sent: seq<Digit> := [];
    var k: nat, q: nat := 36, delta;
    var t := ThresholdOf(k, bias);
    while q >= t
      invariant d.Valid() && t == Punycode.Threshold(k, bias)
      invariant d.written == old(d.written) + Punycode.Letters(sent)
      invariant all == sent + Punycode.EncodeInt(q, k, bias)
      decreases q
    {
      ghost var low := Punycode.Low(q, t);
      More(sent, low, all, Punycode.EncodeInt(Punycode.High(q, t), k + 36, bias));
      q := PutDigit(q, t, d);
      sent := sent + [low];
      k := k + 36;
      t := ThresholdOf(k, bias);
    }
    d.Put(Punycode.Letter(q));
    LettersMore(sent, q);
  }

  lemma More(sent: seq<Digit>, x: Digit, all: seq<Digit>, rest: seq<Digit>)
    requires all == sent + ([x] + rest)
    ensures all == (sent + [x]) + rest
    ensures Punycode.Letters(sent + [x]) == Punycode.Letters(sent) + [Punycode.Letter(x)]
  {
    LettersMore(sent, x);
  }

  lemma LettersMore(ds: seq<Digit>, x: Digit)
    ensures Punycode.Letters(ds + [x]) == Punycode.Letters(ds) + [Punycode.Letter(x)]
  {
    Punycode.LettersJoin(ds, [x]);
    assert [x][1..] == [];
  }

  /** The new bias; `h` already counts the code point that was just sent. */
  method AdaptBias(delta0: nat, h: nat, first: bool) returns (bias: nat)
    requires h > 0 && delta0 <= U32_MAX
    ensures bias == Punycode.Adapt(delta0, h, first)
  {
    var delta: nat := delta0 / 2;
    if first {
      delta := delta / 350;
      Damped(delta0);
    }
    AdaptStep(delta, h);
    delta := delta + delta / h;
    bias := 0;
    while delta > 35 * 26 / 2
      invariant Punycode.AdaptLoop(delta, bias) == Punycode.Adapt(delta0, h, first)
      decreases delta
    {
      delta := delta / 35;
      bias := bias + 36;
    }
    bias := bias + 36 * delta / (delta + 38);
  }

  // ---------- one pass ----------

  /** A pass from where it stands: what is still to come and how large delta gets. */
  lemma PassAt(text: Text, j: nat, n: nat, st: Punycode.State)
    requires j < |text|
    ensures var s' := if text[j] < n then Punycode.Step(st) else if text[j] > n then st else Punycode.Sent(st);
      && Punycode.Pass(text[j..], n, st).1 == Punycode.Pass(text[j + 1..], n, s').1
      && Punycode.Pass(text[j..], n, st).0
         == (if text[j] == n then Punycode.EncodeInt(st.delta, 36, st.bias) else []) +
         Punycode.Pass(text[j + 1..], n, s').0
      && Punycode.PassPeak(text[j..], n, st) == Punycode.Max(st.delta, Punycode.PassPeak(text[j + 1..], n, s'))
  {
    assert text[j..][1..] == text[j + 1..];
  }

  lemma LeftAt(text: Text, j: nat, n: nat)
    requires j < |text|
    ensures Punycode.AtLeast(text[j..], n) == (if text[j] >= n then 1 else 0) + Punycode.AtLeast(text[j + 1..], n)
  {
    assert text[j..][1..] == text[j + 1..];
  }

  /** Code points equal to `n` in a text. */
  function Equal(text: Text, n: nat): int {
    Punycode.AtLeast(text, n) - Punycode.AtLeast(text, n + 1)
  }

  lemma EqualAt(text: Text, j: nat, n: nat)
    requires j < |text|
    ensures Equal(text[j..], n) == (if text[j] == n then 1 else 0) + Equal(text[j + 1..], n)
  {
    LeftAt(text, j, n);
    LeftAt(text, j, n + 1);
  }

  lemma {:induction false} EqualSome(text: Text, n: nat)
    ensures Equal(text, n) >= 0
  {
    if text != [] { EqualSome(text[1..], n); }
  }

  /** Sending one code point: the integer, then the new bias. */
  method Send(st: Punycode.State, d: Output) returns (st': Punycode.State)
    requires d.Valid() && st.delta <= U32_MAX
    modifies d, d.buf
    ensures d.Valid() && st' == Punycode.Sent(st)
    ensures d.written == old(d.written) + Punycode.Letters(Punycode.EncodeInt(st.delta, 36, st.bias))
  {
    WriteInt(st.delta, st.bias, d);
    var bias := AdaptBias(st.delta, st.h + 1, st.first);
    st' := Punycode.State(0, st.h + 1, bias, false);
  }

  lemma LettersSplit(w: Text, a: seq<Digit>, b: seq<Digit>)
    ensures w + Punycode.Letters(a + b) == (w + Punycode.Letters(a)) + Punycode.Letters(b)
  {
    Punycode.LettersJoin(a, b);
    Assoc(w, Punycode.Letters(a), Punycode.Letters(b));
  }

  /** What has been written and what this pass still has to write. */
  ghost function Goal(written: Text, text: Text, n: nat, st: Punycode.State): Text {
    written + Punycode.Letters(Punycode.Pass(text, n, st).0)
  }

  lemma GoalSent(written: Text, text: Text, j: nat, n: nat, st: Punycode.State)
    requires j < |text| && text[j] == n
    ensures Goal(written, text[j..], n, st)
         == Goal(written + Punycode.Letters(Punycode.EncodeInt(st.delta, 36, st.bias)), text[j + 1..], n,
           Punycode.Sent(st))
  {
    PassAt(text, j, n, st);
    LettersSplit(written, Punycode.EncodeInt(st.delta, 36, st.bias),
      Punycode.Pass(text[j + 1..], n, Punycode.Sent(st)).0);
  }

  lemma GoalSkipped(written: Text, text: Text, j: nat, n: nat, st: Punycode.State)
    requires j < |text| && text[j] != n
    ensures Goal(written, text[j..], n, st)
         == Goal(written, text[j + 1..], n, if text[j] < n then Punycode.Step(st) else st)
  {
    PassAt(text, j, n, st);
    var ds := Punycode.Pass(text[j + 1..], n, if text[j] < n then Punycode.Step(st) else st).0;
    assert [] + ds == ds;
  }

  /** One code point of the inner loop; `hit` says that it was sent. */
  method PassStep(c: nat, n: nat, st: Punycode.State, d: Output, ghost text: Text, ghost j: nat)
    returns (ok: bool, st': Punycode.State, hit: bool)
    requires d.Valid() && st.delta <= U32_MAX && j < |text| && c == text[j]
    modifies d, d.buf
    ensures d.Valid() && hit == (c == n)
    ensures !ok ==> Punycode.PassPeak(text[j..], n, st) > U32_MAX
    ensures ok ==> st' == if c < n then Punycode.Step(st) else if c > n then st else Punycode.Sent(st)
    ensures ok ==> st'.delta <= U32_MAX
    ensures ok ==> Goal(old(d.written), text[j..], n, st) == Goal(d.written, text[j + 1..], n, st')
  {
    PassAt(text, j, n, st);
    st', hit := st, false;
    if c < n {
      var delta := (st.delta + 1) % 0x1_0000_0000;
      st' := st.(delta := delta);
      if delta == 0 {
        return false, st', false;
      }
    }
    ok := true;
    if c != n {
      GoalSkipped(d.written, text, j, n, st);
      return;
    }
    hit := true;
    GoalSent(d.written, text, j, n, st);
    st' := Send(st, d);
  }

  /** The second inner loop of uv__idna_toascii_label: every occurrence of `n` is sent. */
  method RunPass(s: seq<Byte>, n: nat, st0: Punycode.State, todo0: nat, d: Output, ghost text: Text)
    returns (ok: bool, st: Punycode.State, todo: nat)
    requires DecodeAll(s) == Some(text) && d.Valid() && st0.delta <= U32_MAX && todo0 == Punycode.AtLeast(text, n)
    modifies d, d.buf
    ensures d.Valid() && ok == (Punycode.PassPeak(text, n, st0) <= U32_MAX)
    ensures ok ==> st == Punycode.Pass(text, n, st0).1 && todo == Punycode.AtLeast(text, n + 1)
    ensures ok ==> d.written == old(d.written) + Punycode.Letters(Punycode.Pass(text, n, st0).0)
  {
    ghost var j: nat := 0;
    ghost var goal := Goal(d.written, text, n, st0);
    ghost var end, peak := Punycode.Pass(text, n, st0).1, Punycode.PassPeak(text, n, st0);
    var p := 0;
    st, todo := st0, todo0;
    AheadStart(s);
    EqualSome(text, n);
    while p < |s|
      invariant Ahead(s, p, text, j) && p <= |s|
      invariant d.Valid() && st.delta <= U32_MAX
      invariant Goal(d.written, text[j..], n, st) == goal
      invariant Punycode.Pass(text[j..], n, st).1 == end
      invariant peak > U32_MAX <==> Punycode.PassPeak(text[j..], n, st) > U32_MAX
      invariant todo == Punycode.AtLeast(text, n + 1) + Equal(text[j..], n)
    {
      PassAt(text, j, n, st);
      EqualAt(text, j, n);
      EqualSome(text[j + 1..], n);
      var c, hit;
      c, p := ReadNext(s, p, text, j);
      ok, st, hit := PassStep(c, n, st, d, text, j);
      if !ok {
        return;
      }
      j := j + 1;
      if hit {
        todo := todo - 1;
      }
    }
    AheadEnds(s, p, text, j);
    ok := true;
  }

  // ---------- uv__idna_toascii_label ----------

  /** What has been written and what all the passes from `n` on still have to write. */
  ghost function WholeGoal(written: Text, text: Text, n: nat, st: Punycode.State): Text {
    written + Punycode.Letters(Punycode.Passes(text, n, st))
  }

  lemma RoundAt(written: Text, text: Text, n: nat, m: nat, st: Punycode.State)
    requires Punycode.Least(text, n) == Some(m)
    ensures m in text && m >= n && Punycode.AtLeast(text, m + 1) < Punycode.AtLeast(text, n)
    ensures var s1 := Punycode.Skip(n, m, st);
      var (ds, end) := Punycode.Pass(text, m, s1);
      && Punycode.Peak(text, n, st) == Punycode.Max(Punycode.PassPeak(text, m, s1),
           Punycode.Peak(text, m + 1, Punycode.Step(end)))
      && WholeGoal(written, text, n, st) == WholeGoal(written + Punycode.Letters(ds), text, m + 1, Punycode.Step(end))
      && end.delta <= |text|
  {
    var s1 := Punycode.Skip(n, m, st);
    var (ds, end) := Punycode.Pass(text, m, s1);
    Punycode.FewerLeft(text, n, m);
    Punycode.EndDelta(text, m, s1);
    LettersSplit(written, ds, Punycode.Passes(text, m + 1, Punycode.Step(end)));
  }

  /** No code point is missed between `n` and the least one that is left. */
  lemma {:induction false} SameLeft(text: Text, n: nat, m: nat)
    requires n <= m && forall x :: x in text ==> x < n || x >= m
    ensures Punycode.AtLeast(text, n) == Punycode.AtLeast(text, m)
  {
    if text != [] {
      assert text[0] in text && forall x :: x in text[1..] ==> x in text;
      SameLeft(text[1..], n, m);
    }
  }

  lemma NoPeak(text: Text, n: nat, st: Punycode.State)
    requires Punycode.AtLeast(text, n) == 0
    ensures Punycode.Peak(text, n, st) == 0 && Punycode.Passes(text, n, st) == []
  {
    NoneLeft(text, n);
  }

  /** The gap between two code points, with the overflow check. */
  method Advance(n: nat, m: nat, st0: Punycode.State) returns (ok: bool, st: Punycode.State)
    requires n <= m && st0.delta <= U32_MAX
    ensures ok == (Punycode.Skip(n, m, st0).delta <= U32_MAX)
    ensures ok ==> st == Punycode.Skip(n, m, st0)
  {
    var x, y := m - n, st0.h + 1;
    OverflowCheck(x, y, st0.delta);
    if x > (U32_MAX - st0.delta) / y {
      return false, st0;
    }
    ok, st := true, st0.(delta := st0.delta + x * y);
  }

  /** The pass for `m`, and the step behind it. */
  method Sweep(s: seq<Byte>, m: nat, s1: Punycode.State, todo0: nat, d: Output, ghost text: Text)
    returns (ok: bool, st: Punycode.State, todo: nat)
    requires DecodeAll(s) == Some(text) && |s| < INT_MAX && d.Valid() && s1.delta <= U32_MAX
    requires todo0 == Punycode.AtLeast(text, m) && Punycode.Pass(text, m, s1).1.delta <= |text|
    modifies d, d.buf
    ensures d.Valid() && ok == (Punycode.PassPeak(text, m, s1) <= U32_MAX)
    ensures ok ==> st == Punycode.Step(Punycode.Pass(text, m, s1).1) && todo == Punycode.AtLeast(text, m + 1)
    ensures ok ==> st.delta <= U32_MAX && d.written == old(d.written) + Punycode.Letters(Punycode.Pass(text, m, s1).0)
  {
    ok, st, todo := RunPass(s, m, s1, todo0, d, text);
    if ok {
      st := NextCodePoint(st);
    }
  }

  method NextCodePoint(st: Punycode.State) returns (st': Punycode.State)
    requires st.delta < U32_MAX
    ensures st' == Punycode.Step(st)
  {
    st' := st.(delta := (st.delta + 1) % 0x1_0000_0000);
  }

  /** One round of the outer loop: find the next code point, make up for the gap, and send it. */
  method Round(s: seq<Byte>, n: nat, st0: Punycode.State, todo0: nat, d: Output, ghost text: Text)
    returns (ok: bool, m: nat, st: Punycode.State, todo: nat)
    requires DecodeAll(s) == Some(text) && |s| < INT_MAX && d.Valid() && st0.delta <= U32_MAX
    requires todo0 == Punycode.AtLeast(text, n) > 0
    modifies d, d.buf
    ensures d.Valid() && Punycode.Least(text, n) == Some(m)
    ensures !ok ==> Punycode.Peak(text, n, st0) > U32_MAX
    ensures ok ==> st.delta <= U32_MAX && todo == Punycode.AtLeast(text, m + 1) < todo0
    ensures ok ==> (Punycode.Peak(text, n, st0) > U32_MAX <==> Punycode.Peak(text, m + 1, st) > U32_MAX)
    ensures ok ==> WholeGoal(old(d.written), text, n, st0) == WholeGoal(d.written, text, m + 1, st)
  {
    SomeLeft(text, n);
    m := FindMin(s, n, text);
    RoundAt(d.written, text, n, m, st0);
    SameLeft(text, n, m);
    todo := todo0;
    ok, st := Advance(n, m, st0);
    if ok {
      ok, st, todo := Sweep(s, m, st, todo0, d, text);
    }
  }

  lemma GoalReached(written: Text, text: Text, n: nat, st: Punycode.State)
    requires Punycode.AtLeast(text, n) == 0
    ensures WholeGoal(written, text, n, st) == written && Punycode.Peak(text, n, st) == 0
  {
    NoPeak(text, n, st);
  }

  /** The outer loop. */
  method Rounds(s: seq<Byte>, h: nat, todo0: nat, d: Output, ghost text: Text) returns (ok: bool)
    requires DecodeAll(s) == Some(text) && |s| < INT_MAX && d.Valid()
    requires h == |Punycode.Below(text, 128)| && todo0 == Punycode.AtLeast(text, 128)
    modifies d, d.buf
    ensures d.Valid() && ok == (Peak(text) <= U32_MAX)
    ensures ok ==> d.written == WholeGoal(old(d.written), text, 128, Punycode.Start(text))
  {
    var n, todo := 128, todo0;
    var st := Punycode.State(0, h, 72, true);
    ghost var goal, peak := WholeGoal(d.written, text, n, st), Punycode.Peak(text, n, st);
    assert peak == Peak(text);
    while todo > 0
      invariant d.Valid() && st.delta <= U32_MAX && todo == Punycode.AtLeast(text, n)
      invariant peak > U32_MAX <==> Punycode.Peak(text, n, st) > U32_MAX
      invariant WholeGoal(d.written, text, n, st) == goal
      decreases todo
    {
      ok, n, st, todo := Round(s, n, st, todo, d, text);
      if !ok {
        return;
      }
      n := n + 1;
    }
    GoalReached(d.written, text, n, st);
    ok := true;
  }

  method PutPrefix(d: Output)
    requires d.Valid()
    modifies d, d.buf
    ensures d.Valid() && d.written == old(d.written) + PREFIX
  {
    d.Put(0x78);
    d.Put(0x6E);
    d.Put(0x2D);
    d.Put(0x2D);
  }

  /** The pieces of a label's output. */
  lemma LabelPieces(was: Text, text: Text)
    requires !AllAscii(text)
    ensures var basic := Punycode.Below(text, 128);
      var upTo := (was + PREFIX) + basic + (if basic == [] then [] else [0x2D]);
      WholeGoal(upTo, text, 128, Punycode.Start(text)) == was + (PREFIX + Punycode.Encode(text))
  {
  }

  /** uv__idna_toascii_label: the label's bytes `s` go out through `d`. */
  method ToAsciiLabel(s: seq<Byte>, d: Output) returns (rc: int)
    requires |s| < INT_MAX && d.Valid()
    modifies d, d.buf
    ensures d.Valid()
    ensures DecodeAll(s).None? ==> rc == UV_EINVAL && d.written == old(d.written)
    ensures DecodeAll(s).Some? && LabelOut(DecodeAll(s).value).Failed? ==> rc == LabelOut(DecodeAll(s).value).code
    ensures DecodeAll(s).Some? && LabelOut(DecodeAll(s).value).Ascii? ==>
      && rc == (if AllAscii(DecodeAll(s).value) then |DecodeAll(s).value| else 0)
      && d.written == old(d.written) + LabelOut(DecodeAll(s).value).out
  {
    var ok, h, todo := Count(s);
    if !ok {
      return UV_EINVAL;
    }
    ghost var text := DecodeAll(s).value;
    CountSplit(text);
    if todo > 0 {
      PutPrefix(d);
    }
    WriteAscii(s, h, d, text);
    if todo == 0 {
      AllBelow(text);
      return h;
    }
    LabelPieces(old(d.written), text);
    assert h == 0 ==> d.written + [] == d.written;
    if h > 0 {
      d.Put(0x2D);
    }
    ok := Rounds(s, h, todo, d, text);
    rc := if ok then 0 else UV_E2BIG;
  }

  lemma AllBelow(text: Text)
    requires AllAscii(text)
    ensures Punycode.Below(text, 128) == text
  {
    Punycode.BelowAll(text, 128);
  }

  // ---------- uv__idna_toascii ----------

  /** Decoding `s` from byte `lo` on reads `part` and arrives at byte `hi`. */
  ghost predicate Reads(s: seq<Byte>, lo: nat, hi: nat, part: Text)
    decreases |part|
  {
    if part == [] then lo == hi <= |s|
    else
      && lo < hi <= |s|
      && Decode1(s[lo..]).Some?
      && var (c, k) := Decode1(s[lo..]).value;
      c == part[0] && lo + k <= hi && Reads(s, lo + k, hi, part[1..])
  }

  lemma {:induction false} ReadsMore(s: seq<Byte>, lo: nat, hi: nat, part: Text)
    requires Reads(s, lo, hi, part) && hi < |s| && Decode1(s[hi..]).Some?
    ensures var (c, k) := Decode1(s[hi..]).value; Reads(s, lo, hi + k, part + [c])
    decreases |part|
  {
    var (c, k) := Decode1(s[hi..]).value;
    if part == [] {
      assert ([] + [c])[1..] == [] && ([] + [c])[0] == c;
      assert Reads(s, hi + k, hi + k, []);
    } else {
      assert (part + [c])[1..] == part[1..] + [c];
      ReadsMore(s, lo + Decode1(s[lo..]).value.1, hi, part[1..]);
    }
  }

  /** The bytes of a label decode by themselves as they did in front of what follows them. */
  lemma {:induction false} ReadsDecode(s: seq<Byte>, lo: nat, hi: nat, part: Text)
    requires Reads(s, lo, hi, part)
    ensures lo <= hi <= |s| && DecodeAll(s[lo..hi]) == Some(part)
    decreases |part|
  {
    if part == [] {
      assert s[lo..hi] == [];
    } else {
      var k := Decode1(s[lo..]).value.1;
      ReadsDecode(s, lo + k, hi, part[1..]);
      DecodeSlice(s, lo, hi, part[0], k);
      DecodeAllStep(s[lo..hi], part[0], k, part[1..]);
      assert [part[0]] + part[1..] == part;
    }
  }

  /** The first code point of a slice is the one at its place in the whole. */
  lemma DecodeSlice(s: seq<Byte>, lo: nat, hi: nat, c: nat, k: nat)
    requires lo + k <= hi <= |s| && lo < hi && Decode1(s[lo..]) == Some((c, k))
    ensures Decode1(s[lo..hi]) == Some((c, k)) && s[lo..hi][k..] == s[lo + k..hi]
  {
    DecodeCut(s[lo..], hi - lo);
    assert s[lo..][..hi - lo] == s[lo..hi];
  }

  lemma DecodeAllStep(s: seq<Byte>, c: nat, k: nat, tail: Text)
    requires s != [] && Decode1(s) == Some((c, k)) && DecodeAll(s[k..]) == Some(tail)
    ensures DecodeAll(s) == Some([c] + tail)
  {
  }

  /** An outcome with what has been written in front of it. */
  function Behind(written: Text, r: Outcome): Outcome {
    match r
    case Failed(code) => r
    case Ascii(out) => Ascii(written + out)
  }

  lemma BehindDot(written: Text, out: Text, r: Outcome)
    requires r.Ascii?
    ensures Behind(written, Ascii(out + [DOT] + r.out)) == Behind(written + out + [DOT], r)
  {
  }

  /** A label and the dot behind it. */
  method PutLabel(s: seq<Byte>, d: Output, ghost part: Text) returns (rc: int)
    requires |s| < INT_MAX && d.Valid() && DecodeAll(s) == Some(part)
    modifies d, d.buf
    ensures d.Valid()
    ensures match LabelOut(part)
            case Failed(code) => rc == code && rc < 0
            case Ascii(out) => rc >= 0 && d.written == old(d.written) + out + [DOT]
  {
    rc := ToAsciiLabel(s, d);
    if rc >= 0 {
      d.Put(DOT);
    }
  }

  /** What one more code point does to the result. */
  lemma ConvertNext(s: seq<Byte>, si: nat, part: Text, written: Text)
    requires si < |s|
    ensures Decode1(s[si..]).None? ==> Convert(s[si..], part) == Failed(UV_EINVAL)
    ensures Decode1(s[si..]).Some? ==>
      var (c, k) := Decode1(s[si..]).value;
      var rest := s[si + k..];
      && (!IsDot(c) ==> Convert(s[si..], part) == Convert(rest, part + [c]))
      && (IsDot(c) && LabelOut(part).Failed? ==> Convert(s[si..], part) == LabelOut(part))
      && (IsDot(c) && LabelOut(part).Ascii? ==>
          Behind(written, Convert(s[si..], part)) == Behind(written + LabelOut(part).out + [DOT], Convert(rest, [])))
  {
    if Decode1(s[si..]).Some? {
      var k := Decode1(s[si..]).value.1;
      assert s[si..][k..] == s[si + k..];
      var more := Convert(s[si + k..], []);
      if more.Ascii? && LabelOut(part).Ascii? { BehindDot(written, LabelOut(part).out, more); }
    }
  }

  /** The loop stands at byte `si`: the bytes from `from` on are the label so far, and what has been written
      and what is to come make `goal`. */
  ghost predicate Dotting(s: seq<Byte>, from: nat, si: nat, part: Text, written: Text, goal: Outcome) {
    si <= |s| && Reads(s, from, si, part) && Behind(written, Convert(s[si..], part)) == goal
  }

  /** The label in front of the dot at byte `st`, and the dot. */
  method DotLabel(s: seq<Byte>, from: nat, st: nat, d: Output, ghost part: Text, ghost goal: Outcome) returns (rc: int)
    requires |s| < INT_MAX && d.Valid() && Dotting(s, from, st, part, d.written, goal)
    requires st < |s| && Decode1(s[st..]).Some? && IsDot(Decode1(s[st..]).value.0)
    modifies d, d.buf
    ensures d.Valid()
    ensures rc < 0 ==> goal == Failed(rc)
    ensures rc >= 0 ==> var si := st + Decode1(s[st..]).value.1; Dotting(s, si, si, [], d.written, goal)
  {
    ConvertNext(s, st, part, d.written);
    ReadsDecode(s, from, st, part);
    ghost var was := d.written;
    rc := PutLabel(s[from..st], d, part);
    assert rc >= 0 ==> d.written == was + LabelOut(part).out + [DOT];
  }

  /** A code point that is not a dot. */
  lemma NoDot(s: seq<Byte>, from: nat, st: nat, part: Text, written: Text, goal: Outcome)
    requires Dotting(s, from, st, part, written, goal)
    requires st < |s| && Decode1(s[st..]).Some? && !IsDot(Decode1(s[st..]).value.0)
    ensures var r := Decode1(s[st..]).value; Dotting(s, from, st + r.1, part + [r.0], written, goal)
  {
    ReadsMore(s, from, st, part);
    ConvertNext(s, st, part, written);
  }

  lemma BadByte(s: seq<Byte>, from: nat, st: nat, part: Text, written: Text, goal: Outcome)
    requires Dotting(s, from, st, part, written, goal) && st < |s| && Decode1(s[st..]).None?
    ensures goal == Failed(UV_EINVAL)
  {
    ConvertNext(s, st, part, written);
  }

  lemma DottingStarts(s: seq<Byte>)
    ensures Dotting(s, 0, 0, [], [], Convert(s, []))
  {
    assert s[0..] == s && Behind([], Convert(s, [])) == Convert(s, []);
  }

  lemma DottingEnds(s: seq<Byte>, from: nat, part: Text, written: Text, goal: Outcome)
    requires Dotting(s, from, |s|, part, written, goal)
    ensures from <= |s| && DecodeAll(s[from..]) == Some(part) && goal == Behind(written, Convert([], part))
  {
    ReadsToEnd(s, from, part);
  }

  /** The loop over the labels that end in a dot; `from` is where the last one begins. */
  method ToAsciiDots(s: seq<Byte>, d: Output) returns (rc: int, from: nat, ghost part: Text)
    requires |s| < INT_MAX && d.Valid() && d.written == []
    modifies d, d.buf
    ensures d.Valid()
    ensures rc < 0 ==> Convert(s, []) == Failed(rc)
    ensures rc >= 0 ==> from <= |s| && DecodeAll(s[from..]) == Some(part)
    ensures rc >= 0 ==> Convert(s, []) == Behind(d.written, Convert([], part))
  {
    var si := 0;
    from, part, rc := 0, [], 0;
    ghost var goal := Convert(s, []);
    DottingStarts(s);
    while si < |s|
      invariant si <= |s| && rc == 0 && d.Valid() && Dotting(s, from, si, part, d.written, goal)
    {
      var r := Decode1(s[si..]);
      if r.None? {
        BadByte(s, from, si, part, d.written, goal);
        return UV_EINVAL, from, part;
      }
      var st := si;
      si := si + r.value.1;
      if !IsDot(r.value.0) {
        NoDot(s, from, st, part, d.written, goal);
        part := part + [r.value.0];
        continue;
      }
      rc := DotLabel(s, from, st, d, part, goal);
      if rc < 0 {
        return;
      }
      rc, from, part := 0, si, [];
    }
    DottingEnds(s, from, part, d.written, goal);
  }

  lemma ReadsToEnd(s: seq<Byte>, from: nat, part: Text)
    requires Reads(s, from, |s|, part)
    ensures from <= |s| && DecodeAll(s[from..]) == Some(part) && s[|s|..] == []
  {
    ReadsDecode(s, from, |s|, part);
    assert s[from..|s|] == s[from..];
  }

  /** uv__idna_toascii.  The result is the number of bytes written, or an error. */
  method ToAscii(s: seq<Byte>, buf: array<nat>) returns (rc: int)
    requires |s| < INT_MAX
    modifies buf
    ensures match Convert(s, [])
            case Failed(code) => rc == code
            case Ascii(out) => rc == |Cut(out + [0], buf.Length)| && buf[..rc] == Cut(out + [0], buf.Length)
  {
    var d := new Output(buf);
    var from; ghost var part;
    rc, from, part := ToAsciiDots(s, d);
    if rc < 0 {
      return;
    }
    if from < |s| {
      rc := ToAsciiLabel(s[from..], d);
      if rc < 0 {
        return;
      }
    }
    d.Put(0);
    rc := d.at;
  }
}
