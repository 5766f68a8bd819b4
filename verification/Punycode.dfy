/**
 Punycode: the encoding procedure of section 6.3 of RFC 3492, with the bias adaptation of section 6.1, over unbounded
 integers.  The decoder of section 6.2 undoes it; the proof goes through a decoder of digits.
 */
module Punycode {
  import opened Basics
  import opened Options
  import Rfc = Rfc3492

  const BASE := 36
  const TMIN := 1
  const TMAX := 26
  const SKEW := 38
  const DAMP := 700
  const INITIAL_BIAS := 72
  const INITIAL_N := 128
  const DELIMITER: nat := 0x2D

  /** Code points. */
  type Text = seq<nat>

  // ---------- section 6.1 ----------

  function AdaptLoop(delta: nat, k: nat): nat
    decreases delta
  {
    if delta > (BASE - TMIN) * TMAX / 2
    then AdaptLoop(delta / (BASE - TMIN), k + BASE)
    else k + (BASE - TMIN + 1) * delta / (delta + SKEW)
  }

  function Adapt(delta: nat, points: nat, first: bool): nat
    requires points > 0
  {
    var d: nat := if first then delta / DAMP else delta / 2;
    Shrinks(d, points);
    AdaptLoop(d + d / points, 0)
  }

  function Threshold(k: nat, bias: nat): (t: nat)
    ensures TMIN <= t <= TMAX
  {
    if k <= bias + TMIN then TMIN else if k >= bias + TMAX then TMAX else k - bias
  }

  // ---------- variable-length integers ----------

  type Digit = d: nat | d < BASE

  /** The digit that goes out when `q` is not below the threshold, and what is left of `q`. */
  function Low(q: nat, t: nat): (d: Digit)
    requires TMIN <= t <= TMAX && t <= q
    ensures t <= d
  {
    t + (q - t) % (BASE - t)
  }

  function High(q: nat, t: nat): (r: nat)
    requires TMIN <= t <= TMAX && t <= q
    ensures r < q
  {
    Shrinks(q - t, BASE - t);
    (q - t) / (BASE - t)
  }

  function EncodeInt(q: nat, k: nat, bias: nat): (r: seq<Digit>)
    ensures r != []
    decreases q
  {
    var t := Threshold(k, bias);
    if q < t then [q] else [Low(q, t)] + EncodeInt(High(q, t), k + BASE, bias)
  }

  /** Reads one integer: the new value of `i` and what is left of the input. */
  function DecodeInt(ds: seq<Digit>, i: nat, w: nat, k: nat, bias: nat): (r: Option<(nat, seq<Digit>)>)
    ensures r.Some? ==> |r.value.1| < |ds|
  {
    if ds == [] then None
    else
      var t := Threshold(k, bias);
      var i' := i + ds[0] * w;
      if ds[0] < t then Some((i', ds[1..])) else DecodeInt(ds[1..], i', w * (BASE - t), k + BASE, bias)
  }

  /** A variable-length integer stands for the number it was made from, whatever follows it. */
  lemma {:induction false} IntRoundTrip(q: nat, k: nat, bias: nat, i: nat, w: nat, rest: seq<Digit>)
    ensures DecodeInt(EncodeInt(q, k, bias) + rest, i, w, k, bias) == Some((i + q * w, rest))
    decreases q
  {
    var t := Threshold(k, bias);
    if q < t {
      assert EncodeInt(q, k, bias) == [q] && ([q] + rest)[1..] == rest;
    } else {
      var d, h, tail := Low(q, t), High(q, t), EncodeInt(High(q, t), k + BASE, bias);
      NotNegative(d, w);
      NotNegative(w, BASE - t);
      var i': nat, w': nat := i + d * w, w * (BASE - t);
      var total := i' + h * w';
      assert total == i + q * w by { Weights(q, t, w); }
      assert DecodeInt(EncodeInt(q, k, bias) + rest, i, w, k, bias) ==
             DecodeInt(tail + rest, i', w', k + BASE, bias) by {
        Assoc([d], tail, rest);
        DecodeMore(d, tail + rest, i, w, k, bias);
      }
      IntRoundTrip(h, k + BASE, bias, i', w', rest);
    }
  }

  lemma DecodeMore(d: Digit, ds: seq<Digit>, i: nat, w: nat, k: nat, bias: nat)
    requires d >= Threshold(k, bias)
    ensures DecodeInt([d] + ds, i, w, k, bias)
         == DecodeInt(ds, i + d * w, w * (BASE - Threshold(k, bias)), k + BASE, bias)
  {
    assert ([d] + ds)[1..] == ds;
  }

  lemma Weights(q: nat, t: nat, w: nat)
    requires TMIN <= t <= TMAX && t <= q
    ensures Low(q, t) * w + High(q, t) * (w * (BASE - t)) == q * w
  {
    var b, x, y := BASE - t, High(q, t), (q - t) % (BASE - t);
    assert q == t + y + x * b;
    Regroup(x, w, b);
    Spread(t + y, x * b, w);
  }

  lemma Regroup(x: nat, w: nat, b: nat)
    ensures x * (w * b) == (x * b) * w
  {
  }

  lemma Spread(a: nat, b: nat, w: nat)
    ensures (a + b) * w == a * w + b * w
  {
  }

  // ---------- decoding digits ----------

  function Insert(out: Text, i: nat, n: nat): (r: Text)
    requires i <= |out|
    ensures |r| == |out| + 1
  {
    out[..i] + [n] + out[i..]
  }

  function DecodeLoop(out: Text, n: nat, i: nat, bias: nat, first: bool, ds: seq<Digit>): (r: Option<Text>)
    ensures r.Some? ==> |r.value| <= |out| + |ds|
    decreases |ds|
  {
    if ds == [] then Some(out)
    else
      var r := DecodeInt(ds, i, 1, BASE, bias);
      if r.None? then None
      else
        var (i', rest) := r.value;
        var points := |out| + 1;
        var at := i' % points;
        DecodeLoop(Insert(out, at, n + i' / points), n + i' / points, at + 1,
                   Adapt(if i' >= i then i' - i else 0, points, first), false, rest)
  }

  // ---------- section 6.3 ----------

  /** The code points below `n`, in order. */
  function Below(c: Text, n: nat): Text
  {
    if c == [] then [] else (if c[0] < n then [c[0]] else []) + Below(c[1..], n)
  }

  /** The least code point that is at least `n`. */
  function Least(c: Text, n: nat): (r: Option<nat>)
    ensures r.Some? ==> r.value >= n && r.value in c
    ensures r.None? ==> forall x :: x in c ==> x < n
    ensures r.Some? ==> forall x :: x in c ==> x < n || x >= r.value
  {
    if c == [] then None
    else
      assert forall x :: x in c ==> x == c[0] || x in c[1..];
      var r := Least(c[1..], n);
      if c[0] >= n && (r.None? || c[0] < r.value) then Some(c[0]) else r
  }

  datatype State = State(delta: nat, h: nat, bias: nat, first: bool)

  /** The state after one integer has gone out. */
  function Sent(s: State): State {
    State(0, s.h + 1, Adapt(s.delta, s.h + 1, s.first), false)
  }

  /** One pass over the input for the code point `n`: the digits it sends and the state it ends in. */
  function Pass(c: Text, n: nat, s: State): (seq<Digit>, State)
  {
    if c == [] then ([], s)
    else if c[0] < n then Pass(c[1..], n, s.(delta := s.delta + 1))
    else if c[0] > n then Pass(c[1..], n, s)
    else
      var (ds, end) := Pass(c[1..], n, Sent(s));
      (EncodeInt(s.delta, BASE, s.bias) + ds, end)
  }

  /** The state in which the pass for `m` starts, when the pass before it ended looking for `n`. */
  function Skip(n: nat, m: nat, s: State): State
    requires n <= m
  {
    s.(delta := s.delta + (m - n) * (s.h + 1))
  }

  /** The state after a pass: on to the next code point. */
  function Step(s: State): State {
    s.(delta := s.delta + 1)
  }

  /** How many code points are at least `n`. */
  function AtLeast(c: Text, n: nat): nat {
    if c == [] then 0 else (if c[0] >= n then 1 else 0) + AtLeast(c[1..], n)
  }

  lemma {:induction false} FewerLeft(c: Text, n: nat, m: nat)
    requires n <= m
    ensures AtLeast(c, m + 1) <= AtLeast(c, n)
    ensures m in c ==> AtLeast(c, m + 1) < AtLeast(c, n)
  {
    if c != [] {
      FewerLeft(c[1..], n, m);
      assert m in c ==> c[0] == m || m in c[1..];
    }
  }

  /** The passes, for every code point from `n` on that occurs. */
  function Passes(c: Text, n: nat, s: State): seq<Digit>
    decreases AtLeast(c, n)
  {
    var m := Least(c, n);
    if m.None? then []
    else
      FewerLeft(c, n, m.value);
      var (ds, end) := Pass(c, m.value, Skip(n, m.value, s));
      ds + Passes(c, m.value + 1, Step(end))
  }

  function Start(c: Text): State {
    State(0, |Below(c, INITIAL_N)|, INITIAL_BIAS, true)
  }

  // ---------- the round trip ----------

  /** What the decoder has when the encoder is in the pass for `n` with `done` behind it and `c` ahead. */
  function Partial(done: Text, c: Text, n: nat): Text {
    Below(done, n + 1) + Below(c, n)
  }

  lemma {:induction false} BelowJoin(a: Text, b: Text, n: nat)
    ensures Below(a + b, n) == Below(a, n) + Below(b, n)
  {
    if a == [] {
      assert a + b == b;
    } else {
      assert (a + b)[1..] == a[1..] + b;
      BelowJoin(a[1..], b, n);
    }
  }

  lemma PartialOther(done: Text, c: Text, n: nat)
    requires c != [] && c[0] != n
    ensures Partial(done + [c[0]], c[1..], n) == Partial(done, c, n)
    ensures |Below(done + [c[0]], n + 1)| == |Below(done, n + 1)| + (if c[0] < n then 1 else 0)
  {
    var x := if c[0] < n then [c[0]] else [];
    BelowMore(done, c[0], n + 1);
    assert Below(done + [c[0]], n + 1) == Below(done, n + 1) + x;
    assert Below(c, n) == x + Below(c[1..], n);
    Assoc(Below(done, n + 1), x, Below(c[1..], n));
  }

  lemma PartialHit(done: Text, c: Text)
    requires c != []
    ensures Partial(done + [c[0]], c[1..], c[0]) == Insert(Partial(done, c, c[0]), |Below(done, c[0] + 1)|, c[0])
    ensures |Below(done + [c[0]], c[0] + 1)| == |Below(done, c[0] + 1)| + 1
  {
    BelowMore(done, c[0], c[0] + 1);
    var a, b := Below(done, c[0] + 1), Below(c[1..], c[0]);
    assert Below(c, c[0]) == b;
    assert (a + b)[..|a|] == a && (a + b)[|a|..] == b;
  }

  lemma BelowMore(a: Text, x: nat, n: nat)
    ensures Below(a + [x], n) == Below(a, n) + (if x < n then [x] else [])
  {
    BelowJoin(a, [x], n);
    assert [x][1..] == [];
  }

  /**
   Where the decoder stands, `n` and `i`, against where the encoder stands: the encoder's delta counts the
   decoder states between the two.
   */
  predicate InStep(n: nat, i: nat, m: nat, at: nat, s: State) {
    n <= m && s.delta + i == (m - n) * (s.h + 1) + at
  }

  lemma Landing(n: nat, i: nat, m: nat, at: nat, s: State)
    requires InStep(n, i, m, at, s) && at <= s.h
    ensures n + (i + s.delta) / (s.h + 1) == m && (i + s.delta) % (s.h + 1) == at
  {
    DivMod(m - n, s.h + 1, at);
  }

  /** One round of the decoder, given the integer it reads and where that lands. */
  lemma LoopOnce(out: Text, n: nat, i: nat, bias: nat, first: bool, ds: seq<Digit>, delta: nat, m: nat, at: nat,
          rest: seq<Digit>)
    requires ds != [] && DecodeInt(ds, i, 1, BASE, bias) == Some((i + delta, rest)) && at <= |out|
    requires n + (i + delta) / (|out| + 1) == m && (i + delta) % (|out| + 1) == at
    ensures DecodeLoop(out, n, i, bias, first, ds)
         == DecodeLoop(Insert(out, at, m), m, at + 1, Adapt(delta, |out| + 1, first), false, rest)
  {
  }

  /** One integer takes the decoder exactly one insertion further. */
  lemma OneInsertion(out: Text, n: nat, i: nat, m: nat, at: nat, s: State, rest: seq<Digit>)
    requires InStep(n, i, m, at, s) && at <= s.h == |out|
    ensures DecodeLoop(out, n, i, s.bias, s.first, EncodeInt(s.delta, BASE, s.bias) + rest)
         == DecodeLoop(Insert(out, at, m), m, at + 1, Sent(s).bias, false, rest)
  {
    ReadBack(s.delta, s.bias, i, rest);
    Landing(n, i, m, at, s);
    LoopOnce(out, n, i, s.bias, s.first, EncodeInt(s.delta, BASE, s.bias) + rest, s.delta, m, at, rest);
  }

  lemma ReadBack(delta: nat, bias: nat, i: nat, rest: seq<Digit>)
    ensures EncodeInt(delta, BASE, bias) + rest != []
    ensures DecodeInt(EncodeInt(delta, BASE, bias) + rest, i, 1, BASE, bias) == Some((i + delta, rest))
  {
    IntRoundTrip(delta, BASE, bias, i, 1, rest);
  }

  /** With `ds` read, the decoder has gone from one place to another. */
  predicate Undone(out: Text, n: nat, i: nat, s: State, ds: seq<Digit>, rest: seq<Digit>, out': Text, n': nat,
          i': nat, end: State) {
    DecodeLoop(out, n, i, s.bias, s.first, ds + rest) == DecodeLoop(out', n', i', end.bias, end.first, rest)
  }

  /** The pass meets its code point. */
  lemma HitUndone(out: Text, c: Text, n: nat, i: nat, at: nat, s: State, rest: seq<Digit>, out': Text, n': nat, i': nat)
    requires c != [] && at <= s.h == |out| && InStep(n, i, c[0], at, s)
    requires Undone(Insert(out, at, c[0]), c[0], at + 1, Sent(s), Pass(c[1..], c[0], Sent(s)).0, rest,
                    out', n', i', Pass(c[1..], c[0], Sent(s)).1)
    ensures Undone(out, n, i, s, Pass(c, c[0], s).0, rest, out', n', i', Pass(c, c[0], s).1)
  {
    var ds, e := Pass(c[1..], c[0], Sent(s)).0, EncodeInt(s.delta, BASE, s.bias);
    assert Pass(c, c[0], s).0 + rest == e + (ds + rest) by {
      assert Pass(c, c[0], s).0 == e + ds;
    }
    OneInsertion(out, n, i, c[0], at, s, ds + rest);
  }

  lemma PassEnds(done: Text, m: nat, s: State, rest: seq<Digit>)
    ensures Partial(done, [], m) == Below(done, m + 1) && Pass([], m, s).0 + rest == rest
  {
  }

  /** One pass of the encoder, undone by the decoder. */
  lemma {:induction false} PassUndone(done: Text, c: Text, n: nat, i: nat, m: nat, s: State, rest: seq<Digit>)
    returns (n': nat, i': nat)
    requires s.h == |Partial(done, c, m)| && InStep(n, i, m, |Below(done, m + 1)|, s)
    ensures Pass(c, m, s).1.h == |Below(done + c, m + 1)|
    ensures InStep(n', i', m, |Below(done + c, m + 1)|, Pass(c, m, s).1)
    ensures Undone(Partial(done, c, m), n, i, s, Pass(c, m, s).0, rest, Below(done + c, m + 1), n', i', Pass(c, m, s).1)
    decreases c
  {
    if c == [] {
      PassEnds(done, m, s, rest);
      assert done + c == done;
      n', i' := n, i;
    } else {
      assert done + [c[0]] + c[1..] == done + c;
      if c[0] == m {
        PartialHit(done, c);
        n', i' := PassUndone(done + [c[0]], c[1..], m, |Below(done, m + 1)| + 1, m, Sent(s), rest);
        HitUndone(Partial(done, c, m), c, n, i, |Below(done, m + 1)|, s, rest, Below(done + c, m + 1), n', i');
      } else {
        var s' := if c[0] < m then Step(s) else s;
        PartialOther(done, c, m);
        assert Pass(c, m, s) == Pass(c[1..], m, s') && s'.bias == s.bias && s'.first == s.first;
        n', i' := PassUndone(done + [c[0]], c[1..], n, i, m, s', rest);
      }
    }
  }

  lemma {:induction false} BelowSame(c: Text, n: nat, m: nat)
    requires n <= m && forall x :: x in c ==> x < n || x >= m
    ensures Below(c, n) == Below(c, m)
  {
    if c != [] {
      assert c[0] in c && forall x :: x in c[1..] ==> x in c;
      BelowSame(c[1..], n, m);
    }
  }

  lemma {:induction false} BelowAll(c: Text, n: nat)
    requires forall x :: x in c ==> x < n
    ensures Below(c, n) == c
  {
    if c != [] {
      assert c[0] in c && forall x :: x in c[1..] ==> x in c;
      BelowAll(c[1..], n);
    }
  }

  lemma Skipped(n: nat, i: nat, k: nat, m: nat, s: State)
    requires InStep(n, i, k, 0, s) && k <= m
    ensures InStep(n, i, m, 0, Skip(k, m, s))
  {
    assert (m - n) * (s.h + 1) == (m - k) * (s.h + 1) + (k - n) * (s.h + 1) by {
      Spread(m - k, k - n, s.h + 1);
    }
  }

  lemma Stepped(n: nat, i: nat, m: nat, s: State)
    requires InStep(n, i, m, s.h, s)
    ensures InStep(n, i, m + 1, 0, Step(s))
  {
    Spread(m - n, 1, s.h + 1);
  }

  /** From the end of one pass to the end of the next. */
  lemma RoundUndone(c: Text, n: nat, i: nat, k: nat, m: nat, s: State, rest: seq<Digit>) returns (n': nat, i': nat)
    requires s.h == |Below(c, k)| && InStep(n, i, k, 0, s)
    requires Least(c, k) == Some(m)
    ensures var (ds, end) := Pass(c, m, Skip(k, m, s));
      && end.h == |Below(c, m + 1)| && InStep(n', i', m + 1, 0, Step(end))
      && DecodeLoop(Below(c, k), n, i, s.bias, s.first, ds + rest)
         == DecodeLoop(Below(c, m + 1), n', i', end.bias, end.first, rest)
  {
    BelowSame(c, k, m);
    Skipped(n, i, k, m, s);
    assert [] + c == c && Partial([], c, m) == Below(c, m);
    n', i' := PassUndone([], c, n, i, m, Skip(k, m, s), rest);
    Stepped(n', i', m, Pass(c, m, Skip(k, m, s)).1);
  }

  /** All the passes from `k` on, undone by the decoder. */
  lemma {:induction false} PassesUndone(c: Text, n: nat, i: nat, k: nat, s: State)
    requires s.h == |Below(c, k)| && InStep(n, i, k, 0, s)
    ensures DecodeLoop(Below(c, k), n, i, s.bias, s.first, Passes(c, k, s)) == Some(c)
    decreases AtLeast(c, k)
  {
    var r := Least(c, k);
    if r.None? {
      BelowAll(c, k);
    } else {
      var m := r.value;
      FewerLeft(c, k, m);
      var (ds, end) := Pass(c, m, Skip(k, m, s));
      assert Passes(c, k, s) == ds + Passes(c, m + 1, Step(end));
      var n', i' := RoundUndone(c, n, i, k, m, s, Passes(c, m + 1, Step(end)));
      PassesUndone(c, n', i', m + 1, Step(end));
    }
  }

  // ---------- how large the numbers get ----------

  function Max(a: nat, b: nat): nat { if a < b then b else a }

  /** The largest delta of a pass. */
  function PassPeak(c: Text, n: nat, s: State): (r: nat)
    ensures r >= s.delta
  {
    if c == [] then s.delta
    else Max(s.delta, PassPeak(c[1..], n, if c[0] < n then Step(s) else if c[0] > n then s else Sent(s)))
  }

  /** The largest delta the encoder of section 6.3 goes through. */
  function Peak(c: Text, n: nat, s: State): nat
    decreases AtLeast(c, n)
  {
    var m := Least(c, n);
    if m.None? then 0
    else
      FewerLeft(c, n, m.value);
      var s1 := Skip(n, m.value, s);
      Max(PassPeak(c, m.value, s1), Peak(c, m.value + 1, Step(Pass(c, m.value, s1).1)))
  }

  lemma {:induction false} EndDelta(c: Text, n: nat, s: State)
    ensures Pass(c, n, s).1.delta <= s.delta + |c|
    ensures n in c ==> Pass(c, n, s).1.delta <= |c|
  {
    if c != [] {
      var s' := if c[0] < n then Step(s) else if c[0] > n then s else Sent(s);
      assert Pass(c, n, s).1 == Pass(c[1..], n, s').1;
      EndDelta(c[1..], n, s');
      assert n in c ==> n == c[0] || n in c[1..];
    }
  }

  // ---------- digits as letters ----------

  function Letter(d: Digit): (r: nat)
    ensures r < 128 && r != DELIMITER
  {
    if d < 26 then 0x61 + d else 0x30 + (d - 26)
  }

  function Letters(ds: seq<Digit>): Text {
    if ds == [] then [] else [Letter(ds[0])] + Letters(ds[1..])
  }

  lemma LetterRead(d: Digit)
    ensures Rfc.DigitValue(Letter(d)) == Some(d)
  {
  }

  lemma {:induction false} LettersNoDelimiter(ds: seq<Digit>)
    ensures DELIMITER !in Letters(ds)
  {
    if ds != [] { LettersNoDelimiter(ds[1..]); }
  }

  lemma {:induction false} LettersJoin(a: seq<Digit>, b: seq<Digit>)
    ensures Letters(a + b) == Letters(a) + Letters(b)
  {
    if a == [] {
      assert a + b == b;
    } else {
      assert (a + b)[1..] == a[1..] + b;
      LettersJoin(a[1..], b);
    }
  }

  // ---------- the whole procedures ----------

  function Encode(c: Text): Text {
    var basic := Below(c, INITIAL_N);
    basic + (if basic == [] then [] else [DELIMITER]) + Letters(Passes(c, INITIAL_N, Start(c)))
  }

  lemma {:induction false} AdaptLoopSame(delta: nat, k: nat)
    ensures AdaptLoop(delta, k) == Rfc.AdaptLoop(delta, k)
    decreases delta
  {
    if delta > 455 { AdaptLoopSame(delta / 35, k + 36); }
  }

  lemma AdaptSame(delta: nat, points: nat, first: bool)
    requires points > 0
    ensures Adapt(delta, points, first) == Rfc.Adapt(delta, points, first)
  {
    var d := if first then delta / 700 else delta / 2;
    Shrinks(d, points);
    AdaptLoopSame(d + d / points, 0);
  }

  /** The decoder of section 6.2 reads the same integer from letters. */
  lemma {:induction false} ReadSame(ds: seq<Digit>, i: nat, w: nat, k: nat, bias: nat)
    ensures Rfc.ReadInteger(Letters(ds), i, w, k, bias) ==
            match DecodeInt(ds, i, w, k, bias)
            case None => None
            case Some((i', rest)) => Some((i', Letters(rest)))
  {
    if ds != [] {
      LetterRead(ds[0]);
      assert Letters(ds)[1..] == Letters(ds[1..]);
      var t := Threshold(k, bias);
      if ds[0] >= t {
        NotNegative(w, BASE - t);
        ReadSame(ds[1..], i + ds[0] * w, w * (BASE - t), k + BASE, bias);
      }
    }
  }

  /** Where a round of the decoder goes on. */
  datatype Round = Round(out: Text, n: nat, i: nat, bias: nat)

  function Next(out: Text, n: nat, i: nat, bias: nat, i': nat): (r: Round)
    ensures r.i > 0
  {
    var points := |out| + 1;
    Round(Insert(out, i' % points, n + i' / points), n + i' / points, i' % points + 1,
          Adapt(if i' >= i then i' - i else 0, points, i == 0))
  }

  /** And it makes the same insertions. */
  lemma {:induction false} InsertionsSame(out: Text, n: nat, i: nat, bias: nat, ds: seq<Digit>)
    ensures Rfc.Insertions(out, n, i, bias, Letters(ds)) == DecodeLoop(out, n, i, bias, i == 0, ds)
    decreases |ds|
  {
    if ds != [] {
      ReadSame(ds, i, 1, BASE, bias);
      var r := DecodeInt(ds, i, 1, BASE, bias);
      if r.None? {
        NothingRead(out, n, i, bias, ds);
      } else {
        var next := Next(out, n, i, bias, r.value.0);
        InsertionsSame(next.out, next.n, next.i, next.bias, r.value.1);
        InsertionsNext(out, n, i, bias, ds, r.value.0, r.value.1);
        LoopNext(out, n, i, bias, ds, r.value.0, r.value.1);
      }
    }
  }

  lemma NothingRead(out: Text, n: nat, i: nat, bias: nat, ds: seq<Digit>)
    requires ds != [] && DecodeInt(ds, i, 1, BASE, bias) == None
    requires Rfc.ReadInteger(Letters(ds), i, 1, 36, bias) == None
    ensures Rfc.Insertions(out, n, i, bias, Letters(ds)) == DecodeLoop(out, n, i, bias, i == 0, ds)
  {
  }

  lemma InsertionsNext(out: Text, n: nat, i: nat, bias: nat, ds: seq<Digit>, i': nat, rest: seq<Digit>)
    requires ds != [] && Rfc.ReadInteger(Letters(ds), i, 1, 36, bias) == Some((i', Letters(rest)))
    ensures var next := Next(out, n, i, bias, i');
      Rfc.Insertions(out, n, i, bias, Letters(ds)) ==
      Rfc.Insertions(next.out, next.n, next.i, next.bias, Letters(rest))
  {
    AdaptSame(if i' >= i then i' - i else 0, |out| + 1, i == 0);
  }

  lemma LoopNext(out: Text, n: nat, i: nat, bias: nat, ds: seq<Digit>, i': nat, rest: seq<Digit>)
    requires ds != [] && DecodeInt(ds, i, 1, BASE, bias) == Some((i', rest))
    ensures var next := Next(out, n, i, bias, i');
      DecodeLoop(out, n, i, bias, i == 0, ds) == DecodeLoop(next.out, next.n, next.i, next.bias, false, rest)
  {
  }

  lemma {:induction false} BasicPartAt(a: Text, b: Text)
    requires DELIMITER !in b
    ensures Rfc.BasicPart(a + [DELIMITER] + b) == |a|
    decreases b
  {
    var t := a + [DELIMITER] + b;
    if b != [] {
      assert t[..|t| - 1] == a + [DELIMITER] + b[..|b| - 1];
      BasicPartAt(a, b[..|b| - 1]);
    }
  }

  lemma {:induction false} NoDelimiter(t: Text)
    requires DELIMITER !in t
    ensures Rfc.BasicPart(t) == 0
  {
    if t != [] { NoDelimiter(t[..|t| - 1]); }
  }

  lemma {:induction false} BelowIsBelow(c: Text, n: nat)
    ensures forall x :: x in Below(c, n) ==> x < n && x in c
  {
    if c != [] {
      assert c[0] in c && forall x :: x in c[1..] ==> x in c;
      BelowIsBelow(c[1..], n);
    }
  }

  /** The decoder of section 6.2 gives back every text the encoder of section 6.3 is given. */
  lemma RoundTrip(c: Text)
    ensures Rfc.Decode(Encode(c)) == Some(c)
  {
    var basic, ds := Below(c, INITIAL_N), Passes(c, INITIAL_N, Start(c));
    PassesUndone(c, INITIAL_N, 0, INITIAL_N, Start(c));
    InsertionsSame(basic, INITIAL_N, 0, INITIAL_BIAS, ds);
    DecodeParts(c, basic, Letters(ds));
  }

  /** Behind the last delimiter there are digits and small letters only. */
  lemma SmallLetters(c: Text, k: nat)
    requires k < |Encode(c)| && (Rfc.BasicPart(Encode(c)) == 0 || k > Rfc.BasicPart(Encode(c)))
    ensures 'a' as nat <= Encode(c)[k] <= 'z' as nat || '0' as nat <= Encode(c)[k] <= '9' as nat
  {
    var basic, ds := Below(c, INITIAL_N), Passes(c, INITIAL_N, Start(c));
    LettersNoDelimiter(ds);
    if basic == [] {
      assert Encode(c) == Letters(ds);
      LettersSmall(ds, k);
    } else {
      BasicPartAt(basic, Letters(ds));
      LettersSmall(ds, k - |basic| - 1);
    }
  }

  lemma {:induction false} LettersSmall(ds: seq<Digit>, k: nat)
    requires k < |Letters(ds)|
    ensures 'a' as nat <= Letters(ds)[k] <= 'z' as nat || '0' as nat <= Letters(ds)[k] <= '9' as nat
  {
    if k > 0 { LettersSmall(ds[1..], k - 1); }
  }

  /** The decoder cuts the text where the encoder has put it together. */
  lemma DecodeParts(c: Text, basic: Text, tail: Text)
    requires basic == Below(c, INITIAL_N) && tail == Letters(Passes(c, INITIAL_N, Start(c)))
    ensures Rfc.Decode(Encode(c)) == Rfc.Insertions(basic, 128, 0, 72, tail)
  {
    LettersNoDelimiter(Passes(c, INITIAL_N, Start(c)));
    BelowIsBelow(c, INITIAL_N);
    if basic == [] {
      assert Encode(c) == tail && tail[..0] == basic;
      NoDelimiter(tail);
    } else {
      BasicPartAt(basic, tail);
      assert Encode(c)[..|basic|] == basic && Encode(c)[|basic| + 1..] == tail;
      forall i | 0 <= i < |basic| ensures Encode(c)[i] < 128 { assert Encode(c)[i] == basic[i] && basic[i] in basic; }
    }
  }
}
