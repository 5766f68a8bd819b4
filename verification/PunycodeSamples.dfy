/**
 Sample strings: what the encoder makes of names with known encodings, among them one of section 7.1 of RFC 3492.
 */
module PunycodeSamples {
  import opened Options
  import opened Punycode
  import Idna

  function Codes(s: string): Text {
    if s == "" then [] else [s[0] as nat] + Codes(s[1..])
  }

  /** A pass that meets its code point once. */
  lemma {:induction false} PassOnce(a: Text, m: nat, b: Text, s: State)
    requires m !in a && m !in b
    ensures var q := s.delta + |Below(a, m)|;
      Pass(a + [m] + b, m, s) == (EncodeInt(q, BASE, s.bias), Sent(s.(delta := q)).(delta := |Below(b, m)|))
    decreases a
  {
    var c := a + [m] + b;
    if a == [] {
      assert c[1..] == b;
      PassNone(b, m, Sent(s));
      assert EncodeInt(s.delta, BASE, s.bias) + [] == EncodeInt(s.delta, BASE, s.bias);
    } else {
      assert c[1..] == a[1..] + [m] + b;
      PassOnce(a[1..], m, b, if a[0] < m then Step(s) else s);
    }
  }

  lemma {:induction false} PassNone(b: Text, m: nat, s: State)
    requires m !in b
    ensures Pass(b, m, s) == ([], s.(delta := s.delta + |Below(b, m)|))
  {
    if b != [] { PassNone(b[1..], m, if b[0] < m then Step(s) else s); }
  }

  /** 1 if position `i` of a text lies from `from` on and before `to` and has something below `m`. */
  function One(c: Text, i: nat, from: nat, to: nat, m: nat): nat {
    if from <= i < to && i < |c| && c[i] < m then 1 else 0
  }

  /** How many code points between two positions of a short text are below `m`. */
  function Few(c: Text, from: nat, to: nat, m: nat): nat {
    One(c, 0, from, to, m) + One(c, 1, from, to, m) + One(c, 2, from, to, m) + One(c, 3, from, to, m) +
    One(c, 4, from, to, m) + One(c, 5, from, to, m) + One(c, 6, from, to, m)
  }

  lemma {:induction false} FewBelow(c: Text, m: nat)
    requires |c| <= 7
    ensures |Below(c, m)| == Few(c, 0, |c|, m)
  {
    if c != [] { FewBelow(c[1..], m); }
  }

  /** Position `i` has something else, which has been sent or comes later. */
  predicate Other(c: Text, i: nat, p: nat, n: nat)
    requires p < |c|
  {
    i < |c| && i != p ==> c[i] < n || c[i] > c[p]
  }

  predicate Others(c: Text, p: nat, n: nat)
    requires p < |c|
  {
    && Other(c, 0, p, n) && Other(c, 1, p, n) && Other(c, 2, p, n) && Other(c, 3, p, n)
    && Other(c, 4, p, n) && Other(c, 5, p, n) && Other(c, 6, p, n)
  }

  lemma OthersApart(c: Text, p: nat, n: nat)
    requires p < |c| <= 7 && Others(c, p, n) && n <= c[p]
    ensures c[p] !in c[..p] && c[p] !in c[p + 1..] && Least(c, n) == Some(c[p])
  {
    forall i | 0 <= i < |c| && i != p ensures c[i] < n || c[i] > c[p] { assert Other(c, i, p, n); }
    assert c[p] in c;
    var i :| 0 <= i < |c| && c[i] == Least(c, n).value;
  }

  lemma FewParts(c: Text, p: nat, m: nat)
    requires p < |c| <= 7
    ensures |Below(c[..p], m)| == Few(c, 0, p, m) && |Below(c[p + 1..], m)| == Few(c, p + 1, 7, m)
  {
    FewBelow(c[..p], m);
    FewBelow(c[p + 1..], m);
    FewShift(c, p + 1, m);
  }

  lemma FewShift(c: Text, k: nat, m: nat)
    requires k <= |c| <= 7
    ensures Few(c[k..], 0, |c[k..]|, m) == Few(c, k, 7, m)
  {
    if k == 0 {
    } else if k == 1 {
    } else if k == 2 {
    } else if k == 3 {
    } else if k == 4 {
    } else if k == 5 {
    } else {
    }
  }

  /** One round of the encoder on a text in which every code point occurs once: `q` is the number it sends, as `ds`. */
  lemma Round(c: Text, n: nat, s: State, p: nat, q: nat, ds: seq<Digit>, next: State)
    requires p < |c| <= 7 && Others(c, p, n) && n <= c[p]
    requires q == s.delta + (c[p] - n) * (s.h + 1) + Few(c, 0, p, c[p]) && EncodeInt(q, BASE, s.bias) == ds
    requires next == State(Few(c, p + 1, 7, c[p]) + 1, s.h + 1, Adapt(q, s.h + 1, s.first), false)
    ensures Passes(c, n, s) == ds + Passes(c, c[p] + 1, next)
  {
    OthersApart(c, p, n);
    PassAt(c, p, c[p], Skip(n, c[p], s));
    FirstPass(c, n, s, c[p]);
  }

  lemma PassAt(c: Text, p: nat, m: nat, s: State)
    requires p < |c| <= 7 && c[p] == m && m !in c[..p] && m !in c[p + 1..]
    ensures var q := s.delta + Few(c, 0, p, m);
      Pass(c, m, s) == (EncodeInt(q, BASE, s.bias), Sent(s.(delta := q)).(delta := Few(c, p + 1, 7, m)))
  {
    FewParts(c, p, m);
    PassOnce(c[..p], m, c[p + 1..], s);
    Halved(c, p);
  }

  lemma Halved(c: Text, p: nat)
    requires p < |c|
    ensures c[..p] + [c[p]] + c[p + 1..] == c
  {
  }

  lemma FirstPass(c: Text, n: nat, s: State, m: nat)
    requires n <= m && Least(c, n) == Some(m)
    ensures var (ds, end) := Pass(c, m, Skip(n, m, s)); Passes(c, n, s) == ds + Passes(c, m + 1, Step(end))
  {
  }

  /** Example (R) of section 7.1. */
  predicate IsR(c: Text) {
    && |c| == 7 && c[0] == 0x305D && c[1] == 0x306E && c[2] == 0x30B9 && c[3] == 0x30D4 && c[4] == 0x30FC
    && c[5] == 0x30C9 && c[6] == 0x3067
  }

  lemma AllSent(c: Text)
    requires IsR(c)
    ensures Passes(c, 0x30FD, State(3, 7, 29, false)) == []
  {
  }

  lemma R7(c: Text)
    requires IsR(c)
    ensures Passes(c, 0x30D5, State(3, 6, 17, false)) == [25, 15]
  {
    Round(c, 0x30D5, State(3, 6, 17, false), 4, 280, [25, 15], State(3, 7, 29, false));
    AllSent(c);
  }

  lemma R6(c: Text)
    requires IsR(c)
    ensures Passes(c, 0x30CA, State(2, 5, 20, false)) == [25, 2, 25, 15]
  {
    Round(c, 0x30CA, State(2, 5, 20, false), 3, 65, [25, 2], State(3, 6, 17, false));
    R7(c);
  }

  lemma R5(c: Text)
    requires IsR(c)
    ensures Passes(c, 0x30BA, State(2, 4, 29, false)) == [22, 2, 25, 2, 25, 15]
  {
    Round(c, 0x30BA, State(2, 4, 29, false), 5, 80, [22, 2], State(2, 5, 20, false));
    R6(c);
  }

  lemma R4(c: Text)
    requires IsR(c)
    ensures Passes(c, 0x306F, State(2, 3, 9, false)) == [30, 27, 0, 22, 2, 25, 2, 25, 15]
  {
    Round(c, 0x306F, State(2, 3, 9, false), 2, 300, [30, 27, 0], State(2, 4, 29, false));
    R5(c);
  }

  lemma R3(c: Text)
    requires IsR(c)
    ensures Passes(c, 0x3068, State(1, 2, 10, false)) == [20, 30, 27, 0, 22, 2, 25, 2, 25, 15]
  {
    Round(c, 0x3068, State(1, 2, 10, false), 1, 20, [20], State(2, 3, 9, false));
    R4(c);
  }

  lemma R2(c: Text)
    requires IsR(c)
    ensures Passes(c, 0x305E, State(1, 1, 17, false)) == [20, 0, 20, 30, 27, 0, 22, 2, 25, 2, 25, 15]
  {
    Round(c, 0x305E, State(1, 1, 17, false), 6, 20, [20, 0], State(1, 2, 10, false));
    R3(c);
  }

  lemma R1(c: Text)
    requires IsR(c)
    ensures Passes(c, 0x80, State(0, 0, 72, true)) == [3, 35, 9, 20, 0, 20, 30, 27, 0, 22, 2, 25, 2, 25, 15]
  {
    Round(c, 0x80, State(0, 0, 72, true), 0, 12253, [3, 35, 9], State(1, 1, 17, false));
    R2(c);
  }

  lemma {:induction false} LettersAt(ds: seq<Digit>)
    ensures |Letters(ds)| == |ds| && forall i :: 0 <= i < |ds| ==> Letters(ds)[i] == Letter(ds[i])
  {
    if ds != [] { LettersAt(ds[1..]); }
  }

  lemma {:induction false} CodesAt(s: string)
    ensures |Codes(s)| == |s| && forall i :: 0 <= i < |s| ==> Codes(s)[i] == s[i] as nat
  {
    if s != "" { CodesAt(s[1..]); }
  }

  /** Digits are the letters of a string. */
  lemma Spells(ds: seq<Digit>, s: string)
    requires |ds| == |s| && forall i :: 0 <= i < |s| ==> Letter(ds[i]) == s[i] as nat
    ensures Letters(ds) == Codes(s)
  {
    LettersAt(ds);
    CodesAt(s);
  }

  lemma SampleR(c: Text)
    requires IsR(c)
    ensures Encode(c) == Codes("d9juau41awczczp")
  {
    R1(c);
    FewBelow(c, 128);
    Spells(Passes(c, 0x80, State(0, 0, 72, true)), "d9juau41awczczp");
  }

  /** A label with one letter: U+00FC. */
  lemma SampleLabel(c: Text)
    requires |c| == 1 && c[0] == 0xFC
    ensures Idna.LabelOut(c) == Idna.Ascii(Codes("xn--tda"))
  {
    EncodeOne(c);
    OnePeak(c);
    CodesAt("xn--tda");
    CodesAt("tda");
    assert !Idna.AllAscii(c);
  }

  lemma EncodeOne(c: Text)
    requires |c| == 1 && c[0] == 0xFC
    ensures Encode(c) == Codes("tda")
  {
    NoneBelow(c);
    NoneSent(c);
    Round(c, 0x80, State(0, 0, 72, true), 0, 124, [19, 3, 0], State(1, 1, 0, false));
    Spells([19, 3, 0], "tda");
    assert [19, 3, 0] + [] == [19, 3, 0];
  }

  lemma NoneBelow(c: Text)
    requires |c| == 1 && c[0] == 0xFC
    ensures Below(c, 128) == [] && Start(c) == State(0, 0, 72, true)
  {
    assert c[1..] == [];
  }

  lemma NoneSent(c: Text)
    requires |c| == 1 && c[0] == 0xFC
    ensures Passes(c, 0xFD, State(1, 1, 0, false)) == [] && AtLeast(c, 0xFD) == 0
  {
    assert c[1..] == [];
  }

  lemma OnePeak(c: Text)
    requires |c| == 1 && c[0] == 0xFC
    ensures Idna.Peak(c) == 124
  {
    NoneBelow(c);
    NoneSent(c);
    OthersApart(c, 0, 0x80);
    OnePass(c, State(124, 0, 72, true));
    Idna.NoPeak(c, 0xFD, Step(Pass(c, 0xFC, State(124, 0, 72, true)).1));
  }

  lemma OnePass(c: Text, s: State)
    requires |c| == 1 && c[0] == 0xFC
    ensures PassPeak(c, 0xFC, s) == s.delta
  {
    assert c[1..] == [];
  }
}
