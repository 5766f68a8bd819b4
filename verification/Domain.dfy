/**
 What uv__idna_toascii is for: the ASCII form of a domain name stands for the name.  Reading it back,
 label by label, gives the code points that went in, with every dot written as '.'.
 */
module Domain {
  import opened Basics
  import opened Options
  import opened Utf8
  import opened Idna
  import Punycode
  import Rfc = Rfc3492

  /** The ACE prefix of section 5 of RFC 3490. */
  const ACE_PREFIX: Text := ['x' as nat, 'n' as nat, '-' as nat, '-' as nat]

  const STOP: nat := '.' as nat

  /** The separators of section 3.1 of RFC 3490. */
  predicate Separator(c: nat) { c == 0x2E || c == 0x3002 || c == 0xFF0E || c == 0xFF61 }

  predicate Ascii7(text: Text) { forall i :: 0 <= i < |text| ==> text[i] < 128 }

  /** A label that is sent as it is but looks like an encoded one. */
  predicate Ambiguous(part: Text) {
    Ascii7(part) && ACE_PREFIX <= part
  }

  /** Reading one label back. */
  function Unlabel(out: Text): Option<Text> {
    if ACE_PREFIX <= out then Rfc.Decode(out[4..]) else Some(out)
  }

  /** Reading a name back, with `part` of the current label behind. */
  function ToUnicode(out: Text, part: Text): Option<Text> {
    if out == [] then Unlabel(part)
    else if out[0] != STOP then ToUnicode(out[1..], part + [out[0]])
    else Dotted(Unlabel(part), ToUnicode(out[1..], []))
  }

  /** A label comes back exactly if it was not ambiguous. */
  lemma LabelRoundTrip(part: Text)
    requires LabelOut(part).Ascii?
    ensures Unlabel(LabelOut(part).out) == Some(part) <==> !Ambiguous(part)
  {
    if !Ambiguous(part) && !AllAscii(part) {
      Punycode.RoundTrip(part);
      assert (PREFIX + Punycode.Encode(part))[|PREFIX|..] == Punycode.Encode(part);
    }
  }

  predicate NoDots(text: Text) {
    forall i :: 0 <= i < |text| ==> !Separator(text[i])
  }

  lemma {:induction false} LettersNoDots(ds: seq<Digit>)
    ensures NoDots(Punycode.Letters(ds))
  {
    if ds != [] { LettersNoDots(ds[1..]); }
  }

  /** The ASCII form of a label has no dot in it. */
  lemma LabelNoDots(part: Text)
    requires NoDots(part) && LabelOut(part).Ascii?
    ensures NoDots(LabelOut(part).out)
  {
    if !AllAscii(part) {
      var basic := Punycode.Below(part, 128);
      Punycode.BelowIsBelow(part, 128);
      LettersNoDots(Punycode.Passes(part, 128, Punycode.Start(part)));
      forall i | 0 <= i < |basic| ensures !Separator(basic[i]) { assert basic[i] in basic; }
    }
  }

  lemma {:induction false} ReadLabel(out: Text, part: Text, more: Text)
    requires NoDots(out)
    ensures ToUnicode(out + more, part) == ToUnicode(more, part + out)
    decreases out
  {
    if out == [] {
      assert out + more == more && part + out == part;
    } else {
      assert (out + more)[1..] == out[1..] + more;
      assert part + [out[0]] + out[1..] == part + out;
      ReadLabel(out[1..], part + [out[0]], more);
    }
  }

  lemma ReadDotted(out: Text, more: Text)
    requires NoDots(out)
    ensures ToUnicode(out + [STOP] + more, []) == Dotted(Unlabel(out), ToUnicode(more, []))
  {
    assert out + [STOP] + more == out + ([STOP] + more) && [] + out == out;
    assert ([STOP] + more)[1..] == more;
    ReadLabel(out, [], [STOP] + more);
  }

  /** A label that was read back, a dot and what follows. */
  function Dotted(here: Option<Text>, more: Option<Text>): Option<Text> {
    if here.None? || more.None? then None else Some(here.value + [STOP] + more.value)
  }

  /** The name with every kind of dot written as '.'. */
  function Normal(text: Text): Text {
    if text == [] then [] else [if Separator(text[0]) then STOP else text[0]] + Normal(text[1..])
  }

  /** No label of `part` followed by `text` is ambiguous. */
  predicate Clear(text: Text, part: Text) {
    if text == [] then !Ambiguous(part)
    else if Separator(text[0]) then !Ambiguous(part) && Clear(text[1..], [])
    else Clear(text[1..], part + [text[0]])
  }

  lemma ConvertFirst(text: Text, part: Text)
    requires Scalars(text) && text != []
    ensures var rest := EncodeAll(text[1..]);
      && (!Separator(text[0]) ==> Convert(EncodeAll(text), part) == Convert(rest, part + [text[0]]))
      && (Separator(text[0]) && LabelOut(part).Failed? ==> Convert(EncodeAll(text), part) == LabelOut(part))
      && (Separator(text[0]) && LabelOut(part).Ascii? && Convert(rest, []).Failed? ==>
           Convert(EncodeAll(text), part) == Convert(rest, []))
      && (Separator(text[0]) && LabelOut(part).Ascii? && Convert(rest, []).Ascii? ==>
          Convert(EncodeAll(text), part) == Ascii(LabelOut(part).out + [STOP] + Convert(rest, []).out))
  {
    var head, rest := Encode(text[0]), EncodeAll(text[1..]);
    DecodeEncode(text[0], rest);
    assert (head + rest)[|head|..] == rest;
  }

  lemma DottedLabel(part: Text, more: Text, rest: Text)
    requires NoDots(part) && !Ambiguous(part) && LabelOut(part).Ascii? && ToUnicode(more, []) == Some(rest)
    ensures ToUnicode(LabelOut(part).out + [STOP] + more, []) == Some(part + [STOP] + rest)
  {
    LabelRoundTrip(part);
    LabelNoDots(part);
    ReadDotted(LabelOut(part).out, more);
  }

  /** A name without ambiguous labels comes back. */
  lemma {:induction false} ClearComesBack(text: Text, part: Text)
    requires Scalars(text) && NoDots(part) && Clear(text, part)
    requires Convert(EncodeAll(text), part).Ascii?
    ensures ToUnicode(Convert(EncodeAll(text), part).out, []) == Some(part + Normal(text))
    decreases |text|
  {
    if text == [] {
      LastLabel(part);
      assert part + [] == part;
    } else {
      ConvertFirst(text, part);
      if Separator(text[0]) {
        ClearComesBack(text[1..], []);
        assert [] + Normal(text[1..]) == Normal(text[1..]);
        DottedLabel(part, Convert(EncodeAll(text[1..]), []).out, Normal(text[1..]));
        Assoc(part, [STOP], Normal(text[1..]));
      } else {
        ClearComesBack(text[1..], part + [text[0]]);
        Assoc(part, [text[0]], Normal(text[1..]));
      }
    }
  }

  /** An ambiguous label is read back shorter than it was, if at all, and no label longer. */
  lemma LabelShorter(part: Text)
    requires LabelOut(part).Ascii? && Unlabel(LabelOut(part).out).Some?
    ensures |Unlabel(LabelOut(part).out).value| <= |part|
    ensures Ambiguous(part) ==> |Unlabel(LabelOut(part).out).value| < |part|
  {
    LabelRoundTrip(part);
  }

  /** So a name with an ambiguous label is read back shorter than it was, if at all. */
  lemma {:induction false} AmbiguousShorter(text: Text, part: Text)
    requires Scalars(text) && NoDots(part) && Convert(EncodeAll(text), part).Ascii?
    requires ToUnicode(Convert(EncodeAll(text), part).out, []).Some?
    ensures |ToUnicode(Convert(EncodeAll(text), part).out, []).value| <= |part| + |text|
    ensures !Clear(text, part) ==> |ToUnicode(Convert(EncodeAll(text), part).out, []).value| < |part| + |text|
    decreases |text|
  {
    if text == [] {
      LastRead(part);
      if part != [] { LabelShorter(part); }
    } else {
      ConvertFirst(text, part);
      if Separator(text[0]) {
        LabelNoDots(part);
        ReadDotted(LabelOut(part).out, Convert(EncodeAll(text[1..]), []).out);
        LabelShorter(part);
        AmbiguousShorter(text[1..], []);
      } else {
        AmbiguousShorter(text[1..], part + [text[0]]);
      }
    }
  }

  lemma LastRead(part: Text)
    requires NoDots(part) && Convert([], part).Ascii?
    ensures ToUnicode(Convert([], part).out, []) == if part == [] then Some([]) else Unlabel(LabelOut(part).out)
  {
    if part != [] {
      var out := LabelOut(part).out;
      LabelNoDots(part);
      ReadLabel(out, [], []);
      assert out + [] == out && [] + out == out;
    }
  }

  lemma {:induction false} NormalSize(text: Text)
    ensures |Normal(text)| == |text|
  {
    if text != [] { NormalSize(text[1..]); }
  }

  /** The name comes back, with every kind of dot as '.', exactly if none of its labels is ambiguous. */
  lemma NameRoundTrip(text: Text)
    requires Scalars(text) && Convert(EncodeAll(text), []).Ascii?
    ensures ToUnicode(Convert(EncodeAll(text), []).out, []) == Some(Normal(text)) <==> Clear(text, [])
  {
    NormalSize(text);
    assert [] + Normal(text) == Normal(text);
    if Clear(text, []) {
      ClearComesBack(text, []);
    } else if ToUnicode(Convert(EncodeAll(text), []).out, []).Some? {
      AmbiguousShorter(text, []);
    }
  }

  lemma LastLabel(part: Text)
    requires NoDots(part) && !Ambiguous(part) && Convert([], part).Ascii?
    ensures ToUnicode(Convert([], part).out, []) == Some(part)
  {
    if part != [] {
      var out := LabelOut(part).out;
      LabelRoundTrip(part);
      LabelNoDots(part);
      ReadLabel(out, [], []);
      assert out + [] == out && [] + out == out;
    }
  }

  /** A well-formed name is refused only because a label needs a delta of more than 32 bits. */
  predicate TooLarge(text: Text, part: Text) {
    if text == [] then Peak(part) > 0xFFFF_FFFF
    else if Separator(text[0]) then Peak(part) > 0xFFFF_FFFF || TooLarge(text[1..], [])
    else TooLarge(text[1..], part + [text[0]])
  }

  lemma AsciiPeak(part: Text)
    requires AllAscii(part)
    ensures Peak(part) == 0
  {
    CountSplit(part);
    NoPeak(part, 128, Punycode.Start(part));
  }

  lemma {:induction false} FailsWhenTooLarge(text: Text, part: Text)
    requires Scalars(text)
    ensures Convert(EncodeAll(text), part) == Failed(UV_E2BIG) <==> TooLarge(text, part)
    ensures Convert(EncodeAll(text), part).Ascii? <==> !TooLarge(text, part)
    decreases |text|
  {
    if AllAscii(part) { AsciiPeak(part); }
    if text != [] {
      ConvertFirst(text, part);
      FailsWhenTooLarge(text[1..], if Separator(text[0]) then [] else part + [text[0]]);
    }
  }

  // ---------- any bytes ----------

  /** The code points in front of the first byte that cannot be decoded. */
  function Readable(s: seq<Byte>): Text
    decreases |s|
  {
    if s == [] || Decode1(s).None? then []
    else
      var (c, k) := Decode1(s).value;
      [c] + Readable(s[k..])
  }

  /** A label of these that has its dot needs a delta of more than 32 bits. */
  predicate DottedTooLarge(text: Text, part: Text) {
    if text == [] then false
    else if Separator(text[0]) then Peak(part) > 0xFFFF_FFFF || DottedTooLarge(text[1..], [])
    else DottedTooLarge(text[1..], part + [text[0]])
  }

  /** One code point of a name, however it is encoded. */
  lemma ConvertOne(s: seq<Byte>, part: Text)
    requires s != [] && Decode1(s).Some?
    ensures var (c, k) := Decode1(s).value;
      && (!Separator(c) ==> Convert(s, part) == Convert(s[k..], part + [c]))
      && (Separator(c) && Peak(part) > 0xFFFF_FFFF ==> Convert(s, part) == Failed(-7))
      && (Separator(c) && Peak(part) <= 0xFFFF_FFFF ==>
            LabelOut(part).Ascii? && Convert(s, part) ==
            (if Convert(s[k..], []).Failed? then Convert(s[k..], [])
             else Ascii(LabelOut(part).out + [STOP] + Convert(s[k..], []).out)))
  {
    if AllAscii(part) { AsciiPeak(part); }
  }

  /** Bytes that are no UTF-8 are refused, unless a label that was complete before them is too large. */
  lemma {:induction false} MalformedFails(s: seq<Byte>, part: Text)
    requires DecodeAll(s).None?
    ensures Convert(s, part) == Failed(if DottedTooLarge(Readable(s), part) then -7 else -22)
    decreases |s|
  {
    if Decode1(s).Some? {
      var (c, k) := Decode1(s).value;
      assert Readable(s)[1..] == Readable(s[k..]);
      ConvertOne(s, part);
      MalformedFails(s[k..], if Separator(c) then [] else part + [c]);
    }
  }

  /** Bytes that decode to the same code points give the same name or the same error. */
  lemma {:induction false} OnlyCodePointsCount(s: seq<Byte>, part: Text)
    requires DecodeAll(s).Some?
    ensures Convert(s, part) == Convert(EncodeAll(DecodeAll(s).value), part)
    decreases |s|
  {
    if s != [] {
      var text := DecodeAll(s).value;
      var (c, k) := Decode1(s).value;
      var next := if Separator(c) then [] else part + [c];
      assert text[1..] == DecodeAll(s[k..]).value;
      DecodeEncode(c, EncodeAll(text[1..]));
      ConvertOne(s, part);
      ConvertOne(EncodeAll(text), part);
      assert EncodeAll(text)[|Encode(c)|..] == EncodeAll(text[1..]);
      OnlyCodePointsCount(s[k..], next);
    }
  }
}
