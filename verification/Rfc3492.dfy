/**
 The decoding procedure of section 6.2 of RFC 3492, with the parameters of section 5 and the adaptation of section
 6.1, written out from the text of the standard.
 */
module Rfc3492 {
  import opened Options

  /** Code points. */
  type Text = seq<nat>

  /** Section 5: the letters a to z, small or capital, are the digits 0 to 25, and 0 to 9 are 26 to 35. */
  function DigitValue(cp: nat): Option<nat> {
    if 'a' as nat <= cp <= 'z' as nat then Some(cp - 'a' as nat)
    else if 'A' as nat <= cp <= 'Z' as nat then Some(cp - 'A' as nat)
    else if '0' as nat <= cp <= '9' as nat then Some(cp - '0' as nat + 26)
    else None
  }

  /** Section 6.1, while delta > ((base - tmin) * tmax) div 2. */
  function AdaptLoop(delta: nat, k: nat): nat
    decreases delta
  {
    if delta > 455 then AdaptLoop(delta / 35, k + 36) else k + 36 * delta / (delta + 38)
  }

  function Adapt(delta: nat, points: nat, first: bool): nat
    requires points > 0
  {
    var d := if first then delta / 700 else delta / 2;
    Quotient(d, points);
    AdaptLoop(d + d / points, 0)
  }

  lemma Quotient(a: nat, b: nat)
    requires b > 0
    ensures 0 <= a / b && 0 <= a % b < b
  {
  }

  /** The inner loop of section 6.2: `i` after one variable-length integer, and the rest of the input. */
  function ReadInteger(input: Text, i: nat, w: nat, k: nat, bias: nat): (r: Option<(nat, Text)>)
    ensures r.Some? ==> |r.value.1| < |input|
  {
    if input == [] || DigitValue(input[0]).None? then None
    else
      var digit := DigitValue(input[0]).value;
      var t := if k <= bias + 1 then 1 else if k >= bias + 26 then 26 else k - bias;
      var i' := i + digit * w;
      if digit < t then Some((i', input[1..])) else ReadInteger(input[1..], i', w * (36 - t), k + 36, bias)
  }

  function Insert(output: Text, i: nat, cp: nat): (r: Text)
    requires i <= |output|
    ensures |r| == |output| + 1
  {
    output[..i] + [cp] + output[i..]
  }

  /** The outer loop: every integer inserts one code point. */
  function Insertions(output: Text, n: nat, i: nat, bias: nat, input: Text): (r: Option<Text>)
    ensures r.Some? ==> |r.value| <= |output| + |input|
    decreases |input|
  {
    if input == [] then Some(output)
    else
      match ReadInteger(input, i, 1, 36, bias)
      case None => None
      case Some((i', rest)) =>
        var len := |output| + 1;
        Quotient(i', len);
        Insertions(Insert(output, i' % len, n + i' / len), n + i' / len, i' % len + 1,
                   Adapt(if i' >= i then i' - i else 0, len, i == 0), rest)
  }

  /** How many code points are in front of the last delimiter; 0 if there is none. */
  function BasicPart(input: Text): (n: nat)
    ensures n == 0 || (n < |input| && input[n] == '-' as nat)
  {
    if input == [] then 0
    else if input[|input| - 1] == '-' as nat then |input| - 1
    else BasicPart(input[..|input| - 1])
  }

  /** Section 6.2. */
  function Decode(input: Text): (r: Option<Text>)
    ensures r.Some? ==> |r.value| <= |input|
  {
    var b := BasicPart(input);
    if exists i :: 0 <= i < b && input[i] >= 128 then None
    else Insertions(input[..b], 128, 0, 72, if b > 0 then input[b + 1..] else input)
  }
}
