/**
 What a line of an INI file means, in terms of its text: blank lines and comments, continued values, section headers
 and pairs.  Written apart from the scanning functions that follow ini.c.
 */
module IniGrammar {
  import opened Basics
  import opened IniText

  /** White space in the "C" locale. */
  predicate White(c: char) {
    c == ' ' || c == '\t' || c == '\n' || c == '\r' || c == 11 as char || c == 12 as char
  }

  predicate AllWhite(s: string) { forall i :: 0 <= i < |s| ==> White(s[i]) }

  /** `v` is `t` without the white space around it. */
  predicate Around(t: string, front: string, v: string, back: string) {
    && t == front + v + back && AllWhite(front) && AllWhite(back)
    && (v != [] ==> !White(v[0]) && !White(v[|v| - 1]))
  }

  /** A semicolon behind white space starts a comment; there is none in `t`. */
  predicate Plain(t: string) { forall i :: 0 < i < |t| && White(t[i - 1]) ==> t[i] != ';' }

  /** `t` is followed by the end of the line or by such a comment. */
  predicate Ends(t: string, rest: string) {
    rest == [] || (rest[0] == ';' && t != [] && White(t[|t| - 1]))
  }

  /** The value in the text behind a delimiter. */
  ghost predicate Value(t: string, v: string) {
    exists used, rest :: ValueIn(t, used, rest, v)
  }

  ghost predicate ValueIn(t: string, used: string, rest: string, v: string) {
    t == used + rest && Plain(used) && Ends(used, rest) && exists front, back :: Around(used, front, v, back)
  }

  /** "[name]", and anything behind it. */
  predicate Header(body: string, name: string, rest: string) {
    body == "[" + name + "]" + rest && Plain(name) && forall c | c in name :: c != ']'
  }

  /** A name, "=" or ":", and the text of the value. */
  predicate Halves(body: string, left: string, d: char, right: string) {
    && body == left + [d] + right && (d == '=' || d == ':')
    && Plain(left) && forall c | c in left :: c != '=' && c != ':'
  }

  datatype Meaning =
    | Nothing
    | More(value: string)
    | Opens(section: string)
    | Assigns(name: string, value: string)
    | Wrong

  /** A line with its indentation: not blank and no comment, and what it continues if there is a name before it. */
  predicate Continues(s: State, front: string, body: string, mark: bool) {
    s.prev != "" && (front != [] || mark) && Matters(body)
  }

  predicate Matters(body: string) { body != [] && body[0] != ';' && body[0] != '#' }

  ghost predicate BodyMeans(s: State, front: string, body: string, mark: bool, m: Meaning) {
    match m
    case Nothing => !Matters(body)
    case More(value) => Continues(s, front, body, mark) && value == body
    case Opens(name) => StartsOver(s, front, body, mark) && body[0] == '[' && exists rest :: Header(body, name, rest)
    case Assigns(name, value) =>
      && StartsOver(s, front, body, mark) && body[0] != '['
      && exists left, d, right :: Halves(body, left, d, right) && NameOf(left, name) && Value(right, value)
    case Wrong =>
      && StartsOver(s, front, body, mark)
      && if body[0] == '[' then forall name, rest :: !Header(body, name, rest)
         else forall left, d, right :: !Halves(body, left, d, right)
  }

  predicate StartsOver(s: State, front: string, body: string, mark: bool) {
    Matters(body) && !Continues(s, front, body, mark)
  }

  ghost predicate NameOf(left: string, name: string) {
    exists back :: left == name + back && AllWhite(back) && (name != [] ==> !White(name[|name| - 1]))
  }

  /** The first line may begin with a byte order mark. */
  predicate Marked(s: State, line: string) {
    s.lineno == 0 && |line| >= 3 && line[0] as int == 0xEF && line[1] as int == 0xBB && line[2] as int == 0xBF
  }

  /** What the next line means in a state. */
  ghost predicate Means(s: State, line: string, m: Meaning) {
    exists front, body, back :: LineMeans(s, line, front, body, back, m)
  }

  ghost predicate LineMeans(s: State, line: string, front: string, body: string, back: string, m: Meaning) {
    && Around(if Marked(s, line) then line[3..] else line, front, body, back)
    && BodyMeans(s, front, body, Marked(s, line), m)
  }

  function First49(s: string): string { if |s| <= 49 then s else s[..49] }

  /** What becomes of the state: the handler's calls, the section, the name that a continuation belongs to and the
      number of the first line that failed. */
  function After(s: State, m: Meaning, handler: Handler): State {
    var n := s.lineno + 1;
    match m
    case Nothing => State(s.section, s.prev, s.calls, n, s.error)
    case More(v) => Called(s, s.prev, Call(s.section, s.prev, v), handler)
    case Opens(name) => State(First49(name), "", s.calls, n, s.error)
    case Assigns(name, v) => Called(s, First49(name), Call(s.section, name, v), handler)
    case Wrong => State(s.section, s.prev, s.calls, n, if s.error == 0 then n else s.error)
  }

  function Called(s: State, prev: string, c: Call, handler: Handler): State {
    var n := s.lineno + 1;
    State(s.section, prev, s.calls + [c], n, if s.error == 0 && !handler(|s.calls|, c) then n else s.error)
  }

  // ---------- scanning ----------

  lemma SpaceIsWhite(c: char)
    ensures IsSpace(c) <==> White(c)
  {
    assert (c as int) as char == c;
  }

  lemma {:induction false} RStripWhite(a: string, c: string)
    requires AllWhite(c) && (a != [] ==> !White(a[|a| - 1]))
    ensures RStrip(a + c) == a
    decreases |c|
  {
    if c == [] {
      assert a + c == a;
      if a != [] { SpaceIsWhite(a[|a| - 1]); }
    } else {
      SpaceIsWhite(c[|c| - 1]);
      assert (a + c)[..|a + c| - 1] == a + c[..|c| - 1];
      RStripWhite(a, c[..|c| - 1]);
    }
  }

  lemma {:induction false} LSkipWhite(a: string, b: string)
    requires AllWhite(a) && (b != [] ==> !White(b[0]))
    ensures LSkip(a + b) == b
    decreases |a|
  {
    if a == [] {
      assert a + b == b;
      if b != [] { SpaceIsWhite(b[0]); }
    } else {
      SpaceIsWhite(a[0]);
      assert (a + b)[1..] == a[1..] + b;
      LSkipWhite(a[1..], b);
    }
  }

  lemma TrimIs(t: string, front: string, v: string, back: string)
    requires Around(t, front, v, back)
    ensures LSkip(RStrip(t)) == v && RStrip(LSkip(t)) == v && (v != [] ==> RStrip(t) == front + v)
  {
    if v == [] {
      assert t == [] + t && t == t + [];
      RStripWhite([], t);
      LSkipWhite(t, []);
    } else {
      RStripWhite(front + v, back);
      LSkipWhite(front, v);
      Assoc(front, v, back);
      LSkipWhite(front, v + back);
      RStripWhite(v, back);
    }
  }

  lemma {:induction false} RStripSplit(t: string) returns (back: string)
    ensures t == RStrip(t) + back && AllWhite(back) && (RStrip(t) != [] ==> !White(RStrip(t)[|RStrip(t)| - 1]))
    decreases |t|
  {
    if t != [] { SpaceIsWhite(t[|t| - 1]); }
    if t == [] || !IsSpace(t[|t| - 1]) {
      back := [];
    } else {
      var more := RStripSplit(t[..|t| - 1]);
      back := more + [t[|t| - 1]];
      assert t == t[..|t| - 1] + [t[|t| - 1]];
      Assoc(RStrip(t), more, [t[|t| - 1]]);
    }
  }

  lemma {:induction false} LSkipSplit(t: string) returns (front: string)
    ensures t == front + LSkip(t) && AllWhite(front) && (LSkip(t) != [] ==> !White(LSkip(t)[0]))
    decreases |t|
  {
    if t != [] { SpaceIsWhite(t[0]); }
    if t == [] || !IsSpace(t[0]) {
      front := [];
    } else {
      var more := LSkipSplit(t[1..]);
      front := [t[0]] + more;
      assert t == [t[0]] + t[1..];
      Assoc([t[0]], more, LSkip(t));
    }
  }

  /** Every text has its trimmed middle. */
  lemma Trim(t: string) returns (front: string, v: string, back: string)
    ensures Around(t, front, v, back)
  {
    back := RStripSplit(t);
    front := LSkipSplit(RStrip(t));
    v := LSkip(RStrip(t));
    if v != [] { assert v[|v| - 1] == RStrip(t)[|RStrip(t)| - 1]; }
  }

  // ---------- finding a delimiter or a comment ----------

  /** The scan stops in front of `rest`. */
  predicate Halts(a: string, rest: string, chars: string, wasSpace: bool) {
    rest != [] ==> rest[0] in chars || (rest[0] == ';' && if a == [] then wasSpace else White(a[|a| - 1]))
  }

  predicate Passes(a: string, chars: string, wasSpace: bool) {
    && Free(a, chars) && Plain(a) && (a != [] && wasSpace ==> a[0] != ';')
  }

  lemma {:induction false} FindAt(a: string, rest: string, chars: string, wasSpace: bool)
    requires Passes(a, chars, wasSpace) && Halts(a, rest, chars, wasSpace)
    ensures Find(a + rest, chars, wasSpace) == |a|
    decreases |a|
  {
    if a == [] {
      assert a + rest == rest;
    } else {
      SpaceIsWhite(a[0]);
      assert a[0] !in chars && (a + rest)[1..] == a[1..] + rest;
      assert forall i :: 0 <= i < |a| - 1 ==> a[1..][i] == a[i + 1];
      if |a| > 1 { assert White(a[0]) ==> a[1] != ';'; }
      FindAt(a[1..], rest, chars, IsSpace(a[0]));
    }
  }

  lemma {:induction false} FindSplit(t: string, chars: string, wasSpace: bool)
    ensures var e := Find(t, chars, wasSpace); Passes(t[..e], chars, wasSpace) && Halts(t[..e], t[e..], chars, wasSpace)
    decreases |t|
  {
    if !(t == [] || t[0] in chars || (wasSpace && t[0] == ';')) {
      SpaceIsWhite(t[0]);
      FindSplit(t[1..], chars, IsSpace(t[0]));
      var e := Find(t[1..], chars, IsSpace(t[0]));
      SplitMore(t, e, chars, wasSpace);
    }
  }

  lemma SplitMore(t: string, e: nat, chars: string, wasSpace: bool)
    requires t != [] && e < |t| && t[0] !in chars && !(wasSpace && t[0] == ';')
    requires Passes(t[1..][..e], chars, White(t[0])) && Halts(t[1..][..e], t[1..][e..], chars, White(t[0]))
    ensures Passes(t[..e + 1], chars, wasSpace) && Halts(t[..e + 1], t[e + 1..], chars, wasSpace)
  {
    var a, b := t[1..][..e], t[..e + 1];
    assert b == [t[0]] + a && t[1..][e..] == t[e + 1..];
  }

  // ---------- headers and pairs ----------

  lemma HeaderIs(s: State, body: string, name: string, rest: string)
    requires Header(body, name, rest)
    ensures SectionLine(s, body[1..]) == s.(section := First49(name), prev := "")
  {
    assert body[1..] == name + ("]" + rest) && forall i :: 0 <= i < |name| ==> name[i] in name;
    FindAt(name, "]" + rest, "]", false);
    assert (name + ("]" + rest))[..|name|] == name;
  }

  lemma HeaderFound(body: string, e: nat)
    requires body != [] && body[0] == '[' && e == Find(body[1..], "]", false) < |body| - 1 && body[e + 1] == ']'
    ensures Header(body, body[1..][..e], body[1..][e + 1..])
  {
    FindSplit(body[1..], "]", false);
  }

  lemma NoHeader(s: State, body: string)
    requires body != [] && body[0] == '[' && forall name, rest :: !Header(body, name, rest)
    ensures SectionLine(s, body[1..]) == Failed(s)
  {
    var e := Find(body[1..], "]", false);
    if e < |body| - 1 && body[e + 1] == ']' { HeaderFound(body, e); }
  }

  lemma ValueIs(t: string, v: string)
    requires Value(t, v)
    ensures ValueOf(t) == v
  {
    var used, rest :| ValueIn(t, used, rest, v);
    var front, back :| Around(used, front, v, back);
    FindAt(used, rest, "", false);
    assert t[..|used|] == used;
    TrimIs(used, front, v, back);
  }

  lemma SomeValue(t: string)
    ensures Value(t, ValueOf(t))
  {
    var e := Find(t, "", false);
    FindSplit(t, "", false);
    var front, v, back := Trim(t[..e]);
    TrimIs(t[..e], front, v, back);
    ValueHolds(t, t[..e], t[e..], front, v, back);
  }

  lemma ValueHolds(t: string, used: string, rest: string, front: string, v: string, back: string)
    requires t == used + rest && Plain(used) && Ends(used, rest) && Around(used, front, v, back)
    ensures Value(t, v)
  {
    assert ValueIn(t, used, rest, v);
  }

  lemma NameIs(left: string, name: string)
    requires NameOf(left, name)
    ensures RStrip(left) == name
  {
    var back :| left == name + back && AllWhite(back) && (name != [] ==> !White(name[|name| - 1]));
    RStripWhite(name, back);
  }

  lemma SomeName(left: string)
    ensures NameOf(left, RStrip(left))
  {
    var back := RStripSplit(left);
  }

  lemma HalvesFound(body: string, left: string, d: char, right: string)
    requires Halves(body, left, d, right)
    ensures var e := Find(body, "=:", false);
      e < |body| && body[e] in "=:" && body[..e] == left && body[e + 1..] == right
  {
    Assoc(left, [d], right);
    assert forall i :: 0 <= i < |left| ==> left[i] in left;
    FindAt(left, [d] + right, "=:", false);
  }

  lemma PairIs(s: State, body: string, left: string, d: char, right: string, name: string, v: string, handler: Handler)
    requires Halves(body, left, d, right) && NameOf(left, name) && Value(right, v)
    ensures PairLine(s, body, handler) == Handled(s.(prev := First49(name)), Call(s.section, name, v), handler)
  {
    HalvesFound(body, left, d, right);
    NameIs(left, name);
    ValueIs(right, v);
  }

  lemma SomeHalves(body: string) returns (left: string, d: char, right: string)
    requires var e := Find(body, "=:", false); e < |body| && body[e] in "=:"
    ensures Halves(body, left, d, right)
  {
    var e := Find(body, "=:", false);
    FindSplit(body, "=:", false);
    left, d, right := body[..e], body[e], body[e + 1..];
  }

  lemma NoHalves(s: State, body: string, handler: Handler)
    requires forall left, d, right :: !Halves(body, left, d, right)
    ensures PairLine(s, body, handler) == Failed(s)
  {
    var e := Find(body, "=:", false);
    if e < |body| && body[e] in "=:" {
      var left, d, right := SomeHalves(body);
    }
  }

  // ---------- the line ----------

  lemma BodyIs(s: State, front: string, body: string, mark: bool, m: Meaning, handler: Handler)
    requires BodyMeans(s, front, body, mark, m)
    ensures Stripped(s.(lineno := s.lineno + 1), body, front != [] || mark, handler) == After(s, m, handler)
  {
    var s1 := s.(lineno := s.lineno + 1);
    match m {
      case Nothing =>
      case More(_) =>
      case Opens(name) =>
        var rest :| Header(body, name, rest);
        HeaderIs(s1, body, name, rest);
      case Assigns(name, v) =>
        var left, d, right :| Halves(body, left, d, right) && NameOf(left, name) && Value(right, v);
        PairIs(s1, body, left, d, right, name, v, handler);
      case Wrong =>
        if body[0] == '[' { NoHeader(s1, body); } else { NoHalves(s1, body, handler); }
    }
  }

  lemma LineStrips(s: State, line: string, t: string, handler: Handler)
    requires t == if Marked(s, line) then line[3..] else line
    ensures Line(s, line, handler) == Stripped(s.(lineno := s.lineno + 1), LSkip(RStrip(t)),
                                               Marked(s, line) || |LSkip(RStrip(t))| < |RStrip(t)|, handler)
  {
  }

  lemma BlankLine(s: State, a: bool, b: bool, handler: Handler)
    ensures Stripped(s, [], a, handler) == Stripped(s, [], b, handler)
  {
  }

  lemma LineOf(s: State, line: string, t: string, front: string, body: string, back: string, handler: Handler)
    requires t == (if Marked(s, line) then line[3..] else line) && Around(t, front, body, back)
    ensures Line(s, line, handler)
         == Stripped(s.(lineno := s.lineno + 1), body, front != [] || Marked(s, line), handler)
  {
    TrimIs(t, front, body, back);
    LineStrips(s, line, t, handler);
    if body == [] {
      BlankLine(s.(lineno := s.lineno + 1), Marked(s, line) || |body| < |RStrip(t)|, front != [] || Marked(s, line),
                handler);
    }
  }

  /** ini_parse_stream does with every line what its meaning says. */
  lemma LineIs(s: State, line: string, m: Meaning, handler: Handler)
    requires Means(s, line, m)
    ensures Line(s, line, handler) == After(s, m, handler)
  {
    var front, body, back :| LineMeans(s, line, front, body, back, m);
    LineOf(s, line, if Marked(s, line) then line[3..] else line, front, body, back, handler);
    BodyIs(s, front, body, Marked(s, line), m, handler);
  }

  lemma BodyMeaning(s: State, front: string, body: string, mark: bool) returns (m: Meaning)
    ensures BodyMeans(s, front, body, mark, m)
  {
    if !Matters(body) {
      m := Nothing;
    } else if Continues(s, front, body, mark) {
      m := More(body);
    } else if body[0] == '[' {
      if name, rest :| Header(body, name, rest) { m := Opens(name); } else { m := Wrong; }
    } else if left, d, right :| Halves(body, left, d, right) {
      SomeName(left);
      SomeValue(right);
      m := Assigns(RStrip(left), ValueOf(right));
    } else {
      m := Wrong;
    }
  }

  /** And every line has a meaning. */
  lemma EveryLine(s: State, line: string) returns (m: Meaning)
    ensures Means(s, line, m)
  {
    var front, body, back := Trim(if Marked(s, line) then line[3..] else line);
    m := BodyMeaning(s, front, body, Marked(s, line));
    assert LineMeans(s, line, front, body, back, m);
  }

  // ---------- the text ----------

  /** The meanings of lines, each in the state behind the one before. */
  ghost predicate AllMean(s: State, lines: seq<string>, ms: seq<Meaning>, handler: Handler)
    requires |ms| == |lines|
    decreases |lines|
  {
    lines != [] ==> Means(s, lines[0], ms[0]) && AllMean(After(s, ms[0], handler), lines[1..], ms[1..], handler)
  }

  function Effects(s: State, ms: seq<Meaning>, handler: Handler): State
    decreases |ms|
  {
    if ms == [] then s else Effects(After(s, ms[0], handler), ms[1..], handler)
  }

  lemma {:induction false} LinesAre(s: State, lines: seq<string>, ms: seq<Meaning>, handler: Handler)
    requires |ms| == |lines| && AllMean(s, lines, ms, handler)
    ensures Lines(s, lines, handler) == Effects(s, ms, handler)
    decreases |lines|
  {
    if lines != [] {
      LineIs(s, lines[0], ms[0], handler);
      LinesAre(After(s, ms[0], handler), lines[1..], ms[1..], handler);
    }
  }

  lemma {:induction false} LinesMean(s: State, lines: seq<string>, handler: Handler) returns (ms: seq<Meaning>)
    ensures |ms| == |lines| && AllMean(s, lines, ms, handler)
    decreases |lines|
  {
    if lines == [] {
      ms := [];
    } else {
      var m := EveryLine(s, lines[0]);
      var more := LinesMean(After(s, m, handler), lines[1..], handler);
      ms := [m] + more;
    }
  }

  /** ini_parse_string makes the calls and has the result that the meanings of the lines add up to, from no section, no
      name and no error on. */
  lemma TextIs(text: string, handler: Handler) returns (ms: seq<Meaning>)
    ensures |ms| == |Pieces(text)| && AllMean(State("", "", [], 0, 0), Pieces(text), ms, handler)
    ensures Parse(text, handler) == Effects(State("", "", [], 0, 0), ms, handler)
  {
    ms := LinesMean(START, Pieces(text), handler);
    LinesAre(START, Pieces(text), ms, handler);
  }
}
