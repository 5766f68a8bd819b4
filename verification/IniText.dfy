/**
 The INI parser of ini.c as functions on strings, with the options ini.h sets: multi-line values, a byte order
 mark, inline comments and a line buffer of 200 characters.
 */
module IniText {
  import opened Basics

  const MAX_LINE: nat := 200
  const MAX_SECTION: nat := 50
  const MAX_NAME: nat := 50

  /** isspace in the "C" locale. */
  predicate IsSpace(c: char) {
    c == ' ' || 9 <= c as int <= 13
  }

  function RStrip(s: string): string {
    if s == [] || !IsSpace(s[|s| - 1]) then s else RStrip(s[..|s| - 1])
  }

  function LSkip(s: string): string {
    if s == [] || !IsSpace(s[0]) then s else LSkip(s[1..])
  }

  /** find_chars_or_comment: the place of the first of `chars`, or of a semicolon behind white space. */
  function Find(s: string, chars: string, wasSpace: bool): (r: nat)
    ensures r <= |s|
  {
    if s == [] || s[0] in chars || (wasSpace && s[0] == ';') then 0 else 1 + Find(s[1..], chars, IsSpace(s[0]))
  }

  /** strncpy0 into `size` bytes. */
  function Clip(s: string, size: nat): string
    requires size > 0
  {
    if |s| < size then s else s[..size - 1]
  }

  // ---------- reading lines ----------

  /** What one call of ini_reader_string takes from a text: up to a newline, and at most `num - 1` characters. */
  function Piece(text: string, num: nat): (r: string)
    ensures |r| <= |text| && text[..|r|] == r
    ensures text != [] && num > 1 ==> r != []
  {
    if text == [] || num <= 1 then []
    else if text[0] == '\n' then text[..1]
    else [text[0]] + Piece(text[1..], num - 1)
  }

  lemma PieceStep(text: string, num: nat)
    requires text != [] && num > 1
    ensures Piece(text, num) == [text[0]] + if text[0] == '\n' then [] else Piece(text[1..], num - 1)
  {
  }

  function Pieces(text: string): seq<string>
    decreases |text|
  {
    if text == [] then []
    else
      var p := Piece(text, MAX_LINE);
      [p] + Pieces(text[|p|..])
  }

  // ---------- one line ----------

  datatype Call = Call(section: string, name: string, value: string)

  /** Whether the handler, called for the k-th time, reports success. */
  type Handler = (nat, Call) -> bool

  datatype State = State(section: string, prev: string, calls: seq<Call>, lineno: nat, error: nat)

  const START := State("", "", [], 0, 0)

  function Failed(s: State): State {
    if s.error == 0 then s.(error := s.lineno) else s
  }

  function Handled(s: State, c: Call, handler: Handler): State {
    var r := s.(calls := s.calls + [c]);
    if handler(|s.calls|, c) then r else Failed(r)
  }

  predicate HasBom(line: string) {
    |line| >= 3 && line[0] as int == 0xEF && line[1] as int == 0xBB && line[2] as int == 0xBF
  }

  /** The value behind a delimiter: up to an inline comment, without white space around it. */
  function ValueOf(s: string): string {
    RStrip(LSkip(s[..Find(s, "", false)]))
  }

  function SectionLine(s: State, rest: string): State {
    var e := Find(rest, "]", false);
    if e < |rest| && rest[e] == ']' then s.(section := Clip(rest[..e], MAX_SECTION), prev := "") else Failed(s)
  }

  function PairLine(s: State, start: string, handler: Handler): State {
    var e := Find(start, "=:", false);
    if e < |start| && start[e] in "=:" then
      var name := RStrip(start[..e]);
      Handled(s.(prev := Clip(name, MAX_NAME)), Call(s.section, name, ValueOf(start[e + 1..])), handler)
    else Failed(s)
  }

  /** A line without its surrounding white space; `indented` if there was some in front of it, or a mark. */
  function Stripped(s: State, start: string, indented: bool, handler: Handler): State {
    if start == [] || start[0] in ";#" then s
    else if s.prev != "" && indented then Handled(s, Call(s.section, s.prev, start), handler)
    else if start[0] == '[' then SectionLine(s, start[1..])
    else PairLine(s, start, handler)
  }

  function Line(s: State, line: string, handler: Handler): State {
    var s1 := s.(lineno := s.lineno + 1);
    var body := if s1.lineno == 1 && HasBom(line) then line[3..] else line;
    var start := LSkip(RStrip(body));
    Stripped(s1, start, |body| < |line| || |start| < |RStrip(body)|, handler)
  }

  function Lines(s: State, lines: seq<string>, handler: Handler): State
    decreases |lines|
  {
    if lines == [] then s else Lines(Line(s, lines[0], handler), lines[1..], handler)
  }

  /** ini_parse_string. */
  function Parse(text: string, handler: Handler): State {
    Lines(START, Pieces(text), handler)
  }

  // ---------- the result is the first failing line ----------

  /** A line without a closing bracket or a delimiter, or whose handler call fails. */
  predicate Fails(s: State, line: string, handler: Handler) {
    Line(s.(error := 0), line, handler).error != 0
  }

  lemma LineError(s: State, line: string, handler: Handler)
    ensures var r := Line(s, line, handler);
            && r.lineno == s.lineno + 1
            && r.error == if s.error != 0 || !Fails(s, line, handler) then s.error else r.lineno
  {
  }

  /** The state in front of line `k`, counted from 0. */
  function Before(s: State, lines: seq<string>, k: nat, handler: Handler): State
    requires k <= |lines|
  {
    Lines(s, lines[..k], handler)
  }

  lemma {:induction false} LinesSplit(s: State, lines: seq<string>, k: nat, handler: Handler)
    requires k <= |lines|
    ensures Lines(s, lines, handler) == Lines(Before(s, lines, k, handler), lines[k..], handler)
    decreases |lines|
  {
    if k == 0 {
      assert lines[..0] == [] && lines[0..] == lines;
    } else {
      LinesSplit(Line(s, lines[0], handler), lines[1..], k - 1, handler);
      assert lines[..k][1..] == lines[1..][..k - 1] && lines[1..][k - 1..] == lines[k..];
    }
  }

  lemma {:induction false} LinenoCounts(s: State, lines: seq<string>, handler: Handler)
    ensures Lines(s, lines, handler).lineno == s.lineno + |lines|
    decreases |lines|
  {
    if lines != [] {
      LineError(s, lines[0], handler);
      LinenoCounts(Line(s, lines[0], handler), lines[1..], handler);
    }
  }

  predicate FailsAt(s: State, lines: seq<string>, k: nat, handler: Handler)
    requires k < |lines|
  {
    Fails(Before(s, lines, k, handler), lines[k], handler)
  }

  lemma BeforeNext(s: State, lines: seq<string>, k: nat, handler: Handler)
    requires k < |lines|
    ensures Before(s, lines, k + 1, handler) == Line(Before(s, lines, k, handler), lines[k], handler)
  {
    LinesSplit(s, lines[..k + 1], k, handler);
    assert lines[..k + 1][..k] == lines[..k] && lines[..k + 1][k..] == [lines[k]];
    var s' := Before(s, lines, k, handler);
    assert Lines(s', [lines[k]], handler) == Line(s', lines[k], handler);
  }

  /** `e` is the number of the first failing line among the first `k`, or 0. */
  predicate FirstFailure(lines: seq<string>, k: nat, e: nat, handler: Handler)
    requires k <= |lines|
  {
    && e <= k
    && (e > 0 ==> FailsAt(START, lines, e - 1, handler))
    && forall j :: 0 <= j < (if e == 0 then k else e - 1) ==> !FailsAt(START, lines, j, handler)
  }

  lemma {:induction false} ErrorUpTo(lines: seq<string>, k: nat, handler: Handler) returns (e: nat)
    requires k <= |lines|
    ensures e == Before(START, lines, k, handler).error && FirstFailure(lines, k, e, handler)
  {
    if k == 0 {
      e := 0;
    } else {
      var e0 := ErrorUpTo(lines, k - 1, handler);
      e := ErrorNext(lines, k - 1, e0, handler);
    }
  }

  lemma ErrorNext(lines: seq<string>, k: nat, e0: nat, handler: Handler) returns (e: nat)
    requires k < |lines| && e0 == Before(START, lines, k, handler).error && FirstFailure(lines, k, e0, handler)
    ensures e == Before(START, lines, k + 1, handler).error && FirstFailure(lines, k + 1, e, handler)
  {
    ErrorOnce(lines, k, handler);
    e := if e0 != 0 || !FailsAt(START, lines, k, handler) then e0 else k + 1;
    FirstNext(lines, k, e0, handler);
  }

  lemma ErrorOnce(lines: seq<string>, k: nat, handler: Handler)
    requires k < |lines|
    ensures var e := Before(START, lines, k, handler).error;
            Before(START, lines, k + 1, handler).error ==
            if e != 0 || !FailsAt(START, lines, k, handler) then e else k + 1
  {
    BeforeNext(START, lines, k, handler);
    LineError(Before(START, lines, k, handler), lines[k], handler);
    LinenoCounts(START, lines[..k], handler);
  }

  lemma FirstNext(lines: seq<string>, k: nat, e: nat, handler: Handler)
    requires k < |lines| && FirstFailure(lines, k, e, handler)
    ensures FirstFailure(lines, k + 1, if e != 0 || !FailsAt(START, lines, k, handler) then e else k + 1, handler)
  {
  }

  /** The result is 0 if no line fails, and else the number of the first that does. */
  lemma ResultIsFirstFailure(text: string, handler: Handler)
    ensures FirstFailure(Pieces(text), |Pieces(text)|, Parse(text, handler).error, handler)
  {
    var lines := Pieces(text);
    assert lines[..|lines|] == lines;
    var _ := ErrorUpTo(lines, |lines|, handler);
  }

  // ---------- lines and pieces ----------

  function Concat(lines: seq<string>): string {
    if lines == [] then [] else lines[0] + Concat(lines[1..])
  }

  /** Nothing of the text is lost. */
  lemma {:induction false} PiecesWhole(text: string)
    ensures Concat(Pieces(text)) == text
    decreases |text|
  {
    if text != [] { PiecesWhole(text[|Piece(text, MAX_LINE)|..]); }
  }

  /** A line with its newline that fits in the buffer. */
  predicate ShortLine(line: string) {
    0 < |line| < MAX_LINE && line[|line| - 1] == '\n' && '\n' !in line[..|line| - 1]
  }

  lemma {:induction false} PieceLine(line: string, rest: string, num: nat)
    requires 0 < |line| < num && line[|line| - 1] == '\n' && '\n' !in line[..|line| - 1]
    ensures Piece(line + rest, num) == line
    decreases |line|
  {
    if |line| == 1 {
      assert (line + rest)[..1] == line;
    } else {
      assert line[0] in line[..|line| - 1] && (line + rest)[1..] == line[1..] + rest;
      PieceLine(line[1..], rest, num - 1);
    }
  }

  lemma {:induction false} PieceEnd(last: string, num: nat)
    requires |last| < num && '\n' !in last
    ensures Piece(last, num) == last
    decreases |last|
  {
    if last != [] { PieceEnd(last[1..], num - 1); }
  }

  /** A text of short lines, the last perhaps without a newline, is read line by line. */
  lemma {:induction false} PiecesAreLines(lines: seq<string>, last: string)
    requires forall l :: l in lines ==> ShortLine(l)
    requires |last| < MAX_LINE && '\n' !in last
    ensures Pieces(Concat(lines) + last) == lines + if last == [] then [] else [last]
    decreases |lines|
  {
    if lines == [] {
      assert Concat(lines) + last == last;
      PieceEnd(last, MAX_LINE);
    } else {
      var rest := Concat(lines[1..]) + last;
      assert lines[0] in lines;
      Assoc(lines[0], Concat(lines[1..]), last);
      PiecesLine(lines[0], rest);
      PiecesAreLines(lines[1..], last);
      assert lines == [lines[0]] + lines[1..];
    }
  }

  lemma PiecesLine(line: string, rest: string)
    requires ShortLine(line)
    ensures Pieces(line + rest) == [line] + Pieces(rest)
  {
    PieceLine(line, rest, MAX_LINE);
    assert (line + rest)[|line|..] == rest;
  }

  lemma {:induction false} PieceFits(text: string, num: nat)
    requires num > 0
    ensures |Piece(text, num)| < num
    decreases |text|
  {
    if text != [] && num > 1 { PieceFits(text[1..], num - 1); }
  }

  lemma {:induction false} PiecesFit(text: string)
    ensures forall i :: 0 <= i < |Pieces(text)| ==> |Pieces(text)[i]| < MAX_LINE
    decreases |text|
  {
    if text != [] {
      PieceFits(text, MAX_LINE);
      PiecesFit(text[|Piece(text, MAX_LINE)|..]);
    }
  }

  /** A piece ends with its only newline, at 199 characters or with the text. */
  predicate PieceOk(p: string, last: bool) {
    && 0 < |p| <= 199 && '\n' !in p[..|p| - 1]
    && (p[|p| - 1] == '\n' || |p| == 199 || last)
  }

  lemma {:induction false} PieceEnds(text: string, num: nat)
    requires text != [] && num > 1
    ensures var p := Piece(text, num);
      && 0 < |p| < num && '\n' !in p[..|p| - 1] && (p[|p| - 1] == '\n' || |p| == num - 1 || |p| == |text|)
    decreases |text|
  {
    if text[0] != '\n' && num > 2 && |text| > 1 {
      PieceEnds(text[1..], num - 1);
      var p, q := Piece(text, num), Piece(text[1..], num - 1);
      assert p == [text[0]] + q && p[..|p| - 1] == [text[0]] + q[..|q| - 1];
    }
  }

  /** Where a text is cut into pieces. */
  lemma {:induction false} PiecesShape(text: string)
    ensures forall i :: 0 <= i < |Pieces(text)| ==> PieceOk(Pieces(text)[i], i == |Pieces(text)| - 1)
    decreases |text|
  {
    if text != [] {
      PieceEnds(text, MAX_LINE);
      PiecesShape(text[|Piece(text, MAX_LINE)|..]);
    }
  }

  /** Exactly the texts of short lines are read line by line; in others the line numbers count pieces. */
  lemma PiecesExact(lines: seq<string>, last: string)
    requires forall l :: l in lines ==> l != [] && l[|l| - 1] == '\n' && '\n' !in l[..|l| - 1]
    requires '\n' !in last
    ensures Pieces(Concat(lines) + last) == lines + (if last == [] then [] else [last])
       <==> (forall l :: l in lines ==> |l| < 200) && |last| < 200
  {
    var text, whole := Concat(lines) + last, lines + if last == [] then [] else [last];
    if Pieces(text) == whole {
      PiecesFit(text);
      forall i | 0 <= i < |lines| ensures |lines[i]| < MAX_LINE { assert whole[i] == lines[i]; }
      if last != [] { assert whole[|lines|] == last; }
    }
    if (forall l :: l in lines ==> |l| < MAX_LINE) && |last| < MAX_LINE { PiecesAreLines(lines, last); }
  }

  // ---------- the result on the lines of the text ----------

  /** The first line of a text, with its newline. */
  function FirstLine(text: string): (r: string)
    ensures |r| <= |text| && text[..|r|] == r
    ensures text != [] ==> r != []
  {
    if text == [] then [] else if text[0] == '\n' then text[..1] else [text[0]] + FirstLine(text[1..])
  }

  /** The lines of a text, however long. */
  function TextLines(text: string): seq<string>
    decreases |text|
  {
    if text == [] then [] else [FirstLine(text)] + TextLines(text[|FirstLine(text)|..])
  }

  lemma {:induction false} PieceIsLine(text: string, num: nat)
    requires |FirstLine(text)| < num
    ensures Piece(text, num) == FirstLine(text)
    decreases |text|
  {
    if text != [] && text[0] != '\n' { PieceIsLine(text[1..], num - 1); }
  }

  /** As long as the lines are short, the pieces are the lines. */
  lemma {:induction false} PiecesUpTo(text: string, k: nat)
    requires k <= |TextLines(text)| && forall j :: 0 <= j < k ==> |TextLines(text)[j]| < MAX_LINE
    ensures k <= |Pieces(text)| && Pieces(text)[..k] == TextLines(text)[..k]
    ensures k == |TextLines(text)| ==> Pieces(text) == TextLines(text)
    decreases |text|
  {
    if k > 0 {
      assert |TextLines(text)[0]| < MAX_LINE;
      PieceIsLine(text, MAX_LINE);
      var rest := text[|FirstLine(text)|..];
      assert TextLines(text)[1..] == TextLines(rest) && Pieces(text)[1..] == Pieces(rest);
      forall j | 0 <= j < k - 1 ensures |TextLines(rest)[j]| < MAX_LINE {
        assert TextLines(text)[j + 1] == TextLines(rest)[j];
      }
      PiecesUpTo(rest, k - 1);
      assert Pieces(text)[..k] == [Pieces(text)[0]] + Pieces(rest)[..k - 1];
      assert TextLines(text)[..k] == [TextLines(text)[0]] + TextLines(rest)[..k - 1];
    }
  }

  lemma SamePrefix(a: seq<string>, b: seq<string>, k: nat, j: nat, handler: Handler)
    requires j < k <= |a| && k <= |b| && a[..k] == b[..k]
    ensures FailsAt(START, a, j, handler) == FailsAt(START, b, j, handler)
  {
    assert a[..j] == a[..k][..j] && b[..j] == b[..k][..j] && a[j] == a[..k][j] && b[j] == b[..k][j];
  }

  /** If the first `k` lines are short, the result is the number of the first of them that fails; it is 0 or
      larger than `k` if none does. */
  lemma ResultUpTo(text: string, k: nat, handler: Handler)
    requires k <= |TextLines(text)| && forall j :: 0 <= j < k ==> |TextLines(text)[j]| < MAX_LINE
    ensures var e := Parse(text, handler).error;
            FirstFailure(TextLines(text), k, if e <= k then e else 0, handler)
  {
    var lines, pieces, e := TextLines(text), Pieces(text), Parse(text, handler).error;
    PiecesUpTo(text, k);
    ResultIsFirstFailure(text, handler);
    forall j | 0 <= j < k ensures FailsAt(START, lines, j, handler) == FailsAt(START, pieces, j, handler) {
      SamePrefix(lines, pieces, k, j, handler);
    }
  }

  /** If all lines are short, the result is the number of the first line that fails, or 0. */
  lemma ResultOnLines(text: string, handler: Handler)
    requires forall j :: 0 <= j < |TextLines(text)| ==> |TextLines(text)[j]| < MAX_LINE
    ensures FirstFailure(TextLines(text), |TextLines(text)|, Parse(text, handler).error, handler)
  {
    PiecesUpTo(text, |TextLines(text)|);
    ResultIsFirstFailure(text, handler);
  }

  function Repeat(c: char, n: nat): string {
    if n == 0 then [] else [c] + Repeat(c, n - 1)
  }

  lemma {:induction false} RepeatAt(c: char, n: nat)
    ensures |Repeat(c, n)| == n && forall i :: 0 <= i < n ==> Repeat(c, n)[i] == c
  {
    if n > 0 { RepeatAt(c, n - 1); }
  }

  lemma {:induction false} LongPiece(a: string, rest: string, num: nat)
    requires num == |a| + 1 && '\n' !in a
    ensures Piece(a + rest, num) == a
    decreases |a|
  {
    if a == [] {
      assert a + rest == rest;
    } else {
      assert (a + rest)[1..] == a[1..] + rest && a[0] in a;
      LongPiece(a[1..], rest, num - 1);
    }
  }

  /** A long line that is one well-formed pair: the result is 1 for every handler. */
  lemma LongPairFails(handler: Handler)
    ensures var text := Repeat('a', MAX_LINE - 1) + "=v\n";
            && Parse(text, handler).error == 1
            && TextLines(text) == [text]
            && (Succeeds(handler) ==> !FailsAt(START, [text], 0, handler))
  {
    var a := Repeat('a', MAX_LINE - 1);
    RepeatAt('a', MAX_LINE - 1);
    LongPieces(a);
    LongFirst(a, handler);
    LinesHead(START, a, Pieces("=v\n"), handler);
    ErrorKept(Line(START, a, handler), Pieces("=v\n"), handler);
    LongWhole(a, handler);
  }

  lemma LongPieces(a: string)
    requires |a| == MAX_LINE - 1 && '\n' !in a
    ensures Pieces(a + "=v\n") == [a] + Pieces("=v\n")
    ensures TextLines(a + "=v\n") == [a + "=v\n"]
  {
    LongPiece(a, "=v\n", MAX_LINE);
    assert (a + "=v\n")[|a|..] == "=v\n";
    OneTextLine(a + "=v");
    assert (a + "=v") + "\n" == a + "=v\n";
  }

  lemma LinesHead(s: State, line: string, rest: seq<string>, handler: Handler)
    ensures Lines(s, [line] + rest, handler) == Lines(Line(s, line, handler), rest, handler)
  {
    assert ([line] + rest)[1..] == rest;
  }

  lemma LongFirst(a: string, handler: Handler)
    requires a != [] && forall i :: 0 <= i < |a| ==> a[i] == 'a'
    ensures Line(START, a, handler).error == 1
  {
    FindClear(a, [], "=:", false);
    assert a + [] == a;
  }

  lemma LongWhole(a: string, handler: Handler)
    requires a != [] && forall i :: 0 <= i < |a| ==> a[i] == 'a'
    ensures Succeeds(handler) ==> !FailsAt(START, [a + "=v\n"], 0, handler)
  {
    var text := a + "=v\n";
    assert [text][..0] == [];
    LineStripped(START, a + "=v", handler);
    assert a + "=v" + "\n" == text;
    FindClear(a, "=v", "=:", false);
  }

  lemma {:induction false} OneTextLine(x: string)
    requires '\n' !in x
    ensures FirstLine(x + "\n") == x + "\n" && TextLines(x + "\n") == [x + "\n"]
    decreases |x|
  {
    if x != [] {
      assert (x + "\n")[1..] == x[1..] + "\n" && x[0] in x;
      OneTextLine(x[1..]);
    }
  }

  /** Once a line has failed the result stays. */
  lemma {:induction false} ErrorKept(s: State, lines: seq<string>, handler: Handler)
    requires s.error != 0
    ensures Lines(s, lines, handler).error == s.error
    decreases |lines|
  {
    if lines != [] {
      LineError(s, lines[0], handler);
      ErrorKept(Line(s, lines[0], handler), lines[1..], handler);
    }
  }

  // ---------- printing and reading back ----------

  datatype Item = Section(name: string) | Pair(name: string, value: string)

  function ItemLine(item: Item): string {
    match item
    case Section(n) => "[" + n + "]\n"
    case Pair(n, v) => n + "=" + v + "\n"
  }

  function ItemLines(items: seq<Item>): seq<string> {
    seq(|items|, i requires 0 <= i < |items| => ItemLine(items[i]))
  }

  function Print(items: seq<Item>): string {
    Concat(ItemLines(items))
  }

  predicate Trimmed(s: string) {
    s != [] ==> !IsSpace(s[0]) && !IsSpace(s[|s| - 1])
  }

  predicate SpaceBefore(s: string, i: nat, wasSpace: bool)
    requires i < |s|
  {
    if i == 0 then wasSpace else IsSpace(s[i - 1])
  }

  /** No semicolon behind white space; `wasSpace` tells of the character in front. */
  predicate NoComment(s: string, wasSpace: bool) {
    forall i :: 0 <= i < |s| && SpaceBefore(s, i, wasSpace) ==> s[i] != ';'
  }

  predicate Free(s: string, chars: string) {
    forall i :: 0 <= i < |s| ==> s[i] !in chars
  }

  /** Fields that can be told apart on their line. */
  predicate Good(item: Item)
  {
    && |ItemLine(item)| < MAX_LINE
    && match item
       case Section(n) => Free(n, "]\n") && NoComment(n, false) && |n| < MAX_SECTION
       case Pair(n, v) =>
         && Free(n, "=:\n") && Trimmed(n) && NoComment(n, false) && (n != [] ==> n[0] !in ";#[")
         && Free(v, "\n") && Trimmed(v) && NoComment(v, false)
  }

  /** The handler calls that the items stand for. */
  function Expected(items: seq<Item>, section: string): seq<Call>
  {
    if items == [] then []
    else
      match items[0]
      case Section(n) => Expected(items[1..], n)
      case Pair(n, v) => [Call(section, n, v)] + Expected(items[1..], section)
  }

  lemma {:induction false} FindClear(a: string, rest: string, chars: string, wasSpace: bool)
    requires Free(a, chars) && NoComment(a, wasSpace) && (rest == [] || rest[0] in chars)
    ensures Find(a + rest, chars, wasSpace) == |a|
    decreases |a|
  {
    if a == [] {
      assert a + rest == rest;
    } else {
      assert a[0] !in chars;
      assert SpaceBefore(a, 0, wasSpace) == wasSpace;
      assert (a + rest)[1..] == a[1..] + rest;
      forall i | 0 <= i < |a| - 1 && SpaceBefore(a[1..], i, IsSpace(a[0])) ensures a[1..][i] != ';' {
        assert SpaceBefore(a, i + 1, wasSpace);
      }
      FindClear(a[1..], rest, chars, IsSpace(a[0]));
    }
  }

  lemma {:induction false} FindFull(s: string, wasSpace: bool)
    requires Find(s, "", wasSpace) == |s|
    ensures NoComment(s, wasSpace)
    decreases |s|
  {
    if s != [] {
      FindFull(s[1..], IsSpace(s[0]));
      forall i | 0 <= i < |s| && SpaceBefore(s, i, wasSpace) ensures s[i] != ';' {
        if i > 0 { assert SpaceBefore(s[1..], i - 1, IsSpace(s[0])); }
      }
    }
  }

  lemma {:induction false} RStripEnds(s: string)
    ensures RStrip(s) != [] ==> !IsSpace(RStrip(s)[|RStrip(s)| - 1])
    ensures |RStrip(s)| <= |s| && s[..|RStrip(s)|] == RStrip(s) && (|RStrip(s)| == |s| ==> RStrip(s) == s)
    decreases |s|
  {
    if s != [] { RStripEnds(s[..|s| - 1]); }
  }

  lemma {:induction false} LSkipStarts(s: string)
    ensures LSkip(s) != [] ==> !IsSpace(LSkip(s)[0])
    ensures |LSkip(s)| <= |s| && s[|s| - |LSkip(s)|..] == LSkip(s) && (|LSkip(s)| == |s| ==> LSkip(s) == s)
    decreases |s|
  {
    if s != [] { LSkipStarts(s[1..]); }
  }

  /** Exactly the trimmed values without an inline comment come back. */
  lemma ValueExact(v: string)
    ensures ValueOf(v) == v <==> Trimmed(v) && NoComment(v, false)
  {
    if ValueOf(v) == v { ValueBack(v); }
    if Trimmed(v) && NoComment(v, false) {
      FindClear(v, [], "", false);
      assert v + [] == v && v[..|v|] == v;
    }
  }

  lemma ValueBack(v: string)
    requires ValueOf(v) == v
    ensures Trimmed(v) && NoComment(v, false)
  {
    var f := Find(v, "", false);
    LSkipStarts(v[..f]);
    RStripEnds(LSkip(v[..f]));
    WholeTake(v, f);
    FindFull(v, false);
  }

  lemma WholeTake(v: string, f: nat)
    requires f <= |v|
    ensures f == |v| ==> v[..f] == v
  {
  }

  /** The newline goes, and nothing else. */
  lemma StripLine(x: string)
    requires x != [] && Trimmed(x)
    ensures LSkip(RStrip(x + "\n")) == x && RStrip(x + "\n") == x
  {
    assert (x + "\n")[..|x|] == x;
  }

  lemma SectionRead(s: State, n: string)
    requires Good(Section(n))
    ensures SectionLine(s, n + "]") == s.(section := n, prev := "")
  {
    FindClear(n, "]", "]", false);
    assert (n + "]")[..|n|] == n;
  }

  lemma PairRead(s: State, n: string, v: string, handler: Handler)
    requires Good(Pair(n, v))
    ensures PairLine(s, n + "=" + v, handler) == Handled(s.(prev := Clip(n, MAX_NAME)), Call(s.section, n, v), handler)
  {
    FindClear(n, "=" + v, "=:", false);
    ValueExact(v);
    Parts(n, v);
  }

  lemma Parts(n: string, v: string)
    requires Trimmed(n)
    ensures var start := n + "=" + v;
            && start == n + ("=" + v) && start[|n|] == '='
            && RStrip(start[..|n|]) == n && start[|n| + 1..] == v
  {
    assert (n + "=" + v)[..|n|] == n;
  }

  function Effect(s: State, item: Item, handler: Handler): State {
    match item
    case Section(n) => s.(section := n, prev := "")
    case Pair(n, v) => Handled(s.(prev := Clip(n, MAX_NAME)), Call(s.section, n, v), handler)
  }

  /** A line that is trimmed but for its newline. */
  lemma LineStripped(s: State, x: string, handler: Handler)
    requires x != [] && Trimmed(x) && (s.lineno == 0 ==> !HasBom(x + "\n"))
    ensures Line(s, x + "\n", handler) == Stripped(s.(lineno := s.lineno + 1), x, false, handler)
  {
    StripLine(x);
  }

  lemma LineRead(s: State, item: Item, handler: Handler)
    requires Good(item) && (s.lineno == 0 ==> !HasBom(ItemLine(item)))
    ensures Line(s, ItemLine(item), handler) == Effect(s.(lineno := s.lineno + 1), item, handler)
  {
    match item {
      case Section(n) => SectionLineRead(s, n, handler);
      case Pair(n, v) => PairLineRead(s, n, v, handler);
    }
  }

  lemma SectionLineRead(s: State, n: string, handler: Handler)
    requires Good(Section(n)) && (s.lineno == 0 ==> !HasBom(ItemLine(Section(n))))
    ensures Line(s, ItemLine(Section(n)), handler) == Effect(s.(lineno := s.lineno + 1), Section(n), handler)
  {
    var x := "[" + n + "]";
    assert ItemLine(Section(n)) == x + "\n" && x[1..] == n + "]";
    LineStripped(s, x, handler);
    SectionRead(s.(lineno := s.lineno + 1), n);
  }

  lemma PairLineRead(s: State, n: string, v: string, handler: Handler)
    requires Good(Pair(n, v)) && (s.lineno == 0 ==> !HasBom(ItemLine(Pair(n, v))))
    ensures Line(s, ItemLine(Pair(n, v)), handler) == Effect(s.(lineno := s.lineno + 1), Pair(n, v), handler)
  {
    var x := n + "=" + v;
    assert x[0] == if n == [] then '=' else n[0];
    assert x[|x| - 1] == if v == [] then '=' else v[|v| - 1];
    LineStripped(s, x, handler);
    PairRead(s.(lineno := s.lineno + 1), n, v, handler);
  }

  ghost predicate Succeeds(handler: Handler) {
    forall k, c :: handler(k, c)
  }

  lemma EffectCalls(s: State, item: Item, items: seq<Item>, handler: Handler)
    ensures Effect(s, item, handler).calls + Expected(items, Effect(s, item, handler).section)
         == s.calls + Expected([item] + items, s.section)
  {
    assert ([item] + items)[1..] == items;
    match item {
      case Section(_) =>
      case Pair(n, v) => Assoc(s.calls, [Call(s.section, n, v)], Expected(items, s.section));
    }
  }

  lemma ItemsHead(items: seq<Item>)
    requires items != []
    ensures items == [items[0]] + items[1..]
    ensures ItemLines(items)[0] == ItemLine(items[0]) && ItemLines(items)[1..] == ItemLines(items[1..])
  {
  }

  lemma {:induction false} LinesRead(s: State, items: seq<Item>, handler: Handler)
    requires forall i :: 0 <= i < |items| ==> Good(items[i])
    requires s.lineno == 0 && items != [] ==> !HasBom(ItemLine(items[0]))
    ensures Lines(s, ItemLines(items), handler).calls == s.calls + Expected(items, s.section)
    decreases |items|
  {
    if items == [] {
      assert ItemLines(items) == [];
    } else {
      var s1 := s.(lineno := s.lineno + 1);
      ItemsHead(items);
      LineRead(s, items[0], handler);
      EffectCalls(s1, items[0], items[1..], handler);
      LinesRead(Effect(s1, items[0], handler), items[1..], handler);
    }
  }

  lemma {:induction false} LinesSucceed(s: State, items: seq<Item>, handler: Handler)
    requires forall i :: 0 <= i < |items| ==> Good(items[i])
    requires s.lineno == 0 && items != [] ==> !HasBom(ItemLine(items[0]))
    requires s.error == 0 && Succeeds(handler)
    ensures Lines(s, ItemLines(items), handler).error == 0
    decreases |items|
  {
    if items == [] {
      assert ItemLines(items) == [];
    } else {
      ItemsHead(items);
      LineRead(s, items[0], handler);
      LinesSucceed(Effect(s.(lineno := s.lineno + 1), items[0], handler), items[1..], handler);
    }
  }

  lemma {:induction false} RoundTripCalls(items: seq<Item>, handler: Handler)
    requires forall i :: 0 <= i < |items| ==> Good(items[i])
    requires items != [] ==> !HasBom(ItemLine(items[0]))
    ensures Parse(Print(items), handler).calls == Expected(items, "")
  {
    PrintedPieces(items);
    LinesRead(START, items, handler);
    NothingBefore(Expected(items, ""));
  }

  lemma NothingBefore(calls: seq<Call>)
    ensures START.calls + calls == calls
  {
  }

  lemma {:induction false} RoundTripResult(items: seq<Item>, handler: Handler)
    requires forall i :: 0 <= i < |items| ==> Good(items[i])
    requires items != [] ==> !HasBom(ItemLine(items[0]))
    requires Succeeds(handler)
    ensures Parse(Print(items), handler).error == 0
  {
    PrintedPieces(items);
    LinesSucceed(START, items, handler);
  }

  /** Printing sections and pairs and parsing the text makes exactly their handler calls, and the result is 0 if
      the handler reports success. */
  lemma {:induction false} RoundTrip(items: seq<Item>, handler: Handler)
    requires forall i :: 0 <= i < |items| ==> Good(items[i])
    requires items != [] ==> !HasBom(ItemLine(items[0]))
    ensures Parse(Print(items), handler).calls == Expected(items, "")
    ensures Succeeds(handler) ==> Parse(Print(items), handler).error == 0
  {
    RoundTripCalls(items, handler);
    if Succeeds(handler) { RoundTripResult(items, handler); }
  }

  lemma PrintedPieces(items: seq<Item>)
    requires forall i :: 0 <= i < |items| ==> Good(items[i])
    ensures Pieces(Print(items)) == ItemLines(items)
  {
    forall i | 0 <= i < |items| ensures ShortLine(ItemLines(items)[i]) { OneLine(items[i]); }
    PiecesAreLines(ItemLines(items), []);
    assert Print(items) + [] == Print(items) && ItemLines(items) + [] == ItemLines(items);
  }

  lemma OneLine(item: Item)
    requires Good(item)
    ensures ShortLine(ItemLine(item))
  {
    var x := match item case Section(n) => "[" + n + "]" case Pair(n, v) => n + "=" + v;
    assert ItemLine(item) == x + "\n";
    forall c | c in x ensures c != '\n' {}
  }
}
