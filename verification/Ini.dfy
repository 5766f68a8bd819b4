/**
 The code of ini.c on its buffers of NUL-terminated characters, proved against the functions on strings.  A
 pointer into a buffer is an index.
 */
module Ini {
  import opened Basics
  import opened IniText

  const NUL: char := 0 as char

  /** The C string `s` is stored from index `i` on. */
  predicate Holds(b: seq<char>, i: nat, s: string) {
    i + |s| < |b| && b[i..i + |s|] == s && b[i + |s|] == NUL && NUL !in s
  }

  lemma HoldsAt(b: seq<char>, i: nat, s: string, k: nat)
    requires Holds(b, i, s) && k <= |s|
    ensures b[i + k] == (if k < |s| then s[k] else NUL) && (b[i + k] == NUL <==> k == |s|)
  {
    if k < |s| { assert b[i..i + |s|][k] == b[i + k] && s[k] in s; }
  }

  lemma HoldsTail(b: seq<char>, i: nat, s: string, k: nat)
    requires Holds(b, i, s) && k <= |s|
    ensures Holds(b, i + k, s[k..])
  {
    assert b[i + k..i + |s|] == b[i..i + |s|][k..];
  }

  /** A NUL in the string cuts it in two. */
  lemma HoldsCut(b: seq<char>, i: nat, s: string, k: nat)
    requires Holds(b, i, s) && k <= |s|
    ensures Holds(b[i + k := NUL], i, s[..k])
    ensures k < |s| ==> Holds(b[i + k := NUL], i + k + 1, s[k + 1..])
  {
    var c := b[i + k := NUL];
    assert c[i..i + k] == b[i..i + |s|][..k];
    if k < |s| { assert c[i + k + 1..i + |s|] == b[i..i + |s|][k + 1..]; }
  }

  /** A string outside the changed part stays. */
  lemma HoldsSame(b: seq<char>, c: seq<char>, i: nat, s: string)
    requires Holds(b, i, s) && |c| == |b| && forall k :: i <= k <= i + |s| ==> c[k] == b[k]
    ensures Holds(c, i, s)
  {
    assert c[i..i + |s|] == b[i..i + |s|];
  }

  method Strlen(a: array<char>, i: nat, ghost s: string) returns (n: nat)
    requires Holds(a[..], i, s)
    ensures n == |s|
  {
    n := 0;
    HoldsAt(a[..], i, s, 0);
    while a[i + n] != NUL
      invariant n <= |s| && a[i + n] == a[..][i + n]
      invariant a[i + n] == NUL <==> n == |s|
      decreases |s| - n
    {
      HoldsAt(a[..], i, s, n + 1);
      n := n + 1;
    }
  }

  /** rstrip. */
  method Rstrip(a: array<char>, i: nat, ghost s: string)
    requires Holds(a[..], i, s)
    modifies a
    ensures Holds(a[..], i, RStrip(s))
    ensures forall k :: 0 <= k < a.Length && (k < i || k >= i + |s|) ==> a[k] == old(a[k])
  {
    var n := Strlen(a, i, s);
    var p := i + n;
    assert s[..|s|] == s;
    while p > i
      invariant i <= p <= i + |s| && Holds(a[..], i, s[..p - i]) && RStrip(s[..p - i]) == RStrip(s)
      invariant forall k :: 0 <= k < a.Length && (k < i || k >= i + |s|) ==> a[k] == old(a[k])
    {
      p := p - 1;
      ghost var t := s[..p + 1 - i];
      HoldsAt(a[..], i, t, p - i);
      if !IsSpace(a[p]) {
        return;
      }
      HoldsCut(a[..], i, t, p - i);
      a[p] := NUL;
      assert t[..p - i] == s[..p - i];
    }
  }

  /** lskip. */
  method Lskip(a: array<char>, i: nat, ghost s: string) returns (j: nat)
    requires Holds(a[..], i, s)
    ensures i <= j == i + |s| - |LSkip(s)| && Holds(a[..], j, LSkip(s))
  {
    j := i;
    ghost var t := s;
    HoldsAt(a[..], i, s, 0);
    while a[j] != NUL && IsSpace(a[j])
      invariant i <= j && j + |t| == i + |s| && Holds(a[..], j, t) && LSkip(t) == LSkip(s)
      invariant a[j] == a[..][j]
      decreases |t|
    {
      HoldsAt(a[..], j, t, 0);
      HoldsTail(a[..], j, t, 1);
      j := j + 1;
      t := t[1..];
    }
    HoldsAt(a[..], j, t, 0);
  }

  /** find_chars_or_comment. */
  method FindChars(a: array<char>, i: nat, chars: string, ghost s: string) returns (j: nat)
    requires Holds(a[..], i, s)
    ensures j == i + Find(s, chars, false) && (a[j] == NUL <==> Find(s, chars, false) == |s|)
    ensures Find(s, chars, false) < |s| ==> a[j] == s[Find(s, chars, false)]
  {
    j := i;
    var wasSpace := false;
    ghost var k := 0;
    assert s[0..] == s;
    while true
      invariant j == i + k && k <= |s| && k + Find(s[k..], chars, wasSpace) == Find(s, chars, false)
      decreases |s| - k
    {
      HoldsAt(a[..], i, s, k);
      if a[j] == NUL || a[j] in chars || (wasSpace && a[j] == ';') {
        return;
      }
      assert s[k..][1..] == s[k + 1..];
      wasSpace := IsSpace(a[j]);
      j := j + 1;
      k := k + 1;
    }
  }

  /** strncpy0. */
  method Strncpy0(dest: array<char>, src: array<char>, i: nat, size: nat, ghost s: string)
    requires dest != src && Holds(src[..], i, s) && 0 < size <= dest.Length
    modifies dest
    ensures Holds(dest[..], 0, Clip(s, size))
  {
    var k := 0;
    HoldsAt(src[..], i, s, 0);
    while k < size - 1 && src[i + k] != NUL
      invariant k <= |s| && k < size && src[i + k] == src[..][i + k]
      invariant src[i + k] == NUL <==> k == |s|
      invariant dest[..k] == s[..k]
      decreases size - k
    {
      HoldsAt(src[..], i, s, k);
      HoldsAt(src[..], i, s, k + 1);
      dest[k] := src[i + k];
      k := k + 1;
    }
    dest[k] := NUL;
    assert dest[..][0..k] == s[..k] == Clip(s, size);
  }

  /** The string as the handler sees it. */
  method Text(a: array<char>, i: nat, ghost s: string) returns (r: string)
    requires Holds(a[..], i, s)
    ensures r == s
  {
    var n := Strlen(a, i, s);
    assert a[..][i..i + |s|] == s;
    r := a[i..i + n];
  }

  /** ini_parse_string_ctx. */
  class Source {
    const text: string
    var ptr: nat
    var numLeft: nat

    predicate Valid()
      reads this
    {
      ptr + numLeft == |text| && NUL !in text
    }

    function Rest(): string
      requires Valid()
      reads this
    {
      text[ptr..]
    }

    constructor (text: string)
      requires NUL !in text
      ensures Valid() && Rest() == text
    {
      this.text := text;
      ptr := 0;
      numLeft := |text|;
    }

    /** ini_reader_string. */
    method Read(str: array<char>, num: nat) returns (ok: bool)
      requires Valid() && num <= str.Length
      modifies this, str
      ensures Valid() && ok == (old(Rest()) != [] && num >= 2)
      ensures ok ==> Holds(str[..], 0, Piece(old(Rest()), num)) && Rest() == old(Rest())[|Piece(old(Rest()), num)|..]
    {
      if numLeft == 0 || num < 2 {
        return false;
      }
      ghost var piece := Piece(Rest(), num);
      var n := Copy(str, num);
      str[n] := NUL;
      assert str[..][0..0 + n] == piece;
      ok := true;
    }

    method Next() returns (c: char)
      requires Valid() && numLeft != 0
      modifies this
      ensures Valid() && numLeft == old(numLeft) - 1 && c == old(Rest())[0] && Rest() == old(Rest())[1..]
    {
      c := text[ptr];
      ptr := ptr + 1;
      numLeft := numLeft - 1;
    }

    /** The loop: it stops behind a newline, at the end of the text or when there is no room for more. */
    method Copy(str: array<char>, num: nat) returns (i: nat)
      requires Valid() && 2 <= num <= str.Length
      modifies this, str
      ensures Valid() && i < num && str[..i] == Piece(old(Rest()), num)
      ensures old(Rest()) == str[..i] + Rest()
    {
      i := 0;
      var n := num;
      while n > 1 && numLeft != 0
        invariant Valid() && i + n == num && n > 0 && Copied(str[..i], Rest(), n, old(Rest()), num)
        decreases numLeft
      {
        CopyStep(str[..i], Rest(), n, old(Rest()), num);
        var c := CopyChar(str, i);
        i := i + 1;
        if c == '\n' {
          return;
        }
        n := n - 1;
      }
    }

    method CopyChar(str: array<char>, i: nat) returns (c: char)
      requires Valid() && numLeft != 0 && i < str.Length
      modifies this, str
      ensures Valid() && numLeft == old(numLeft) - 1 && c == old(Rest())[0] && Rest() == old(Rest())[1..]
      ensures str[..i + 1] == old(str[..i]) + [c]
    {
      c := Next();
      str[i] := c;
      assert str[..i + 1] == old(str[..i]) + [c];
    }

    /** `head` has been copied of `text`, and there is room for `n` more. */
    static predicate Copied(head: string, rest: string, n: nat, text: string, num: nat) {
      head + Piece(rest, n) == Piece(text, num) && text == head + rest
    }

    lemma CopyStep(head: string, rest: string, n: nat, text: string, num: nat)
      requires rest != [] && n > 1 && Copied(head, rest, n, text, num)
      ensures rest[0] != '\n' ==> Copied(head + [rest[0]], rest[1..], n - 1, text, num)
      ensures rest[0] == '\n' ==> Piece(text, num) == head + [rest[0]]
      ensures text == (head + [rest[0]]) + rest[1..]
    {
      PieceStep(rest, n);
      Assoc(head, [rest[0]], rest[1..]);
      Assoc(head, [rest[0]], if rest[0] == '\n' then [] else Piece(rest[1..], n - 1));
      assert rest == [rest[0]] + rest[1..];
    }
  }

  /** The variables of ini_parse_stream. */
  class Parser {
    const line: array<char>
    const section: array<char>
    const prevName: array<char>
    var lineno: nat
    var error: nat
    var calls: seq<Call>
    ghost var sectionText: string
    ghost var prevText: string

    ghost predicate Valid()
      reads this, section, prevName
    {
      && line.Length == MAX_LINE && section.Length == MAX_SECTION && prevName.Length == MAX_NAME
      && line != section && line != prevName && section != prevName
      && Holds(section[..], 0, sectionText) && Holds(prevName[..], 0, prevText)
    }

    ghost function S(): State
      reads this
    {
      State(sectionText, prevText, calls, lineno, error)
    }

    constructor ()
      ensures Valid() && S() == START && fresh(line) && fresh(section) && fresh(prevName)
    {
      line := new char[MAX_LINE](_ => NUL);
      section := new char[MAX_SECTION](_ => NUL);
      prevName := new char[MAX_NAME](_ => NUL);
      lineno, error, calls := 0, 0, [];
      sectionText, prevText := "", "";
    }

    method Fail()
      modifies this`error
      ensures S() == Failed(old(S()))
    {
      if error == 0 {
        error := lineno;
      }
    }

    /** A call of the handler. */
    method Handle(c: Call, handler: Handler)
      modifies this`error, this`calls
      ensures S() == Handled(old(S()), c, handler)
    {
      var success := handler(|calls|, c);
      calls := calls + [c];
      if !success {
        Fail();
      }
    }

    /** A "[section]" line, from the character behind the bracket. */
    method OnSection(i: nat, ghost rest: string)
      requires Valid() && Holds(line[..], i, rest)
      modifies this`error, this`sectionText, this`prevText, line, section, prevName
      ensures Valid() && S() == SectionLine(old(S()), rest)
    {
      var end := FindChars(line, i, "]", rest);
      ghost var e := Find(rest, "]", false);
      if line[end] == ']' {
        HoldsCut(line[..], i, rest, e);
        line[end] := NUL;
        Strncpy0(section, line, i, MAX_SECTION, rest[..e]);
        sectionText := Clip(rest[..e], MAX_SECTION);
        prevName[0] := NUL;
        prevText := "";
      } else {
        Fail();
      }
    }

    /** The value behind the delimiter: cut at a comment and stripped. */
    method OnValue(i: nat, ghost s: string) returns (value: nat)
      requires Valid() && Holds(line[..], i, s)
      modifies line
      ensures i <= value && Holds(line[..], value, ValueOf(s))
      ensures forall k :: 0 <= k < i ==> line[k] == old(line[k])
    {
      var end := FindChars(line, i, "", s);
      ghost var e := Find(s, "", false);
      HoldsCut(line[..], i, s, e);
      assert e == |s| ==> line[..][i + e := NUL] == line[..];
      if line[end] != NUL {
        line[end] := NUL;
      }
      value := Lskip(line, i, s[..e]);
      Rstrip(line, value, LSkip(s[..e]));
    }

    /** The name and the value are cut out of the line, on both sides of the delimiter at `e`. */
    method CutPair(start: nat, ghost s: string, end: nat) returns (value: nat)
      requires Valid() && Holds(line[..], start, s) && start <= end < start + |s|
      modifies line
      ensures Holds(line[..], start, RStrip(s[..end - start]))
      ensures Holds(line[..], value, ValueOf(s[end - start + 1..]))
    {
      ghost var e := end - start;
      HoldsCut(line[..], start, s, e);
      line[end] := NUL;
      assert line[..] == old(line[..])[start + e := NUL];
      ghost var b := line[..];
      Rstrip(line, start, s[..e]);
      HoldsSame(b, line[..], end + 1, s[e + 1..]);
      RStripEnds(s[..e]);
      ghost var c := line[..];
      value := OnValue(end + 1, s[e + 1..]);
      HoldsSame(c, line[..], start, RStrip(s[..e]));
    }

    /** The name becomes the previous name, and the handler is called. */
    method Report(start: nat, value: nat, handler: Handler, ghost name: string, ghost v: string)
      requires Valid() && Holds(line[..], start, name) && Holds(line[..], value, v)
      modifies this`error, this`calls, this`prevText, prevName
      ensures Valid()
      ensures S() == Handled(old(S()).(prev := Clip(name, MAX_NAME)), Call(old(sectionText), name, v), handler)
    {
      Strncpy0(prevName, line, start, MAX_NAME, name);
      prevText := Clip(name, MAX_NAME);
      var n := Text(line, start, name);
      var t := Text(line, value, v);
      var sec := Text(section, 0, sectionText);
      Handle(Call(sec, n, t), handler);
    }

    /** A line with a name and a value. */
    method OnPair(start: nat, handler: Handler, ghost s: string)
      requires Valid() && Holds(line[..], start, s)
      modifies this`error, this`calls, this`prevText, line, prevName
      ensures Valid() && S() == PairLine(old(S()), s, handler)
    {
      var end := FindChars(line, start, "=:", s);
      ghost var e := Find(s, "=:", false);
      if line[end] == '=' || line[end] == ':' {
        var value := CutPair(start, s, end);
        Report(start, value, handler, RStrip(s[..e]), ValueOf(s[e + 1..]));
      } else {
        Fail();
      }
    }

    /** A line without the white space around it, by its first character. */
    method OnStripped(start: nat, handler: Handler, ghost s: string)
      requires Valid() && Holds(line[..], start, s)
      modifies this`error, this`calls, this`sectionText, this`prevText, line, section, prevName
      ensures Valid() && S() == Stripped(old(S()), s, start > 0, handler)
    {
      HoldsAt(line[..], start, s, 0);
      HoldsAt(prevName[..], 0, prevText, 0);
      var c := line[start];
      if c == NUL || c == ';' || c == '#' {
        return;
      }
      if prevName[0] != NUL && start > 0 {
        Continue(start, handler, s);
      } else if c == '[' {
        HoldsTail(line[..], start, s, 1);
        OnSection(start + 1, s[1..]);
      } else {
        OnPair(start, handler, s);
      }
    }

    /** A continuation: the handler gets the previous name again. */
    method Continue(start: nat, handler: Handler, ghost s: string)
      requires Valid() && Holds(line[..], start, s)
      modifies this`error, this`calls
      ensures Valid() && S() == Handled(old(S()), Call(sectionText, prevText, s), handler)
    {
      var sec := Text(section, 0, sectionText);
      var n := Text(prevName, 0, prevText);
      var v := Text(line, start, s);
      Handle(Call(sec, n, v), handler);
    }

    method HasMark(ghost s: string) returns (bom: bool)
      requires Valid() && Holds(line[..], 0, s)
      ensures bom == HasBom(s)
    {
      HoldsAt(line[..], 0, s, 0);
      if line[0] as int != 0xEF {
        return false;
      }
      HoldsAt(line[..], 0, s, 1);
      if line[1] as int != 0xBB {
        return false;
      }
      HoldsAt(line[..], 0, s, 2);
      bom := line[2] as int == 0xBF;
    }

    /** The white space around a line goes. */
    method Strip(start0: nat, ghost body: string) returns (start: nat)
      requires Valid() && Holds(line[..], start0, body)
      modifies line
      ensures start0 <= start == start0 + |RStrip(body)| - |LSkip(RStrip(body))|
      ensures Holds(line[..], start, LSkip(RStrip(body)))
    {
      Rstrip(line, start0, body);
      start := Lskip(line, start0, RStrip(body));
    }

    /** Behind a byte order mark in the first line. */
    method SkipMark(ghost s: string) returns (start: nat)
      requires Valid() && Holds(line[..], 0, s)
      ensures start == if lineno == 1 && HasBom(s) then 3 else 0
      ensures start <= |s| && Holds(line[..], start, s[start..])
    {
      start := 0;
      if lineno == 1 {
        var bom := HasMark(s);
        if bom {
          start := 3;
        }
      }
      HoldsTail(line[..], 0, s, start);
    }

    /** The buffer holds the next line. */
    method OnLine(handler: Handler, ghost s: string)
      requires Valid() && Holds(line[..], 0, s)
      modifies this`lineno, this`error, this`calls, this`sectionText, this`prevText, line, section, prevName
      ensures Valid() && S() == Line(old(S()), s, handler)
    {
      lineno := lineno + 1;
      var mark := SkipMark(s);
      ghost var body := if mark == 3 then s[3..] else s;
      assert s[mark..] == body;
      var start := Strip(mark, body);
      OnStripped(start, handler, LSkip(RStrip(body)));
    }
  }

  /** ini_parse_string. */
  method ParseString(text: string, handler: Handler) returns (error: nat, calls: seq<Call>)
    requires NUL !in text
    ensures error == Parse(text, handler).error && calls == Parse(text, handler).calls
  {
    var source := new Source(text);
    var p := new Parser();
    var more := source.Read(p.line, MAX_LINE);
    ghost var rest := text;
    while more
      invariant p.Valid() && source.Valid() && fresh(source) && fresh(p) && fresh(p.line)
      invariant fresh(p.section) && fresh(p.prevName)
      invariant more == (rest != [])
      invariant more ==> Holds(p.line[..], 0, Piece(rest, MAX_LINE)) && source.Rest() == rest[|Piece(rest, MAX_LINE)|..]
      invariant Lines(p.S(), Pieces(rest), handler) == Parse(text, handler)
      decreases |rest|
    {
      p.OnLine(handler, Piece(rest, MAX_LINE));
      rest := source.Rest();
      more := source.Read(p.line, MAX_LINE);
    }
    error, calls := p.error, p.calls;
  }
}
