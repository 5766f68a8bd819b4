/**
 libuv/src/inet.c: the loops that print and read internet addresses, against module InetText.
 */
module Inet {
  import opened Basics
  import opened Options
  import opened InetText

  const UV_EINVAL := -22
  const UV_ENOSPC := -28

  /** A text and the NUL that ends it. */
  function Terminated(t: Text): (r: seq<nat>)
    ensures |r| == |t| + 1
  {
    var s: seq<nat> := t;
    s + [0]
  }

  /** The end of a C string is written behind `t`, if there is room; otherwise nothing is written. */
  method Store(t: Text, dst: array<nat>) returns (rc: int)
    modifies dst
    ensures rc == if |t| + 1 > dst.Length then UV_ENOSPC else 0
    ensures rc == 0 ==> dst[..|t| + 1] == Terminated(t)
    ensures rc != 0 ==> dst[..] == old(dst[..])
  {
    if |t| + 1 > dst.Length {
      return UV_ENOSPC;
    }
    var i := 0;
    while i < |t|
      invariant i <= |t| && forall j :: 0 <= j < i ==> dst[j] == t[j]
    {
      dst[i] := t[i];
      i := i + 1;
    }
    dst[i] := 0;
    rc := 0;
  }

  /** inet_ntop4. */
  method Ntop4(src: seq<Byte>, dst: array<nat>) returns (rc: int)
    requires |src| == 4
    modifies dst
    ensures rc == if |Print4(src)| + 1 > dst.Length then UV_ENOSPC else 0
    ensures rc == 0 ==> dst[..|Print4(src)| + 1] == Terminated(Print4(src))
    ensures rc != 0 ==> dst[..] == old(dst[..])
    ensures |Print4(src)| + 1 <= INET_ADDRSTRLEN
  {
    Print4Fits(src);
    assert src[..3][..2] == src[..2] && src[..2][..1] == src[..1] && src[..1][..0] == [];
    var tmp := Dec(src[0]) + [DOT] + Dec(src[1]) + [DOT] + Dec(src[2]) + [DOT] + Dec(src[3]);
    assert Dotted(src[..1]) == Dec(src[0]) + [DOT];
    assert Dotted(src[..2]) == Dotted(src[..1]) + Dec(src[1]) + [DOT];
    assert Dotted(src[..3]) == Dotted(src[..2]) + Dec(src[2]) + [DOT];
    assert tmp == Print4(src);
    rc := Store(tmp, dst);
  }

  // ---------- the run that is left out ----------

  /** No run of zero words that ends at or before `i` is better than `base`, `len`; -1 stands for none. */
  ghost predicate BestUpTo(ws: seq<Word>, i: nat, base: int, len: int) {
    && (base == -1 ==> len == 0) && (base != -1 ==> len >= 1 && ZeroRun(ws, base, len) && base + len <= i)
    && forall b, n :: ZeroRun(ws, b, n) && n >= 1 && b + n <= i ==> base != -1 && (n < len || (n == len && base <= b))
  }

  /** The current run: the zero words right in front of `i`. */
  predicate Current(ws: seq<Word>, i: nat, base: int, len: int) {
    && i <= |ws|
    && (base == -1 ==> i == 0 || ws[i - 1] != 0)
    && (base != -1 ==> 0 <= base < i && len == i - base && ZeroRun(ws, base, len) && (base == 0 || ws[base - 1] != 0))
  }

  /** The better of the best run and the current one, which has just ended at `i`. */
  lemma Better(ws: seq<Word>, i: nat, done: nat, base: int, len: int, curBase: int, curLen: int)
    requires done <= i && Current(ws, i, curBase, curLen) && done == (if curBase == -1 then i else curBase)
    requires BestUpTo(ws, done, base, len)
    ensures curBase == -1 ==> BestUpTo(ws, i, base, len)
    ensures curBase != -1 && (base == -1 || curLen > len) ==> BestUpTo(ws, i, curBase, curLen)
    ensures curBase != -1 && !(base == -1 || curLen > len) ==> BestUpTo(ws, i, base, len)
  {
    forall b, n | ZeroRun(ws, b, n) && n >= 1 && b + n <= i && curBase != -1 && b + n > curBase
      ensures curBase <= b && n <= curLen
    {
    }
  }

  lemma StillCurrent(ws: seq<Word>, i: nat, base: int, len: int)
    requires Current(ws, i, base, len) && i < |ws|
    ensures ws[i] == 0 && base == -1 ==> Current(ws, i + 1, i, 1)
    ensures ws[i] == 0 && base != -1 ==> Current(ws, i + 1, base, len + 1)
    ensures ws[i] != 0 ==> Current(ws, i + 1, -1, len)
  {
  }

  /** A nonzero word ends no run. */
  lemma PastNonzero(ws: seq<Word>, i: nat, base: int, len: int)
    requires i < |ws| && ws[i] != 0 && BestUpTo(ws, i, base, len)
    ensures BestUpTo(ws, i + 1, base, len)
  {
    forall b, n | ZeroRun(ws, b, n) && n >= 1 && b + n <= i + 1 ensures b + n <= i {
    }
  }

  lemma AllRuns(ws: seq<Word>, base: int, len: int)
    requires BestUpTo(ws, |ws|, base, len)
    ensures IsBest(ws, if base == -1 || len < 2 then NoRun else Run(base, len))
  {
  }

  /** The loop over the words in inet_ntop6. */
  method FindRun(words: seq<Word>) returns (bestBase: int, bestLen: int)
    ensures -1 <= bestBase && (bestBase != -1 ==> bestLen >= 2)
    ensures IsBest(words, if bestBase == -1 then NoRun else Run(bestBase, bestLen))
  {
    bestBase, bestLen := -1, 0;
    var curBase, curLen := -1, 0;
    var i := 0;
    while i < |words|
      invariant -1 <= bestBase && -1 <= curBase && Current(words, i, curBase, curLen)
      invariant BestUpTo(words, if curBase == -1 then i else curBase, bestBase, bestLen)
    {
      StillCurrent(words, i, curBase, curLen);
      if words[i] == 0 {
        if curBase == -1 {
          curBase, curLen := i, 1;
        } else {
          curLen := curLen + 1;
        }
      } else {
        Better(words, i, if curBase == -1 then i else curBase, bestBase, bestLen, curBase, curLen);
        if curBase != -1 {
          if bestBase == -1 || curLen > bestLen {
            bestBase, bestLen := curBase, curLen;
          }
          curBase := -1;
        }
        PastNonzero(words, i, bestBase, bestLen);
      }
      i := i + 1;
    }
    Better(words, i, if curBase == -1 then i else curBase, bestBase, bestLen, curBase, curLen);
    if curBase != -1 {
      if bestBase == -1 || curLen > bestLen {
        bestBase, bestLen := curBase, curLen;
      }
    }
    AllRuns(words, bestBase, bestLen);
    if bestBase != -1 && bestLen < 2 {
      bestBase := -1;
    }
  }

  // ---------- inet_ntop6 ----------

  lemma {:induction false} LeadLast(a: seq<Word>, w: Word)
    ensures Lead(a + [w]) == Lead(a) + Hex(w) + [COLON]
  {
    if a == [] {
      assert [] + [w] == [w] && [w][1..] == [];
      assert Hex(w) + [COLON] + Lead([]) == Hex(w) + [COLON];
    } else {
      LeadLast(a[1..], w);
      assert (a + [w])[1..] == a[1..] + [w];
      assert Lead(a + [w]) == Hex(a[0]) + [COLON] + (Lead(a[1..]) + Hex(w) + [COLON]);
    }
  }

  /** Behind the last word a colon makes `Lead` of `Tail`. */
  lemma TailColon(front: seq<Word>, w: Word)
    ensures Tail(front + [w]) == Lead(front) + Hex(w)
    ensures Tail(front + [w]) + [COLON] == Lead(front + [w])
  {
    assert (front + [w])[..|front|] == front;
    LeadLast(front, w);
  }

  lemma LeadOfTail(ws: seq<Word>)
    requires ws != []
    ensures Tail(ws) + [COLON] == Lead(ws)
  {
    assert ws[..|ws| - 1] + [ws[|ws| - 1]] == ws;
    TailColon(ws[..|ws| - 1], ws[|ws| - 1]);
  }

  lemma TailMore(ws: seq<Word>, w: Word)
    ensures Tail(ws + [w]) == (if ws == [] then Hex(w) else Tail(ws) + [COLON] + Hex(w))
  {
    TailColon(ws, w);
    if ws != [] { LeadOfTail(ws); }
  }

  /** What is printed in front of word `i`. */
  ghost function SoFar(ws: seq<Word>, run: Run, i: nat): Text
    requires i <= |ws| && FitsRun(ws, run)
  {
    if run.NoRun? || i <= run.base then Tail(ws[..i])
    else if i <= run.base + run.len then Before(ws, run)
    else Before(ws, run) + [COLON] + Tail(ws[run.base + run.len..i])
  }

  /** Word `i` is printed, with a colon in front of all but the first. */
  lemma PrintWord(ws: seq<Word>, run: Run, i: nat)
    requires i < |ws| && FitsRun(ws, run) && (run.Run? ==> i < run.base || run.base + run.len <= i)
    ensures SoFar(ws, run, i + 1) == SoFar(ws, run, i) + (if i != 0 then [COLON] else []) + Hex(ws[i])
  {
    if run.NoRun? || i < run.base {
      assert ws[..i + 1] == ws[..i] + [ws[i]];
      TailMore(ws[..i], ws[i]);
    } else {
      var x := ws[run.base + run.len..i];
      assert ws[run.base + run.len..i + 1] == x + [ws[i]];
      WordBehind(Before(ws, run), x, ws[i]);
    }
  }

  lemma WordBehind(front: Text, x: seq<Word>, w: Word)
    ensures front + [COLON] + Tail(x + [w]) ==
            (if x == [] then front else front + [COLON] + Tail(x)) + [COLON] + Hex(w)
  {
    TailMore(x, w);
    if x != [] { BehindGap(front + [COLON], Tail(x), Hex(w)); }
  }

  lemma BehindGap(front: Text, t: Text, w: Text)
    ensures front + (t + [COLON] + w) == (front + t) + [COLON] + w
  {
  }

  lemma PrintGap(ws: seq<Word>, run: Run, i: nat)
    requires i < |ws| && FitsRun(ws, run) && run.Run? && run.base <= i < run.base + run.len
    ensures SoFar(ws, run, i + 1) == SoFar(ws, run, i) + if i == run.base then [COLON] else []
  {
    if i == run.base && i > 0 { LeadOfTail(ws[..i]); }
  }

  lemma PrintEnd(ws: seq<Word>, run: Run, v4: Text)
    requires |ws| == 8 && FitsRun(ws, run) && !Embedded(ws, run)
    ensures TextOf(ws, run, v4) == SoFar(ws, run, 8) + if run.Run? && run.base + run.len == 8 then [COLON] else []
  {
    assert ws[..8] == ws;
    if run.Run? && run.base + run.len == 8 {
      assert ws[8..] == [];
      assert Before(ws, run) + [COLON] + [] == Before(ws, run) + [COLON];
    } else if run.Run? {
      assert ws[run.base + run.len..8] == ws[run.base + run.len..];
    }
  }

  lemma PrintEmbedded(ws: seq<Word>, run: Run, v4: Text)
    requires |ws| == 8 && FitsRun(ws, run) && Embedded(ws, run)
    ensures TextOf(ws, run, v4) == SoFar(ws, run, 6) + [COLON] + v4
  {
    var x := ws[run.len..6];
    if x == [] {
      assert Lead(x) + v4 == v4;
    } else {
      LeadOfTail(x);
      BehindGap(Before(ws, run) + [COLON], Tail(x), v4);
    }
  }

  /** inet_ntop6. */
  method Ntop6(src: seq<Byte>, dst: array<nat>) returns (rc: int, ghost run: Run)
    requires |src| == 16
    modifies dst
    ensures IsBest(Words(src), run) && FitsRun(Words(src), run)
    ensures rc == if |Print6(src, run)| + 1 > dst.Length then UV_ENOSPC else 0
    ensures rc == 0 ==> dst[..|Print6(src, run)| + 1] == Terminated(Print6(src, run))
    ensures rc != 0 ==> dst[..] == old(dst[..])
    ensures |Print6(src, run)| + 1 <= INET6_ADDRSTRLEN
  {
    var words := ToWords(src);
    var base, len := FindRun(words);
    run := if base == -1 then NoRun else Run(base, len);
    var tmp := Format(words, base, len, Print4(src[12..]));
    Print6Fits(src, run);
    rc := Store(tmp, dst);
  }

  /** The bytes copied into words. */
  method ToWords(src: seq<Byte>) returns (words: seq<Word>)
    requires |src| == 16
    ensures words == Words(src)
  {
    words := [];
    var i := 0;
    assert src[2 * i..] == src;
    while i < 8
      invariant i <= 8 && words + Words(src[2 * i..]) == Words(src)
    {
      ghost var rest := src[2 * i..];
      assert rest[2..] == src[2 * (i + 1)..] && rest[0] == src[2 * i] && rest[1] == src[2 * i + 1];
      Assoc(words, [WordOf(rest[0], rest[1])], Words(rest[2..]));
      words := words + [WordOf(src[2 * i], src[2 * i + 1])];
      i := i + 1;
    }
  }

  /** The test for an IPv4 address at the end, in front of a word that is not left out. */
  method IsEmbedded(words: seq<Word>, i: nat, base: int, len: int) returns (r: bool)
    requires |words| == 8 && i < 8 && -1 <= base && !(base != -1 && base <= i < base + len)
    ensures r == (i == 6 && Embedded(words, if base == -1 then NoRun else Run(base, if len < 0 then 0 else len)))
  {
    var last := words[7];
    r := i == 6 && base == 0 && (len == 6 || (len == 7 && last != 1) || (len == 5 && words[5] == 0xFFFF));
  }

  /** One word of the loop that formats the result; `done` says that the IPv4 address has ended it. */
  method FormatWord(words: seq<Word>, i: nat, base: int, len: int, v4: Text, tmp0: Text, ghost run: Run)
    returns (tmp: Text, done: bool)
    requires |words| == 8 && i < 8 && -1 <= base && (base != -1 ==> len >= 2)
    requires FitsRun(words, run) && (if base == -1 then run.NoRun? else run == Run(base, len))
    requires tmp0 == SoFar(words, run, i) && (Embedded(words, run) ==> i <= 6)
    ensures done ==> tmp == TextOf(words, run, v4)
    ensures !done ==> tmp == SoFar(words, run, i + 1) && (Embedded(words, run) ==> i + 1 <= 6)
  {
    tmp, done := tmp0, false;
    if base != -1 && i >= base && i < base + len {
      PrintGap(words, run, i);
      if i == base {
        tmp := tmp + [COLON];
      }
      return;
    }
    PrintWord(words, run, i);
    if i != 0 {
      tmp := tmp + [COLON];
    }
    done := IsEmbedded(words, i, base, len);
    if done {
      PrintEmbedded(words, run, v4);
      tmp := tmp + v4;
    } else {
      tmp := tmp + Hex(words[i]);
    }
  }

  /** The loop that formats the result; `v4` is what inet_ntop4 makes of the last four bytes. */
  method Format(words: seq<Word>, base: int, len: int, v4: Text) returns (tmp: Text)
    requires |words| == 8 && -1 <= base && (base != -1 ==> len >= 2)
    requires FitsRun(words, if base == -1 then NoRun else Run(base, len))
    ensures tmp == TextOf(words, if base == -1 then NoRun else Run(base, len), v4)
  {
    ghost var run := if base == -1 then NoRun else Run(base, len);
    tmp := [];
    var i := 0;
    while i < 8
      invariant i <= 8 && tmp == SoFar(words, run, i)
      invariant Embedded(words, run) ==> i <= 6
    {
      var done;
      tmp, done := FormatWord(words, i, base, len, v4, tmp, run);
      if done {
        return;
      }
      i := i + 1;
    }
    PrintEnd(words, run, v4);
    if base != -1 && base + len == 8 {
      tmp := tmp + [COLON];
    }
  }

  // ---------- inet_pton4 ----------

  /** inet_pton4: the address goes to `dst` from `at` on. */
  method Pton4(src: Text, dst: array<Byte>, at: nat) returns (rc: int)
    requires at + 4 <= dst.Length
    modifies dst
    ensures rc == if Parse4(src).Some? then 0 else UV_EINVAL
    ensures Parse4(src).Some? ==> dst[at..at + 4] == Parse4(src).value
    ensures Parse4(src).Some? ==> dst[..at] == old(dst[..at]) && dst[at + 4..] == old(dst[at + 4..])
    ensures Parse4(src).None? ==> dst[..] == old(dst[..])
  {
    var tmp := new Byte[4](_ => 0);
    var tp, octets, sawDigit, p := 0, 0, false, 0;
    assert tmp[..0] == [] && src[0..] == src;
    while p < |src|
      invariant p <= |src| && tp < 4 && octets <= 4 && octets == tp + (if sawDigit then 1 else 0)
      invariant !sawDigit ==> tmp[tp] == 0
      invariant dst[..] == old(dst[..]) && fresh(tmp)
      invariant Loop4(Octets(tmp[..tp], tmp[tp], sawDigit), src[p..]) == Parse4(src)
    {
      var ch := src[p];
      ghost var q := Octets(tmp[..tp], tmp[tp], sawDigit);
      assert src[p..][1..] == src[p + 1..];
      p := p + 1;
      if IsDec(ch) {
        var cur: nat, digit: nat := tmp[tp], ch as nat - 0x30;
        var nw := cur * 10 + digit;
        if sawDigit && tmp[tp] == 0 {
          return UV_EINVAL;
        }
        if nw > 255 {
          return UV_EINVAL;
        }
        tmp[tp] := nw;
        if !sawDigit {
          octets := octets + 1;
          if octets > 4 {
            return UV_EINVAL;
          }
          sawDigit := true;
        }
        assert Octets(tmp[..tp], tmp[tp], sawDigit) == Read4(q, ch).value;
      } else if ch == DOT && sawDigit {
        if octets == 4 {
          return UV_EINVAL;
        }
        tp := tp + 1;
        tmp[tp] := 0;
        sawDigit := false;
        assert Octets(tmp[..tp], tmp[tp], sawDigit) == Read4(q, ch).value;
      } else {
        return UV_EINVAL;
      }
    }
    if octets < 4 {
      return UV_EINVAL;
    }
    assert tmp[..] == tmp[..3] + [tmp[3]];
    Copy(tmp, dst, at);
    rc := 0;
  }

  method Copy(src: array<Byte>, dst: array<Byte>, at: nat)
    requires src != dst && at + src.Length <= dst.Length
    modifies dst
    ensures dst[at..at + src.Length] == src[..]
    ensures dst[..at] == old(dst[..at]) && dst[at + src.Length..] == old(dst[at + src.Length..])
  {
    var i := 0;
    while i < src.Length
      invariant i <= src.Length
      invariant forall j :: 0 <= j < dst.Length ==> dst[j] == if at <= j < at + i then src[j - at] else old(dst[j])
    {
      dst[at + i] := src[i];
      i := i + 1;
    }
  }

  // ---------- inet_pton6 ----------

  /** Two bytes of a group. */
  method PutPair(tmp: array<Byte>, tp: nat, val: nat) returns (tp': nat)
    requires tp + 2 <= tmp.Length
    modifies tmp
    ensures tp' == tp + 2 && tmp[..tp'] == old(tmp[..tp]) + Pair(val) && tmp[tp'..] == old(tmp[tp + 2..])
  {
    tmp[tp] := val / 256 % 256;
    tmp[tp + 1] := val % 256;
    tp' := tp + 2;
  }

  /** The shift by hand of the `tp - colonp` bytes behind the gap to the end, which overlaps. */
  method Shift(tmp: array<Byte>, tp: nat, colonp: nat)
    requires tmp.Length == 16 && colonp <= tp < 16 && tmp[tp..] == Zeros(16 - tp)
    modifies tmp
    ensures tmp[..] == Opened(old(tmp[..tp]), colonp)
  {
    ghost var was := tmp[..];
    var n := tp - colonp;
    var i := 1;
    assert forall x :: tp <= x < 16 ==> tmp[x] == tmp[tp..][x - tp];
    while i <= n
      invariant 1 <= i <= n + 1
      invariant forall x :: 0 <= x < tp - (i - 1) ==> tmp[x] == was[x]
      invariant forall x :: tp - (i - 1) <= x < 16 - (i - 1) ==> tmp[x] == 0
      invariant forall x :: 16 - (i - 1) <= x < 16 ==> tmp[x] == was[x - (16 - tp)]
    {
      tmp[16 - i] := tmp[colonp + n - i];
      tmp[colonp + n - i] := 0;
      i := i + 1;
    }
    assert tmp[..] == was[..colonp] + Zeros(16 - tp) + was[colonp..tp];
    assert was[..tp][..colonp] == was[..colonp] && was[..tp][colonp..] == was[colonp..tp];
  }

  /** What is read before the end: `p` characters, with the current group from `tok` on. */
  ghost predicate Reading(src: Text, tmp: seq<Byte>, tp: nat, colonp: Option<nat>, seen: nat, val: nat,
                          tok: nat, p: nat, goal: Option<Groups>)
  {
    && |tmp| == 16 && tp <= 16 && tok <= p <= |src| && tmp[tp..] == Zeros(16 - tp)
    && Sane(Groups(tmp[..tp], colonp, seen, val))
    && Loop6(Groups(tmp[..tp], colonp, seen, val), src[tok..], src[p..]) == goal
  }

  lemma ReadingNext(src: Text, tmp: seq<Byte>, tp: nat, colonp: Option<nat>, seen: nat, val: nat, tok: nat, p: nat,
          goal: Option<Groups>)
    requires Reading(src, tmp, tp, colonp, seen, val, tok, p, goal) && p < |src|
    ensures var d := HexValue(src[p]);
      && (d.Some? && seen + 1 > 4 ==> goal.None?)
      && (d.Some? && seen + 1 <= 4 ==> Reading(src, tmp, tp, colonp, seen + 1, val * 16 + d.value, tok, p + 1, goal))
      && (d.None? && src[p] == COLON && seen == 0 && colonp.Some? ==> goal.None?)
      && (d.None? && src[p] == COLON && seen == 0 && colonp.None? ==>
           Reading(src, tmp, tp, Some(tp), seen, val, p + 1, p + 1, goal))
      && (d.None? && src[p] == COLON && seen > 0 && (p + 1 == |src| || tp + 2 > 16) ==> goal.None?)
      && (d.None? && src[p] == COLON && seen > 0 && p + 1 < |src| && tp + 2 <= 16 ==>
          goal == Loop6(Groups(tmp[..tp] + Pair(val), colonp, 0, 0), src[p + 1..], src[p + 1..]))
      && (d.None? && src[p] == DOT && tp + 4 <= 16 ==>
          goal == if Parse4(src[tok..]).None? then None
                  else Some(Groups(tmp[..tp] + Parse4(src[tok..]).value, colonp, 0, val)))
      && (d.None? && src[p] != COLON && !(src[p] == DOT && tp + 4 <= 16) ==> goal.None?)
  {
    assert src[p..][1..] == src[p + 1..];
  }

  /** The loop of inet_pton6, from the start of the first group on. */
  method Groups6(src: Text, tmp: array<Byte>) returns (ok: bool, tp: nat, colonp: int, seen: nat, val: nat)
    requires tmp.Length == 16 && tmp[..] == Zeros(16)
    modifies tmp
    ensures ok == Loop6(Groups([], None, 0, 0), src, src).Some?
    ensures ok ==> tp <= 16 && -1 <= colonp <= tp && tmp[tp..] == Zeros(16 - tp)
    ensures ok ==> var g := Loop6(Groups([], None, 0, 0), src, src).value;
      g.out == tmp[..tp] && g.seen == seen && (seen > 0 ==> g.val == val) &&
      g.colon == (if colonp == -1 then None else Some(colonp))
  {
    ghost var goal := Loop6(Groups([], None, 0, 0), src, src);
    var p, tok := 0, 0;
    ok, tp, colonp, seen, val := false, 0, -1, 0, 0;
    assert src[0..] == src && tmp[..0] == [] && tmp[0..] == tmp[..];
    while p < |src|
      invariant -1 <= colonp <= tp
      invariant Reading(src, tmp[..], tp, if colonp == -1 then None else Some(colonp), seen, val, tok, p, goal)
    {
      ReadingNext(src, tmp[..], tp, if colonp == -1 then None else Some(colonp), seen, val, tok, p, goal);
      var ch := src[p];
      p := p + 1;
      var digit := HexValue(ch);
      if digit.Some? {
        val := val * 16 + digit.value;
        seen := seen + 1;
        if seen > 4 {
          return;
        }
        continue;
      }
      if ch == COLON {
        tok := p;
        if seen == 0 {
          if colonp != -1 {
            return;
          }
          colonp := tp;
          continue;
        } else if p == |src| {
          return;
        }
        if tp + 2 > 16 {
          return;
        }
        tp := StorePair(tmp, tp, val);
        seen, val := 0, 0;
        continue;
      }
      if ch == DOT && tp + 4 <= 16 {
        ok, tp := Embed(src[tok..], tmp, tp);
        seen := 0;
      }
      return;
    }
    assert src[p..] == [];
    ok := true;
  }

  /** A group is stored behind `tp` bytes, in front of zeros. */
  method StorePair(tmp: array<Byte>, tp: nat, val: nat) returns (tp': nat)
    requires tmp.Length == 16 && tp + 2 <= 16 && tmp[tp..] == Zeros(16 - tp)
    modifies tmp
    ensures tp' == tp + 2 && tmp[..tp'] == old(tmp[..tp]) + Pair(val) && tmp[tp'..] == Zeros(16 - tp')
  {
    assert tmp[tp..][2..] == tmp[tp + 2..];
    tp' := PutPair(tmp, tp, val);
  }

  /** An embedded IPv4 address is stored behind `tp` bytes, in front of zeros. */
  method Embed(tok: Text, tmp: array<Byte>, tp: nat) returns (ok: bool, tp': nat)
    requires tmp.Length == 16 && tp + 4 <= 16 && tmp[tp..] == Zeros(16 - tp)
    modifies tmp
    ensures ok == Parse4(tok).Some?
    ensures ok ==> tp' == tp + 4 && tmp[..tp'] == old(tmp[..tp]) + Parse4(tok).value && tmp[tp'..] == Zeros(16 - tp')
  {
    assert tmp[tp..][4..] == tmp[tp + 4..];
    var err := Pton4(tok, tmp, tp);
    ok := err == 0;
    tp' := tp + 4;
    if ok { assert tmp[..tp'] == tmp[..tp] + tmp[tp..tp']; }
  }

  /** inet_pton6. */
  method Pton6(src0: Text, dst: array<Byte>) returns (rc: int)
    requires dst.Length == 16
    modifies dst
    ensures rc == if Parse6(src0).Some? then 0 else UV_EINVAL
    ensures dst[..] == if Parse6(src0).Some? then Parse6(src0).value else old(dst[..])
  {
    var tmp := new Byte[16](_ => 0);
    var src := src0;
    assert tmp[..] == Zeros(16);
    if |src| > 0 && src[0] == COLON {
      src := src[1..];
      if |src| == 0 || src[0] != COLON {
        return UV_EINVAL;
      }
    }
    assert Start6(src0) == Some(src);
    var ok, tp, colonp, seen, val := Groups6(src, tmp);
    if !ok {
      return UV_EINVAL;
    }
    rc := Close6(src, tmp, tp, colonp, seen, val, dst);
  }

  /** What follows the loop of inet_pton6. */
  method Close6(src: Text, tmp: array<Byte>, tp0: nat, colonp: int, seen: nat, val: nat, dst: array<Byte>)
    returns (rc: int)
    requires tmp.Length == 16 && dst.Length == 16 && tmp != dst
    requires tp0 <= 16 && -1 <= colonp <= tp0 && tmp[tp0..] == Zeros(16 - tp0)
    modifies tmp, dst
    ensures var r := Finish(Groups(old(tmp[..tp0]), if colonp == -1 then None else Some(colonp), seen, val));
      && rc == (if r.Some? then 0 else UV_EINVAL)
      && dst[..] == if r.Some? then r.value else old(dst[..])
  {
    var tp := tp0;
    if seen > 0 {
      if tp + 2 > 16 {
        return UV_EINVAL;
      }
      tp := StorePair(tmp, tp, val);
    }
    if colonp != -1 {
      if tp == 16 {
        return UV_EINVAL;
      }
      Shift(tmp, tp, colonp);
      tp := 16;
    }
    if tp != 16 {
      return UV_EINVAL;
    }
    assert tmp[..16] == tmp[..];
    Copy(tmp, dst, 0);
    assert dst[0..16] == dst[..];
    rc := 0;
  }

  const PERCENT: Char := 0x25

  /** The text in front of a zone. */
  function NoZone(src: Text): Text {
    if src == [] || src[0] == PERCENT then [] else [src[0]] + NoZone(src[1..])
  }

  /** uv_inet_pton for AF_INET6: a zone is cut off, and what is left must fit in the buffer. */
  method Pton6Zone(src: Text, dst: array<Byte>) returns (rc: int)
    requires dst.Length == 16
    modifies dst
    ensures var r := if PERCENT in src && |NoZone(src)| > 45 then None else Parse6(NoZone(src));
      && rc == (if r.Some? then 0 else UV_EINVAL)
      && dst[..] == if r.Some? then r.value else old(dst[..])
  {
    var p := 0;
    assert src[0..] == src;
    while p < |src| && src[p] != PERCENT
      invariant p <= |src| && NoZone(src) == src[..p] + NoZone(src[p..]) && PERCENT !in src[..p]
    {
      assert src[p..][1..] == src[p + 1..];
      assert src[..p] + [src[p]] == src[..p + 1];
      p := p + 1;
    }
    assert NoZone(src[p..]) == [] && src[..p] + [] == src[..p];
    assert PERCENT in src <==> p < |src| by {
      assert src == src[..p] + src[p..];
      if p < |src| { assert src[p] == PERCENT; }
    }
    if p < |src| && p > 45 {
      return UV_EINVAL;
    }
    rc := Pton6(src[..p], dst);
  }

  /** A zone begins at the first '%' and is cut off with it. */
  lemma {:induction false} ZoneCut(t: Text, zone: Text)
    requires '%' as nat !in t
    ensures NoZone(t + ['%' as nat] + zone) == t && NoZone(t) == t
  {
    var all := t + ['%' as nat] + zone;
    if t != [] {
      assert all[1..] == t[1..] + ['%' as nat] + zone;
      ZoneCut(t[1..], zone);
    }
  }

  lemma {:induction false} NoZoneAll(t: Text)
    requires PERCENT !in t
    ensures NoZone(t) == t
  {
    if t != [] {
      assert [t[0]] + t[1..] == t;
      NoZoneAll(t[1..]);
    }
  }

  lemma {:induction false} HexPlain(n: nat)
    ensures PERCENT !in Hex(n)
    decreases n
  {
    if n >= 16 { HexPlain(n / 16); }
  }

  lemma {:induction false} LeadPlain(ws: seq<Word>)
    ensures PERCENT !in Lead(ws)
  {
    if ws != [] {
      HexPlain(ws[0]);
      LeadPlain(ws[1..]);
    }
  }

  lemma TailPlain(ws: seq<Word>)
    ensures PERCENT !in Tail(ws)
  {
    if ws != [] {
      LeadPlain(ws[..|ws| - 1]);
      HexPlain(ws[|ws| - 1]);
    }
  }

  lemma {:induction false} DottedPlain(bs: seq<Byte>)
    ensures PERCENT !in Dotted(bs)
  {
    if bs != [] {
      DottedPlain(bs[..|bs| - 1]);
      DecPlain(bs[|bs| - 1]);
    }
  }

  lemma DecPlain(n: nat)
    ensures PERCENT !in Dec(n)
  {
    DecDigits(n);
  }

  lemma PrintPlain(ws: seq<Word>, run: Run, v4: Text)
    requires |ws| == 8 && FitsRun(ws, run) && PERCENT !in v4
    ensures PERCENT !in TextOf(ws, run, v4)
  {
    if run.NoRun? {
      TailPlain(ws);
    } else {
      LeadPlain(ws[..run.base]);
      TailPlain(ws[run.base + run.len..]);
      if Embedded(ws, run) { LeadPlain(ws[run.len..6]); }
    }
  }

  /** An address survives uv_inet_ntop followed by uv_inet_pton, whose cut at a zone finds nothing. */
  lemma PrintedReadBack(b: seq<Byte>, run: Run)
    requires |b| == 16 && FitsRun(Words(b), run)
    ensures PERCENT !in Print6(b, run) && NoZone(Print6(b, run)) == Print6(b, run)
    ensures Parse6(NoZone(Print6(b, run))) == Some(b)
  {
    DottedPlain(b[12..][..3]);
    DecPlain(b[12..][3]);
    PrintPlain(Words(b), run, Print4(b[12..]));
    NoZoneAll(Print6(b, run));
    RoundTrip6(b, run);
  }
}
