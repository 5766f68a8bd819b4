/**
 Internet addresses as text: what libuv/src/inet.c prints and reads, as functions, and the round trips.
 */
module InetText {
  import opened Basics
  import opened Options

  type Byte = n: nat | n < 256

  /** Character codes of a C string, without the closing NUL. */
  type Char = c: nat | 0 < c < 256 witness 1

  type Text = seq<Char>

  const DOT: Char := 0x2E
  const COLON: Char := 0x3A

  // ---------- numbers ----------

  function DecDigit(d: nat): Char
    requires d < 10
  {
    0x30 + d
  }

  predicate IsDec(c: Char) { 0x30 <= c <= 0x39 }

  /** A number in decimal, without leading zeros. */
  function Dec(n: nat): (t: Text)
    ensures t != []
    decreases n
  {
    if n < 10 then [DecDigit(n)] else Dec(n / 10) + [DecDigit(n % 10)]
  }

  function HexDigit(d: nat): Char
    requires d < 16
  {
    if d < 10 then 0x30 + d else 0x61 + (d - 10)
  }

  /** The value of a hexadecimal digit, small or capital. */
  function HexValue(c: Char): (r: Option<nat>)
    ensures r.Some? ==> r.value < 16 && c != COLON && c != DOT
  {
    if 0x30 <= c <= 0x39 then Some(c - 0x30)
    else if 0x61 <= c <= 0x66 then Some(c - 0x61 + 10)
    else if 0x41 <= c <= 0x46 then Some(c - 0x41 + 10)
    else None
  }

  /** A number in hexadecimal, without leading zeros. */
  function Hex(n: nat): (t: Text)
    ensures t != []
    decreases n
  {
    if n < 16 then [HexDigit(n)] else Hex(n / 16) + [HexDigit(n % 16)]
  }

  lemma {:induction false} HexShort(n: nat)
    ensures n < 0x10 ==> |Hex(n)| == 1
    ensures n < 0x100 ==> |Hex(n)| <= 2
    ensures n < 0x1000 ==> |Hex(n)| <= 3
    ensures n < 0x10000 ==> |Hex(n)| <= 4
    decreases n
  {
    if n >= 16 { HexShort(n / 16); }
  }

  lemma {:induction false} DecShort(n: nat)
    ensures n < 10 ==> |Dec(n)| == 1
    ensures n < 100 ==> |Dec(n)| <= 2
    ensures n < 1000 ==> |Dec(n)| <= 3
    decreases n
  {
    if n >= 10 { DecShort(n / 10); }
  }

  // ---------- IPv4 ----------

  /** Numbers, each with a dot behind it. */
  function Dotted(bs: seq<Byte>): Text {
    if bs == [] then [] else Dotted(bs[..|bs| - 1]) + Dec(bs[|bs| - 1]) + [DOT]
  }

  /** What inet_ntop4 prints. */
  function Print4(b: seq<Byte>): Text
    requires |b| == 4
  {
    Dotted(b[..3]) + Dec(b[3])
  }

  /** The variables of inet_pton4: the octets that are complete, the current one and whether it has a
      digit yet. */
  datatype Octets = Octets(done: seq<Byte>, cur: Byte, saw: bool)

  function Number(q: Octets): nat { |q.done| + if q.saw then 1 else 0 }

  /** One character of inet_pton4. */
  function Read4(q: Octets, ch: Char): (r: Option<Octets>)
    ensures r.Some? && Number(q) <= 4 ==> Number(r.value) <= 4
  {
    if IsDec(ch) then
      var nw := q.cur * 10 + (ch - 0x30);
      if q.saw && q.cur == 0 then None
      else if nw > 255 then None
      else if !q.saw && Number(q) + 1 > 4 then None
      else Some(Octets(q.done, nw, true))
    else if ch == DOT && q.saw then
      if Number(q) == 4 then None else Some(Octets(q.done + [q.cur], 0, false))
    else None
  }

  function Loop4(q: Octets, src: Text): (r: Option<seq<Byte>>)
    requires Number(q) <= 4
    ensures r.Some? ==> |r.value| == 4
    decreases |src|
  {
    if src == [] then (if Number(q) < 4 || !q.saw then None else Some(q.done + [q.cur]))
    else
      var q' := Read4(q, src[0]);
      if q'.None? then None else Loop4(q'.value, src[1..])
  }

  /** inet_pton4. */
  function Parse4(src: Text): (r: Option<seq<Byte>>)
    ensures r.Some? ==> |r.value| == 4
  {
    Loop4(Octets([], 0, false), src)
  }

  /** The text that leads to a state. */
  function Trace(q: Octets): Text {
    Dotted(q.done) + if q.saw then Dec(q.cur) else []
  }

  predicate Blank(q: Octets) { !q.saw ==> q.cur == 0 }

  /** A character that is accepted extends the canonical text of the state. */
  lemma TraceStep(q: Octets, ch: Char)
    requires Read4(q, ch).Some? && Blank(q) && Number(q) <= 4
    ensures Trace(Read4(q, ch).value) == Trace(q) + [ch] && Blank(Read4(q, ch).value)
  {
    var q' := Read4(q, ch).value;
    if IsDec(ch) {
      var d := ch - 0x30;
      if q.saw {
        assert q'.cur / 10 == q.cur && q'.cur % 10 == d;
        assert Dec(q'.cur) == Dec(q.cur) + [ch];
      } else {
        assert Dec(q'.cur) == [ch];
      }
    } else {
      assert (q.done + [q.cur])[..|q.done|] == q.done;
    }
  }

  lemma {:induction false} LoopTrace(q: Octets, src: Text)
    requires Number(q) <= 4 && Blank(q) && Loop4(q, src).Some?
    ensures Trace(q) + src == Print4(Loop4(q, src).value)
    decreases |src|
  {
    if src == [] {
      var b := Loop4(q, src).value;
      assert b[..3] == q.done && b[3] == q.cur;
      assert Trace(q) + [] == Trace(q);
    } else {
      TraceStep(q, src[0]);
      LoopTrace(Read4(q, src[0]).value, src[1..]);
      assert [src[0]] + src[1..] == src;
      Assoc(Trace(q), [src[0]], src[1..]);
    }
  }

  /** Reading a number that is printed without leading zeros. */
  lemma {:induction false} ReadNumber(done: seq<Byte>, n: Byte, rest: Text)
    requires |done| < 4
    ensures Loop4(Octets(done, 0, false), Dec(n) + rest) == Loop4(Octets(done, n, true), rest)
    decreases n
  {
    var c := DecDigit(n % 10);
    if n < 10 {
      assert (Dec(n) + rest)[1..] == rest;
    } else {
      Assoc(Dec(n / 10), [c], rest);
      ReadNumber(done, n / 10, [c] + rest);
      assert ([c] + rest)[1..] == rest;
    }
  }

  lemma {:induction false} ReadDotted(bs: seq<Byte>, rest: Text)
    requires |bs| <= 3
    ensures Loop4(Octets([], 0, false), Dotted(bs) + rest) == Loop4(Octets(bs, 0, false), rest)
    decreases |bs|
  {
    if bs == [] {
      assert Dotted(bs) + rest == rest;
    } else {
      var front, n := bs[..|bs| - 1], bs[|bs| - 1];
      Assoc(Dotted(front) + Dec(n), [DOT], rest);
      Assoc(Dotted(front), Dec(n), [DOT] + rest);
      ReadDotted(front, Dec(n) + ([DOT] + rest));
      ReadNumber(front, n, [DOT] + rest);
      assert ([DOT] + rest)[1..] == rest && front + [n] == bs;
    }
  }

  /** inet_pton4 accepts exactly the texts inet_ntop4 prints, and reads from each the address it was
      printed from. */
  lemma Exact4(src: Text, b: seq<Byte>)
    requires |b| == 4
    ensures Parse4(src) == Some(b) <==> src == Print4(b)
  {
    ReadDotted(b[..3], Dec(b[3]));
    ReadNumber(b[..3], b[3], []);
    assert Dec(b[3]) + [] == Dec(b[3]) && b[..3] + [b[3]] == b;
    if Parse4(src).Some? {
      LoopTrace(Octets([], 0, false), src);
      assert Trace(Octets([], 0, false)) + src == src;
    }
  }

  // ---------- IPv6: words and bytes ----------

  type Word = w: nat | w < 0x10000

  function Pair(w: nat): (r: seq<Byte>)
    ensures |r| == 2
  {
    [w / 256 % 256, w % 256]
  }

  function Bytes(ws: seq<Word>): (r: seq<Byte>)
    ensures |r| == 2 * |ws|
  {
    if ws == [] then [] else Pair(ws[0]) + Bytes(ws[1..])
  }

  function WordOf(hi: nat, lo: nat): nat { hi * 256 + lo }

  function Words(b: seq<Byte>): (r: seq<Word>)
    requires |b| % 2 == 0
    ensures |r| == |b| / 2
  {
    if b == [] then [] else [WordOf(b[0], b[1])] + Words(b[2..])
  }

  lemma {:induction false} BytesOfWords(b: seq<Byte>)
    requires |b| % 2 == 0
    ensures Bytes(Words(b)) == b
  {
    if b != [] {
      BytesOfWords(b[2..]);
      var w := WordOf(b[0], b[1]);
      assert w / 256 % 256 == b[0] && w % 256 == b[1];
      assert Words(b)[1..] == Words(b[2..]);
      assert b == [b[0], b[1]] + b[2..];
    }
  }

  lemma {:induction false} BytesJoin(a: seq<Word>, b: seq<Word>)
    ensures Bytes(a + b) == Bytes(a) + Bytes(b)
  {
    if a == [] {
      assert a + b == b;
    } else {
      assert (a + b)[1..] == a[1..] + b;
      BytesJoin(a[1..], b);
    }
  }

  function Zeros(n: nat): (r: seq<Byte>)
    ensures |r| == n && forall i :: 0 <= i < n ==> r[i] == 0
  {
    seq(n, _ => 0)
  }

  lemma {:induction false} BytesZero(ws: seq<Word>)
    requires forall i :: 0 <= i < |ws| ==> ws[i] == 0
    ensures Bytes(ws) == Zeros(2 * |ws|)
  {
    if ws != [] { BytesZero(ws[1..]); }
  }

  // ---------- what inet_ntop6 prints ----------

  /** Words, each with a colon behind it. */
  function Lead(ws: seq<Word>): Text {
    if ws == [] then [] else Hex(ws[0]) + [COLON] + Lead(ws[1..])
  }

  /** Words with colons between them. */
  function Tail(ws: seq<Word>): Text {
    if ws == [] then [] else Lead(ws[..|ws| - 1]) + Hex(ws[|ws| - 1])
  }

  /** The run of zero words that is left out. */
  datatype Run = NoRun | Run(base: nat, len: nat)

  predicate ZeroRun(ws: seq<Word>, base: int, len: int) {
    0 <= base && 0 <= len && base + len <= |ws| && forall i :: base <= i < base + len ==> ws[i] == 0
  }

  /** The leftmost of the longest runs of at least two zero words. */
  ghost predicate IsBest(ws: seq<Word>, run: Run) {
    match run
    case NoRun => forall b, n :: ZeroRun(ws, b, n) ==> n < 2
    case Run(base, len) =>
      && len >= 2 && ZeroRun(ws, base, len)
      && forall b, n :: ZeroRun(ws, b, n) ==> n < len || (n == len && base <= b)
  }

  lemma BestIsUnique(ws: seq<Word>, r: Run, r': Run)
    requires IsBest(ws, r) && IsBest(ws, r')
    ensures r == r'
  {
    if r.Run? { assert ZeroRun(ws, r.base, r.len); }
    if r'.Run? { assert ZeroRun(ws, r'.base, r'.len); }
  }

  /** The last four bytes are printed as an IPv4 address. */
  predicate Embedded(ws: seq<Word>, run: Run)
    requires |ws| == 8
  {
    run.Run? && run.base == 0 && (run.len == 6 || (run.len == 5 && ws[5] == 0xFFFF))
  }

  predicate FitsRun(ws: seq<Word>, run: Run) {
    run.Run? ==> run.len >= 2 && ZeroRun(ws, run.base, run.len)
  }

  function Before(ws: seq<Word>, run: Run): Text
    requires FitsRun(ws, run) && run.Run?
  {
    if run.base == 0 then [COLON] else Lead(ws[..run.base])
  }

  function After(ws: seq<Word>, run: Run, v4: Text): Text
    requires |ws| == 8 && FitsRun(ws, run) && run.Run?
  {
    if Embedded(ws, run) then Lead(ws[run.len..6]) + v4 else Tail(ws[run.base + run.len..])
  }

  /** The text of eight words, the last two of which may be printed as `v4`. */
  function TextOf(ws: seq<Word>, run: Run, v4: Text): Text
    requires |ws| == 8 && FitsRun(ws, run)
  {
    if run.NoRun? then Tail(ws) else Before(ws, run) + [COLON] + After(ws, run, v4)
  }

  function Print6(b: seq<Byte>, run: Run): Text
    requires |b| == 16 && FitsRun(Words(b), run)
  {
    TextOf(Words(b), run, Print4(b[12..]))
  }

  // ---------- the texts fit in the buffers ----------

  const INET_ADDRSTRLEN: nat := 16
  const INET6_ADDRSTRLEN: nat := 46

  lemma {:induction false} DottedFits(bs: seq<Byte>)
    ensures |Dotted(bs)| <= 4 * |bs|
  {
    if bs != [] {
      DottedFits(bs[..|bs| - 1]);
      DecShort(bs[|bs| - 1]);
    }
  }

  /** What inet_ntop4 formats fits in its buffer with the NUL. */
  lemma Print4Fits(b: seq<Byte>)
    requires |b| == 4
    ensures |Print4(b)| + 1 <= INET_ADDRSTRLEN
  {
    DottedFits(b[..3]);
    DecShort(b[3]);
  }

  lemma {:induction false} LeadFits(ws: seq<Word>)
    ensures |Lead(ws)| <= 5 * |ws|
  {
    if ws != [] {
      HexShort(ws[0]);
      LeadFits(ws[1..]);
    }
  }

  lemma TailFits(ws: seq<Word>)
    ensures ws != [] ==> |Tail(ws)| <= 5 * |ws| - 1
  {
    if ws != [] {
      LeadFits(ws[..|ws| - 1]);
      HexShort(ws[|ws| - 1]);
    }
  }

  /** What inet_ntop6 formats fits in its buffer with the NUL. */
  lemma Print6Fits(b: seq<Byte>, run: Run)
    requires |b| == 16 && FitsRun(Words(b), run)
    ensures |Print6(b, run)| + 1 <= INET6_ADDRSTRLEN
  {
    var ws := Words(b);
    Print4Fits(b[12..]);
    TailFits(ws);
    if run.Run? {
      LeadFits(ws[..run.base]);
      TailFits(ws[run.base + run.len..]);
      if Embedded(ws, run) { LeadFits(ws[run.len..6]); }
    }
  }

  // ---------- what inet_pton6 reads ----------

  /** The variables of inet_pton6: the bytes written, where "::" was, the digits seen and their value. */
  datatype Groups = Groups(out: seq<Byte>, colon: Option<nat>, seen: nat, val: nat)

  predicate Sane(g: Groups) {
    |g.out| <= 16 && (g.colon.Some? ==> g.colon.value <= |g.out|)
  }

  /** The loop, from `src` on; `tok` is where the current group begins. */
  function Loop6(g: Groups, tok: Text, src: Text): (r: Option<Groups>)
    requires Sane(g)
    ensures r.Some? ==> Sane(r.value)
    decreases |src|
  {
    if src == [] then Some(g)
    else
      var ch, rest := src[0], src[1..];
      var d := HexValue(ch);
      if d.Some? then
        if g.seen + 1 > 4 then None
        else Loop6(g.(seen := g.seen + 1, val := g.val * 16 + d.value), tok, rest)
      else if ch == COLON then
        if g.seen == 0 then
          if g.colon.Some? then None else Loop6(g.(colon := Some(|g.out|)), rest, rest)
        else if rest == [] then None
        else if |g.out| + 2 > 16 then None
        else Loop6(Groups(g.out + Pair(g.val), g.colon, 0, 0), rest, rest)
      else if ch == DOT && |g.out| + 4 <= 16 then
        var b := Parse4(tok);
        if b.None? then None else Some(g.(out := g.out + b.value, seen := 0))
      else None
  }

  /** What follows the loop: the last group, and the shift that opens the gap. */
  function Flush(g: Groups): Option<seq<Byte>>
    requires Sane(g)
  {
    if g.seen == 0 then Some(g.out) else if |g.out| + 2 > 16 then None else Some(g.out + Pair(g.val))
  }

  function Opened(out: seq<Byte>, at: nat): seq<Byte>
    requires at <= |out| <= 16
  {
    out[..at] + Zeros(16 - |out|) + out[at..]
  }

  function Finish(g: Groups): (r: Option<seq<Byte>>)
    requires Sane(g)
    ensures r.Some? ==> |r.value| == 16
  {
    var out := Flush(g);
    if out.None? then None
    else if g.colon.Some? then
      if |out.value| == 16 then None else Some(Opened(out.value, g.colon.value))
    else if |out.value| == 16 then out else None
  }

  function Start6(src: Text): Option<Text> {
    if src != [] && src[0] == COLON then
      if |src| < 2 || src[1] != COLON then None else Some(src[1..])
    else Some(src)
  }

  /** inet_pton6. */
  function Parse6(src: Text): (r: Option<seq<Byte>>)
    ensures r.Some? ==> |r.value| == 16
  {
    var s := Start6(src);
    if s.None? then None
    else
      var g := Loop6(Groups([], None, 0, 0), s.value, s.value);
      if g.None? then None else Finish(g.value)
  }

  // ---------- the round trip ----------

  lemma HexDigitRead(d: nat)
    requires d < 16
    ensures HexValue(HexDigit(d)) == Some(d)
  {
  }

  lemma {:induction false} ReadHex(g: Groups, tok: Text, n: nat, rest: Text)
    requires Sane(g) && g.seen == 0 && g.val == 0 && n < 0x10000
    ensures Loop6(g, tok, Hex(n) + rest) == Loop6(g.(seen := |Hex(n)|, val := n), tok, rest)
    decreases n
  {
    var c := HexDigit(n % 16);
    HexDigitRead(n % 16);
    HexShort(n);
    if n < 16 {
      assert (Hex(n) + rest)[1..] == rest;
    } else {
      Assoc(Hex(n / 16), [c], rest);
      ReadHex(g, tok, n / 16, [c] + rest);
      assert ([c] + rest)[1..] == rest;
    }
  }

  lemma ReadColon(g: Groups, tok: Text, rest: Text)
    requires Sane(g) && g.seen > 0 && rest != [] && |g.out| + 2 <= 16
    ensures Loop6(g, tok, [COLON] + rest) == Loop6(Groups(g.out + Pair(g.val), g.colon, 0, 0), rest, rest)
  {
    assert ([COLON] + rest)[1..] == rest;
  }

  lemma ReadGap(g: Groups, tok: Text, rest: Text)
    requires Sane(g) && g.seen == 0 && g.colon.None?
    ensures Loop6(g, tok, [COLON] + rest) == Loop6(g.(colon := Some(|g.out|)), rest, rest)
  {
    assert ([COLON] + rest)[1..] == rest;
  }

  /** Words with colons behind them become their bytes. */
  lemma {:induction false} ReadLead(out: seq<Byte>, colon: Option<nat>, ws: seq<Word>, rest: Text)
    requires Sane(Groups(out, colon, 0, 0)) && |out| + 2 * |ws| <= 16 && rest != []
    ensures Loop6(Groups(out, colon, 0, 0), Lead(ws) + rest, Lead(ws) + rest)
         == Loop6(Groups(out + Bytes(ws), colon, 0, 0), rest, rest)
    decreases |ws|
  {
    if ws == [] {
      assert Lead(ws) + rest == rest && out + Bytes(ws) == out;
    } else {
      var w, more := ws[0], Lead(ws[1..]) + rest;
      LeadFirst(ws, rest);
      ReadGroup(out, colon, w, more);
      ReadLead(out + Pair(w), colon, ws[1..], rest);
      Assoc(out, Pair(w), Bytes(ws[1..]));
    }
  }

  lemma LeadFirst(ws: seq<Word>, rest: Text)
    requires ws != []
    ensures Lead(ws) + rest == Hex(ws[0]) + ([COLON] + (Lead(ws[1..]) + rest))
  {
    Assoc(Hex(ws[0]) + [COLON], Lead(ws[1..]), rest);
    Assoc(Hex(ws[0]), [COLON], Lead(ws[1..]) + rest);
  }

  /** One word and the colon behind it. */
  lemma ReadGroup(out: seq<Byte>, colon: Option<nat>, w: Word, rest: Text)
    requires Sane(Groups(out, colon, 0, 0)) && |out| + 2 <= 16 && rest != []
    ensures var all := Hex(w) + ([COLON] + rest);
      Loop6(Groups(out, colon, 0, 0), all, all) == Loop6(Groups(out + Pair(w), colon, 0, 0), rest, rest)
  {
    var all := Hex(w) + ([COLON] + rest);
    ReadHex(Groups(out, colon, 0, 0), all, w, [COLON] + rest);
    ReadColon(Groups(out, colon, |Hex(w)|, w), all, rest);
  }

  /** Words with colons between them, at the end of the text. */
  lemma ReadTail(out: seq<Byte>, colon: Option<nat>, ws: seq<Word>)
    requires Sane(Groups(out, colon, 0, 0)) && |out| + 2 * |ws| <= 16
    ensures Loop6(Groups(out, colon, 0, 0), Tail(ws), Tail(ws)).Some?
    ensures var g := Loop6(Groups(out, colon, 0, 0), Tail(ws), Tail(ws)).value;
      g.colon == colon && Flush(g) == Some(out + Bytes(ws))
  {
    if ws == [] {
      assert out + Bytes(ws) == out;
    } else {
      var front, w := ws[..|ws| - 1], ws[|ws| - 1];
      ReadLead(out, colon, front, Hex(w));
      var mid := Groups(out + Bytes(front), colon, 0, 0);
      assert Hex(w) + [] == Hex(w);
      ReadHex(mid, Hex(w), w, []);
      BytesLast(out, front, w);
      assert front + [w] == ws;
    }
  }

  lemma BytesLast(out: seq<Byte>, front: seq<Word>, w: Word)
    ensures out + Bytes(front) + Pair(w) == out + Bytes(front + [w])
  {
    LastPair(front, w);
    Assoc(out, Bytes(front), Pair(w));
  }

  lemma LastPair(front: seq<Word>, w: Word)
    ensures Bytes(front + [w]) == Bytes(front) + Pair(w)
  {
    BytesJoin(front, [w]);
    BytesOne(w);
  }

  lemma BytesOne(w: Word)
    ensures Bytes([w]) == Pair(w)
  {
    assert [w][1..] == [] && Pair(w) + [] == Pair(w);
  }

  /** An IPv4 address at the end of the text. */
  lemma ReadPrint4(g: Groups, b: seq<Byte>)
    requires Sane(g) && g.seen == 0 && g.val == 0 && |g.out| + 4 <= 16 && |b| == 4
    ensures Loop6(g, Print4(b), Print4(b)).Some?
    ensures var r := Loop6(g, Print4(b), Print4(b)).value; r.colon == g.colon && Flush(r) == Some(g.out + b)
  {
    Exact4(Print4(b), b);
    var rest := FirstDot(b);
    DecShort(b[0]);
    ReadDecAsHex(g, Print4(b), b[0], rest);
  }

  /** An IPv4 address begins with its first number and a dot. */
  lemma FirstDot(b: seq<Byte>) returns (rest: Text)
    requires |b| == 4
    ensures rest != [] && rest[0] == DOT && Print4(b) == Dec(b[0]) + rest
  {
    rest := [DOT] + Dec(b[1]) + [DOT] + Dec(b[2]) + [DOT] + Dec(b[3]);
    assert b[..3][..2] == b[..2] && b[..2][..1] == b[..1] && b[..1][..0] == [];
    assert Dotted(b[..1]) == Dec(b[0]) + [DOT];
    assert Dotted(b[..2]) == Dotted(b[..1]) + Dec(b[1]) + [DOT];
    assert Dotted(b[..3]) == Dotted(b[..2]) + Dec(b[2]) + [DOT];
  }

  /** Decimal digits pass for hexadecimal ones until the dot. */
  lemma {:induction false} ReadDecAsHex(g: Groups, tok: Text, n: nat, rest: Text)
    requires Sane(g) && g.seen == 0 && |Dec(n)| <= 3 && rest != [] && rest[0] == DOT && |g.out| + 4 <= 16 &&
             Parse4(tok).Some?
    ensures Loop6(g, tok, Dec(n) + rest).Some?
    ensures var r := Loop6(g, tok, Dec(n) + rest).value;
      r.colon == g.colon && r.seen == 0 && r.out == g.out + Parse4(tok).value
  {
    DecDigits(n);
    DigitsThenDot(g, tok, Dec(n), rest);
  }

  lemma {:induction false} DecDigits(n: nat)
    ensures forall i :: 0 <= i < |Dec(n)| ==> IsDec(Dec(n)[i])
    decreases n
  {
    if n >= 10 { DecDigits(n / 10); }
  }

  lemma {:induction false} DigitsThenDot(g: Groups, tok: Text, ds: Text, rest: Text)
    requires Sane(g) && g.seen + |ds| <= 4 && (forall i :: 0 <= i < |ds| ==> IsDec(ds[i]))
    requires rest != [] && rest[0] == DOT && |g.out| + 4 <= 16 && Parse4(tok).Some?
    ensures Loop6(g, tok, ds + rest).Some?
    ensures var r := Loop6(g, tok, ds + rest).value;
      r.colon == g.colon && r.seen == 0 && r.out == g.out + Parse4(tok).value
    decreases |ds|
  {
    if ds == [] {
      assert ds + rest == rest;
    } else {
      var d := HexValue(ds[0]);
      assert (ds + rest)[1..] == ds[1..] + rest;
      DigitsThenDot(g.(seen := g.seen + 1, val := g.val * 16 + d.value), tok, ds[1..], rest);
    }
  }

  lemma BytesThree(x: seq<Word>, y: seq<Word>, z: seq<Word>)
    ensures Bytes(x + y + z) == Bytes(x) + Bytes(y) + Bytes(z)
  {
    BytesJoin(x, y);
    BytesJoin(x + y, z);
  }

  /** What is in front of the gap, behind the gap, and the zeros between them. */
  lemma Gap(ws: seq<Word>, base: nat, len: nat)
    requires ZeroRun(ws, base, len)
    ensures Bytes(ws[..base]) + Zeros(2 * len) + Bytes(ws[base + len..]) == Bytes(ws)
  {
    var x, y, z := ws[..base], ws[base..base + len], ws[base + len..];
    BytesZero(y);
    BytesThree(x, y, z);
    assert x + y + z == ws;
  }

  /** Reading up to the gap. */
  lemma ReadBefore(ws: seq<Word>, run: Run, rest: Text)
    requires |ws| == 8 && FitsRun(ws, run) && run.Run?
    ensures var text := Before(ws, run) + [COLON] + rest;
      Start6(text).Some?
      && Loop6(Groups([], None, 0, 0), Start6(text).value, Start6(text).value)
         == Loop6(Groups(Bytes(ws[..run.base]), Some(2 * run.base), 0, 0), rest, rest)
  {
    var text := Before(ws, run) + [COLON] + rest;
    var front := ws[..run.base];
    Assoc(Before(ws, run), [COLON], rest);
    if run.base == 0 {
      assert text[1..] == [COLON] + rest;
      assert Bytes(front) == [];
      ReadGap(Groups([], None, 0, 0), [COLON] + rest, rest);
    } else {
      NoLeadingColon(front, [COLON] + rest);
      ReadLead([], None, front, [COLON] + rest);
      assert [] + Bytes(front) == Bytes(front);
      ReadGap(Groups(Bytes(front), None, 0, 0), [COLON] + rest, rest);
    }
  }

  lemma {:induction false} HexNoColon(n: nat)
    ensures Hex(n)[0] != COLON
    decreases n
  {
    if n >= 16 { HexNoColon(n / 16); }
  }

  lemma NoLeadingColon(ws: seq<Word>, rest: Text)
    requires ws != []
    ensures Start6(Lead(ws) + rest) == Some(Lead(ws) + rest)
  {
    HexNoColon(ws[0]);
    assert (Lead(ws) + rest)[0] == Hex(ws[0])[0];
  }

  /** Reading what is behind the gap. */
  lemma ReadAfter(ws: seq<Word>, run: Run, v4: seq<Byte>)
    requires |ws| == 8 && FitsRun(ws, run) && run.Run? && |v4| == 4 && Bytes(ws[6..]) == v4
    ensures var r := Loop6(Groups(Bytes(ws[..run.base]), Some(2 * run.base), 0, 0), After(ws, run, Print4(v4)),
              After(ws, run, Print4(v4)));
      r.Some? && r.value.colon == Some(2 * run.base)
      && Flush(r.value) == Some(Bytes(ws[..run.base]) + Bytes(ws[run.base + run.len..]))
  {
    var out := Bytes(ws[..run.base]);
    if Embedded(ws, run) {
      var mid := ws[run.len..6];
      ReadLead(out, Some(0), mid, Print4(v4));
      ReadPrint4(Groups(out + Bytes(mid), Some(0), 0, 0), v4);
      assert mid + ws[6..] == ws[run.len..];
      BytesJoin(mid, ws[6..]);
      Assoc(out, Bytes(mid), v4);
    } else {
      ReadTail(out, Some(2 * run.base), ws[run.base + run.len..]);
    }
  }

  lemma LastWords(b: seq<Byte>)
    requires |b| == 16
    ensures Bytes(Words(b)[6..]) == b[12..]
  {
    DropWords(b, 6);
    BytesOfWords(b[12..]);
  }

  lemma {:induction false} DropWords(b: seq<Byte>, k: nat)
    requires |b| % 2 == 0 && 2 * k <= |b|
    ensures Words(b)[k..] == Words(b[2 * k..])
    decreases k
  {
    if k == 0 {
      assert b[0..] == b;
    } else {
      DropWords(b[2..], k - 1);
      assert b[2..][2 * (k - 1)..] == b[2 * k..];
      assert Words(b)[k..] == Words(b)[1..][k - 1..];
    }
  }

  /** inet_pton6 reads every address back from the text inet_ntop6 prints for it. */
  lemma RoundTrip6(b: seq<Byte>, run: Run)
    requires |b| == 16 && FitsRun(Words(b), run)
    ensures Parse6(Print6(b, run)) == Some(b)
  {
    BytesOfWords(b);
    LastWords(b);
    ReadText(Words(b), run, b[12..]);
  }

  lemma ReadText(ws: seq<Word>, run: Run, v4: seq<Byte>)
    requires |ws| == 8 && FitsRun(ws, run) && |v4| == 4 && Bytes(ws[6..]) == v4
    ensures Parse6(TextOf(ws, run, Print4(v4))) == Some(Bytes(ws))
  {
    if run.NoRun? { WholeText(ws); } else { GapText(ws, run, v4); }
  }

  lemma GapText(ws: seq<Word>, run: Run, v4: seq<Byte>)
    requires |ws| == 8 && FitsRun(ws, run) && run.Run? && |v4| == 4 && Bytes(ws[6..]) == v4
    ensures Parse6(Before(ws, run) + [COLON] + After(ws, run, Print4(v4))) == Some(Bytes(ws))
  {
    var after := After(ws, run, Print4(v4));
    ReadBefore(ws, run, after);
    var s := Start6(Before(ws, run) + [COLON] + after).value;
    var g := Loop6(Groups([], None, 0, 0), s, s);
    assert g.Some? && Finish(g.value) == Some(Bytes(ws)) by {
      ReadAfter(ws, run, v4);
      GapOpened(ws, run.base, run.len);
    }
  }

  lemma WholeText(ws: seq<Word>)
    requires |ws| == 8
    ensures Parse6(Tail(ws)) == Some(Bytes(ws))
  {
    ReadTail([], None, ws);
    NoLeadingColon(ws[..7], Hex(ws[7]));
    assert [] + Bytes(ws) == Bytes(ws);
  }

  lemma GapOpened(ws: seq<Word>, base: nat, len: nat)
    requires |ws| == 8 && len >= 2 && ZeroRun(ws, base, len)
    ensures var out := Bytes(ws[..base]) + Bytes(ws[base + len..]);
      |out| < 16 && Opened(out, 2 * base) == Bytes(ws)
  {
    Gap(ws, base, len);
    Reopened(Bytes(ws[..base]), Bytes(ws[base + len..]), 2 * len);
  }

  lemma Reopened(x: seq<Byte>, z: seq<Byte>, n: nat)
    requires |x| + n + |z| == 16
    ensures Opened(x + z, |x|) == x + Zeros(n) + z
  {
  }
}
