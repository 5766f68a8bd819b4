/**
 Linear probing, on sequences of slots: what a probe finds, and what setting a slot does to the finite map
 that the slots stand for.
 */
module HashShape {
  import opened Basics

  /** The characters of a C string: anything but NUL. */
  type Char = c: nat | 0 < c < 256 witness 1

  type Key = seq<Char>

  type Value = int

  datatype Entry = Empty | Full(key: Key, value: Value)

  const WORD := 0x1_0000_0000_0000_0000

  // ---------- bits ----------

  function And(a: nat, b: nat): nat {
    if a == 0 || b == 0 then 0 else a % 2 * (b % 2) + 2 * And(a / 2, b / 2)
  }

  function Xor(a: nat, b: nat): nat
    decreases a + b
  {
    if a == 0 then b else if b == 0 then a else (a + b) % 2 + 2 * Xor(a / 2, b / 2)
  }

  /** Masking with one less than a power of two is taking the remainder. */
  lemma {:induction false} MaskIsRemainder(h: nat, k: nat)
    ensures And(h, Pow2(k) - 1) == h % Pow2(k)
  {
    if k > 0 {
      var p := Pow2(k - 1);
      if h == 0 {
        assert 0 % Pow2(k) == 0;
      } else {
        MaskIsRemainder(h / 2, k - 1);
        assert (2 * p - 1) / 2 == p - 1 && (2 * p - 1) % 2 == 1;
        HalfRemainder(h, p);
        if p == 1 { assert And(h / 2, 0) == 0; }
      }
    } else {
      assert h % 1 == 0;
    }
  }

  lemma HalfRemainder(h: nat, p: nat)
    requires p > 0
    ensures h % (2 * p) == h % 2 + 2 * (h / 2 % p)
  {
    var q, r := h / 2 / p, h / 2 % p;
    assert h == 2 * (h / 2) + h % 2 && h / 2 == q * p + r;
    assert h == q * (2 * p) + (h % 2 + 2 * r) by { assert q * (2 * p) == 2 * (q * p); }
    DivMod(q, 2 * p, h % 2 + 2 * r);
  }

  lemma {:induction false} XorBound(a: nat, b: nat, k: nat)
    requires a < Pow2(k) && b < Pow2(k)
    ensures Xor(a, b) < Pow2(k)
  {
    if a != 0 && b != 0 { XorBound(a / 2, b / 2, k - 1); }
  }

  lemma WordIsPow2()
    ensures Pow2(64) == WORD
  {
    assert Pow2(8) == 256;
    assert Pow2(16) == 0x1_0000;
    assert Pow2(24) == 0x100_0000;
    assert Pow2(32) == 0x1_0000_0000;
    assert Pow2(40) == 0x100_0000_0000;
    assert Pow2(48) == 0x1_0000_0000_0000;
    assert Pow2(56) == 0x100_0000_0000_0000;
  }

  /** The exclusive or of a 64-bit word and a character is a 64-bit word. */
  lemma XorFits(a: nat, b: nat)
    requires a < WORD && b < 256
    ensures Xor(a, b) < WORD
  {
    WordIsPow2();
    XorBound(a, b, 64);
  }

  // ---------- the hash ----------

  const FNV_OFFSET := 14695981039346656037
  const FNV_PRIME := 1099511628211

  /** FNV-1a over 64 bits. */
  function Fnv(key: Key): (h: nat)
    ensures h < WORD
  {
    if key == [] then FNV_OFFSET else Xor(Fnv(key[..|key| - 1]), key[|key| - 1]) * FNV_PRIME % WORD
  }

  lemma {:induction false} HalfMoves(n: nat, k: nat)
    ensures Shr(n / 2, k) == Shr(n, k + 1)
  {
    if k > 0 { HalfMoves(n, k - 1); }
  }

  /** Every bit of the exclusive or is the sum of the two bits there, without a carry. */
  lemma {:induction false} XorBits(a: nat, b: nat, k: nat)
    ensures Shr(Xor(a, b), k) % 2 == (Shr(a, k) % 2 + Shr(b, k) % 2) % 2
    decreases k
  {
    XorHalves(a, b);
    if k > 0 {
      XorBits(a / 2, b / 2, k - 1);
      BitMoves(a, b, Xor(a, b), k - 1);
    }
  }

  lemma BitMoves(a: nat, b: nat, x: nat, k: nat)
    requires Shr(x / 2, k) % 2 == (Shr(a / 2, k) % 2 + Shr(b / 2, k) % 2) % 2
    ensures Shr(x, k + 1) % 2 == (Shr(a, k + 1) % 2 + Shr(b, k + 1) % 2) % 2
  {
    HalfMoves(a, k);
    HalfMoves(b, k);
    HalfMoves(x, k);
  }

  lemma XorHalves(a: nat, b: nat)
    ensures Xor(a, b) % 2 == (a % 2 + b % 2) % 2 && Xor(a, b) / 2 == Xor(a / 2, b / 2)
  {
    if a != 0 && b != 0 {
      OddSum(a, b);
      DoubledAnd((a + b) % 2, Xor(a / 2, b / 2));
    }
  }

  lemma OddSum(a: nat, b: nat)
    ensures (a + b) % 2 == (a % 2 + b % 2) % 2
  {
  }

  lemma DoubledAnd(bit: nat, x: nat)
    requires bit < 2
    ensures (bit + 2 * x) % 2 == bit && (bit + 2 * x) / 2 == x
  {
  }

  /** Halves of two numbers, and their exclusive or as it is put together bit by bit. */
  lemma {:induction false} XorTable(a: seq<nat>, b: seq<nat>, r: seq<nat>)
    requires |a| == |b| == |r| && a != [] && b[|b| - 1] == 0 && r[|r| - 1] == a[|a| - 1]
    requires forall i :: 0 <= i < |a| - 1 ==>
      b[i] != 0 && a[i + 1] == a[i] / 2 && b[i + 1] == b[i] / 2 && r[i] == (a[i] + b[i]) % 2 + 2 * r[i + 1]
    ensures Xor(a[0], b[0]) == r[0]
    decreases |a|
  {
    if |a| > 1 { XorTable(a[1..], b[1..], r[1..]); }
  }

  lemma HashA(h: nat)
    requires h == 0xcbf29ce484222325
    ensures Xor(h, 0x61) * FNV_PRIME % WORD == 0xaf63dc4c8601ec8c
  {
    var a := [0xCBF29CE484222325, 0x65F94E7242111192, 0x32FCA739210888C9, 0x197E539C90844464,
                 0xCBF29CE48422232, 0x65F94E724211119, 0x32FCA739210888C, 0x197E539C9084446];
    var r := [0xCBF29CE484222344, 0x65F94E72421111A2, 0x32FCA739210888D1, 0x197E539C90844468,
                 0xCBF29CE48422234, 0x65F94E72421111A, 0x32FCA739210888D, 0x197E539C9084446];
    XorTable(a, [0x61, 0x30, 0x18, 0xC, 0x6, 0x3, 0x1, 0x0], r);
  }

  lemma HashF(h: nat)
    requires h == 0xcbf29ce484222325
    ensures Xor(h, 0x66) * FNV_PRIME % WORD == 0xaf63db4c8601ead9
  {
    var a := [0xCBF29CE484222325, 0x65F94E7242111192, 0x32FCA739210888C9, 0x197E539C90844464,
                 0xCBF29CE48422232, 0x65F94E724211119, 0x32FCA739210888C, 0x197E539C9084446];
    var r := [0xCBF29CE484222343, 0x65F94E72421111A1, 0x32FCA739210888D0, 0x197E539C90844468,
                 0xCBF29CE48422234, 0x65F94E72421111A, 0x32FCA739210888D, 0x197E539C9084446];
    XorTable(a, [0x66, 0x33, 0x19, 0xC, 0x6, 0x3, 0x1, 0x0], r);
  }

  lemma HashO(h: nat)
    requires h == 0xaf63db4c8601ead9
    ensures Xor(h, 0x6F) * FNV_PRIME % WORD == 0x8985907b541d342
  {
    var a := [0xAF63DB4C8601EAD9, 0x57B1EDA64300F56C, 0x2BD8F6D321807AB6, 0x15EC7B6990C03D5B,
                 0xAF63DB4C8601EAD, 0x57B1EDA64300F56, 0x2BD8F6D321807AB, 0x15EC7B6990C03D5];
    var r := [0xAF63DB4C8601EAB6, 0x57B1EDA64300F55B, 0x2BD8F6D321807AAD, 0x15EC7B6990C03D56,
                 0xAF63DB4C8601EAB, 0x57B1EDA64300F55, 0x2BD8F6D321807AA, 0x15EC7B6990C03D5];
    XorTable(a, [0x6F, 0x37, 0x1B, 0xD, 0x6, 0x3, 0x1, 0x0], r);
  }

  /** Values of FNV-1a that its authors publish: of the empty string, of "a" and of "fo". */
  lemma KnownHashes()
    ensures Fnv([]) == 0xcbf29ce484222325
    ensures Fnv(['a' as nat]) == 0xaf63dc4c8601ec8c
    ensures Fnv(['f' as nat, 'o' as nat]) == 0x8985907b541d342
  {
    var a, f, fo := ['a' as nat], ['f' as nat], ['f' as nat, 'o' as nat];
    assert a[..0] == [] && f[..0] == [] && fo[..1] == f;
    HashA(Fnv([]));
    HashF(Fnv([]));
    HashO(Fnv(f));
  }

  /** Where the probe for a key starts. */
  function Home(key: Key, capacity: nat): nat
    requires capacity > 0
  {
    And(Fnv(key), capacity - 1)
  }

  ghost predicate PowerOfTwo(n: nat) {
    exists k: nat :: n == Pow2(k)
  }

  lemma HomeInside(key: Key, capacity: nat)
    requires PowerOfTwo(capacity)
    ensures capacity > 0 && Home(key, capacity) < capacity && Home(key, capacity) == Fnv(key) % capacity
  {
    var k: nat :| capacity == Pow2(k);
    MaskIsRemainder(Fnv(key), k);
  }

  // ---------- probing ----------

  /** The slot `d` steps after `h`. */
  function Slot(h: nat, d: nat, capacity: nat): (i: nat)
    requires h < capacity && d < capacity
    ensures i < capacity
  {
    if h + d < capacity then h + d else h + d - capacity
  }

  /** How far `i` is behind `h`. */
  function Distance(h: nat, i: nat, capacity: nat): (d: nat)
    requires h < capacity && i < capacity
    ensures d < capacity && Slot(h, d, capacity) == i
  {
    if i >= h then i - h else i + capacity - h
  }

  /** The slots between `h` and `i` are full. */
  predicate Unbroken(s: seq<Entry>, h: nat, i: nat)
    requires h < |s| && i < |s|
  {
    forall d :: 0 <= d < Distance(h, i, |s|) ==> s[Slot(h, d, |s|)].Full?
  }

  predicate ChainAt(s: seq<Entry>, i: nat)
    requires i < |s|
  {
    s[i].Full? ==> Home(s[i].key, |s|) < |s| && Unbroken(s, Home(s[i].key, |s|), i)
  }

  /** Every key is reachable from its home, and no key occurs twice. */
  ghost predicate Probing(s: seq<Entry>) {
    && PowerOfTwo(|s|)
    && (forall i :: 0 <= i < |s| ==> ChainAt(s, i))
    && Unique(s)
  }

  predicate Unique(s: seq<Entry>) {
    forall i, j :: 0 <= i < j < |s| && s[i].Full? && s[j].Full? ==> s[i].key != s[j].key
  }

  /** The probe for `key` stops at `i`: at the key or at the first empty slot. */
  predicate Stops(s: seq<Entry>, key: Key, i: nat)
  {
    && i < |s| && Home(key, |s|) < |s|
    && (s[i].Full? ==> s[i].key == key)
    && forall d :: 0 <= d < Distance(Home(key, |s|), i, |s|) ==>
         s[Slot(Home(key, |s|), d, |s|)].Full? && s[Slot(Home(key, |s|), d, |s|)].key != key
  }

  /** The finite map the slots stand for. */
  function Contents(s: seq<Entry>): map<Key, Value> {
    if s == [] then map[]
    else
      var r, e := Contents(s[..|s| - 1]), s[|s| - 1];
      if e.Full? then r[e.key := e.value] else r
  }

  lemma {:induction false} ContentsAt(s: seq<Entry>, key: Key)
    ensures key in Contents(s) <==> exists i :: 0 <= i < |s| && s[i].Full? && s[i].key == key
  {
    if s != [] {
      var t := s[..|s| - 1];
      ContentsAt(t, key);
      assert forall i :: 0 <= i < |t| ==> t[i] == s[i];
    }
  }

  lemma {:induction false} ContentsValue(s: seq<Entry>, i: nat)
    requires Unique(s) && i < |s| && s[i].Full?
    ensures s[i].key in Contents(s) && Contents(s)[s[i].key] == s[i].value
  {
    if i < |s| - 1 {
      var t := s[..|s| - 1];
      assert forall j :: 0 <= j < |t| ==> t[j] == s[j];
      ContentsValue(t, i);
    }
  }

  /** A key is found exactly where its probe stops. */
  lemma ProbeFinds(s: seq<Entry>, key: Key, i: nat)
    requires Probing(s) && Stops(s, key, i)
    ensures s[i].Full? <==> key in Contents(s)
    ensures s[i].Full? ==> Contents(s)[key] == s[i].value
  {
    ContentsAt(s, key);
    if s[i].Full? {
      ContentsValue(s, i);
    } else if j :| 0 <= j < |s| && s[j].Full? && s[j].key == key {
      ProbeMeets(s, key, i, j);
    }
  }

  /** The probe cannot stop in front of the key. */
  lemma ProbeMeets(s: seq<Entry>, key: Key, i: nat, j: nat)
    requires Stops(s, key, i) && j < |s| && ChainAt(s, j) && s[j].Full? && s[j].key == key && Unique(s)
    ensures i == j
  {
    var h := Home(key, |s|);
    var di, dj := Distance(h, i, |s|), Distance(h, j, |s|);
    assert Slot(h, dj, |s|) == j && Slot(h, di, |s|) == i;
  }

  // ---------- setting ----------

  lemma SetChain(s: seq<Entry>, key: Key, value: Value, i: nat, j: nat)
    requires Stops(s, key, i) && j < |s| && ChainAt(s, j)
    ensures ChainAt(s[i := Full(key, value)], j)
  {
    var t := s[i := Full(key, value)];
    if t[j].Full? {
      var h := Home(t[j].key, |s|);
      assert h < |s| by { if j == i { assert t[j].key == key; } }
      forall d | 0 <= d < Distance(h, j, |t|) ensures t[Slot(h, d, |t|)].Full? {
        assert s[Slot(h, d, |s|)].Full?;
      }
    }
  }

  lemma SetUnique(s: seq<Entry>, key: Key, value: Value, i: nat)
    requires Probing(s) && Stops(s, key, i)
    ensures Unique(s[i := Full(key, value)])
  {
    var t := s[i := Full(key, value)];
    forall j | 0 <= j < |s| && s[j].Full? && s[j].key == key ensures j == i {
      ProbeMeets(s, key, i, j);
    }
    forall j, k | 0 <= j < k < |t| && t[j].Full? && t[k].Full? ensures t[j].key != t[k].key {
      if j != i && k != i { assert s[j].key != s[k].key; }
    }
  }

  lemma SetContents(s: seq<Entry>, key: Key, value: Value, i: nat)
    requires Probing(s) && Stops(s, key, i)
    ensures Contents(s[i := Full(key, value)]) == Contents(s)[key := value]
  {
    var t := s[i := Full(key, value)];
    SetUnique(s, key, value, i);
    assert t[i] == Full(key, value);
    forall k: Key ensures k in Contents(t) <==> k in Contents(s) || k == key {
      ContentsAt(t, k);
      ContentsAt(s, k);
      SetKeys(s, key, value, i, k);
    }
    forall k | k in Contents(t) ensures Contents(t)[k] == Contents(s)[key := value][k] {
      ContentsAt(t, k);
      var j :| 0 <= j < |t| && t[j].Full? && t[j].key == k;
      ContentsValue(t, j);
      if k == key { ContentsValue(t, i); } else { ContentsValue(s, j); }
    }
  }

  lemma SetKeys(s: seq<Entry>, key: Key, value: Value, i: nat, k: Key)
    requires Stops(s, key, i)
    ensures var t := s[i := Full(key, value)];
      (exists j :: 0 <= j < |t| && t[j].Full? && t[j].key == k)
      <==> k == key || exists j :: 0 <= j < |s| && s[j].Full? && s[j].key == k
  {
    var t := s[i := Full(key, value)];
    if k == key {
      assert t[i].Full? && t[i].key == k;
    } else {
      if j :| 0 <= j < |s| && s[j].Full? && s[j].key == k { assert t[j].Full? && t[j].key == k; }
      if j :| 0 <= j < |t| && t[j].Full? && t[j].key == k { assert s[j].Full? && s[j].key == k; }
    }
  }

  /** Putting a key where its probe stops updates the map and keeps every key reachable. */
  lemma SetKeeps(s: seq<Entry>, key: Key, value: Value, i: nat)
    requires Probing(s) && Stops(s, key, i)
    ensures Probing(s[i := Full(key, value)])
    ensures Contents(s[i := Full(key, value)]) == Contents(s)[key := value]
  {
    var t := s[i := Full(key, value)];
    forall j | 0 <= j < |t| ensures ChainAt(t, j) { SetChain(s, key, value, i, j); }
    SetUnique(s, key, value, i);
    SetContents(s, key, value, i);
  }

  // ---------- how many ----------

  function Count(s: seq<Entry>): (n: nat)
    ensures n <= |s|
  {
    if s == [] then 0 else Count(s[..|s| - 1]) + if s[|s| - 1].Full? then 1 else 0
  }

  lemma {:induction false} CountSet(s: seq<Entry>, i: nat, e: Entry)
    requires i < |s| && e.Full?
    ensures Count(s[i := e]) == Count(s) + if s[i].Full? then 0 else 1
  {
    var t := s[i := e];
    if i < |s| - 1 {
      CountSet(s[..|s| - 1], i, e);
      assert t[..|t| - 1] == s[..|s| - 1][i := e];
    } else {
      assert t[..|t| - 1] == s[..|s| - 1];
    }
  }

  lemma {:induction false} SomeEmpty(s: seq<Entry>) returns (i: nat)
    requires Count(s) < |s|
    ensures i < |s| && s[i].Empty?
  {
    if s[|s| - 1].Empty? { i := |s| - 1; } else { i := SomeEmpty(s[..|s| - 1]); }
  }

  /** The number of full slots is the number of distinct keys. */
  lemma {:induction false} CountIsSize(s: seq<Entry>)
    requires Unique(s)
    ensures |Contents(s)| == Count(s)
  {
    if s != [] {
      var t, e := s[..|s| - 1], s[|s| - 1];
      assert forall j :: 0 <= j < |t| ==> t[j] == s[j];
      CountIsSize(t);
      if e.Full? {
        ContentsAt(t, e.key);
        MapGrows(Contents(t), e.key, e.value);
      }
    }
  }

  lemma MapGrows(m: map<Key, Value>, k: Key, v: Value)
    requires k !in m
    ensures |m[k := v]| == |m| + 1
  {
    assert m[k := v].Keys == m.Keys + {k};
    assert |m.Keys| == |m| && |m[k := v].Keys| == |m[k := v]|;
  }

  predicate AllEmpty(s: seq<Entry>) {
    forall i :: 0 <= i < |s| ==> s[i].Empty?
  }

  lemma {:induction false} NothingIn(s: seq<Entry>)
    requires AllEmpty(s)
    ensures Contents(s) == map[] && Count(s) == 0
  {
    if s != [] { NothingIn(s[..|s| - 1]); }
  }

  lemma PrefixMore(s: seq<Entry>, i: nat)
    requires i < |s|
    ensures Contents(s[..i + 1]) == if s[i].Full? then Contents(s[..i])[s[i].key := s[i].value] else Contents(s[..i])
    ensures Count(s[..i + 1]) == Count(s[..i]) + if s[i].Full? then 1 else 0
  {
    assert s[..i + 1][..i] == s[..i];
  }

  /** A key that comes later is not among the first ones. */
  lemma NotBefore(s: seq<Entry>, i: nat)
    requires Unique(s) && i < |s| && s[i].Full?
    ensures s[i].key !in Contents(s[..i])
  {
    ContentsAt(s[..i], s[i].key);
  }

  // ---------- iteration ----------

  /** The full slots from `i` on. */
  function Items(s: seq<Entry>, i: nat): seq<Entry>
    requires i <= |s|
    decreases |s| - i
  {
    if i == |s| then [] else (if s[i].Full? then [s[i]] else []) + Items(s, i + 1)
  }

  predicate Among(s: seq<Entry>, i: nat, e: Entry) {
    exists j :: i <= j < |s| && s[j].Full? && s[j] == e
  }

  lemma {:induction false} ItemsFrom(s: seq<Entry>, i: nat, e: Entry)
    requires i <= |s|
    ensures e in Items(s, i) <==> Among(s, i, e)
    decreases |s| - i
  {
    if i < |s| {
      ItemsFrom(s, i + 1, e);
      assert Among(s, i, e) <==> (s[i].Full? && s[i] == e) || Among(s, i + 1, e);
    }
  }

  predicate DistinctKeys(es: seq<Entry>) {
    && (forall i :: 0 <= i < |es| ==> es[i].Full?)
    && forall i, j :: 0 <= i < j < |es| ==> es[i].key != es[j].key
  }

  lemma {:induction false} ItemsDistinct(s: seq<Entry>, i: nat)
    requires i <= |s| && Unique(s)
    ensures DistinctKeys(Items(s, i))
    decreases |s| - i
  {
    if i < |s| {
      ItemsDistinct(s, i + 1);
      if s[i].Full? {
        var es := Items(s, i + 1);
        forall k | 0 <= k < |es| ensures es[k].key != s[i].key { ItemsFrom(s, i + 1, es[k]); }
      }
    }
  }

  /** Iterating yields each key of the map exactly once, with its value. */
  lemma ItemsAreContents(s: seq<Entry>)
    requires Unique(s)
    ensures DistinctKeys(Items(s, 0))
    ensures forall k, v :: Full(k, v) in Items(s, 0) <==> k in Contents(s) && Contents(s)[k] == v
  {
    ItemsDistinct(s, 0);
    forall k, v ensures Full(k, v) in Items(s, 0) <==> k in Contents(s) && Contents(s)[k] == v {
      ItemsFrom(s, 0, Full(k, v));
      ContentsAt(s, k);
      if j :| 0 <= j < |s| && s[j].Full? && s[j].key == k { ContentsValue(s, j); }
    }
  }
}
