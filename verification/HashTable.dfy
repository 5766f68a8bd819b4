/**
 ht.c: the hash table, its growth and its iterator.
 */
module HashTable {
  import opened Basics
  import opened Options
  import opened HashShape

  const INITIAL_CAPACITY := 16

  /** hash_key. */
  method HashKey(key: Key) returns (hash: nat)
    ensures hash == Fnv(key)
  {
    hash := FNV_OFFSET;
    var p := 0;
    while p < |key|
      invariant p <= |key| && hash == Fnv(key[..p])
    {
      assert key[..p + 1][..p] == key[..p];
      XorFits(hash, key[p]);
      hash := Xor(hash, key[p]);
      assert hash < WORD;
      hash := hash * FNV_PRIME % WORD;
      p := p + 1;
    }
    assert key[..p] == key;
  }

  /** The first `d` slots of the probe for `key` are full of other keys. */
  predicate Passed(s: seq<Entry>, key: Key, d: nat) {
    && d < |s| && Home(key, |s|) < |s|
    && forall x :: 0 <= x < d ==> s[Slot(Home(key, |s|), x, |s|)].Full? && s[Slot(Home(key, |s|), x, |s|)].key != key
  }

  predicate Empties(s: seq<Entry>) {
    exists i :: 0 <= i < |s| && s[i].Empty?
  }

  /** One more slot passed: there is still an empty one ahead. */
  lemma PassOne(s: seq<Entry>, key: Key, d: nat)
    requires Passed(s, key, d) && Empties(s)
    requires var i := Slot(Home(key, |s|), d, |s|); s[i].Full? && s[i].key != key
    ensures Passed(s, key, d + 1)
    ensures Slot(Home(key, |s|), d + 1, |s|) == var i := Slot(Home(key, |s|), d, |s|); if i + 1 >= |s| then 0 else i + 1
  {
    var h := Home(key, |s|);
    var i :| 0 <= i < |s| && s[i].Empty?;
    var e := Distance(h, i, |s|);
    assert Slot(h, e, |s|) == i && e > d;
  }

  lemma PassedStops(s: seq<Entry>, key: Key, d: nat)
    requires Passed(s, key, d)
    requires var i := Slot(Home(key, |s|), d, |s|); s[i].Full? ==> s[i].key == key
    ensures Stops(s, key, Slot(Home(key, |s|), d, |s|))
  {
    var h := Home(key, |s|);
    assert Distance(h, Slot(h, d, |s|), |s|) == d;
  }

  /** The probe loop that ht_get and ht_set_entry share. */
  method Probe(entries: array<Entry>, capacity: nat, key: Key) returns (index: nat)
    requires capacity == entries.Length && PowerOfTwo(capacity) && Empties(entries[..])
    ensures Stops(entries[..], key, index)
  {
    var hash := HashKey(key);
    index := And(hash, capacity - 1);
    HomeInside(key, capacity);
    ghost var s, d := entries[..], 0;
    assert Slot(index, 0, capacity) == index;
    while entries[index].Full? && key != entries[index].key
      invariant Passed(s, key, d) && index == Slot(Home(key, capacity), d, capacity)
      decreases capacity - d
    {
      PassOne(s, key, d);
      index := index + 1;
      if index >= capacity {
        index := 0;
      }
      d := d + 1;
    }
    PassedStops(s, key, d);
  }

  /** ht_set_entry without a length: a key that is known to be absent moves to a new table. */
  method MoveEntry(entries: array<Entry>, capacity: nat, key: Key, value: Value)
    requires capacity == entries.Length && Probing(entries[..]) && Count(entries[..]) < capacity
    modifies entries
    ensures Probing(entries[..]) && Contents(entries[..]) == old(Contents(entries[..]))[key := value]
    ensures Count(entries[..]) == old(Count(entries[..])) + if key in old(Contents(entries[..])) then 0 else 1
  {
    ghost var s := entries[..];
    ghost var e := SomeEmpty(s);
    var index := Probe(entries, capacity, key);
    ProbeFinds(s, key, index);
    SetKeeps(s, key, value, index);
    CountSet(s, index, Full(key, value));
    entries[index] := Full(key, value);
    assert entries[..] == s[index := Full(key, value)];
  }

  class Table {
    var entries: array<Entry>
    var capacity: nat
    var length: nat

    ghost predicate Valid()
      reads this, entries
    {
      && capacity == entries.Length && INITIAL_CAPACITY <= capacity < WORD
      && Probing(entries[..])
      && length == Count(entries[..]) && length <= capacity / 2
    }

    /** The finite map that the table stands for. */
    ghost function Map(): map<Key, Value>
      reads this, entries
    {
      Contents(entries[..])
    }

    /** ht_create with enough memory. */
    constructor ()
      ensures Valid() && fresh(entries) && Map() == map[]
    {
      length := 0;
      capacity := INITIAL_CAPACITY;
      entries := new Entry[INITIAL_CAPACITY](_ => Empty);
      new;
      NothingIn(entries[..]);
      assert Pow2(4) == 16;
    }

    /** ht_length: the number of distinct keys. */
    method Length() returns (n: nat)
      requires Valid()
      ensures n == |Map()|
    {
      CountIsSize(entries[..]);
      n := length;
    }

    lemma HasRoom()
      requires Valid()
      ensures Empties(entries[..])
    {
      var i := SomeEmpty(entries[..]);
    }

    /** ht_get. */
    method Get(key: Key) returns (r: Option<Value>)
      requires Valid()
      ensures r == if key in Map() then Some(Map()[key]) else None
    {
      HasRoom();
      var index := Probe(entries, capacity, key);
      ProbeFinds(entries[..], key, index);
      if entries[index].Full? {
        return Some(entries[index].value);
      }
      return None;
    }

    /** ht_expand; `ok` says whether there was memory for the new slots. */
    method Expand(ok: bool) returns (r: bool)
      requires Valid()
      modifies this
      ensures Valid() && Map() == old(Map()) && length == old(length)
      ensures r == (ok && old(capacity) * 2 < WORD)
      ensures if r then capacity == 2 * old(capacity) && fresh(entries) else unchanged(this)
    {
      var newCapacity := capacity * 2 % WORD;
      Doubled();
      if newCapacity < capacity {
        return false;
      }
      if !ok {
        return false;
      }
      var newEntries := new Entry[newCapacity](_ => Empty);
      NothingIn(newEntries[..]);
      ghost var s := entries[..];
      var i := 0;
      while i < capacity
        invariant i <= capacity == |s| && fresh(newEntries) && newEntries.Length == newCapacity
        invariant unchanged(this) && entries[..] == s && newEntries != entries && Probing(newEntries[..])
        invariant Contents(newEntries[..]) == Contents(s[..i]) && Count(newEntries[..]) == Count(s[..i])
      {
        PrefixMore(s, i);
        var entry := entries[i];
        if entry.Full? {
          NotBefore(s, i);
          MoveEntry(newEntries, newCapacity, entry.key, entry.value);
        }
        i := i + 1;
      }
      assert s[..i] == s;
      entries := newEntries;
      capacity := newCapacity;
      r := true;
    }

    /** Twice a capacity overflows exactly for the largest one. */
    lemma Doubled()
      requires Valid()
      ensures capacity * 2 % WORD < capacity <==> capacity * 2 >= WORD
      ensures PowerOfTwo(capacity * 2)
    {
      var k: nat :| capacity == Pow2(k);
      assert Pow2(k + 1) == capacity * 2;
    }

    /** ht_set_entry; `ok` says whether there was memory for a copy of the key. */
    method SetEntry(key: Key, value: Value, ok: bool) returns (r: Option<Key>)
      requires Valid() && length + 1 <= capacity / 2
      modifies this`length, entries
      ensures Valid()
      ensures r == if ok || key in old(Map()) then Some(key) else None
      ensures Map() == if r.Some? then old(Map())[key := value] else old(Map())
      ensures r.None? ==> length == old(length)
    {
      ghost var s := entries[..];
      HasRoom();
      var index := Probe(entries, capacity, key);
      ProbeFinds(s, key, index);
      if entries[index].Empty? {
        if !ok {
          return None;
        }
        length := length + 1;
      }
      SetKeeps(s, key, value, index);
      CountSet(s, index, Full(key, value));
      entries[index] := Full(key, value);
      assert entries[..] == s[index := Full(key, value)];
      r := Some(key);
    }

    /** ht_set.  `value` is NULL or not; the two flags say whether there was memory for a larger table
        and for a copy of the key.  The table may grow even when the key cannot be stored. */
    method Set(key: Key, value: Option<Value>, roomForTable: bool, roomForKey: bool) returns (r: Option<Key>)
      requires Valid()
      modifies this, entries
      ensures Valid() && (entries == old(entries) || fresh(entries))
      ensures r.Some? ==> r.value == key && value.Some? && Map() == old(Map())[key := value.value]
      ensures r.None? ==> Map() == old(Map()) && length == old(length)
      ensures r.Some? <==>
        && value.Some?
        && (old(length) < old(capacity) / 2 || (roomForTable && old(capacity) * 2 < WORD))
        && (roomForKey || key in old(Map()))
    {
      if value.None? {
        return None;
      }
      if length >= capacity / 2 {
        var grown := Expand(roomForTable);
        if !grown {
          return None;
        }
      }
      r := SetEntry(key, value.value, roomForKey);
    }
  }

  /** hti. */
  class Iterator {
    const table: Table
    var index: nat
    var key: Key
    var value: Value

    /** ht_iterator. */
    constructor (t: Table)
      ensures table == t && index == 0
    {
      table := t;
      index := 0;
      key := [];
      value := 0;
    }

    /** What is still to come. */
    ghost function Rest(): seq<Entry>
      reads this, table, table.entries
      requires index <= table.entries.Length
    {
      Items(table.entries[..], index)
    }

    /** ht_next. */
    method Next() returns (r: bool)
      requires table.Valid() && index <= table.capacity
      modifies this
      ensures index <= table.capacity
      ensures old(Rest()) == if r then [Full(key, value)] + Rest() else []
    {
      while index < table.capacity
        invariant index <= table.capacity && Rest() == old(Rest())
      {
        var i := index;
        index := index + 1;
        if table.entries[i].Full? {
          var entry := table.entries[i];
          key := entry.key;
          value := entry.value;
          assert old(Rest()) == [entry] + Items(table.entries[..], index);
          return true;
        }
      }
      r := false;
    }
  }

  lemma OneMore(es: seq<Entry>, e: Entry, rest: seq<Entry>)
    ensures es + ([e] + rest) == (es + [e]) + rest
  {
  }

  /** A whole iteration, as the users of the table write it. */
  method Iterate(t: Table) returns (es: seq<Entry>)
    requires t.Valid()
    ensures DistinctKeys(es)
    ensures forall k, v :: Full(k, v) in es <==> k in t.Map() && t.Map()[k] == v
  {
    var it := new Iterator(t);
    ghost var all := Items(t.entries[..], 0);
    ItemsAreContents(t.entries[..]);
    es := [];
    while true
      invariant t.Valid() && it.table == t && it.index <= t.capacity
      invariant all == es + it.Rest()
      decreases |all| - |es|
    {
      var more := it.Next();
      if !more {
        break;
      }
      OneMore(es, Full(it.key, it.value), it.Rest());
      es := es + [Full(it.key, it.value)];
    }
    assert es == all;
  }
}
