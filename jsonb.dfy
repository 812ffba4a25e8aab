/**
 * What a PostgreSQL `jsonb` column does with the Python value SQLAlchemy hands
 * it at commit: the value must print as JSON that PostgreSQL accepts, and what
 * is read back has every object's keys in `jsonb` order, shorter keys first.
 */
module Jsonb {
  import opened PyValue

  /**
   * Whether PostgreSQL accepts `s` as a text value at all: it refuses the NUL
   * character in every text it is sent, a `jsonb` string, a `VARCHAR` column or
   * a query parameter.
   */
  predicate TextStorable(s: string) {
    '\0' !in s
  }

  /**
   * Whether the commit can write `v` to a `jsonb` column: `json.dumps` raises on
   * a `datetime`, and PostgreSQL refuses the `NaN`, `Infinity` and `-Infinity`
   * it prints for a non-finite float and the `\u0000` escape of a NUL character.
   * PostgreSQL also refuses the escape of a lone UTF-16 surrogate, which a Python
   * string can hold; a Dafny `char` cannot, so that refusal is not modelled here.
   */
  predicate Storable(v: Value)
    decreases v
  {
    match v
    case VDatetime(_) => false
    case VFloat(d) => !NonFinite(d)
    case VStr(s) => TextStorable(s)
    case VList(items) => forall k | 0 <= k < |items| :: Storable(items[k])
    case VDict(entries) => forall k | 0 <= k < |entries| :: TextStorable(entries[k].0) && Storable(entries[k].1)
    case _ => true
  }

  /** What the commit can write, `json.dumps` can print. */
  lemma {:induction false} StorableHasNoDatetime(v: Value)
    requires Storable(v)
    ensures !HasDatetime(v)
    decreases v
  {
    match v
    case VList(items) =>
      forall k | 0 <= k < |items| ensures !HasDatetime(items[k]) { StorableHasNoDatetime(items[k]); }
    case VDict(entries) =>
      forall k | 0 <= k < |entries| ensures !HasDatetime(entries[k].1) { StorableHasNoDatetime(entries[k].1); }
    case _ =>
  }

  /** The number of bytes of `c` in UTF-8. */
  function Utf8Width(c: char): nat {
    if c as int < 0x80 then 1 else if c as int < 0x800 then 2 else if c as int < 0x1_0000 then 3 else 4
  }

  /** The number of bytes of `s` in UTF-8. */
  function Utf8Length(s: string): nat {
    if s == [] then 0 else Utf8Width(s[0]) + Utf8Length(s[1..])
  }

  /**
   * `a` comes before `b` comparing code points from the left, a proper prefix
   * first; on UTF-8 this is the order of the bytes.
   */
  predicate CodePointsBefore(a: string, b: string) {
    && b != []
    && (a == [] || a[0] < b[0] || (a[0] == b[0] && CodePointsBefore(a[1..], b[1..])))
  }

  /** A string of ASCII characters takes one byte per character. */
  lemma {:induction false} AsciiLength(s: string)
    requires forall k | 0 <= k < |s| :: s[k] as int < 0x80
    ensures Utf8Length(s) == |s|
  {
    if s != [] {
      AsciiLength(s[1..]);
    }
  }

  /** `jsonb` key order: fewer UTF-8 bytes first, keys of one length byte by byte. */
  predicate KeyBefore(a: string, b: string) {
    Utf8Length(a) < Utf8Length(b) || (Utf8Length(a) == Utf8Length(b) && CodePointsBefore(a, b))
  }

  lemma {:induction false} CodePointsIrreflexive(a: string)
    ensures !CodePointsBefore(a, a)
  {
    if a != [] {
      CodePointsIrreflexive(a[1..]);
    }
  }

  lemma {:induction false} CodePointsTransitive(a: string, b: string, c: string)
    requires CodePointsBefore(a, b) && CodePointsBefore(b, c)
    ensures CodePointsBefore(a, c)
  {
    if a != [] && a[0] == b[0] && b[0] == c[0] {
      CodePointsTransitive(a[1..], b[1..], c[1..]);
    }
  }

  lemma {:induction false} CodePointsTotal(a: string, b: string)
    requires a != b
    ensures CodePointsBefore(a, b) || CodePointsBefore(b, a)
  {
    if a != [] && b != [] && a[0] == b[0] {
      assert a == [a[0]] + a[1..] && b == [b[0]] + b[1..];
      CodePointsTotal(a[1..], b[1..]);
    }
  }

  /** `jsonb` key order is a strict total order on keys. */
  lemma KeyOrder(a: string, b: string, c: string)
    ensures !KeyBefore(a, a)
    ensures KeyBefore(a, b) && KeyBefore(b, c) ==> KeyBefore(a, c)
    ensures a != b ==> KeyBefore(a, b) || KeyBefore(b, a)
  {
    CodePointsIrreflexive(a);
    if KeyBefore(a, b) && KeyBefore(b, c) && Utf8Length(a) == Utf8Length(b) == Utf8Length(c) {
      CodePointsTransitive(a, b, c);
    }
    if a != b {
      CodePointsTotal(a, b);
    }
  }

  /** Keys strictly increasing in `jsonb` order. */
  predicate InKeyOrder(d: Entries) {
    forall i, j | 0 <= i < j < |d| :: KeyBefore(d[i].0, d[j].0)
  }

  /** Entries in key order never repeat a key. */
  lemma InKeyOrderUnique(d: Entries)
    requires InKeyOrder(d)
    ensures UniqueKeys(d)
  {
    forall i, j | 0 <= i < j < |d|
      ensures d[i].0 != d[j].0
    {
      KeyOrder(d[i].0, d[j].0, d[j].0);
    }
  }

  /** `e` placed in front of the first entry of `d` that does not come before it. */
  function Insert(e: (string, Value), d: Entries): (r: Entries)
    ensures |r| == |d| + 1
    ensures forall x :: x in r <==> x == e || x in d
  {
    if d == [] || !KeyBefore(d[0].0, e.0) then [e] + d
    else
      var rest := Insert(e, d[1..]);
      assert d == [d[0]] + d[1..];
      [d[0]] + rest
  }

  /** The entries of `d` sorted into `jsonb` key order. */
  function SortByKey(d: Entries): (r: Entries)
    ensures |r| == |d|
    ensures forall x :: x in r <==> x in d
  {
    if d == [] then []
    else
      assert d == [d[0]] + d[1..];
      Insert(d[0], SortByKey(d[1..]))
  }

  /** Inserting adds `e` once and keeps every other entry, repeats included. */
  lemma {:induction false} InsertPermutes(e: (string, Value), d: Entries)
    ensures multiset(Insert(e, d)) == multiset(d) + multiset{e}
  {
    if d != [] && KeyBefore(d[0].0, e.0) {
      InsertPermutes(e, d[1..]);
      assert d == [d[0]] + d[1..];
    }
  }

  /** Sorting is a permutation: the same entries, each as often as before. */
  lemma {:induction false} SortByKeyPermutes(d: Entries)
    ensures multiset(SortByKey(d)) == multiset(d)
  {
    if d != [] {
      SortByKeyPermutes(d[1..]);
      InsertPermutes(d[0], SortByKey(d[1..]));
      assert d == [d[0]] + d[1..];
    }
  }

  /** Two entries are swapped exactly when the second key comes first. */
  lemma SortPair(e0: (string, Value), e1: (string, Value))
    ensures SortByKey([e0, e1]) == if KeyBefore(e1.0, e0.0) then [e1, e0] else [e0, e1]
  {
    assert [e0, e1][1..] == [e1];
    assert SortByKey([e1]) == Insert(e1, []) == [e1];
    assert [e1][1..] == [];
    assert Insert(e0, []) == [e0];
  }

  lemma {:induction false} InsertInOrder(e: (string, Value), d: Entries)
    requires InKeyOrder(d)
    requires forall k | 0 <= k < |d| :: d[k].0 != e.0
    ensures InKeyOrder(Insert(e, d))
  {
    if d == [] || !KeyBefore(d[0].0, e.0) {
      if d != [] {
        KeyOrder(d[0].0, e.0, e.0);
        forall j | 0 < j < |d|
          ensures KeyBefore(e.0, d[j].0)
        {
          KeyOrder(e.0, d[0].0, d[j].0);
        }
      }
      var r := [e] + d;
      assert forall j | 0 < j < |r| :: r[j] == d[j - 1];
    } else {
      var rest := Insert(e, d[1..]);
      InsertInOrder(e, d[1..]);
      forall j | 0 <= j < |rest|
        ensures KeyBefore(d[0].0, rest[j].0)
      {
        assert rest[j] in rest;
        if rest[j] != e {
          var m :| 0 <= m < |d[1..]| && d[1..][m] == rest[j];
          assert d[m + 1] == rest[j];
        }
      }
      var r := [d[0]] + rest;
      assert forall j | 0 < j < |r| :: r[j] == rest[j - 1];
    }
  }

  /** Sorting a dict without repeated keys puts its keys strictly in `jsonb` order. */
  lemma {:induction false} SortInOrder(d: Entries)
    requires UniqueKeys(d)
    ensures InKeyOrder(SortByKey(d))
  {
    if d != [] {
      var tail := d[1..];
      assert forall i, j | 0 <= i < j < |tail| :: tail[i] == d[i + 1] && tail[j] == d[j + 1];
      SortInOrder(tail);
      var s := SortByKey(tail);
      forall k | 0 <= k < |s|
        ensures s[k].0 != d[0].0
      {
        assert s[k] in s;
        var m :| 0 <= m < |tail| && tail[m] == s[k];
        assert d[m + 1] == s[k];
      }
      InsertInOrder(d[0], s);
    }
  }

  /** In a dict without repeated keys, `get` finds every entry it holds. */
  lemma GetOfMember(d: Entries, key: string, v: Value)
    requires UniqueKeys(d) && (key, v) in d
    ensures Get(d, key) == Some(v)
  {
    var m :| 0 <= m < |d| && d[m] == (key, v);
    GetAt(d, m);
  }

  /** Two dicts without repeated keys that hold the same entries answer `get` alike. */
  lemma SameEntriesSameGet(a: Entries, b: Entries, key: string)
    requires UniqueKeys(a) && UniqueKeys(b)
    requires forall x :: x in a <==> x in b
    ensures Get(a, key) == Get(b, key)
  {
    if Get(a, key).Some? {
      GetOfMember(b, key, Get(a, key).value);
    } else if Get(b, key).Some? {
      GetOfMember(a, key, Get(b, key).value);
    }
  }

  /** The entries of `d` with each value as `jsonb` gives it back, in the original order. */
  function StoredValues(d: Entries): (r: Entries)
    ensures |r| == |d|
    decreases VDict(d), 0
  {
    seq(|d|, k requires 0 <= k < |d| => (d[k].0, Stored(d[k].1)))
  }

  /**
   * A JSON value as a `jsonb` column gives it back: every object with its keys
   * in `jsonb` order, lists and scalars as they were.
   */
  function Stored(v: Value): (r: Value)
    decreases v, 1
  {
    match v
    case VList(items) => VList(seq(|items|, k requires 0 <= k < |items| => Stored(items[k])))
    case VDict(entries) => VDict(SortByKey(StoredValues(entries)))
    case _ => v
  }

  /** A dict's entries as its `jsonb` column gives them back. */
  function StoredEntries(d: Entries): (r: Entries)
    ensures |r| == |d|
  {
    SortByKey(StoredValues(d))
  }

  /**
   * Read back, a dict without repeated keys has its keys strictly in `jsonb`
   * order, and `get` finds under each key what it found before, as read back.
   */
  lemma StoredGet(d: Entries, key: string)
    requires UniqueKeys(d)
    ensures var r := StoredEntries(d);
      && InKeyOrder(r) && UniqueKeys(r)
      && Get(r, key) == if Get(d, key).Some? then Some(Stored(Get(d, key).value)) else None
  {
    var m := StoredValues(d);
    var r := StoredEntries(d);
    assert Keys(m) == Keys(d);
    SortInOrder(m);
    InKeyOrderUnique(r);
    SameEntriesSameGet(r, m, key);
    if Get(d, key).Some? {
      var i :| 0 <= i < |d| && d[i] == (key, Get(d, key).value);
      GetAt(m, i);
    }
  }

  /** Every entry read back is an entry of `d`, its value as read back. */
  lemma StoredEntryFrom(d: Entries, k: nat)
    requires k < |StoredEntries(d)|
    ensures exists i | 0 <= i < |d| :: StoredEntries(d)[k] == (d[i].0, Stored(d[i].1))
  {
    var m := StoredValues(d);
    assert StoredEntries(d)[k] in m;
  }
}
