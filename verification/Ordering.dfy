/**
 Sorting association lists by key, as `sort_by(|a, b| a.0.cmp(&b.0))` does: the order on strings, sorted
 lists, and the map that a list of distinct keys stands for.
 */
module KeyOrder {

  /** `str::cmp` is not greater: code point order, which is also the order of UTF-8 bytes. */
  predicate StrLe(a: string, b: string) {
    a == [] || (b != [] && (a[0] < b[0] || (a[0] == b[0] && StrLe(a[1..], b[1..]))))
  }

  predicate StrLt(a: string, b: string) {
    StrLe(a, b) && a != b
  }

  lemma {:induction false} StrLeAntisymmetric(a: string, b: string)
    requires StrLe(a, b) && StrLe(b, a)
    ensures a == b
  {
    if a != [] {
      StrLeAntisymmetric(a[1..], b[1..]);
      assert a == [a[0]] + a[1..] && b == [b[0]] + b[1..];
    }
  }

  lemma {:induction false} StrLeTransitive(a: string, b: string, c: string)
    requires StrLe(a, b) && StrLe(b, c)
    ensures StrLe(a, c)
  {
    if a != [] && a[0] == b[0] == c[0] {
      StrLeTransitive(a[1..], b[1..], c[1..]);
    }
  }

  lemma {:induction false} StrLeTotal(a: string, b: string)
    ensures StrLe(a, b) || StrLe(b, a)
  {
    if a != [] && b != [] && a[0] == b[0] {
      StrLeTotal(a[1..], b[1..]);
    }
  }

  lemma StrLtTransitive(a: string, b: string, c: string)
    requires StrLt(a, b) && StrLt(b, c)
    ensures StrLt(a, c)
  {
    StrLeTransitive(a, b, c);
    if a == c { StrLeAntisymmetric(a, b); }
  }

  type Pairs<V> = seq<(string, V)>

  /** The keys `entries[..]` carries. */
  function KeysOf<V>(entries: Pairs<V>): set<string> {
    set i | 0 <= i < |entries| :: entries[i].0
  }

  ghost predicate DistinctKeys<V>(entries: Pairs<V>) {
    forall i, j | 0 <= i < j < |entries| :: entries[i].0 != entries[j].0
  }

  ghost predicate StrictlySorted<V>(entries: Pairs<V>) {
    forall i, j | 0 <= i < j < |entries| :: StrLt(entries[i].0, entries[j].0)
  }

  /** The hash map that an iteration order with distinct keys enumerates. */
  function ToMap<V>(entries: Pairs<V>): (m: map<string, V>)
    ensures m.Keys == KeysOf(entries)
  {
    if entries == [] then map[]
    else
      var last := |entries| - 1;
      assert forall i | 0 <= i < last :: entries[..last][i] == entries[i];
      ToMap(entries[..last])[entries[last].0 := entries[last].1]
  }

  lemma {:induction false} ToMapLookup<V>(entries: Pairs<V>, i: nat)
    requires DistinctKeys(entries) && i < |entries|
    ensures entries[i].0 in ToMap(entries) && ToMap(entries)[entries[i].0] == entries[i].1
  {
    var last := |entries| - 1;
    if i < last {
      assert entries[..last][i] == entries[i];
      ToMapLookup(entries[..last], i);
    }
  }

  /** Two enumerations of distinct keys that agree element by element on a set make the same map. */
  lemma ToMapExtensional<V>(entries: Pairs<V>, m: map<string, V>)
    requires DistinctKeys(entries)
    requires KeysOf(entries) == m.Keys
    requires forall i | 0 <= i < |entries| :: m[entries[i].0] == entries[i].1
    ensures ToMap(entries) == m
  {
    forall k | k in m ensures ToMap(entries)[k] == m[k] {
      var i :| 0 <= i < |entries| && entries[i].0 == k;
      ToMapLookup(entries, i);
    }
  }

  function InsertSorted<V>(p: (string, V), sorted: Pairs<V>): Pairs<V> {
    if sorted == [] || StrLe(p.0, sorted[0].0) then [p] + sorted
    else [sorted[0]] + InsertSorted(p, sorted[1..])
  }

  function SortByKey<V>(entries: Pairs<V>): Pairs<V> {
    if entries == [] then [] else InsertSorted(entries[0], SortByKey(entries[1..]))
  }

  lemma {:induction false} InsertSortedContents<V>(p: (string, V), sorted: Pairs<V>)
    ensures multiset(InsertSorted(p, sorted)) == multiset{p} + multiset(sorted)
  {
    if sorted != [] && !StrLe(p.0, sorted[0].0) {
      InsertSortedContents(p, sorted[1..]);
      assert sorted == [sorted[0]] + sorted[1..];
    }
  }

  lemma {:induction false} InsertSortedKeeps<V>(p: (string, V), sorted: Pairs<V>)
    requires StrictlySorted(sorted) && forall i | 0 <= i < |sorted| :: sorted[i].0 != p.0
    ensures StrictlySorted(InsertSorted(p, sorted))
  {
    if sorted == [] {
    } else if StrLe(p.0, sorted[0].0) {
      forall j | 0 <= j < |sorted| ensures StrLt(p.0, sorted[j].0) {
        if j > 0 { StrLtTransitive(p.0, sorted[0].0, sorted[j].0); }
      }
    } else {
      var rest := InsertSorted(p, sorted[1..]);
      InsertSortedKeeps(p, sorted[1..]);
      InsertSortedContents(p, sorted[1..]);
      StrLeTotal(p.0, sorted[0].0);
      forall j | 0 <= j < |rest| ensures StrLt(sorted[0].0, rest[j].0) {
        assert rest[j] in multiset(rest);
        assert rest[j] == p || rest[j] in sorted[1..];
      }
    }
  }

  lemma {:induction false} SortByKeyContents<V>(entries: Pairs<V>)
    ensures multiset(SortByKey(entries)) == multiset(entries)
  {
    if entries != [] {
      SortByKeyContents(entries[1..]);
      InsertSortedContents(entries[0], SortByKey(entries[1..]));
      assert entries == [entries[0]] + entries[1..];
    }
  }

  lemma SameMember<V>(a: Pairs<V>, b: Pairs<V>, p: (string, V))
    requires multiset(a) == multiset(b) && p in a
    ensures p in b
  {
    assert p in multiset(a);
    assert p in multiset(b);
  }

  lemma SameMembers<V>(a: Pairs<V>, b: Pairs<V>)
    requires multiset(a) == multiset(b)
    ensures forall p :: p in a <==> p in b
  {
    forall p ensures p in a <==> p in b {
      assert p in a <==> p in multiset(a);
      assert p in b <==> p in multiset(b);
    }
  }

  /** Sorting distinct keys makes them strictly increasing. */
  lemma {:induction false} SortByKeySorts<V>(entries: Pairs<V>)
    requires DistinctKeys(entries)
    ensures StrictlySorted(SortByKey(entries))
  {
    if entries != [] {
      var rest := SortByKey(entries[1..]);
      SortByKeySorts(entries[1..]);
      SortByKeyContents(entries[1..]);
      forall i | 0 <= i < |rest| ensures rest[i].0 != entries[0].0 {
        var p := rest[i];
        SameMember(rest, entries[1..], p);
        var j :| 0 <= j < |entries[1..]| && entries[1..][j] == p;
        assert entries[j + 1] == p;
      }
      InsertSortedKeeps(entries[0], rest);
    }
  }

  lemma SortedHeadIsLeast<V>(a: Pairs<V>, p: (string, V))
    requires StrictlySorted(a) && p in a
    ensures p == a[0] || StrLt(a[0].0, p.0)
  {
  }

  /** A set of pairs has one strictly sorted enumeration. */
  lemma {:induction false} StrictlySortedUnique<V>(a: Pairs<V>, b: Pairs<V>)
    requires StrictlySorted(a) && StrictlySorted(b)
    requires forall p :: p in a <==> p in b
    ensures a == b
  {
    assert |b| > 0 ==> b[0] in b;
    if a != [] {
      assert a[0] in b;
      assert b[0] in a;
      SortedHeadIsLeast(a, b[0]);
      SortedHeadIsLeast(b, a[0]);
      if a[0] != b[0] { StrLeAntisymmetric(a[0].0, b[0].0); }
      forall p ensures p in a[1..] <==> p in b[1..] {
        if p in a[1..] {
          assert StrLt(a[0].0, p.0);
          assert p in b;
        }
        if p in b[1..] {
          assert StrLt(b[0].0, p.0);
          assert p in a;
        }
      }
      StrictlySortedUnique(a[1..], b[1..]);
      assert a == [a[0]] + a[1..] && b == [b[0]] + b[1..];
    }
  }

  /** The strings agree up to `i`, where `a` ends or has the smaller character. */
  ghost predicate DecidedAt(a: string, b: string, i: nat) {
    i <= |a| && i < |b| && a[..i] == b[..i] && (i == |a| || a[i] < b[i])
  }

  lemma DecidedLater(a: string, b: string, i: nat)
    requires a != [] && b != [] && a[0] == b[0]
    ensures DecidedAt(a, b, i + 1) <==> DecidedAt(a[1..], b[1..], i)
  {
    if i < |a| && i < |b| {
      assert a[..i + 1] == [a[0]] + a[1..][..i] && b[..i + 1] == [b[0]] + b[1..][..i];
      assert a[1..][..i] == a[..i + 1][1..] && b[1..][..i] == b[..i + 1][1..];
    }
  }

  lemma DecidedAtOnce(a: string, b: string)
    ensures DecidedAt(a, b, 0) <==> b != [] && (a == [] || a[0] < b[0])
    ensures a == [] || b == [] || a[0] != b[0] ==> forall i | i > 0 :: !DecidedAt(a, b, i)
  {
    assert a[..0] == b[..0];
    forall i: nat | i > 0 && DecidedAt(a, b, i) ensures a != [] && b != [] && a[0] == b[0] {
      assert a[..i][0] == a[0] && b[..i][0] == b[0];
    }
  }

  /** `a` comes before `b`: it is a proper prefix, or has the smaller character where they first differ. */
  lemma {:induction false} LexicographicIff(a: string, b: string)
    ensures StrLt(a, b) <==> exists i: nat :: DecidedAt(a, b, i)
  {
    DecidedAtOnce(a, b);
    if a != [] && b != [] && a[0] == b[0] {
      hide DecidedAt;
      LexicographicIff(a[1..], b[1..]);
      assert a == [a[0]] + a[1..] && b == [b[0]] + b[1..];
      if i: nat :| DecidedAt(a, b, i) { DecidedLater(a, b, i - 1); }
      if i: nat :| DecidedAt(a[1..], b[1..], i) { DecidedLater(a, b, i); }
    }
  }
}
