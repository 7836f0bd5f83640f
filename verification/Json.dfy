/** JSON values (`crates/luaml/src/stdlib/json.rs`). */
module Json {
  import Values
  import opened KeyOrder

  /** A JSON number: an integer of 64 bits with a sign, a larger one without, or a finite double. */
  datatype JsonNumber = Int(n: Values.i64) | Big(u: Values.u64) | Finite(f: Values.Float)

  /** A JSON value; an object lists its members in the order they were inserted. */
  datatype Json =
    | JNull
    | JBool(b: bool)
    | JNum(number: JsonNumber)
    | JStr(s: string)
    | JArr(items: seq<Json>)
    | JObj(members: Pairs<Json>)

  /** What a JSON value means: objects are maps. */
  datatype Doc =
    | Null
    | Bool(b: bool)
    | Num(number: JsonNumber)
    | Str(s: string)
    | Arr(items: seq<Doc>)
    | Obj(fields: map<string, Doc>)

  function Meaning(j: Json): Doc {
    match j
    case JNull => Null
    case JBool(b) => Bool(b)
    case JNum(n) => Num(n)
    case JStr(s) => Str(s)
    case JArr(items) => Arr(seq(|items|, i requires 0 <= i < |items| => Meaning(items[i])))
    case JObj(members) =>
      Obj(ToMap(seq(|members|, i requires 0 <= i < |members| => (members[i].0, Meaning(members[i].1)))))
  }

  function Meanings(members: Pairs<Json>): (pairs: Pairs<Doc>)
    ensures |pairs| == |members|
    ensures Meaning(JObj(members)) == Obj(ToMap(pairs))
  {
    seq(|members|, i requires 0 <= i < |members| => (members[i].0, Meaning(members[i].1)))
  }

  /** No object holds a key twice. */
  ghost predicate DistinctMembers(j: Json) {
    match j
    case JArr(items) => forall i | 0 <= i < |items| :: DistinctMembers(items[i])
    case JObj(members) => DistinctKeys(members) && forall i | 0 <= i < |members| :: DistinctMembers(members[i].1)
    case _ => true
  }

  /** Every object lists its members by strictly increasing key. */
  ghost predicate Canonical(j: Json) {
    match j
    case JArr(items) => forall i | 0 <= i < |items| :: Canonical(items[i])
    case JObj(members) => StrictlySorted(members) && forall i | 0 <= i < |members| :: Canonical(members[i].1)
    case _ => true
  }

  lemma SortedFrom<V>(entries: Pairs<V>)
    ensures forall i | 0 <= i < |SortByKey(entries)| :: SortByKey(entries)[i] in entries
  {
    SortByKeyContents(entries);
    forall i | 0 <= i < |SortByKey(entries)| ensures SortByKey(entries)[i] in entries {
      SameMember(SortByKey(entries), entries, SortByKey(entries)[i]);
    }
  }

  /** `canonicalize`: sort the members, then canonicalize their values. */
  function Canonicalize(j: Json): Json {
    match j
    case JArr(items) => JArr(seq(|items|, i requires 0 <= i < |items| => Canonicalize(items[i])))
    case JObj(members) =>
      var sorted := SortByKey(members);
      SortedFrom(members);
      JObj(seq(|sorted|, i requires 0 <= i < |sorted| =>
        assert sorted[i] in members; (sorted[i].0, Canonicalize(sorted[i].1))))
    case _ => j
  }

  lemma {:induction false} SortedKeeps(j: Json, sorted: Pairs<Json>)
    requires j.JObj? && DistinctMembers(j) && sorted == SortByKey(j.members)
    ensures StrictlySorted(sorted) &&
      forall i | 0 <= i < |sorted| :: sorted[i] in j.members && DistinctMembers(sorted[i].1)
  {
    SortByKeySorts(j.members);
    SortedFrom(j.members);
  }

  lemma {:induction false} CanonicalizeSorts(j: Json)
    requires DistinctMembers(j)
    ensures Canonical(Canonicalize(j))
  {
    match j {
      case JArr(items) =>
        forall i | 0 <= i < |items| ensures Canonical(Canonicalize(items[i])) { CanonicalizeSorts(items[i]); }
      case JObj(members) =>
        var sorted := SortByKey(members);
        SortedKeeps(j, sorted);
        forall i | 0 <= i < |sorted| ensures Canonical(Canonicalize(sorted[i].1)) {
          assert sorted[i] in members;
          CanonicalizeSorts(sorted[i].1);
        }
      case _ =>
    }
  }

  /** Lists of the same members have the same meaning. */
  lemma SameMembersMean(a: Pairs<Json>, b: Pairs<Json>)
    requires DistinctKeys(a) && DistinctKeys(b) && forall p :: p in a <==> p in b
    ensures ToMap(Meanings(a)) == ToMap(Meanings(b))
  {
    hide Meaning, ToMap;
    var m := ToMap(Meanings(b));
    KeysCovered(a, b);
    KeysCovered(b, a);
    forall i | 0 <= i < |a| ensures a[i].0 in m && m[a[i].0] == Meanings(a)[i].1 {
      assert a[i] in b;
      var k :| 0 <= k < |b| && b[k] == a[i];
      ToMapLookup(Meanings(b), k);
    }
    ToMapExtensional(Meanings(a), m);
  }

  lemma KeysCovered(a: Pairs<Json>, b: Pairs<Json>)
    requires forall p | p in a :: p in b
    ensures KeysOf(Meanings(a)) <= KeysOf(Meanings(b))
  {
    hide Meaning, ToMap;
    forall i | 0 <= i < |a| ensures Meanings(a)[i].0 in KeysOf(Meanings(b)) {
      assert a[i] in b;
      var k :| 0 <= k < |b| && b[k] == a[i];
      assert Meanings(b)[k].0 == a[i].0;
    }
  }

  lemma {:induction false} CanonicalizePreserves(j: Json)
    requires DistinctMembers(j)
    ensures Meaning(Canonicalize(j)) == Meaning(j)
  {
    match j {
      case JArr(items) =>
        forall i | 0 <= i < |items| ensures Meaning(Canonicalize(items[i])) == Meaning(items[i]) {
          CanonicalizePreserves(items[i]);
        }
        assert Meaning(Canonicalize(j)).items == Meaning(j).items;
      case JObj(members) =>
        var sorted := SortByKey(members);
        SortedKeeps(j, sorted);
        SortByKeyContents(members);
        SameMembers(sorted, members);
        SameMembersMean(sorted, members);
        forall i | 0 <= i < |sorted| ensures Meaning(Canonicalize(sorted[i].1)) == Meaning(sorted[i].1) {
          assert sorted[i] in members;
          CanonicalizePreserves(sorted[i].1);
        }
        assert Meanings(Canonicalize(j).members) == Meanings(sorted);
      case _ =>
    }
  }

  lemma MemberOfOther(a: Pairs<Json>, b: Pairs<Json>, i: nat)
    returns (k: nat)
    requires StrictlySorted(a) && StrictlySorted(b) && ToMap(Meanings(a)) == ToMap(Meanings(b)) && i < |a|
    ensures k < |b| && b[k].0 == a[i].0 && Meaning(b[k].1) == Meaning(a[i].1)
  {
    SortedIsDistinct(a);
    SortedIsDistinct(b);
    ToMapLookup(Meanings(a), i);
    assert Meanings(a)[i].0 in KeysOf(Meanings(b));
    k :| 0 <= k < |b| && Meanings(b)[k].0 == a[i].0;
    ToMapLookup(Meanings(b), k);
  }

  lemma SortedIsDistinct(a: Pairs<Json>)
    requires StrictlySorted(a)
    ensures DistinctKeys(a) && DistinctKeys(Meanings(a))
  {
  }

  /** A meaning has one canonical form. */
  lemma {:induction false} CanonicalIsUnique(a: Json, b: Json)
    requires Canonical(a) && Canonical(b) && Meaning(a) == Meaning(b)
    ensures a == b
    decreases a, 1
  {
    match a {
      case JArr(items) =>
        forall i | 0 <= i < |items| ensures items[i] == b.items[i] {
          assert Meaning(items[i]) == Meaning(a).items[i] == Meaning(b).items[i];
          CanonicalIsUnique(items[i], b.items[i]);
        }
      case JObj(members) =>
        MembersIncluded(a, b);
        StrictlySortedUnique(members, b.members);
      case _ =>
    }
  }

  lemma {:induction false} MembersIncluded(a: Json, b: Json)
    requires a.JObj? && b.JObj? && Canonical(a) && Canonical(b) && Meaning(a) == Meaning(b)
    ensures forall p :: p in a.members <==> p in b.members
    decreases a, 0
  {
    forall p ensures p in a.members <==> p in b.members {
      if p in a.members {
        var i :| 0 <= i < |a.members| && a.members[i] == p;
        var k := MemberOfOther(a.members, b.members, i);
        CanonicalIsUnique(a.members[i].1, b.members[k].1);
        assert b.members[k] == p;
      }
      if p in b.members {
        var k :| 0 <= k < |b.members| && b.members[k] == p;
        var i := MemberOfOther(b.members, a.members, k);
        CanonicalIsUnique(a.members[i].1, b.members[k].1);
        assert a.members[i] == p;
      }
    }
  }

  /** Canonicalizing a canonical value changes nothing. */
  lemma {:induction false} CanonicalIsFixed(j: Json)
    requires Canonical(j)
    ensures DistinctMembers(j) && Canonicalize(j) == j
  {
    CanonicalIsDistinct(j);
    CanonicalizeSorts(j);
    CanonicalizePreserves(j);
    CanonicalIsUnique(Canonicalize(j), j);
  }

  lemma {:induction false} CanonicalIsDistinct(j: Json)
    requires Canonical(j)
    ensures DistinctMembers(j)
  {
    match j {
      case JArr(items) =>
        forall i | 0 <= i < |items| ensures DistinctMembers(items[i]) {
          CanonicalIsDistinct(items[i]);
        }
      case JObj(members) =>
        SortedIsDistinct(members);
        forall i | 0 <= i < |members| ensures DistinctMembers(members[i].1) { CanonicalIsDistinct(members[i].1); }
      case _ =>
    }
  }

  /** The form is sorted at every level, keeps the meaning, and is its own canonical form. */
  lemma CanonicalizeNormalizes(j: Json)
    requires DistinctMembers(j)
    ensures Canonical(Canonicalize(j)) && Meaning(Canonicalize(j)) == Meaning(j)
    ensures Canonicalize(Canonicalize(j)) == Canonicalize(j)
  {
    CanonicalizeSorts(j);
    CanonicalizePreserves(j);
    CanonicalIsFixed(Canonicalize(j));
  }

  /**
   Two values have the same canonical form exactly when they mean the same, whatever order their members
   were inserted in.
   */
  lemma CanonicalizeDecides(a: Json, b: Json)
    requires DistinctMembers(a) && DistinctMembers(b)
    ensures Canonicalize(a) == Canonicalize(b) <==> Meaning(a) == Meaning(b)
  {
    CanonicalizeNormalizes(a);
    CanonicalizeNormalizes(b);
    if Meaning(a) == Meaning(b) {
      CanonicalIsUnique(Canonicalize(a), Canonicalize(b));
    }
  }
}
