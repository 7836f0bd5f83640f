/** Event signatures (`crates/luaml/src/lib.rs`). */
module Signatures {
  import opened Values
  import opened KeyOrder

  /** A value as it sits in memory: each hash map lists its entries in its own iteration order. */
  datatype Stored =
    | SEnum(name: string)
    | SStr(text: string)
    | SNumber(n: i64)
    | SFlt(f: Float)
    | SBool(b: bool)
    | SList(items: seq<Stored>)
    | SMap(entries: Pairs<Stored>)
    | SNull

  /** No hash map at any level holds a key twice. */
  ghost predicate WellFormed(s: Stored) {
    match s
    case SList(items) => forall i | 0 <= i < |items| :: WellFormed(items[i])
    case SMap(entries) => DistinctKeys(entries) && forall i | 0 <= i < |entries| :: WellFormed(entries[i].1)
    case _ => true
  }

  /** The value that is stored, with iteration order forgotten. */
  function Abs(s: Stored): FieldValue {
    match s
    case SEnum(name) => Enum(name)
    case SStr(text) => Str(text)
    case SNumber(n) => Number(n)
    case SFlt(f) => Flt(f)
    case SBool(b) => Bool(b)
    case SList(items) => List(seq(|items|, i requires 0 <= i < |items| => Abs(items[i])))
    case SMap(entries) =>
      Map(ToMap(seq(|entries|, i requires 0 <= i < |entries| => (entries[i].0, Abs(entries[i].1)))))
    case SNull => Null
  }

  function AbsEvent(entries: Pairs<Stored>): FieldMap {
    ToMap(seq(|entries|, i requires 0 <= i < |entries| => (entries[i].0, Abs(entries[i].1))))
  }

  /** The hashable projection of a value: floats by their bits, maps as key-sorted lists. */
  datatype FieldValueSig =
    | EnumSig(name: string)
    | StrSig(text: string)
    | NumberSig(n: i64)
    | FltSig(bits: u64)
    | BoolSig(b: bool)
    | NullSig
    | ListSig(items: seq<FieldValueSig>)
    | MapSig(pairs: Pairs<FieldValueSig>)

  datatype EventSig = EventSig(pairs: Pairs<FieldValueSig>)

  /** `FieldValueSig::from_value`: collect in iteration order, then sort by key. */
  function FromValue(s: Stored): FieldValueSig {
    match s
    case SEnum(name) => EnumSig(name)
    case SStr(text) => StrSig(text)
    case SNumber(n) => NumberSig(n)
    case SFlt(f) => FltSig(f.bits)
    case SBool(b) => BoolSig(b)
    case SNull => NullSig
    case SList(items) => ListSig(seq(|items|, i requires 0 <= i < |items| => FromValue(items[i])))
    case SMap(entries) =>
      MapSig(SortByKey(seq(|entries|, i requires 0 <= i < |entries| => (entries[i].0, FromValue(entries[i].1)))))
  }

  /** `event_signature` on an event whose hash map iterates in the order of `entries`. */
  function SignatureOf(entries: Pairs<Stored>): EventSig {
    EventSig(SortByKey(seq(|entries|, i requires 0 <= i < |entries| => (entries[i].0, FromValue(entries[i].1)))))
  }

  // The signature as a function of the value alone.

  lemma {:induction false} LeastExists(keys: set<string>)
    requires keys != {}
    ensures exists k :: k in keys && forall o | o in keys :: StrLe(k, o)
  {
    var k :| k in keys;
    if keys == {k} {
      StrLeTotal(k, k);
    } else {
      LeastExists(keys - {k});
      var l :| l in keys - {k} && forall o | o in keys - {k} :: StrLe(l, o);
      StrLeTotal(k, l);
      StrLeTotal(k, k);
      var least := if StrLe(k, l) then k else l;
      forall o | o in keys ensures StrLe(least, o) {
        if o != k && least == k { StrLeTransitive(k, l, o); }
      }
    }
  }

  lemma AllAntisymmetric()
    ensures forall a, b :: StrLe(a, b) && StrLe(b, a) ==> a == b
  {
    forall a, b | StrLe(a, b) && StrLe(b, a) ensures a == b { StrLeAntisymmetric(a, b); }
  }

  function SortedKeys(keys: set<string>): (sorted: seq<string>)
    ensures forall k :: k in sorted <==> k in keys
    ensures forall i, j | 0 <= i < j < |sorted| :: StrLt(sorted[i], sorted[j])
    decreases |keys|
  {
    if keys == {} then [] else
      LeastExists(keys);
      AllAntisymmetric();
      var k :| k in keys && forall o | o in keys :: StrLe(k, o);
      [k] + SortedKeys(keys - {k})
  }

  function SigOf(v: FieldValue): FieldValueSig {
    match v
    case Enum(name) => EnumSig(name)
    case Str(text) => StrSig(text)
    case Number(n) => NumberSig(n)
    case Flt(f) => FltSig(f.bits)
    case Bool(b) => BoolSig(b)
    case Null => NullSig
    case List(items) => ListSig(seq(|items|, i requires 0 <= i < |items| => SigOf(items[i])))
    case Map(m) =>
      var keys := SortedKeys(m.Keys);
      MapSig(seq(|keys|, i requires 0 <= i < |keys| => assert keys[i] in m; (keys[i], SigOf(m[keys[i]]))))
  }

  function EventSignature(event: FieldMap): EventSig {
    var keys := SortedKeys(event.Keys);
    EventSig(seq(|keys|, i requires 0 <= i < |keys| => assert keys[i] in event; (keys[i], SigOf(event[keys[i]]))))
  }

  /** Reads a signature back. */
  function Decode(sig: FieldValueSig): FieldValue {
    match sig
    case EnumSig(name) => Enum(name)
    case StrSig(text) => Str(text)
    case NumberSig(n) => Number(n)
    case FltSig(bits) => Flt(Float(bits))
    case BoolSig(b) => Bool(b)
    case NullSig => Null
    case ListSig(items) => List(seq(|items|, i requires 0 <= i < |items| => Decode(items[i])))
    case MapSig(pairs) =>
      Map(ToMap(seq(|pairs|, i requires 0 <= i < |pairs| => (pairs[i].0, Decode(pairs[i].1)))))
  }

  lemma DecodeItems(items: seq<FieldValue>, sigs: seq<FieldValueSig>)
    requires |sigs| == |items| && forall i | 0 <= i < |items| :: Decode(sigs[i]) == items[i]
    ensures Decode(ListSig(sigs)) == List(items)
  {
  }

  lemma SortedKeysCover<V>(keys: set<string>, pairs: Pairs<V>)
    requires var sorted := SortedKeys(keys);
      |pairs| == |sorted| && forall i | 0 <= i < |sorted| :: pairs[i].0 == sorted[i]
    ensures DistinctKeys(pairs) && KeysOf(pairs) == keys
  {
    var sorted := SortedKeys(keys);
    hide SortedKeys;
    forall k | k in keys ensures k in KeysOf(pairs) {
      var i :| 0 <= i < |sorted| && sorted[i] == k;
      assert pairs[i].0 == k;
    }
  }

  lemma DecodePairs(m: FieldMap, pairs: Pairs<FieldValueSig>)
    requires var keys := SortedKeys(m.Keys);
      |pairs| == |keys| && forall i | 0 <= i < |keys| ::
        pairs[i].0 == keys[i] && keys[i] in m && Decode(pairs[i].1) == m[keys[i]]
    ensures ToMap(seq(|pairs|, i requires 0 <= i < |pairs| => (pairs[i].0, Decode(pairs[i].1)))) == m
  {
    hide Decode, ToMap;
    var back := seq(|pairs|, i requires 0 <= i < |pairs| => (pairs[i].0, Decode(pairs[i].1)));
    SortedKeysCover(m.Keys, back);
    ToMapExtensional(back, m);
  }

  /** A signature determines the nested value it was taken from. */
  lemma {:induction false} DecodeSig(v: FieldValue)
    ensures Decode(SigOf(v)) == v
    decreases v, 1
  {
    match v {
      case List(items) => DecodeListSig(items, v);
      case Map(m) => DecodeMapSig(m, v);
      case _ =>
    }
  }

  lemma {:induction false} DecodeListSig(items: seq<FieldValue>, v: FieldValue)
    requires v == List(items)
    ensures Decode(SigOf(v)) == v
    decreases v, 0
  {
    var sigs := SigOf(v).items;
    forall i | 0 <= i < |items| ensures Decode(sigs[i]) == items[i] { DecodeSig(items[i]); }
    DecodeItems(items, sigs);
  }

  lemma {:induction false} DecodeMapSig(m: FieldMap, v: FieldValue)
    requires v == Map(m)
    ensures Decode(SigOf(v)) == v
    decreases v, 0
  {
    forall k | k in m ensures Decode(SigOf(m[k])) == m[k] { DecodeSig(m[k]); }
    DecodePairs(m, SigOf(v).pairs);
  }

  /** Two collections of the same pairs, one sorted in place and one listed by sorted keys, agree. */
  lemma SortedListing(pairs: Pairs<FieldValueSig>, keys: seq<string>, sigs: map<string, FieldValueSig>)
    requires DistinctKeys(pairs) && KeysOf(pairs) == sigs.Keys
    requires forall i | 0 <= i < |pairs| :: pairs[i].1 == sigs[pairs[i].0]
    requires forall k :: k in keys <==> k in sigs
    requires forall i, j | 0 <= i < j < |keys| :: StrLt(keys[i], keys[j])
    ensures SortByKey(pairs) == seq(|keys|, i requires 0 <= i < |keys| => (keys[i], sigs[keys[i]]))
  {
    var listed := seq(|keys|, i requires 0 <= i < |keys| => (keys[i], sigs[keys[i]]));
    SortByKeySorts(pairs);
    SortByKeyContents(pairs);
    SameMembers(SortByKey(pairs), pairs);
    forall p ensures p in pairs <==> p in listed {
      if p in pairs {
        var k := p.0;
        assert k in KeysOf(pairs);
        var i :| 0 <= i < |keys| && keys[i] == k;
        assert listed[i] == p;
      }
      if p in listed {
        assert p.0 in KeysOf(pairs);
        var i :| 0 <= i < |pairs| && pairs[i].0 == p.0;
        assert pairs[i] == p;
      }
    }
    StrictlySortedUnique(SortByKey(pairs), listed);
  }

  /** Iteration order does not reach the signature, at any level. */
  lemma {:induction false} OrderIrrelevant(s: Stored)
    requires WellFormed(s)
    ensures FromValue(s) == SigOf(Abs(s))
  {
    match s {
      case SList(items) =>
        forall i | 0 <= i < |items| ensures FromValue(items[i]) == SigOf(Abs(items[i])) {
          OrderIrrelevant(items[i]);
        }
      case SMap(entries) =>
        forall i | 0 <= i < |entries| ensures FromValue(entries[i].1) == SigOf(Abs(entries[i].1)) {
          OrderIrrelevant(entries[i].1);
        }
        EntriesOrderIrrelevant(entries);
      case _ =>
    }
  }

  lemma KeysAgree(values: Pairs<FieldValue>, pairs: Pairs<FieldValueSig>)
    requires |pairs| == |values| && forall i | 0 <= i < |values| :: pairs[i].0 == values[i].0
    requires DistinctKeys(values)
    ensures DistinctKeys(pairs) && KeysOf(pairs) == ToMap(values).Keys
  {
    forall k | k in KeysOf(values) ensures k in KeysOf(pairs) {
      var i :| 0 <= i < |values| && values[i].0 == k;
      assert pairs[i].0 == k;
    }
  }

  lemma PairsOrderIrrelevant(values: Pairs<FieldValue>, pairs: Pairs<FieldValueSig>)
    requires DistinctKeys(values) && |pairs| == |values|
    requires forall i | 0 <= i < |values| :: pairs[i].0 == values[i].0 && pairs[i].1 == SigOf(values[i].1)
    ensures EventSig(SortByKey(pairs)) == EventSignature(ToMap(values))
  {
    var m := ToMap(values);
    var sigs := map k | k in m :: SigOf(m[k]);
    KeysAgree(values, pairs);
    forall i | 0 <= i < |pairs| ensures pairs[i].1 == sigs[pairs[i].0] {
      ToMapLookup(values, i);
      assert m[pairs[i].0] == values[i].1;
    }
    SortedListing(pairs, SortedKeys(m.Keys), sigs);
    assert EventSignature(m).pairs == SortByKey(pairs);
  }

  lemma EntriesOrderIrrelevant(entries: Pairs<Stored>)
    requires DistinctKeys(entries)
    requires forall i | 0 <= i < |entries| :: FromValue(entries[i].1) == SigOf(Abs(entries[i].1))
    ensures SignatureOf(entries) == EventSignature(AbsEvent(entries))
  {
    PairsOrderIrrelevant(
      seq(|entries|, i requires 0 <= i < |entries| => (entries[i].0, Abs(entries[i].1))),
      seq(|entries|, i requires 0 <= i < |entries| => (entries[i].0, FromValue(entries[i].1))));
  }

  /** Events have equal signatures exactly when they are the same nested map. */
  lemma SignatureCanonical(a: Pairs<Stored>, b: Pairs<Stored>)
    requires WellFormed(SMap(a)) && WellFormed(SMap(b))
    ensures SignatureOf(a) == SignatureOf(b) <==> AbsEvent(a) == AbsEvent(b)
  {
    forall i | 0 <= i < |a| ensures FromValue(a[i].1) == SigOf(Abs(a[i].1)) { OrderIrrelevant(a[i].1); }
    forall i | 0 <= i < |b| ensures FromValue(b[i].1) == SigOf(Abs(b[i].1)) { OrderIrrelevant(b[i].1); }
    EntriesOrderIrrelevant(a);
    EntriesOrderIrrelevant(b);
    EventSignatureInjective(AbsEvent(a), AbsEvent(b));
  }

  lemma EventSignatureInjective(a: FieldMap, b: FieldMap)
    ensures EventSignature(a) == EventSignature(b) <==> a == b
  {
    DecodeSig(Map(a));
    DecodeSig(Map(b));
    assert SigOf(Map(a)) == MapSig(EventSignature(a).pairs);
    assert SigOf(Map(b)) == MapSig(EventSignature(b).pairs);
  }
}
