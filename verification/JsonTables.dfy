/** Lua tables as JSON arrays and objects (`crates/luaml/src/stdlib/json.rs`). */
module JsonTables {
  import opened Wrappers
  import opened Json
  import Values

  type Positive = i: int | 1 <= i witness 1

  /** The largest index, which every float key that is too large is cast to. */
  const MAX_INDEX := 0x7FFF_FFFF_FFFF_FFFF

  /** A table key; `WholeKey` is a finite float of integer value at least 1, cast to an index. */
  datatype LuaKey =
    | IntKey(i: int)
    | WholeKey(at: Positive)
    | FractionKey(f: Values.Float)
    | StrKey(s: string)
    | OtherKey(id: nat)

  function Position(k: LuaKey): Option<int> {
    match k
    case IntKey(i) => if i >= 1 then Some(i) else None
    case WholeKey(at) => Some(at)
    case _ => None
  }

  /** Neither an index nor a string. */
  predicate IsBad(k: LuaKey) {
    Position(k).None? && !k.StrKey?
  }

  /** The keys of a table: a float of integer value is stored as that integer, unless it is too large. */
  ghost predicate TableKeys(keys: set<LuaKey>) {
    && |keys| < MAX_INDEX
    && forall a, b | a in keys && b in keys && a != b && Position(a).Some? && Position(a) == Position(b) ::
        Position(a).value == MAX_INDEX
  }

  /** What a table becomes; the last three are errors. */
  datatype Shape = AsArray | AsObject | BadKey | MixedKeys | Sparse

  /** The indices 1 to n. */
  function Range(n: nat): (r: set<int>)
    ensures forall i :: i in r <==> 1 <= i <= n
  {
    if n == 0 then {} else Range(n - 1) + {n}
  }

  ghost function Positions(keys: set<LuaKey>): set<int> {
    set k | k in keys && Position(k).Some? :: Position(k).value
  }

  /** The keys are the indices 1 to N, each of them and nothing else. */
  ghost predicate Contiguous(keys: set<LuaKey>) {
    (forall k | k in keys :: Position(k).Some?) && Positions(keys) == Range(|keys|)
  }

  ghost function ShapeOf(keys: set<LuaKey>): Shape {
    if exists k | k in keys :: IsBad(k) then BadKey
    else if Contiguous(keys) then AsArray
    else if forall k | k in keys :: k.StrKey? then AsObject
    else if exists k | k in keys :: k.StrKey? then MixedKeys
    else Sparse
  }

  // The count and the maximum decide.

  lemma {:induction false} RangeSize(n: nat)
    ensures |Range(n)| == n
  {
    if n > 0 {
      RangeSize(n - 1);
    }
  }

  lemma {:induction false} PositionsSize(keys: set<LuaKey>)
    requires forall k | k in keys :: Position(k).Some?
    requires forall a, b | a in keys && b in keys && Position(a) == Position(b) :: a == b
    ensures |Positions(keys)| == |keys|
  {
    if keys == {} {
      assert Positions(keys) == {};
    } else {
      var k :| k in keys;
      PositionsSize(keys - {k});
      assert Positions(keys) == Positions(keys - {k}) + {Position(k).value};
    }
  }

  lemma SubsetOfSameSize(a: set<int>, b: set<int>)
    requires a <= b && |a| == |b|
    ensures a == b
  {
    assert |b - a| == 0;
  }

  /** As many distinct indices as the largest of them are all the indices up to it. */
  lemma Pigeonhole(keys: set<LuaKey>)
    requires TableKeys(keys) && (forall k | k in keys :: Position(k).Some? && Position(k).value <= |keys|)
    ensures Positions(keys) == Range(|keys|)
  {
    assert Positions(keys) <= Range(|keys|);
    hide Positions, Range;
    PositionsSize(keys);
    RangeSize(|keys|);
    SubsetOfSameSize(Positions(keys), Range(|keys|));
  }

  /** `m` is the largest index among the keys, or 0 if there is none. */
  ghost predicate IsMax(m: int, keys: set<LuaKey>) {
    && (forall k | k in keys && Position(k).Some? :: Position(k).value <= m)
    && (m == 0 || exists k | k in keys :: Position(k) == Some(m))
    && m >= 0
  }

  lemma MaxDecides(keys: set<LuaKey>, m: int)
    requires TableKeys(keys) && keys != {} && IsMax(m, keys) && forall k | k in keys :: Position(k).Some?
    ensures m == |keys| <==> Contiguous(keys)
  {
    if m == |keys| {
      Pigeonhole(keys);
    }
    if Contiguous(keys) {
      assert |keys| in Range(|keys|);
      assert |keys| in Positions(keys);
      var k :| k in keys && Position(k).Some? && Position(k).value == |keys|;
      var l :| l in keys;
      assert Position(l).value in Positions(keys);
      if m > 0 {
        var top :| top in keys && Position(top) == Some(m);
        assert m in Positions(keys);
      }
    }
  }

  function KeySet(keys: seq<LuaKey>, n: nat): set<LuaKey>
    requires n <= |keys|
  {
    set i | 0 <= i < n :: keys[i]
  }

  ghost predicate Distinct(keys: seq<LuaKey>) {
    forall i, j | 0 <= i < j < |keys| :: keys[i] != keys[j]
  }

  lemma KeySetStep(keys: seq<LuaKey>, n: nat)
    requires n < |keys|
    ensures KeySet(keys, n + 1) == KeySet(keys, n) + {keys[n]}
    ensures Distinct(keys) ==> keys[n] !in KeySet(keys, n)
  {
  }

  /** The indices among the keys. */
  ghost function Indices(keys: set<LuaKey>): set<LuaKey> {
    set k | k in keys && Position(k).Some?
  }

  lemma IndicesStep(keys: set<LuaKey>, k: LuaKey)
    requires k !in keys
    ensures Indices(keys + {k}) == if Position(k).Some? then Indices(keys) + {k} else Indices(keys)
  {
  }

  /** The first `n` keys are scanned: none is bad, and they are counted. */
  ghost predicate Scanned(keys: set<LuaKey>, maxInt: int, intCount: nat, hasNonInt: bool) {
    && (forall k | k in keys :: !IsBad(k))
    && intCount == |Indices(keys)|
    && (hasNonInt <==> exists k | k in keys :: k.StrKey?)
    && IsMax(maxInt, keys)
  }

  lemma ScanStep(keys: set<LuaKey>, k: LuaKey, maxInt: int, intCount: nat, hasNonInt: bool)
    requires Scanned(keys, maxInt, intCount, hasNonInt) && k !in keys && !IsBad(k)
    ensures var at := Position(k);
      Scanned(keys + {k},
        if at.Some? && at.value > maxInt then at.value else maxInt,
        if at.Some? then intCount + 1 else intCount,
        hasNonInt || at.None?)
  {
    IndicesStep(keys, k);
  }

  /** Walks the keys once, in whatever order they come. */
  method ScanKeys(keys: seq<LuaKey>) returns (bad: bool, maxInt: int, intCount: nat, hasNonInt: bool)
    requires Distinct(keys)
    ensures bad <==> exists k | k in KeySet(keys, |keys|) :: IsBad(k)
    ensures |KeySet(keys, |keys|)| == |keys|
    ensures !bad ==> Scanned(KeySet(keys, |keys|), maxInt, intCount, hasNonInt)
  {
    bad, maxInt, intCount, hasNonInt := false, 0, 0, false;
    for n := 0 to |keys|
      invariant |KeySet(keys, n)| == n
      invariant bad <==> exists k | k in KeySet(keys, n) :: IsBad(k)
      invariant !bad ==> Scanned(KeySet(keys, n), maxInt, intCount, hasNonInt)
    {
      var k := keys[n];
      KeySetStep(keys, n);
      if bad || IsBad(k) {
        bad := true;
        continue;
      }
      ScanStep(KeySet(keys, n), k, maxInt, intCount, hasNonInt);
      if Position(k).Some? {
        intCount := intCount + 1;
        if Position(k).value > maxInt {
          maxInt := Position(k).value;
        }
      } else {
        hasNonInt := true;
      }
    }
  }

  /** The count and the maximum tell what the table becomes. */
  method DetectShape(keys: seq<LuaKey>) returns (shape: Shape)
    requires Distinct(keys) && TableKeys(KeySet(keys, |keys|))
    ensures shape == ShapeOf(KeySet(keys, |keys|))
  {
    var bad, maxInt, intCount, hasNonInt := ScanKeys(keys);
    if bad {
      return BadKey;
    }
    ghost var all := KeySet(keys, |keys|);
    IndicesDecide(all);
    if |keys| == 0 {
      return AsArray;
    }
    if hasNonInt && intCount > 0 {
      return MixedKeys;
    }
    if !hasNonInt {
      MaxDecides(all, maxInt);
    }
    if !hasNonInt && intCount == |keys| && maxInt == |keys| {
      return AsArray;
    }
    return if hasNonInt then AsObject else Sparse;
  }

  lemma IndicesDecide(keys: set<LuaKey>)
    requires forall k | k in keys :: !IsBad(k)
    ensures |Indices(keys)| == 0 <==> forall k | k in keys :: k.StrKey?
    ensures |Indices(keys)| == |keys| <==> forall k | k in keys :: !k.StrKey?
    ensures keys == {} ==> ShapeOf(keys) == AsArray
  {
    if |Indices(keys)| == 0 {
      forall k | k in keys ensures k.StrKey? { assert k !in Indices(keys); }
    }
    if forall k | k in keys :: k.StrKey? { assert Indices(keys) == {}; }
    if forall k | k in keys :: !k.StrKey? { assert Indices(keys) == keys; }
    if exists k | k in keys :: k.StrKey? {
      assert Indices(keys) < keys;
      ProperIsSmaller(Indices(keys), keys);
    }
    if keys == {} {
      assert Positions(keys) == {} && Range(0) == {};
    }
  }

  lemma ProperIsSmaller(a: set<LuaKey>, b: set<LuaKey>)
    requires a < b
    ensures |a| < |b|
  {
    assert b == a + (b - a) && b - a != {};
  }

  // Values.

  /** A Lua value; what JSON cannot hold is opaque. */
  datatype LuaValue =
    | LNil
    | LBool(b: bool)
    | LInt(n: Values.i64)
    | LFloat(f: Values.Float)
    | LStr(s: string)
    | LTable(t: map<LuaKey, LuaValue>)
    | LOpaque

  predicate IsFinite(f: Values.Float) {
    f.Magnitude() < Values.INFINITY_BITS
  }

  lemma ContiguousHas(keys: set<LuaKey>, p: int)
    requires Contiguous(keys) && 1 <= p <= |keys|
    ensures exists k :: k in keys && Position(k) == Some(p)
  {
    assert p in Range(|keys|);
    assert p in Positions(keys);
  }

  ghost function KeyAt(keys: set<LuaKey>, p: int): (k: LuaKey)
    requires Contiguous(keys) && 1 <= p <= |keys|
    ensures k in keys && Position(k) == Some(p)
  {
    ContiguousHas(keys, p);
    var k :| k in keys && Position(k) == Some(p);
    k
  }

  /** The names of the fields of a table with string keys. */
  function FieldNames(keys: set<LuaKey>): (names: set<string>)
    ensures forall s :: s in names <==> StrKey(s) in keys
  {
    set k | k in keys && k.StrKey? :: k.s
  }

  /** The key of the item at position `i`. */
  function Slot(i: nat): LuaKey {
    IntKey(i + 1)
  }

  /** The keys of the items that are not null. */
  function Slots(items: seq<Doc>): (keys: set<LuaKey>)
    ensures forall k | k in keys :: exists i :: 0 <= i < |items| && items[i] != Null && k == Slot(i)
    ensures forall i | 0 <= i < |items| && items[i] != Null :: Slot(i) in keys
  {
    set i | 0 <= i < |items| && items[i] != Null :: Slot(i)
  }

  function FieldKeys(fields: map<string, Doc>): (keys: set<LuaKey>)
    ensures forall k | k in keys :: k.StrKey? && k.s in fields && fields[k.s] != Null
    ensures forall s | s in fields && fields[s] != Null :: StrKey(s) in keys
  {
    set s | s in fields && fields[s] != Null :: StrKey(s)
  }

  /** `lua_to_json`; every value of a table is converted, and one that fails fails the table. */
  ghost function LuaToJson(v: LuaValue): Option<Doc> {
    match v
    case LNil => Some(Null)
    case LBool(b) => Some(Bool(b))
    case LInt(n) => Some(Num(Int(n)))
    case LFloat(f) => if IsFinite(f) then Some(Num(Finite(f))) else None
    case LStr(s) => Some(Str(s))
    case LOpaque => None
    case LTable(t) =>
      if exists k | k in t :: LuaToJson(t[k]).None? then None
      else
        match ShapeOf(t.Keys)
        case AsArray =>
          Some(Arr(seq(|t.Keys|, i requires 0 <= i < |t.Keys| => LuaToJson(t[KeyAt(t.Keys, i + 1)]).value)))
        case AsObject =>
          Some(Obj(map s | s in FieldNames(t.Keys) :: LuaToJson(t[StrKey(s)]).value))
        case _ => None
  }

  /** `json_to_lua`: setting a key to nil leaves the table without it; `widen` is the cast of a large integer. */
  function JsonToLua(widen: Values.u64 -> Values.Float, d: Doc): LuaValue {
    match d
    case Null => LNil
    case Bool(b) => LBool(b)
    case Num(Int(n)) => LInt(n)
    case Num(Big(u)) => LFloat(widen(u))
    case Num(Finite(f)) => LFloat(f)
    case Str(s) => LStr(s)
    case Arr(items) => LTable(map k | k in Slots(items) :: JsonToLua(widen, items[k.i - 1]))
    case Obj(fields) => LTable(map k | k in FieldKeys(fields) :: JsonToLua(widen, fields[k.s]))
  }

  /** Values that survive the way to Lua and back. */
  ghost predicate Faithful(d: Doc) {
    match d
    case Num(Big(_)) => false
    case Num(Finite(f)) => IsFinite(f)
    case Arr(items) => forall i | 0 <= i < |items| :: items[i] != Null && Faithful(items[i])
    case Obj(fields) => fields != map[] && forall k | k in fields :: fields[k] != Null && Faithful(fields[k])
    case _ => true
  }

  ghost predicate Returns(widen: Values.u64 -> Values.Float, d: Doc) {
    LuaToJson(JsonToLua(widen, d)) == Some(d)
  }

  lemma ArrayKeys(keys: set<LuaKey>, n: nat)
    requires forall k | k in keys :: k.IntKey? && 1 <= k.i <= n
    ensures |keys| <= n
    ensures |keys| == n <==> forall i | 0 <= i < n :: Slot(i) in keys
    ensures |keys| == n ==> Contiguous(keys)
  {
    PositionsSize(keys);
    RangeSize(n);
    SubsetSize(Positions(keys), Range(n));
    if |keys| == n {
      SubsetOfSameSize(Positions(keys), Range(n));
      forall i | 0 <= i < n ensures Slot(i) in keys {
        assert i + 1 in Positions(keys);
      }
    }
    if forall i | 0 <= i < n :: Slot(i) in keys {
      forall i | 1 <= i <= n
        ensures i in Positions(keys)
      {
        assert Position(Slot(i - 1)) == Some(i) && Slot(i - 1) in keys;
      }
      assert Positions(keys) == Range(n);
    }
  }

  lemma SubsetSize(a: set<int>, b: set<int>)
    requires a <= b
    ensures |a| <= |b|
  {
    assert b == a + (b - a);
  }

  lemma ArrayBack(t: map<LuaKey, LuaValue>)
    requires Contiguous(t.Keys) && forall k | k in t :: LuaToJson(t[k]).Some?
    ensures LuaToJson(LTable(t)).Some? && LuaToJson(LTable(t)).value.Arr?
    ensures var items := LuaToJson(LTable(t)).value.items;
      |items| == |t.Keys| && forall i | 0 <= i < |items| :: Some(items[i]) == LuaToJson(t[KeyAt(t.Keys, i + 1)])
  {
    assert ShapeOf(t.Keys) == AsArray;
  }

  /** What a contiguous table becomes, item by item. */
  lemma ArrayItems(t: map<LuaKey, LuaValue>, items: seq<Doc>)
    requires Contiguous(t.Keys) && |t.Keys| == |items|
    requires forall i | 0 <= i < |items| :: Slot(i) in t
    requires forall k | k in t :: k.IntKey? && 1 <= k.i <= |items|
    ensures LuaToJson(LTable(t)) == Some(Arr(items)) <==>
      forall i | 0 <= i < |items| :: LuaToJson(t[Slot(i)]) == Some(items[i])
  {
    if forall k | k in t :: LuaToJson(t[k]).Some? {
      ArrayBack(t);
      var back := LuaToJson(LTable(t)).value.items;
      forall i | 0 <= i < |items| ensures Some(back[i]) == LuaToJson(t[Slot(i)]) {
        assert KeyAt(t.Keys, i + 1) == Slot(i);
      }
      if forall i | 0 <= i < |items| :: LuaToJson(t[Slot(i)]) == Some(items[i]) {
        assert back == items;
      }
    } else {
      var k :| k in t && LuaToJson(t[k]).None?;
      assert Slot(k.i - 1) == k;
    }
  }

  lemma ObjectBack(t: map<LuaKey, LuaValue>)
    requires t != map[] && forall k | k in t :: k.StrKey? && LuaToJson(t[k]).Some?
    ensures LuaToJson(LTable(t)).Some? && LuaToJson(LTable(t)).value.Obj?
    ensures var fields := LuaToJson(LTable(t)).value.fields;
      fields.Keys == FieldNames(t.Keys) && forall s | s in fields :: Some(fields[s]) == LuaToJson(t[StrKey(s)])
  {
    var k :| k in t;
    assert Position(k).None? && ShapeOf(t.Keys) == AsObject;
  }

  /** What a table with string keys becomes, field by field. */
  lemma ObjectFields(t: map<LuaKey, LuaValue>, fields: map<string, Doc>)
    requires t != map[] && forall k | k in t :: k.StrKey?
    ensures LuaToJson(LTable(t)) == Some(Obj(fields)) <==>
      FieldNames(t.Keys) == fields.Keys && forall s | s in fields :: LuaToJson(t[StrKey(s)]) == Some(fields[s])
  {
    if forall k | k in t :: LuaToJson(t[k]).Some? {
      ObjectBack(t);
      var back := LuaToJson(LTable(t)).value.fields;
      if FieldNames(t.Keys) == fields.Keys && forall s | s in fields :: LuaToJson(t[StrKey(s)]) == Some(fields[s]) {
        assert back == fields;
      }
    } else {
      var k :| k in t && LuaToJson(t[k]).None?;
      assert k == StrKey(k.s) && k.s in FieldNames(t.Keys);
    }
  }

  lemma ItemAt(widen: Values.u64 -> Values.Float, items: seq<Doc>, i: nat)
    requires i < |items| && items[i] != Null
    ensures var t := JsonToLua(widen, Arr(items)).t;
      Slot(i) in t && t[Slot(i)] == JsonToLua(widen, items[i])
  {
    assert Slot(i) in Slots(items);
  }

  lemma SlotsOnly(widen: Values.u64 -> Values.Float, items: seq<Doc>) returns (t: map<LuaKey, LuaValue>)
    ensures JsonToLua(widen, Arr(items)) == LTable(t) && t.Keys == Slots(items)
    ensures |t.Keys| <= |items| && (|t.Keys| == |items| <==> forall i | 0 <= i < |items| :: Slot(i) in t)
    ensures |t.Keys| == |items| ==> Contiguous(t.Keys)
  {
    t := JsonToLua(widen, Arr(items)).t;
    assert t.Keys == Slots(items);
    ArrayKeys(t.Keys, |items|);
  }

  lemma FullArrayReturnsIff(widen: Values.u64 -> Values.Float, items: seq<Doc>, t: map<LuaKey, LuaValue>)
    requires t.Keys == Slots(items) && |t.Keys| == |items| && Contiguous(t.Keys)
    requires forall i | 0 <= i < |items| :: Slot(i) in t && t[Slot(i)] == JsonToLua(widen, items[i])
    ensures LuaToJson(LTable(t)) == Some(Arr(items)) <==> forall i | 0 <= i < |items| :: Returns(widen, items[i])
  {
    ArrayItems(t, items);
    if forall i | 0 <= i < |items| :: LuaToJson(t[Slot(i)]) == Some(items[i]) {
      forall i | 0 <= i < |items| ensures Returns(widen, items[i]) { assert t[Slot(i)] == JsonToLua(widen, items[i]); }
    } else {
      var i :| 0 <= i < |items| && LuaToJson(t[Slot(i)]) != Some(items[i]);
      assert !Returns(widen, items[i]);
    }
  }

  lemma ArrayReturnsIff(widen: Values.u64 -> Values.Float, items: seq<Doc>)
    ensures Returns(widen, Arr(items)) <==> forall i | 0 <= i < |items| :: items[i] != Null && Returns(widen, items[i])
  {
    hide LuaToJson, JsonToLua;
    var t := SlotsOnly(widen, items);
    if forall i | 0 <= i < |items| :: items[i] != Null {
      forall i | 0 <= i < |items|
        ensures Slot(i) in t && t[Slot(i)] == JsonToLua(widen, items[i])
      {
        ItemAt(widen, items, i);
      }
      FullArrayReturnsIff(widen, items, t);
    } else {
      var i :| 0 <= i < |items| && items[i] == Null;
      assert Slot(i) !in t;
      ShorterArray(t, items);
    }
  }

  /** A table with fewer keys than items does not become these items. */
  lemma ShorterArray(t: map<LuaKey, LuaValue>, items: seq<Doc>)
    requires |t.Keys| < |items| && forall k | k in t :: k.IntKey?
    ensures LuaToJson(LTable(t)) != Some(Arr(items))
  {
  }

  lemma ObjectReturnsIff(widen: Values.u64 -> Values.Float, fields: map<string, Doc>)
    ensures Returns(widen, Obj(fields)) <==>
      fields != map[] && forall k | k in fields :: fields[k] != Null && Returns(widen, fields[k])
  {
    var t := JsonToLua(widen, Obj(fields)).t;
    assert t.Keys == FieldKeys(fields);
    if t == map[] {
      EmptyIsArray();
      assert forall k | k in fields :: StrKey(k) !in FieldKeys(fields);
    } else {
      ObjectFields(t, fields);
      assert FieldNames(t.Keys) == fields.Keys <==> forall k | k in fields :: fields[k] != Null;
      if forall k | k in fields :: fields[k] != Null {
        forall k | k in fields ensures t[StrKey(k)] == JsonToLua(widen, fields[k]) {}
      }
    }
  }

  lemma EmptyIsArray()
    ensures LuaToJson(LTable(map[])) == Some(Arr([]))
  {
    var t: map<LuaKey, LuaValue> := map[];
    assert Positions(t.Keys) == {} && t.Keys == {} && Contiguous(t.Keys);
    ArrayBack(t);
  }

  /**
   A JSON value comes back from Lua unchanged exactly when no array or object in it holds a null, no
   object is empty, and every number is a 64-bit integer or a finite double.
   */
  lemma {:induction false} RoundTripIff(widen: Values.u64 -> Values.Float, d: Doc)
    ensures LuaToJson(JsonToLua(widen, d)) == Some(d) <==> Faithful(d)
  {
    match d {
      case Arr(items) =>
        forall i | 0 <= i < |items|
          ensures Returns(widen, items[i]) <==> Faithful(items[i])
        {
          RoundTripIff(widen, items[i]);
        }
        ArrayReturnsIff(widen, items);
      case Obj(fields) =>
        forall k | k in fields
          ensures Returns(widen, fields[k]) <==> Faithful(fields[k])
        {
          RoundTripIff(widen, fields[k]);
        }
        ObjectReturnsIff(widen, fields);
      case _ =>
    }
  }

  /**
   The shape of a table: an array if its keys are 1 to N, an object if all are strings, and otherwise an error
   that names the problem: a key that is neither, strings and indices together, or indices with gaps.
   */
  lemma ShapeIff(keys: set<LuaKey>)
    ensures var bad := exists k :: k in keys && Position(k).None? && !k.StrKey?;
      var indices, strings := exists k :: k in keys && Position(k).Some?, exists k :: k in keys && k.StrKey?;
      && (ShapeOf(keys) == BadKey <==> bad)
      && (ShapeOf(keys) == MixedKeys <==> !bad && indices && strings)
      && (ShapeOf(keys) == AsObject <==> !bad && !indices && strings)
      && (ShapeOf(keys) == AsArray <==> !bad && !strings && Positions(keys) == Range(|keys|))
      && (ShapeOf(keys) == Sparse <==> !bad && indices && !strings && Positions(keys) != Range(|keys|))
  {
    if keys == {} {
      assert Positions(keys) == Range(|keys|) == {};
    } else {
      var k :| k in keys;
      assert Position(k).Some? || Position(k).None?;
    }
  }


  // What each direction does, said as a relation.

  /** The Lua value shows the JSON value: items that are null leave gaps, fields that are null are missing. */
  ghost predicate Shows(widen: Values.u64 -> Values.Float, d: Doc, v: LuaValue) {
    match d
    case Null => v == LNil
    case Bool(b) => v == LBool(b)
    case Num(Int(n)) => v == LInt(n)
    case Num(Big(u)) => v == LFloat(widen(u))
    case Num(Finite(f)) => v == LFloat(f)
    case Str(s) => v == LStr(s)
    case Arr(items) =>
      && v.LTable?
      && (forall k :: k in v.t <==> exists i :: 0 <= i < |items| && items[i] != Null && k == IntKey(i + 1))
      && (forall i | 0 <= i < |items| && items[i] != Null :: Shows(widen, items[i], v.t[IntKey(i + 1)]))
    case Obj(fields) =>
      && v.LTable?
      && (forall k :: k in v.t <==> exists s :: s in fields && fields[s] != Null && k == StrKey(s))
      && (forall s | s in fields && fields[s] != Null :: Shows(widen, fields[s], v.t[StrKey(s)]))
  }

  lemma ArrayShows(widen: Values.u64 -> Values.Float, items: seq<Doc>, t: map<LuaKey, LuaValue>)
    requires JsonToLua(widen, Arr(items)) == LTable(t)
    ensures forall k :: k in t <==> exists i :: 0 <= i < |items| && items[i] != Null && k == IntKey(i + 1)
    ensures forall i | 0 <= i < |items| && items[i] != Null :: t[IntKey(i + 1)] == JsonToLua(widen, items[i])
  {
    forall i | 0 <= i < |items| && items[i] != Null
      ensures IntKey(i + 1) in t && t[IntKey(i + 1)] == JsonToLua(widen, items[i])
    {
      ItemAt(widen, items, i);
    }
  }

  lemma ObjectShows(widen: Values.u64 -> Values.Float, fields: map<string, Doc>, t: map<LuaKey, LuaValue>)
    requires JsonToLua(widen, Obj(fields)) == LTable(t)
    ensures forall k :: k in t <==> exists s :: s in fields && fields[s] != Null && k == StrKey(s)
    ensures forall s | s in fields && fields[s] != Null :: t[StrKey(s)] == JsonToLua(widen, fields[s])
  {
  }

  ghost predicate Decodes(widen: Values.u64 -> Values.Float, d: Doc) {
    forall v :: JsonToLua(widen, d) == v <==> Shows(widen, d, v)
  }

  lemma ArrayDecodes(widen: Values.u64 -> Values.Float, items: seq<Doc>)
    requires forall i | 0 <= i < |items| :: Decodes(widen, items[i])
    ensures Decodes(widen, Arr(items))
  {
    hide JsonToLua, Decodes;
    var t := JsonArray(widen, items);
    ArrayShows(widen, items, t);
    forall i | 0 <= i < |items| && items[i] != Null ensures Shows(widen, items[i], t[IntKey(i + 1)]) {
      OnlyDecoding(widen, items[i], t[IntKey(i + 1)]);
    }
    assert Shows(widen, Arr(items), LTable(t));
    forall v | Shows(widen, Arr(items), v) ensures v == LTable(t) { ArrayShownOnce(widen, items, t, v); }
    DecodesIf(widen, Arr(items), LTable(t));
  }

  lemma ArrayShownOnce(widen: Values.u64 -> Values.Float, items: seq<Doc>, t: map<LuaKey, LuaValue>, v: LuaValue)
    requires forall i | 0 <= i < |items| :: Decodes(widen, items[i])
    requires JsonToLua(widen, Arr(items)) == LTable(t) && Shows(widen, Arr(items), v)
    ensures v == LTable(t)
  {
    hide JsonToLua, Decodes;
    ArrayShows(widen, items, t);
    forall k | k in t ensures v.t[k] == t[k] {
      var i :| 0 <= i < |items| && items[i] != Null && k == IntKey(i + 1);
      OnlyDecoding(widen, items[i], v.t[k]);
    }
    assert v.t.Keys == t.Keys && v.t == t;
  }

  lemma ObjectDecodes(widen: Values.u64 -> Values.Float, fields: map<string, Doc>)
    requires forall s | s in fields :: Decodes(widen, fields[s])
    ensures Decodes(widen, Obj(fields))
  {
    hide JsonToLua, Decodes;
    var t := JsonObject(widen, fields);
    ObjectShows(widen, fields, t);
    forall s | s in fields && fields[s] != Null ensures Shows(widen, fields[s], t[StrKey(s)]) {
      OnlyDecoding(widen, fields[s], t[StrKey(s)]);
    }
    assert Shows(widen, Obj(fields), LTable(t));
    forall v | Shows(widen, Obj(fields), v) ensures v == LTable(t) { ObjectShownOnce(widen, fields, t, v); }
    DecodesIf(widen, Obj(fields), LTable(t));
  }

  lemma ObjectShownOnce(widen: Values.u64 -> Values.Float, fields: map<string, Doc>, t: map<LuaKey, LuaValue>,
      v: LuaValue)
    requires forall s | s in fields :: Decodes(widen, fields[s])
    requires JsonToLua(widen, Obj(fields)) == LTable(t) && Shows(widen, Obj(fields), v)
    ensures v == LTable(t)
  {
    hide JsonToLua, Decodes;
    ObjectShows(widen, fields, t);
    forall k | k in t ensures v.t[k] == t[k] {
      var s :| s in fields && fields[s] != Null && k == StrKey(s);
      OnlyDecoding(widen, fields[s], v.t[k]);
    }
    assert v.t.Keys == t.Keys && v.t == t;
  }

  lemma JsonArray(widen: Values.u64 -> Values.Float, items: seq<Doc>) returns (t: map<LuaKey, LuaValue>)
    ensures JsonToLua(widen, Arr(items)) == LTable(t)
  {
    t := JsonToLua(widen, Arr(items)).t;
  }

  lemma JsonObject(widen: Values.u64 -> Values.Float, fields: map<string, Doc>) returns (t: map<LuaKey, LuaValue>)
    ensures JsonToLua(widen, Obj(fields)) == LTable(t)
  {
    t := JsonToLua(widen, Obj(fields)).t;
  }

  lemma OnlyDecoding(widen: Values.u64 -> Values.Float, d: Doc, v: LuaValue)
    requires Decodes(widen, d)
    ensures JsonToLua(widen, d) == v <==> Shows(widen, d, v)
  {
    hide JsonToLua, Shows;
  }

  lemma DecodesIf(widen: Values.u64 -> Values.Float, d: Doc, shown: LuaValue)
    requires JsonToLua(widen, d) == shown && Shows(widen, d, shown)
    requires forall v | Shows(widen, d, v) :: v == shown
    ensures Decodes(widen, d)
  {
    hide JsonToLua, Shows;
  }

  lemma {:induction false} AllDecode(widen: Values.u64 -> Values.Float, d: Doc)
    ensures Decodes(widen, d)
  {
    match d {
      case Arr(items) =>
        forall i | 0 <= i < |items| ensures Decodes(widen, items[i]) { AllDecode(widen, items[i]); }
        ArrayDecodes(widen, items);
      case Obj(fields) =>
        forall s | s in fields ensures Decodes(widen, fields[s]) { AllDecode(widen, fields[s]); }
        ObjectDecodes(widen, fields);
      case _ =>
    }
  }

  /** Decoding gives the one Lua value that shows the JSON value. */
  lemma DecodedIff(widen: Values.u64 -> Values.Float, d: Doc, v: LuaValue)
    ensures JsonToLua(widen, d) == v <==> Shows(widen, d, v)
  {
    AllDecode(widen, d);
    OnlyDecoding(widen, d, v);
  }

  /** The JSON value says what the Lua value is; nothing else is said of it. */
  ghost predicate Says(v: LuaValue, d: Doc) {
    match v
    case LNil => d == Null
    case LBool(b) => d == Bool(b)
    case LInt(n) => d == Num(Int(n))
    case LFloat(f) => IsFinite(f) && d == Num(Finite(f))
    case LStr(s) => d == Str(s)
    case LOpaque => false
    case LTable(t) =>
      match d
      case Arr(items) =>
        && Contiguous(t.Keys) && |t.Keys| == |items|
        && (forall k | k in t :: 1 <= Position(k).value <= |items| && Says(t[k], items[Position(k).value - 1]))
      case Obj(fields) =>
        && t != map[] && (forall k | k in t :: k.StrKey? && k.s in fields && Says(t[k], fields[k.s]))
        && (forall s | s in fields :: StrKey(s) in t)
      case _ => false
  }


  ghost predicate Encodes(v: LuaValue) {
    forall d :: LuaToJson(v) == Some(d) <==> Says(v, d)
  }

  lemma OnlyEncoding(v: LuaValue, d: Doc)
    requires Encodes(v)
    ensures LuaToJson(v) == Some(d) <==> Says(v, d)
  {
    hide LuaToJson, Says;
  }

  lemma EncodesIf(v: LuaValue, said: Option<Doc>)
    requires LuaToJson(v) == said && forall d :: Says(v, d) <==> said == Some(d)
    ensures Encodes(v)
  {
    hide LuaToJson, Says;
  }

  lemma {:induction false} AtMostAsMany(keys: set<LuaKey>)
    ensures |Positions(keys)| <= |keys|
  {
    if keys == {} {
      assert Positions(keys) == {};
    } else {
      var k :| k in keys;
      AtMostAsMany(keys - {k});
      assert Positions(keys) <= Positions(keys - {k}) + if Position(k).Some? then {Position(k).value} else {};
      SubsetSize(Positions(keys), Positions(keys - {k}) + if Position(k).Some? then {Position(k).value} else {});
    }
  }

  /** No two keys of a contiguous table have one index. */
  lemma ContiguousIsInjective(keys: set<LuaKey>, a: LuaKey, b: LuaKey)
    requires Contiguous(keys) && a in keys && b in keys && Position(a) == Position(b)
    ensures a == b
  {
    if a != b {
      assert Positions(keys) == Positions(keys - {a}) by {
        forall p | p in Positions(keys) ensures p in Positions(keys - {a}) {
          var k :| k in keys && Position(k) == Some(p);
          if k == a { assert b in keys - {a}; } else { assert k in keys - {a}; }
        }
      }
      AtMostAsMany(keys - {a});
      RangeSize(|keys|);
    }
  }

  lemma ContiguousIndex(keys: set<LuaKey>, k: LuaKey)
    requires Contiguous(keys) && k in keys
    ensures Position(k).Some? && 1 <= Position(k).value <= |keys| && k == KeyAt(keys, Position(k).value)
  {
    assert Position(k).value in Positions(keys);
    ContiguousIsInjective(keys, k, KeyAt(keys, Position(k).value));
  }

  /** What a table of items becomes. */
  lemma ArrayEncodes(t: map<LuaKey, LuaValue>)
    requires Contiguous(t.Keys) && forall k | k in t :: Encodes(t[k])
    ensures Encodes(LTable(t))
  {
    hide LuaToJson, Encodes, Contiguous, Says;
    if forall k | k in t :: LuaToJson(t[k]).Some? {
      ArrayBack(t);
      var items := LuaToJson(LTable(t)).value.items;
      ArraySays(t, items);
      forall d | Says(LTable(t), d) ensures d == Arr(items) { ArraySaidOnce(t, items, d); }
      EncodesIf(LTable(t), Some(Arr(items)));
    } else {
      var k :| k in t && LuaToJson(t[k]).None?;
      forall d ensures !Says(LTable(t), d) { ArrayUnsaid(t, k, d); }
      OneFails(t, k);
      EncodesIf(LTable(t), None);
    }
  }

  lemma ArraySays(t: map<LuaKey, LuaValue>, items: seq<Doc>)
    requires Contiguous(t.Keys) && (forall k | k in t :: Encodes(t[k])) && LuaToJson(LTable(t)) == Some(Arr(items))
    requires |items| == |t.Keys|
    requires forall i | 0 <= i < |items| :: Some(items[i]) == LuaToJson(t[KeyAt(t.Keys, i + 1)])
    ensures Says(LTable(t), Arr(items))
  {
    hide LuaToJson, Encodes, Contiguous;
    forall k | k in t
      ensures Position(k).Some? && 1 <= Position(k).value <= |items| && Says(t[k], items[Position(k).value - 1])
    {
      ContiguousIndex(t.Keys, k);
      OnlyEncoding(t[k], items[Position(k).value - 1]);
    }
  }

  lemma ArraySaidOnce(t: map<LuaKey, LuaValue>, items: seq<Doc>, d: Doc)
    requires Contiguous(t.Keys) && (forall k | k in t :: Encodes(t[k])) && Says(LTable(t), d)
    requires |items| == |t.Keys|
    requires forall i | 0 <= i < |items| :: Some(items[i]) == LuaToJson(t[KeyAt(t.Keys, i + 1)])
    ensures d == Arr(items)
  {
    hide LuaToJson, Encodes;
    ItemsOrNames(t, d);
    forall i | 0 <= i < |items| ensures d.items[i] == items[i] {
      OnlyEncoding(t[KeyAt(t.Keys, i + 1)], d.items[i]);
    }
    assert d.items == items;
  }

  lemma ArrayUnsaid(t: map<LuaKey, LuaValue>, k: LuaKey, d: Doc)
    requires Contiguous(t.Keys) && k in t && Encodes(t[k]) && LuaToJson(t[k]).None?
    ensures !Says(LTable(t), d)
  {
    hide LuaToJson, Encodes;
    if Says(LTable(t), d) {
      ItemsOrNames(t, d);
      OnlyEncoding(t[k], d.items[Position(k).value - 1]);
    }
  }

  lemma ItemsOrNames(t: map<LuaKey, LuaValue>, d: Doc)
    requires Says(LTable(t), d)
    ensures d.Arr? || exists k :: k in t && Position(k).None?
  {
    if d.Obj? {
      var k :| k in t;
      assert k.StrKey?;
    }
  }

  lemma OneFails(t: map<LuaKey, LuaValue>, k: LuaKey)
    requires k in t && LuaToJson(t[k]).None?
    ensures LuaToJson(LTable(t)) == None
  {
  }

  /** What a table of named fields becomes. */
  lemma ObjectEncodes(t: map<LuaKey, LuaValue>)
    requires t != map[] && (forall k | k in t :: k.StrKey?) && forall k | k in t :: Encodes(t[k])
    ensures Encodes(LTable(t))
  {
    hide LuaToJson, Encodes;
    forall d: Doc | d.Arr? ensures !Says(LTable(t), d) {
      var k :| k in t;
      assert Position(k).None?;
    }
    if forall k | k in t :: LuaToJson(t[k]).Some? {
      ObjectBack(t);
      var fields := LuaToJson(LTable(t)).value.fields;
      forall k | k in t ensures k.s in fields && Says(t[k], fields[k.s]) {
        assert k == StrKey(k.s);
        OnlyEncoding(t[k], fields[k.s]);
      }
      assert Says(LTable(t), Obj(fields));
      forall d | Says(LTable(t), d) ensures d == Obj(fields) {
        forall s | s in d.fields ensures s in fields && d.fields[s] == fields[s] {
          OnlyEncoding(t[StrKey(s)], d.fields[s]);
        }
        assert d.fields.Keys == fields.Keys && d.fields == fields;
      }
      EncodesIf(LTable(t), Some(Obj(fields)));
    } else {
      var k :| k in t && LuaToJson(t[k]).None?;
      forall d ensures !Says(LTable(t), d) {
        if Says(LTable(t), d) { OnlyEncoding(t[k], d.fields[k.s]); }
      }
      OneFails(t, k);
      EncodesIf(LTable(t), None);
    }
  }

  /** A table of any other shape is an error. */
  lemma OtherTablesFail(t: map<LuaKey, LuaValue>)
    requires ShapeOf(t.Keys) != AsArray && ShapeOf(t.Keys) != AsObject
    ensures Encodes(LTable(t))
  {
    hide ShapeOf;
    forall d ensures !Says(LTable(t), d) {
      if Says(LTable(t), d) { SaidHasShape(t, d); }
    }
    EncodesIf(LTable(t), None);
  }

  lemma SaidHasShape(t: map<LuaKey, LuaValue>, d: Doc)
    requires Says(LTable(t), d)
    ensures ShapeOf(t.Keys) == AsArray || ShapeOf(t.Keys) == AsObject
  {
    if d.Arr? {
      assert forall k | k in t.Keys :: Position(k).Some?;
    } else {
      assert forall k | k in t.Keys :: k.StrKey?;
    }
  }

  lemma {:induction false} AllEncode(v: LuaValue)
    ensures Encodes(v)
  {
    if v.LTable? {
      var t := v.t;
      forall k | k in t ensures Encodes(t[k]) { AllEncode(t[k]); }
      hide Encodes, LuaToJson, Says;
      match ShapeOf(t.Keys) {
        case AsArray => ArrayEncodes(t);
        case AsObject =>
          EmptyShape(t.Keys);
          ObjectEncodes(t);
        case _ => OtherTablesFail(t);
      }
    }
  }

  lemma EmptyShape(keys: set<LuaKey>)
    ensures keys == {} ==> ShapeOf(keys) == AsArray
  {
    if keys == {} { assert Positions(keys) == Range(|keys|) == {}; }
  }

  /**
   Encoding gives the one JSON value that says what the Lua value is, and fails exactly when none does: a
   table needs the keys 1 to N, or strings only, and values that can be encoded; a number must be finite.
   */
  lemma EncodedIff(v: LuaValue, d: Doc)
    ensures LuaToJson(v) == Some(d) <==> Says(v, d)
  {
    AllEncode(v);
    OnlyEncoding(v, d);
  }
}
