/** Which patterns some value matches: patterns are met all at once, so that keys may repeat. */
module Satisfaction {
  import opened Wrappers
  import opened Values
  import opened Patterns
  import opened Matching

  /** All of the patterns match the value. */
  predicate AllMatch(patterns: seq<Pattern>, v: FieldValue) {
    forall p | p in patterns :: MatchValue(p, v).Some?
  }

  predicate ListMatches(list: ListPattern, items: seq<FieldValue>) {
    MatchValue(ListOf(list), List(items)).Some?
  }

  predicate AllListsMatch(lists: seq<ListPattern>, items: seq<FieldValue>) {
    forall list | list in lists :: ListMatches(list, items)
  }

  /** Every field finds its key and matches the value there. */
  predicate AllFieldsMatch(fields: Fields, m: FieldMap) {
    forall f | f in fields :: f.key in m && MatchValue(f.pattern, m[f.key]).Some?
  }

  // Sizes, for termination.

  function Size(p: Pattern): (n: nat)
    ensures n > 0
    decreases p, 0
  {
    match p
    case ListOf(list) => 1 + ListSize(list)
    case MapOf(entries) => 1 + FieldSizes(entries)
    case _ => 1
  }

  function ListSize(list: ListPattern): nat
    decreases list, 0
  {
    match list
    case Empty => 0
    case HeadTail(head, tail) => Size(head) + Size(tail)
    case Elements(patterns) => 1 + Sizes(patterns)
  }

  function Sizes(patterns: seq<Pattern>): nat
    decreases patterns, 1
  {
    if patterns == [] then 0 else Size(patterns[0]) + Sizes(patterns[1..])
  }

  function ListSizes(lists: seq<ListPattern>): nat {
    if lists == [] then 0 else ListSize(lists[0]) + ListSizes(lists[1..])
  }

  function FieldSizes(fields: Fields): nat
    decreases fields, 1
  {
    if fields == [] then 0 else 1 + Size(fields[0].pattern) + FieldSizes(fields[1..])
  }

  // Parts of a collection of patterns.

  /** A wildcard or a variable, which match everything. */
  predicate IsFree(p: Pattern) {
    p.Wildcard? || p.Variable?
  }

  function Bound(patterns: seq<Pattern>): (bound: seq<Pattern>)
    ensures forall p | p in bound :: p in patterns && !IsFree(p)
    ensures forall p | p in patterns && !IsFree(p) :: p in bound
    ensures Sizes(bound) <= Sizes(patterns)
  {
    if patterns == [] then []
    else if IsFree(patterns[0]) then Bound(patterns[1..])
    else [patterns[0]] + Bound(patterns[1..])
  }

  /** A pattern that only one value matches. */
  predicate IsLiteral(p: Pattern) {
    match p
    case EnumPattern(_) => !IsGlobal(p)
    case StringLiteral(_) => true
    case NumberLiteral(_) => true
    case BoolLiteral(_) => true
    case _ => false
  }

  function LiteralValue(p: Pattern): FieldValue
    requires IsLiteral(p)
  {
    match p
    case EnumPattern(name) => Enum(name)
    case StringLiteral(text) => Str(text)
    case NumberLiteral(n) => Number(n)
    case BoolLiteral(b) => Bool(b)
  }

  lemma LiteralMatchesOnly(p: Pattern, v: FieldValue)
    requires IsLiteral(p)
    ensures MatchValue(p, v).Some? <==> v == LiteralValue(p)
  {
  }

  function FirstLiteral(patterns: seq<Pattern>): (found: Option<Pattern>)
    ensures found.Some? ==> found.value in patterns && IsLiteral(found.value)
    ensures found.None? ==> forall p | p in patterns :: !IsLiteral(p)
  {
    if patterns == [] then None
    else if IsLiteral(patterns[0]) then Some(patterns[0])
    else FirstLiteral(patterns[1..])
  }

  predicate AllGlobal(patterns: seq<Pattern>) {
    forall p | p in patterns :: IsGlobal(p)
  }

  predicate AllLists(patterns: seq<Pattern>) {
    forall p | p in patterns :: p.ListOf?
  }

  predicate AllMaps(patterns: seq<Pattern>) {
    forall p | p in patterns :: p.MapOf?
  }

  function ListsOf(patterns: seq<Pattern>): (lists: seq<ListPattern>)
    requires AllLists(patterns)
    ensures |lists| == |patterns| && forall i | 0 <= i < |patterns| :: lists[i] == patterns[i].list
    ensures Sizes(patterns) == |patterns| + ListSizes(lists)
  {
    if patterns == [] then [] else [patterns[0].list] + ListsOf(patterns[1..])
  }

  /** The entries of several map patterns, one after the other. */
  function EntriesOf(patterns: seq<Pattern>): (entries: Fields)
    requires AllMaps(patterns)
    ensures forall p, e | p in patterns && e in p.entries :: e in entries
    ensures forall e | e in entries :: exists p :: p in patterns && e in p.entries
    ensures FieldSizes(entries) + |patterns| == Sizes(patterns)
  {
    if patterns == [] then []
    else
      FieldSizesConcat(patterns[0].entries, EntriesOf(patterns[1..]));
      assert forall p | p in patterns :: p == patterns[0] || p in patterns[1..];
      patterns[0].entries + EntriesOf(patterns[1..])
  }

  lemma {:induction false} FieldSizesConcat(a: Fields, b: Fields)
    ensures FieldSizes(a + b) == FieldSizes(a) + FieldSizes(b)
  {
    if a == [] {
      assert a + b == b;
    } else {
      FieldSizesConcat(a[1..], b);
      assert (a + b)[1..] == a[1..] + b;
    }
  }

  /** The patterns of the fields with a key. */
  function PatternsFor(fields: Fields, key: string): (patterns: seq<Pattern>)
    ensures forall f | f in fields && f.key == key :: f.pattern in patterns
    ensures forall p | p in patterns :: Field(key, p) in fields
    ensures Sizes(patterns) + |patterns| + FieldSizes(Others(fields, key)) == FieldSizes(fields)
  {
    if fields == [] then []
    else if fields[0].key == key then [fields[0].pattern] + PatternsFor(fields[1..], key)
    else PatternsFor(fields[1..], key)
  }

  function Others(fields: Fields, key: string): (others: Fields)
    ensures forall f | f in fields && f.key != key :: f in others
    ensures forall f | f in others :: f in fields && f.key != key
  {
    if fields == [] then []
    else if fields[0].key == key then Others(fields[1..], key)
    else [fields[0]] + Others(fields[1..], key)
  }

  /** The pattern accepts the empty list of items only. */
  predicate IsEmpty(list: ListPattern) {
    list.Empty? || (list.Elements? && list.patterns == [])
  }

  predicate AnyEmpty(lists: seq<ListPattern>) {
    exists list | list in lists :: IsEmpty(list)
  }

  predicate AllEmpty(lists: seq<ListPattern>) {
    forall list | list in lists :: IsEmpty(list)
  }

  function HeadOf(list: ListPattern): Pattern
    requires !IsEmpty(list)
  {
    if list.HeadTail? then list.head else list.patterns[0]
  }

  function TailOf(list: ListPattern): Pattern
    requires !IsEmpty(list)
  {
    if list.HeadTail? then list.tail else ListOf(Elements(list.patterns[1..]))
  }

  lemma HeadAndTail(list: ListPattern, items: seq<FieldValue>)
    requires !IsEmpty(list)
    ensures ListMatches(list, items) <==>
      items != [] && MatchValue(HeadOf(list), items[0]).Some? && MatchValue(TailOf(list), List(items[1..])).Some?
  {
    if list.Elements? && |list.patterns| == |items| {
      ElementsMatchIff(list.patterns, items);
      ElementsMatchIff(list.patterns[1..], items[1..]);
      assert forall i | 1 <= i < |items| ::
        list.patterns[i] == list.patterns[1..][i - 1] && items[i] == items[1..][i - 1];
      assert forall i | 0 <= i < |items| - 1 ::
        list.patterns[1..][i] == list.patterns[i + 1] && items[1..][i] == items[i + 1];
    }
  }

  lemma PartsAreSmaller(list: ListPattern)
    requires !IsEmpty(list)
    ensures Size(HeadOf(list)) < ListSize(list) && Size(TailOf(list)) <= ListSize(list)
  {
  }

  function Heads(lists: seq<ListPattern>): (heads: seq<Pattern>)
    requires !AnyEmpty(lists)
    ensures |heads| == |lists| && forall i | 0 <= i < |lists| :: heads[i] == HeadOf(lists[i])
    ensures Sizes(heads) + |lists| <= ListSizes(lists)
  {
    if lists == [] then []
    else
      PartsAreSmaller(lists[0]);
      [HeadOf(lists[0])] + Heads(lists[1..])
  }

  function Tails(lists: seq<ListPattern>): (tails: seq<Pattern>)
    requires !AnyEmpty(lists)
    ensures |tails| == |lists| && forall i | 0 <= i < |lists| :: tails[i] == TailOf(lists[i])
    ensures Sizes(tails) <= ListSizes(lists)
  {
    if lists == [] then []
    else
      PartsAreSmaller(lists[0]);
      [TailOf(lists[0])] + Tails(lists[1..])
  }

  // A value that all of the patterns match.

  /** Some value that every pattern matches, if there is one. */
  function Meet(patterns: seq<Pattern>): Option<FieldValue>
    decreases Sizes(patterns), 1
  {
    var bound := Bound(patterns);
    if bound == [] then Some(Null)
    else
      var literal := FirstLiteral(bound);
      if literal.Some? then
        if AllMatch(bound, LiteralValue(literal.value)) then Some(LiteralValue(literal.value)) else None
      else if AllGlobal(bound) then Some(Enum(GLOBAL_ENUM))
      else if AllLists(bound) then
        var items := MeetLists(ListsOf(bound));
        if items.Some? then Some(List(items.value)) else None
      else if AllMaps(bound) then
        var m := MeetFields(EntriesOf(bound));
        if m.Some? then Some(Map(m.value)) else None
      else None
  }

  function MeetLists(lists: seq<ListPattern>): Option<seq<FieldValue>>
    decreases ListSizes(lists), 0
  {
    if lists == [] then Some([])
    else if AnyEmpty(lists) then
      if AllEmpty(lists) then Some([]) else None
    else
      var head, tails := Meet(Heads(lists)), Bound(Tails(lists));
      if head.None? || !AllLists(tails) then None
      else
        var tail := MeetLists(ListsOf(tails));
        if tail.Some? then Some([head.value] + tail.value) else None
  }

  function MeetFields(fields: Fields): Option<FieldMap>
    decreases FieldSizes(fields), 0
  {
    if fields == [] then Some(map[])
    else
      var key := fields[0].key;
      var v, rest := Meet(PatternsFor(fields, key)), MeetFields(Others(fields, key));
      if v.Some? && rest.Some? then Some(rest.value[key := v.value]) else None
  }

  lemma MatchesBound(patterns: seq<Pattern>, v: FieldValue)
    ensures AllMatch(patterns, v) <==> AllMatch(Bound(patterns), v)
  {
  }

  lemma MatchesLists(patterns: seq<Pattern>, items: seq<FieldValue>)
    requires AllLists(patterns)
    ensures AllMatch(patterns, List(items)) <==> AllListsMatch(ListsOf(patterns), items)
  {
    var lists := ListsOf(patterns);
    forall i | 0 <= i < |patterns|
      ensures MatchValue(patterns[i], List(items)).Some? <==> ListMatches(lists[i], items)
    {
      assert patterns[i] in patterns && patterns[i] == ListOf(lists[i]);
    }
  }

  lemma MatchesMaps(patterns: seq<Pattern>, m: FieldMap)
    requires AllMaps(patterns)
    ensures AllMatch(patterns, Map(m)) <==> AllFieldsMatch(EntriesOf(patterns), m)
  {
    forall p | p in patterns ensures MatchValue(p, Map(m)).Some? <==> AllFieldsMatch(p.entries, m) {
      EntriesMatchIff(p.entries, m);
    }
    if AllFieldsMatch(EntriesOf(patterns), m) {
      forall p | p in patterns ensures AllFieldsMatch(p.entries, m) {}
    }
  }

  lemma MatchesKey(fields: Fields, key: string, m: FieldMap)
    ensures AllFieldsMatch(fields, m) <==>
      && AllFieldsMatch(Others(fields, key), m)
      && (PatternsFor(fields, key) != [] ==> key in m && AllMatch(PatternsFor(fields, key), m[key]))
  {
  }

  lemma MatchesHeadsAndTails(lists: seq<ListPattern>, items: seq<FieldValue>)
    requires lists != [] && !AnyEmpty(lists)
    ensures AllListsMatch(lists, items) <==>
      items != [] && AllMatch(Heads(lists), items[0]) && AllMatch(Tails(lists), List(items[1..]))
  {
    forall list | list in lists ensures ListMatches(list, items) <==>
      items != [] && MatchValue(HeadOf(list), items[0]).Some? && MatchValue(TailOf(list), List(items[1..])).Some?
    {
      HeadAndTail(list, items);
    }
    assert lists[0] in lists;
    if items != [] && AllMatch(Heads(lists), items[0]) && AllMatch(Tails(lists), List(items[1..])) {
      forall i | 0 <= i < |lists| ensures ListMatches(lists[i], items) {
        assert Heads(lists)[i] in Heads(lists) && Tails(lists)[i] in Tails(lists);
      }
    }
  }

  /** The value found is matched by every pattern. */
  lemma {:induction false} MeetSound(patterns: seq<Pattern>)
    requires Meet(patterns).Some?
    ensures AllMatch(patterns, Meet(patterns).value)
    decreases Sizes(patterns), 1
  {
    hide MeetLists, MeetFields, AllListsMatch, AllFieldsMatch, ListsOf, EntriesOf;
    var bound := Bound(patterns);
    MatchesBound(patterns, Meet(patterns).value);
    if bound == [] {
    } else if FirstLiteral(bound).Some? || AllGlobal(bound) {
      hide AllLists, AllMaps;
    } else if AllLists(bound) {
      hide AllMatch, AllLists, AllMaps;
      MeetListsSound(ListsOf(bound));
      MatchesLists(bound, MeetLists(ListsOf(bound)).value);
    } else {
      hide AllMatch, AllLists, AllMaps;
      MeetFieldsSound(EntriesOf(bound));
      MatchesMaps(bound, MeetFields(EntriesOf(bound)).value);
    }
  }

  lemma {:induction false} MeetListsSound(lists: seq<ListPattern>)
    requires MeetLists(lists).Some?
    ensures AllListsMatch(lists, MeetLists(lists).value)
    decreases ListSizes(lists), 0
  {
    if lists != [] && !AnyEmpty(lists) {
      var tails := Bound(Tails(lists));
      var items := MeetLists(lists).value;
      MeetSound(Heads(lists));
      MeetListsSound(ListsOf(tails));
      assert items[1..] == MeetLists(ListsOf(tails)).value;
      MatchesLists(tails, items[1..]);
      MatchesBound(Tails(lists), List(items[1..]));
      MatchesHeadsAndTails(lists, items);
    }
  }

  lemma {:induction false} MeetFieldsSound(fields: Fields)
    requires MeetFields(fields).Some?
    ensures AllFieldsMatch(fields, MeetFields(fields).value)
    decreases FieldSizes(fields), 0
  {
    if fields != [] {
      var key := fields[0].key;
      MeetSound(PatternsFor(fields, key));
      MeetFieldsSound(Others(fields, key));
      MatchesKey(fields, key, MeetFields(fields).value);
    }
  }

  /** A value is found whenever there is one. */
  lemma {:induction false} MeetComplete(patterns: seq<Pattern>, v: FieldValue)
    requires AllMatch(patterns, v)
    ensures Meet(patterns).Some?
    decreases Sizes(patterns), 1
  {
    var bound := Bound(patterns);
    if bound != [] {
      var literal := FirstLiteral(bound);
      if literal.Some? {
        LiteralMatchesOnly(literal.value, v);
      } else {
        match v {
          case List(items) =>
            MatchesLists(bound, items);
            MeetListsComplete(ListsOf(bound), items);
          case Map(m) =>
            MatchesMaps(bound, m);
            MeetFieldsComplete(EntriesOf(bound), m);
          case _ =>
        }
      }
    }
  }

  lemma EmptyMeetsEmpty(lists: seq<ListPattern>, items: seq<FieldValue>)
    requires AllListsMatch(lists, items) && AnyEmpty(lists)
    ensures AllEmpty(lists)
  {
    var empty :| empty in lists && IsEmpty(empty);
    assert ListMatches(empty, items) && items == [];
    forall list | list in lists ensures IsEmpty(list) {
      if !IsEmpty(list) { HeadAndTail(list, items); }
    }
  }

  lemma BoundTailsAreLists(tails: seq<Pattern>, items: seq<FieldValue>)
    requires AllMatch(tails, List(items)) && forall p | p in tails :: !IsFree(p)
    ensures AllLists(tails)
  {
  }

  lemma {:induction false} MeetListsComplete(lists: seq<ListPattern>, items: seq<FieldValue>)
    requires AllListsMatch(lists, items)
    ensures MeetLists(lists).Some?
    decreases ListSizes(lists), 0
  {
    hide AllListsMatch, TailOf, HeadOf, AllMatch, ListMatches, AnyEmpty, AllEmpty;
    if AnyEmpty(lists) {
      EmptyMeetsEmpty(lists, items);
    } else if lists != [] {
      var tails := Bound(Tails(lists));
      MatchesHeadsAndTails(lists, items);
      MeetComplete(Heads(lists), items[0]);
      MatchesBound(Tails(lists), List(items[1..]));
      BoundTailsAreLists(tails, items[1..]);
      MatchesLists(tails, items[1..]);
      MeetListsComplete(ListsOf(tails), items[1..]);
    }
  }

  lemma {:induction false} MeetFieldsComplete(fields: Fields, m: FieldMap)
    requires AllFieldsMatch(fields, m)
    ensures MeetFields(fields).Some?
    decreases FieldSizes(fields), 0
  {
    if fields != [] {
      var key := fields[0].key;
      MatchesKey(fields, key, m);
      MeetComplete(PatternsFor(fields, key), m[key]);
      MeetFieldsComplete(Others(fields, key), m);
    }
  }
}
