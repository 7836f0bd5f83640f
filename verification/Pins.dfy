/** Pins as README.md:43 describes them: a pin accepts the value that its name was bound to before. */
module Pins {
  import opened Wrappers
  import opened Values
  import opened Patterns
  import opened Matching

  /** The operator `==` of `FieldValue`: floats compare as in IEEE 754 at every depth, so NaN equals nothing. */
  ghost predicate Equals(a: FieldValue, b: FieldValue) {
    match (a, b)
    case (Flt(x), Flt(y)) => x.IeeeEq(y)
    case (List(xs), List(ys)) => |xs| == |ys| && forall i | 0 <= i < |xs| :: Equals(xs[i], ys[i])
    case (Map(m), Map(n)) => m.Keys == n.Keys && forall k | k in m :: Equals(m[k], n[k])
    case _ => a == b
  }

  // Matching from left to right, in which each pattern sees the bindings of those before it.

  ghost function MatchWith(p: Pattern, v: FieldValue, context: FieldBindings): Match
    decreases p, 0
  {
    match p
    case Variable(name) => Some(context + map[name := v])
    case Pin(name) => if name in context && Equals(context[name], v) then Some(context) else None
    case ListOf(HeadTail(head, tail)) =>
      if !v.List? || v.items == [] then None
      else
        (match MatchWith(head, v.items[0], context)
         case None => None
         case Some(b) => MatchWith(tail, List(v.items[1..]), b))
    case ListOf(Elements(patterns)) =>
      if !v.List? || |patterns| != |v.items| then None else ElementsWith(patterns, v.items, context)
    case MapOf(entries) => if v.Map? then EntriesWith(entries, v.fields, context) else None
    case _ => Extend(context, MatchValue(p, v))
  }

  ghost function ElementsWith(patterns: seq<Pattern>, items: seq<FieldValue>, context: FieldBindings): Match
    requires |patterns| == |items|
    decreases patterns, 1
  {
    if patterns == [] then Some(context)
    else
      match MatchWith(patterns[0], items[0], context)
      case None => None
      case Some(b) => ElementsWith(patterns[1..], items[1..], b)
  }

  ghost function EntriesWith(entries: Fields, m: FieldMap, context: FieldBindings): Match
    decreases entries, 1
  {
    if entries == [] then Some(context)
    else if entries[0].key !in m then None
    else
      match MatchWith(entries[0].pattern, m[entries[0].key], context)
      case None => None
      case Some(b) => EntriesWith(entries[1..], m, b)
  }

  ghost function FieldsWith(fields: Fields, event: FieldMap, context: FieldBindings): Match
    decreases fields
  {
    if fields == [] then Some(context)
    else if fields[0].key !in event then
      if IsGlobal(fields[0].pattern) then FieldsWith(fields[1..], event, context) else None
    else
      match MatchWith(fields[0].pattern, event[fields[0].key], context)
      case None => None
      case Some(b) => FieldsWith(fields[1..], event, b)
  }

  ghost predicate Pinned(fields: Fields) {
    exists i | 0 <= i < |fields| :: HasPin(fields[i].pattern)
  }

  // Without pins the context makes no difference.

  lemma {:induction false} PinFreeMatch(p: Pattern, v: FieldValue, context: FieldBindings)
    requires !HasPin(p)
    ensures MatchWith(p, v, context) == Extend(context, MatchValue(p, v))
    decreases p, 0
  {
    match p {
      case ListOf(HeadTail(head, tail)) =>
        if v.List? && v.items != [] {
          var first, rest := MatchValue(head, v.items[0]), List(v.items[1..]);
          PinFreeMatch(head, v.items[0], context);
          if first.Some? {
            PinFreeMatch(tail, rest, context + first.value);
            ExtendTwice(context, first.value, MatchValue(tail, rest));
          }
        }
      case ListOf(Elements(patterns)) =>
        if v.List? && |patterns| == |v.items| { PinFreeElements(patterns, v.items, context); }
      case MapOf(entries) =>
        if v.Map? { PinFreeEntries(entries, v.fields, context); }
      case _ =>
    }
  }

  lemma {:induction false} PinFreeElements(patterns: seq<Pattern>, items: seq<FieldValue>, context: FieldBindings)
    requires |patterns| == |items| && forall i | 0 <= i < |patterns| :: !HasPin(patterns[i])
    ensures ElementsWith(patterns, items, context) == Extend(context, MatchElements(patterns, items))
    decreases patterns, 1
  {
    if patterns == [] {
      ExtendByNothing(context);
    } else {
      var first := MatchValue(patterns[0], items[0]);
      PinFreeMatch(patterns[0], items[0], context);
      if first.Some? {
        PinFreeElements(patterns[1..], items[1..], context + first.value);
        ExtendTwice(context, first.value, MatchElements(patterns[1..], items[1..]));
      }
    }
  }

  lemma {:induction false} PinFreeEntries(entries: Fields, m: FieldMap, context: FieldBindings)
    requires forall i | 0 <= i < |entries| :: !HasPin(entries[i].pattern)
    ensures EntriesWith(entries, m, context) == Extend(context, MatchEntries(entries, m))
    decreases entries, 1
  {
    if entries == [] {
      ExtendByNothing(context);
    } else if entries[0].key in m {
      var first := MatchValue(entries[0].pattern, m[entries[0].key]);
      PinFreeMatch(entries[0].pattern, m[entries[0].key], context);
      if first.Some? {
        PinFreeEntries(entries[1..], m, context + first.value);
        ExtendTwice(context, first.value, MatchEntries(entries[1..], m));
      }
    }
  }

  lemma {:induction false} PinFreePolicy(fields: Fields, event: FieldMap, context: FieldBindings)
    requires !Pinned(fields)
    ensures FieldsWith(fields, event, context) == Extend(context, MatchFields(fields, event))
  {
    if fields == [] {
      ExtendByNothing(context);
    } else {
      var rest := fields[1..];
      assert forall i | 0 <= i < |rest| :: rest[i] == fields[i + 1];
      if fields[0].key !in event {
        PinFreePolicy(rest, event, context);
      } else {
        var first := MatchValue(fields[0].pattern, event[fields[0].key]);
        PinFreeMatch(fields[0].pattern, event[fields[0].key], context);
        if first.Some? {
          PinFreePolicy(rest, event, context + first.value);
          ExtendTwice(context, first.value, MatchFields(rest, event));
        }
      }
    }
  }

  /**
   The matcher of policies does what README.md:43 says, with the same bindings, exactly when the policy has no
   pin or the event is no match in that reading either.
   */
  lemma PinsAgreeIff(fields: Fields, event: FieldMap)
    ensures MatchFields(fields, event) == FieldsWith(fields, event, map[])
      <==> !Pinned(fields) || FieldsWith(fields, event, map[]).None?
  {
    if Pinned(fields) {
      PinnedPolicyIsDead(fields, event);
    } else {
      PinFreePolicy(fields, event, map[]);
      ExtendNothing(MatchFields(fields, event));
    }
  }

  /** Equal values under two keys, the second pinned to the first: an event the documentation has in mind. */
  lemma PinIsLost(a: string, b: string, x: string, v: FieldValue, w: FieldValue)
    requires a != b && Equals(v, w)
    ensures var fields, event := [Field(a, Variable(x)), Field(b, Pin(x))], map[a := v, b := w];
      FieldsWith(fields, event, map[]) == Some(map[x := v]) && MatchFields(fields, event) == None
  {
    var fields, event := [Field(a, Variable(x)), Field(b, Pin(x))], map[a := v, b := w];
    assert HasPin(fields[1].pattern);
    PinnedPolicyIsDead(fields, event);
    var bound: FieldBindings := map[x := v];
    assert fields[1..] == [fields[1]] && fields[1..][1..] == [];
    assert map[] + bound == bound && FieldsWith(fields[1..], event, bound) == FieldsWith([], event, bound);
  }

  /** `match_field_value_with_context`: the context is looked up for a pin that is the whole pattern. */
  ghost function MatchInContext(p: Pattern, v: FieldValue, context: FieldBindings): Match {
    match p
    case Pin(name) => if name in context && Equals(context[name], v) then Some(map[]) else None
    case _ => MatchValue(p, v)
  }

  /** So the lookup serves pins at the top, and loses those inside lists and maps. */
  lemma InContextIff(p: Pattern, v: FieldValue, context: FieldBindings)
    ensures Extend(context, MatchInContext(p, v, context)) == MatchWith(p, v, context)
      <==> p.Pin? || !HasPin(p) || MatchWith(p, v, context).None?
  {
    if p.Pin? {
      ExtendByNothing(context);
    } else if HasPin(p) {
      PinMatchesNothing(p, v);
    } else {
      PinFreeMatch(p, v, context);
    }
  }
}
