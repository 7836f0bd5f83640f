/** Where a text is at its top level (`find_pipe` and `split_top_level` of `crates/luaml/src/pattern.rs`). */
module TopLevel {
  // Said by positions: how many brackets are open and which quote is, before each character.

  import opened Wrappers
  import opened PatternParser

  /** Opened minus closed brackets among the first `i` characters, those within quotes included. */
  function Level(s: string, i: nat): int
    requires i <= |s|
  {
    if i == 0 then 0
    else Level(s, i - 1) + if Opens(s[i - 1]) then 1 else if Closes(s[i - 1]) then -1 else 0
  }

  ghost predicate TopPipe(s: string, i: nat) {
    i < |s| && s[i] == '|' && Level(s, i) == 0
  }

  ghost predicate FirstPipe(s: string, i: nat) {
    TopPipe(s, i) && forall j | 0 <= j < i :: !TopPipe(s, j)
  }

  lemma {:induction false} PipesFrom(s: string, k: nat)
    requires k <= |s|
    ensures match PipeFrom(s[k..], Level(s, k))
      case Some(j) => TopPipe(s, k + j) && forall m | k <= m < k + j :: !TopPipe(s, m)
      case None => forall m | k <= m < |s| :: !TopPipe(s, m)
    decreases |s| - k
  {
    if k < |s| {
      PipesFrom(s, k + 1);
      assert s[k..][1..] == s[k + 1..];
    }
  }

  /** The pipe finder stops at the first pipe that no bracket encloses. */
  lemma PipeIff(s: string, i: nat)
    ensures PipeFrom(s, 0) == Some(i) <==> FirstPipe(s, i)
    ensures PipeFrom(s, 0) == None <==> forall j :: !TopPipe(s, j)
  {
    PipesFrom(s, 0);
    assert s[0..] == s;
  }

  /** The quote that is open before character `i`. */
  function QuoteAt(s: string, i: nat): Option<char>
    requires i <= |s|
  {
    if i == 0 then None
    else
      var quote, c := QuoteAt(s, i - 1), s[i - 1];
      if quote.None? then if IsQuote(c) then Some(c) else None
      else if c == quote.value then None else quote
  }

  /** Opened minus closed brackets among the first `i` characters, those within quotes left out. */
  function Nesting(s: string, i: nat): int
    requires i <= |s|
  {
    if i == 0 then 0
    else
      Nesting(s, i - 1) +
      if QuoteAt(s, i - 1).Some? then 0 else if Opens(s[i - 1]) then 1 else if Closes(s[i - 1]) then -1 else 0
  }

  ghost predicate TopComma(s: string, i: nat) {
    i < |s| && s[i] == ',' && QuoteAt(s, i).None? && Nesting(s, i) == 0
  }

  /** Positions in `s` that rise, from `start` on. */
  predicate Rising(s: string, start: nat, cuts: seq<nat>)
    decreases |cuts|
  {
    start <= |s| && (cuts == [] || (start <= cuts[0] < |s| && Rising(s, cuts[0] + 1, cuts[1..])))
  }

  /** The pieces between the cuts; a last piece that is empty is left out. */
  function PiecesAt(s: string, start: nat, cuts: seq<nat>): seq<string>
    requires Rising(s, start, cuts)
    decreases |cuts|
  {
    if cuts == [] then if start == |s| then [] else [s[start..]]
    else [s[start..cuts[0]]] + PiecesAt(s, cuts[0] + 1, cuts[1..])
  }

  /** The positions of the commas that neither brackets nor quotes enclose. */
  ghost predicate TopCuts(s: string, cuts: seq<nat>) {
    Rising(s, 0, cuts) && forall i: nat :: i in cuts <==> TopComma(s, i)
  }

  lemma {:induction false} RisingFrom(s: string, start: nat, cuts: seq<nat>)
    requires Rising(s, start, cuts)
    ensures forall c | c in cuts :: start <= c < |s|
    decreases |cuts|
  {
    if cuts != [] {
      RisingFrom(s, cuts[0] + 1, cuts[1..]);
      assert cuts == [cuts[0]] + cuts[1..];
    }
  }

  lemma FirstIsIn(cuts: seq<nat>)
    requires cuts != []
    ensures exists i: nat :: i in cuts
  {
    assert cuts[0] in cuts;
  }

  lemma {:induction false} RisingIsUnique(s: string, start: nat, a: seq<nat>, b: seq<nat>)
    requires Rising(s, start, a) && Rising(s, start, b) && forall i: nat :: i in a <==> i in b
    ensures a == b
    decreases |a|
  {
    RisingFrom(s, start, a);
    RisingFrom(s, start, b);
    if a == [] {
      if b != [] { FirstIsIn(b); }
    } else {
      assert a[0] in b && b[0] in a;
      RisingFrom(s, a[0] + 1, a[1..]);
      RisingFrom(s, b[0] + 1, b[1..]);
      assert a == [a[0]] + a[1..] && b == [b[0]] + b[1..];
      assert forall i: nat :: i in a[1..] <==> i in a && i != a[0];
      assert forall i: nat :: i in b[1..] <==> i in b && i != b[0];
      RisingIsUnique(s, a[0] + 1, a[1..], b[1..]);
    }
  }

  lemma SplitStep(s: string, start: nat, i: nat)
    requires start <= i < |s|
    ensures Split(s[i..], Nesting(s, i), QuoteAt(s, i), s[start..i]) ==
      if TopComma(s, i) then [s[start..i]] + Split(s[i + 1..], Nesting(s, i + 1), QuoteAt(s, i + 1), [])
      else Split(s[i + 1..], Nesting(s, i + 1), QuoteAt(s, i + 1), s[start..i + 1])
  {
    assert s[i..][0] == s[i] && s[i..][1..] == s[i + 1..];
    assert s[start..i] + [s[i]] == s[start..i + 1];
  }

  /** The splitter's state after `i` characters, the current piece having begun at `start`. */
  lemma {:induction false} SplitFrom(s: string, start: nat, i: nat) returns (cuts: seq<nat>)
    requires start <= i <= |s|
    ensures Rising(s, start, cuts) && forall c: nat :: c in cuts <==> i <= c && TopComma(s, c)
    ensures Split(s[i..], Nesting(s, i), QuoteAt(s, i), s[start..i]) == PiecesAt(s, start, cuts)
    decreases |s| - i
  {
    if i == |s| {
      cuts := [];
      assert s[start..i] == s[start..];
    } else {
      SplitStep(s, start, i);
      hide Split, Nesting, QuoteAt;
      if TopComma(s, i) {
        var rest := SplitFrom(s, i + 1, i + 1);
        cuts := [i] + rest;
        assert cuts[1..] == rest && s[i + 1..i + 1] == [];
      } else {
        cuts := SplitFrom(s, start, i + 1);
      }
    }
  }

  /** Splitting a text cuts it at exactly its top-level commas. */
  lemma SplitIff(s: string, cuts: seq<nat>)
    requires TopCuts(s, cuts)
    ensures Split(s, 0, None, []) == PiecesAt(s, 0, cuts)
  {
    var found := CutsExist(s);
    RisingIsUnique(s, 0, found, cuts);
  }

  lemma CutsExist(s: string) returns (cuts: seq<nat>)
    ensures TopCuts(s, cuts) && Split(s, 0, None, []) == PiecesAt(s, 0, cuts)
  {
    cuts := SplitFrom(s, 0, 0);
    assert s[0..] == s && s[0..0] == [];
  }
}
