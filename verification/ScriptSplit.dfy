/** Cutting the lines of a script into clauses (`crates/luaml/src/parser.rs`). */
module ScriptSplit {
  import opened Wrappers
  import opened PatternParser

  const FENCE := "---"

  /** How many lines come before the first fence; all of them if there is none. */
  function FenceIn(lines: seq<string>): (n: nat)
    ensures n <= |lines|
  {
    if lines == [] || lines[0] == FENCE then 0 else 1 + FenceIn(lines[1..])
  }

  method FindFence(lines: seq<string>, from: nat) returns (n: nat)
    requires from <= |lines|
    ensures n == from + FenceIn(lines[from..])
  {
    n := from;
    while n < |lines| && lines[n] != FENCE
      invariant from <= n <= |lines| && n + FenceIn(lines[n..]) == from + FenceIn(lines[from..])
    {
      assert lines[n..][1..] == lines[n + 1..];
      n := n + 1;
    }
  }

  lemma {:induction false} FenceInIs(lines: seq<string>)
    ensures forall k | 0 <= k < FenceIn(lines) :: lines[k] != FENCE
    ensures FenceIn(lines) < |lines| ==> lines[FenceIn(lines)] == FENCE
  {
    if lines != [] && lines[0] != FENCE {
      FenceInIs(lines[1..]);
    }
  }

  predicate LooksLikeFrontmatter(u: Unicode, lines: seq<string>) {
    lines != [] &&
    var trimmed := Trim(u, lines[0]);
    if trimmed == [] then LooksLikeFrontmatter(u, lines[1..])
    else ':' in trimmed || trimmed[0] == '?' || trimmed[0] == '@'
  }

  method CheckFrontmatter(u: Unicode, lines: seq<string>) returns (yes: bool)
    ensures yes <==> LooksLikeFrontmatter(u, lines)
  {
    assert lines[0..] == lines;
    for i := 0 to |lines|
      invariant LooksLikeFrontmatter(u, lines[i..]) <==> LooksLikeFrontmatter(u, lines)
    {
      assert lines[i..][1..] == lines[i + 1..];
      var trimmed := Trim(u, lines[i]);
      if trimmed == [] {
        continue;
      }
      return ':' in trimmed || trimmed[0] == '?' || trimmed[0] == '@';
    }
    return false;
  }

  /** A closed block that looks like frontmatter opens at the first line. */
  predicate StartsBlock(u: Unicode, lines: seq<string>) {
    && lines != []
    && lines[0] == FENCE
    && FenceIn(lines[1..]) < |lines| - 1
    && LooksLikeFrontmatter(u, lines[1..1 + FenceIn(lines[1..])])
  }

  /** The line that closes a block opened at line `b`. */
  function CloseOf(lines: seq<string>, b: nat): (c: nat)
    requires b < |lines|
    ensures b < c <= |lines|
  {
    b + 1 + FenceIn(lines[b + 1..])
  }

  /** Where blocks open, from line `i` on. */
  function Boundaries(u: Unicode, lines: seq<string>, i: nat): seq<nat>
    decreases |lines| - i
  {
    if i >= |lines| then []
    else if StartsBlock(u, lines[i..]) then [i] + Boundaries(u, lines, CloseOf(lines, i) + 1)
    else Boundaries(u, lines, i + 1)
  }

  lemma StartsBlockAt(u: Unicode, lines: seq<string>, i: nat)
    requires i < |lines|
    ensures StartsBlock(u, lines[i..]) <==>
      lines[i] == FENCE && CloseOf(lines, i) < |lines| && LooksLikeFrontmatter(u, lines[i + 1..CloseOf(lines, i)])
  {
    var rest := lines[i..];
    assert rest[1..] == lines[i + 1..];
    var n := FenceIn(lines[i + 1..]);
    assert rest[1..1 + n] == lines[i + 1..i + 1 + n];
  }

  /** The closing fence of the block that opens at line `i`, if one does. */
  method FindBlock(u: Unicode, lines: seq<string>, i: nat) returns (close: Option<nat>)
    requires i < |lines|
    ensures close == if StartsBlock(u, lines[i..]) then Some(CloseOf(lines, i)) else None
  {
    StartsBlockAt(u, lines, i);
    close := None;
    if lines[i] == FENCE {
      var at := FindFence(lines, i + 1);
      if at < |lines| {
        var yes := CheckFrontmatter(u, lines[i + 1..at]);
        if yes {
          close := Some(at);
        }
      }
    }
  }

  method FindClauseBoundaries(u: Unicode, lines: seq<string>) returns (boundaries: seq<nat>)
    ensures boundaries == Boundaries(u, lines, 0)
  {
    hide StartsBlock, FenceIn;
    boundaries := [];
    var i := 0;
    while i < |lines|
      invariant boundaries + Boundaries(u, lines, i) == Boundaries(u, lines, 0)
      decreases |lines| - i
    {
      var close := FindBlock(u, lines, i);
      if close.Some? {
        ghost var rest := Boundaries(u, lines, close.value + 1);
        assert boundaries + ([i] + rest) == (boundaries + [i]) + rest;
        boundaries := boundaries + [i];
        i := close.value + 1;
      } else {
        i := i + 1;
      }
    }
  }

  lemma {:induction false} BoundariesFrom(u: Unicode, lines: seq<string>, i: nat)
    ensures forall b | b in Boundaries(u, lines, i) :: i <= b < |lines|
    decreases |lines| - i
  {
    if i < |lines| {
      if StartsBlock(u, lines[i..]) {
        BoundariesFrom(u, lines, CloseOf(lines, i) + 1);
      } else {
        BoundariesFrom(u, lines, i + 1);
      }
    }
  }

  /** Line `j` is the closing fence of one of the blocks. */
  ghost predicate IsClosing(lines: seq<string>, boundaries: seq<nat>, j: nat) {
    exists k | 0 <= k < |boundaries| :: boundaries[k] < |lines| && CloseOf(lines, boundaries[k]) == j
  }

  /**
   The boundaries are exactly the lines that start a block and do not close an earlier one: none is
   missed and none is made up.
   */
  lemma {:induction false} BoundaryIff(u: Unicode, lines: seq<string>, i: nat, j: nat)
    requires i <= j < |lines|
    ensures j in Boundaries(u, lines, i) <==>
      StartsBlock(u, lines[j..]) && !IsClosing(lines, Boundaries(u, lines, i), j)
    decreases |lines| - i
  {
    hide StartsBlock, FenceIn;
    var boundaries := Boundaries(u, lines, i);
    BoundariesFrom(u, lines, i);
    if StartsBlock(u, lines[i..]) {
      StartsBlockAt(u, lines, i);
      var close := CloseOf(lines, i);
      var rest := Boundaries(u, lines, close + 1);
      BoundariesFrom(u, lines, close + 1);
      assert boundaries[0] == i && boundaries[1..] == rest;
      if j <= close {
        InsideBlock(u, lines, i, j);
        assert IsClosing(lines, boundaries, close);
        assert j !in rest;
      } else {
        BoundaryIff(u, lines, close + 1, j);
        ClosesOneMore(lines, boundaries, j);
      }
    } else {
      BoundariesFrom(u, lines, i + 1);
      if j > i {
        BoundaryIff(u, lines, i + 1, j);
      }
    }
  }

  lemma ClosesOneMore(lines: seq<string>, boundaries: seq<nat>, j: nat)
    requires boundaries != [] && boundaries[0] < |lines| && CloseOf(lines, boundaries[0]) != j
    ensures IsClosing(lines, boundaries, j) <==> IsClosing(lines, boundaries[1..], j)
  {
    if IsClosing(lines, boundaries, j) {
      var k :| 0 <= k < |boundaries| && boundaries[k] < |lines| && CloseOf(lines, boundaries[k]) == j;
      assert boundaries[1..][k - 1] == boundaries[k];
    }
    if IsClosing(lines, boundaries[1..], j) {
      var k :| 0 <= k < |boundaries[1..]| && boundaries[1..][k] < |lines| && CloseOf(lines, boundaries[1..][k]) == j;
      assert boundaries[k + 1] == boundaries[1..][k];
    }
  }

  /** Between its fences a block has no fence, so nothing starts there; nothing starts before its first line closes. */
  lemma InsideBlock(u: Unicode, lines: seq<string>, i: nat, j: nat)
    requires i < |lines| && StartsBlock(u, lines[i..]) && i <= j <= CloseOf(lines, i) < |lines|
    ensures i < j < CloseOf(lines, i) ==> !StartsBlock(u, lines[j..])
    ensures forall k | 0 <= k < |Boundaries(u, lines, i)| ::
      Boundaries(u, lines, i)[k] < |lines| && CloseOf(lines, Boundaries(u, lines, i)[k]) >= CloseOf(lines, i)
  {
    FenceInIs(lines[i + 1..]);
    if i < j < CloseOf(lines, i) {
      assert lines[i + 1..][j - i - 1] == lines[j];
    }
    BoundariesFrom(u, lines, CloseOf(lines, i) + 1);
    var boundaries, rest := Boundaries(u, lines, i), Boundaries(u, lines, CloseOf(lines, i) + 1);
    assert boundaries == [i] + rest;
    forall k | 0 <= k < |boundaries|
      ensures boundaries[k] < |lines| && CloseOf(lines, boundaries[k]) >= CloseOf(lines, i)
    {
      if k > 0 {
        assert boundaries[k] == rest[k - 1] && rest[k - 1] in rest;
      }
    }
  }

  /** Every block is closed, and before the next one opens. */
  ghost predicate Disjoint(lines: seq<string>, boundaries: seq<nat>) {
    && (forall k | 0 <= k < |boundaries| :: boundaries[k] < |lines| && CloseOf(lines, boundaries[k]) < |lines|)
    && (forall k | 0 <= k < |boundaries| - 1 :: CloseOf(lines, boundaries[k]) < boundaries[k + 1])
  }

  lemma {:induction false} BoundariesDisjoint(u: Unicode, lines: seq<string>, i: nat)
    ensures Disjoint(lines, Boundaries(u, lines, i))
    decreases |lines| - i
  {
    if i < |lines| {
      StartsBlockAt(u, lines, i);
      if StartsBlock(u, lines[i..]) {
        var rest := Boundaries(u, lines, CloseOf(lines, i) + 1);
        BoundariesDisjoint(u, lines, CloseOf(lines, i) + 1);
        BoundariesFrom(u, lines, CloseOf(lines, i) + 1);
        DisjointCons(lines, i, rest);
      } else {
        BoundariesDisjoint(u, lines, i + 1);
      }
    }
  }

  lemma DisjointCons(lines: seq<string>, b: nat, rest: seq<nat>)
    requires b < |lines| && CloseOf(lines, b) < |lines| && Disjoint(lines, rest)
    requires forall c | c in rest :: CloseOf(lines, b) < c
    ensures Disjoint(lines, [b] + rest)
  {
    var all := [b] + rest;
    forall k | 0 <= k < |all| ensures all[k] < |lines| && CloseOf(lines, all[k]) < |lines| {
      assert k > 0 ==> all[k] == rest[k - 1];
    }
    forall k | 0 <= k < |all| - 1 ensures CloseOf(lines, all[k]) < all[k + 1] {
      assert all[k + 1] == rest[k] && rest[k] in rest;
      assert k > 0 ==> all[k] == rest[k - 1];
    }
  }

  // The same cut, without positions.

  /** A further clause: the lines between its fences and the lines after them. */
  datatype Section = Section(block: seq<string>, body: seq<string>)

  datatype Parts = Parts(first: seq<string>, sections: seq<Section>)

  function Cut(u: Unicode, lines: seq<string>): Parts {
    if lines == [] then Parts([], [])
    else if StartsBlock(u, lines) then
      var n := FenceIn(lines[1..]);
      var rest := Cut(u, lines[n + 2..]);
      Parts([], [Section(lines[1..1 + n], rest.first)] + rest.sections)
    else
      var rest := Cut(u, lines[1..]);
      rest.(first := [lines[0]] + rest.first)
  }

  function Assembled(sections: seq<Section>): seq<string> {
    if sections == [] then []
    else
      var rest := sections[0].body + Assembled(sections[1..]);
      [FENCE] + (sections[0].block + ([FENCE] + rest))
  }

  function Assemble(parts: Parts): seq<string> {
    parts.first + Assembled(parts.sections)
  }

  lemma BlockLines(u: Unicode, lines: seq<string>)
    requires StartsBlock(u, lines)
    ensures var n := FenceIn(lines[1..]);
      lines == [FENCE] + (lines[1..1 + n] + ([FENCE] + lines[n + 2..]))
  {
    var n := FenceIn(lines[1..]);
    FenceInIs(lines[1..]);
    assert lines[1..][n] == lines[n + 1];
  }

  lemma AssembledCons(s: Section, sections: seq<Section>)
    ensures Assembled([s] + sections) == [FENCE] + (s.block + ([FENCE] + (s.body + Assembled(sections))))
  {
    assert ([s] + sections)[1..] == sections;
  }

  /** No line is lost, added or moved: bodies, fences and blocks in order are the lines. */
  lemma {:induction false} CutConserves(u: Unicode, lines: seq<string>)
    ensures Assemble(Cut(u, lines)) == lines
  {
    if lines == [] {
    } else if StartsBlock(u, lines) {
      var n := FenceIn(lines[1..]);
      var rest := Cut(u, lines[n + 2..]);
      CutConserves(u, lines[n + 2..]);
      BlockLines(u, lines);
      AssembledCons(Section(lines[1..1 + n], rest.first), rest.sections);
    } else {
      var rest := Cut(u, lines[1..]);
      CutConserves(u, lines[1..]);
      assert [lines[0]] + rest.first + Assembled(rest.sections) == [lines[0]] + (rest.first + Assembled(rest.sections));
    }
  }

  ghost predicate FenceFree(lines: seq<string>) {
    forall i | 0 <= i < |lines| :: lines[i] != FENCE
  }

  /** No block opens within the body when the other lines follow it. */
  ghost predicate Undisturbed(u: Unicode, body: seq<string>, rest: seq<string>) {
    forall i | 0 <= i < |body| :: !StartsBlock(u, body[i..] + rest)
  }

  /** Blocks are frontmatter without fences, and no block opens within a body; a body may well hold fences. */
  ghost predicate Clean(u: Unicode, parts: Parts)
    decreases |parts.sections|
  {
    && Undisturbed(u, parts.first, Assembled(parts.sections))
    && (parts.sections != [] ==>
          var s := parts.sections[0];
          FenceFree(s.block) && LooksLikeFrontmatter(u, s.block) && Clean(u, Parts(s.body, parts.sections[1..])))
  }

  lemma {:induction false} FenceAfter(a: seq<string>, rest: seq<string>)
    requires FenceFree(a)
    ensures FenceIn(a + ([FENCE] + rest)) == |a|
  {
    var lines := a + ([FENCE] + rest);
    if a != [] {
      FenceAfter(a[1..], rest);
      assert lines[1..] == a[1..] + ([FENCE] + rest);
    }
  }

  /** A body in which no block opens stays in one piece. */
  lemma {:induction false} CutBody(u: Unicode, body: seq<string>, rest: seq<string>)
    requires Undisturbed(u, body, rest)
    ensures Cut(u, body + rest) == Cut(u, rest).(first := body + Cut(u, rest).first)
  {
    hide StartsBlock;
    if body == [] {
      assert body + rest == rest;
      assert body + Cut(u, rest).first == Cut(u, rest).first;
    } else {
      forall i | 0 <= i < |body[1..]| ensures !StartsBlock(u, body[1..][i..] + rest) {
        assert body[1..][i..] == body[i + 1..];
      }
      CutBody(u, body[1..], rest);
      assert body[0..] == body && (body + rest)[1..] == body[1..] + rest;
      assert body + Cut(u, rest).first == [body[0]] + (body[1..] + Cut(u, rest).first);
    }
  }

  lemma CutBlock(u: Unicode, block: seq<string>, rest: seq<string>)
    requires FenceFree(block) && LooksLikeFrontmatter(u, block)
    ensures Cut(u, [FENCE] + (block + ([FENCE] + rest)))
         == Parts([], [Section(block, Cut(u, rest).first)] + Cut(u, rest).sections)
  {
    var lines := [FENCE] + (block + ([FENCE] + rest));
    FenceAfter(block, rest);
    assert lines[1..] == block + ([FENCE] + rest);
    assert lines[1..1 + |block|] == block && lines[|block| + 2..] == rest;
  }

  lemma {:induction false} CleanIsCut(u: Unicode, parts: Parts)
    requires Clean(u, parts)
    ensures Cut(u, Assemble(parts)) == parts
    decreases |parts.sections|
  {
    hide StartsBlock, Undisturbed, Cut;
    var sections := parts.sections;
    CutBody(u, parts.first, Assembled(sections));
    if sections == [] {
      CutNothing(u);
      assert parts.first + [] == parts.first;
    } else {
      var s := sections[0];
      var later := Parts(s.body, sections[1..]);
      CleanIsCut(u, later);
      CutBlock(u, s.block, Assemble(later));
      assert [s] + sections[1..] == sections && parts.first + [] == parts.first;
    }
  }

  /** The first body of a cut ends where a block opens, and the rest is cut as it stands. */
  lemma {:induction false} CutAfterFirst(u: Unicode, lines: seq<string>)
    ensures var parts := Cut(u, lines);
      && parts.first <= lines
      && (forall i | 0 <= i < |parts.first| :: !StartsBlock(u, lines[i..]))
      && Cut(u, lines[|parts.first|..]) == Parts([], parts.sections)
  {
    if lines != [] && !StartsBlock(u, lines) {
      hide StartsBlock;
      CutAfterFirst(u, lines[1..]);
      var rest := Cut(u, lines[1..]);
      assert Cut(u, lines) == rest.(first := [lines[0]] + rest.first);
      assert lines[1..][|rest.first|..] == lines[|rest.first| + 1..];
      forall i | 0 <= i <= |rest.first| ensures !StartsBlock(u, lines[i..]) {
        if i == 0 { assert lines[0..] == lines; } else { assert lines[1..][i - 1..] == lines[i..]; }
      }
    } else {
      assert lines[0..] == lines;
    }
  }

  /** Lines that are cut into a block first, as they are assembled. */
  lemma CutOpens(u: Unicode, s: Section, sections: seq<Section>)
    requires Cut(u, Assembled([s] + sections)) == Parts([], [s] + sections)
    ensures FenceFree(s.block) && LooksLikeFrontmatter(u, s.block)
    ensures Cut(u, Assemble(Parts(s.body, sections))) == Parts(s.body, sections)
  {
    hide LooksLikeFrontmatter;
    var lines, rest := Assembled([s] + sections), Assemble(Parts(s.body, sections));
    AssembledCons(s, sections);
    var n := FenceIn(lines[1..]);
    FenceInIs(lines[1..]);
    assert StartsBlock(u, lines);
    var cut := Cut(u, lines[n + 2..]);
    assert Parts([], [s] + sections) == Parts([], [Section(lines[1..1 + n], cut.first)] + cut.sections);
    assert ([s] + sections)[0] == s && ([s] + sections)[1..] == sections;
    assert ([Section(lines[1..1 + n], cut.first)] + cut.sections)[1..] == cut.sections;
    assert forall i | 0 <= i < n :: s.block[i] == lines[1..][i];
    assert lines == [FENCE] + s.block + [FENCE] + rest;
    assert lines[n + 2..] == rest;
  }

  lemma {:induction false} CutIsClean(u: Unicode, parts: Parts)
    requires Cut(u, Assemble(parts)) == parts
    ensures Clean(u, parts)
    decreases |parts.sections|
  {
    hide StartsBlock, Cut, Assembled;
    var lines, rest := Assemble(parts), Assembled(parts.sections);
    CutAfterFirst(u, lines);
    assert lines[|parts.first|..] == rest;
    forall i | 0 <= i < |parts.first| ensures !StartsBlock(u, parts.first[i..] + rest) {
      assert lines[i..] == parts.first[i..] + rest;
    }
    if parts.sections != [] {
      var s, later := parts.sections[0], parts.sections[1..];
      assert [s] + later == parts.sections;
      CutOpens(u, s, later);
      CutIsClean(u, Parts(s.body, later));
    }
  }

  /** Cutting undoes assembling exactly when each block is closed frontmatter and no body opens one. */
  lemma CutUndoesAssemble(u: Unicode, parts: Parts)
    ensures Cut(u, Assemble(parts)) == parts <==> Clean(u, parts)
  {
    if Clean(u, parts) { CleanIsCut(u, parts); }
    if Cut(u, Assemble(parts)) == parts { CutIsClean(u, parts); }
  }

  /** Without a fence no block opens. */
  lemma FenceFreeIsUndisturbed(u: Unicode, body: seq<string>, rest: seq<string>)
    requires FenceFree(body)
    ensures Undisturbed(u, body, rest)
  {
    forall i | 0 <= i < |body| ensures !StartsBlock(u, body[i..] + rest) {
      assert (body[i..] + rest)[0] == body[i];
    }
  }

  // The positions and the parts agree.

  /** Where the lines before the `k`-th block end: where it opens, or at the last line if there is none. */
  function EndOfBody(lines: seq<string>, boundaries: seq<nat>, k: nat): nat {
    if k < |boundaries| then boundaries[k] else |lines|
  }

  lemma CutAtBlock(u: Unicode, lines: seq<string>, i: nat)
    requires i < |lines| && StartsBlock(u, lines[i..]) && CloseOf(lines, i) < |lines|
    ensures var close := CloseOf(lines, i);
      var rest := Cut(u, lines[close + 1..]);
      Cut(u, lines[i..]) == Parts([], [Section(lines[i + 1..close], rest.first)] + rest.sections)
  {
    var rest, close := lines[i..], CloseOf(lines, i);
    assert rest[1..] == lines[i + 1..];
    assert rest[1..close - i] == lines[i + 1..close] && rest[close - i + 1..] == lines[close + 1..];
  }

  lemma CutAtLine(u: Unicode, lines: seq<string>, i: nat)
    requires i < |lines| && !StartsBlock(u, lines[i..])
    ensures var rest := Cut(u, lines[i + 1..]);
      Cut(u, lines[i..]) == rest.(first := [lines[i]] + rest.first)
  {
    assert lines[i..][1..] == lines[i + 1..];
  }

  lemma CutNothing(u: Unicode)
    ensures Cut(u, []) == Parts([], [])
  {
  }

  /** The first body is the slice up to the first boundary, and there is a section for each boundary. */
  lemma {:induction false} CutFirstSlice(u: Unicode, lines: seq<string>, i: nat)
    requires i <= |lines|
    ensures var boundaries := Boundaries(u, lines, i);
      && |Cut(u, lines[i..]).sections| == |boundaries|
      && i <= EndOfBody(lines, boundaries, 0) <= |lines|
      && Cut(u, lines[i..]).first == lines[i..EndOfBody(lines, boundaries, 0)]
    decreases |lines| - i
  {
    hide StartsBlock, Cut;
    BoundariesFrom(u, lines, i);
    if i == |lines| {
      assert lines[i..] == [];
      CutNothing(u);
    } else {
      StartsBlockAt(u, lines, i);
      if StartsBlock(u, lines[i..]) {
        CutFirstSlice(u, lines, CloseOf(lines, i) + 1);
        CutAtBlock(u, lines, i);
      } else {
        CutFirstSlice(u, lines, i + 1);
        CutAtLine(u, lines, i);
        var end := EndOfBody(lines, Boundaries(u, lines, i), 0);
        assert [lines[i]] + lines[i + 1..end] == lines[i..end];
      }
    }
  }

  /** Slicing at the boundaries cuts the lines as the recursive cut does. */
  lemma {:induction false} CutIsSlices(u: Unicode, lines: seq<string>, i: nat, k: nat)
    requires i <= |lines| && k < |Boundaries(u, lines, i)|
    ensures |Cut(u, lines[i..]).sections| == |Boundaries(u, lines, i)|
    ensures var b, end := Boundaries(u, lines, i)[k], EndOfBody(lines, Boundaries(u, lines, i), k + 1);
      b < |lines| && CloseOf(lines, b) < end <= |lines| &&
      Cut(u, lines[i..]).sections[k] == Section(lines[b + 1..CloseOf(lines, b)], lines[CloseOf(lines, b) + 1..end])
    decreases |lines| - i
  {
    hide StartsBlock, Cut;
    StartsBlockAt(u, lines, i);
    CutFirstSlice(u, lines, i);
    if StartsBlock(u, lines[i..]) {
      var next := CloseOf(lines, i) + 1;
      CutAtBlock(u, lines, i);
      CutFirstSlice(u, lines, next);
      if k > 0 {
        CutIsSlices(u, lines, next, k - 1);
      }
    } else {
      CutIsSlices(u, lines, i + 1, k);
      CutAtLine(u, lines, i);
    }
  }


  // What opens a block, line by line.

  /** Line `i` is the first one that is not blank. */
  ghost predicate FirstWords(u: Unicode, lines: seq<string>, i: nat) {
    i < |lines| && Trim(u, lines[i]) != [] && forall j | 0 <= j < i :: Trim(u, lines[j]) == []
  }

  /** A line that holds a colon, or begins as a guard or an annotation does. */
  ghost predicate Promising(u: Unicode, line: string) {
    ':' in Trim(u, line) || "?" <= Trim(u, line) || "@" <= Trim(u, line)
  }

  /** The first line that is not blank is promising. */
  ghost predicate Tells(u: Unicode, lines: seq<string>, i: nat) {
    FirstWords(u, lines, i) && Promising(u, lines[i])
  }

  ghost predicate Promises(u: Unicode, lines: seq<string>) {
    exists i: nat :: Tells(u, lines, i)
  }

  /** Frontmatter is told by its first line that is not blank. */
  lemma {:induction false} FrontmatterIff(u: Unicode, lines: seq<string>)
    ensures LooksLikeFrontmatter(u, lines) <==> Promises(u, lines)
  {
    hide Trim;
    if lines != [] {
      var rest := lines[1..];
      FrontmatterIff(u, rest);
      if Trim(u, lines[0]) == [] {
        if i: nat :| Tells(u, rest, i) { assert Tells(u, lines, i + 1); }
        if i: nat :| Tells(u, lines, i) { assert Tells(u, rest, i - 1); }
      } else {
        assert Promising(u, lines[0]) <==> Tells(u, lines, 0);
      }
    }
  }

  /** Lines `j` and `c` are fences, no line between them is, and these look like frontmatter. */
  ghost predicate OpensAt(u: Unicode, lines: seq<string>, j: nat, c: nat) {
    && j < c < |lines| && lines[j] == FENCE && lines[c] == FENCE && FenceFree(lines[j + 1..c])
    && Promises(u, lines[j + 1..c])
  }

  /** A block opens at a fence whose next fence closes something that looks like frontmatter, and only there. */
  lemma BlockOpensIff(u: Unicode, lines: seq<string>, j: nat)
    requires j < |lines|
    ensures StartsBlock(u, lines[j..]) <==> exists c: nat :: OpensAt(u, lines, j, c)
    ensures forall c: nat | OpensAt(u, lines, j, c) :: CloseOf(lines, j) == c
  {
    hide StartsBlock, LooksLikeFrontmatter, Promises, FenceIn, FenceFree;
    StartsBlockAt(u, lines, j);
    var close := CloseOf(lines, j);
    forall c: nat | OpensAt(u, lines, j, c) ensures close == c { NextFence(lines, j, c); }
    if close < |lines| {
      FrontmatterIff(u, lines[j + 1..close]);
      NextFence(lines, j, close);
      assert lines[j] == FENCE && Promises(u, lines[j + 1..close]) ==> OpensAt(u, lines, j, close);
    }
  }

  /** The block opened at line `j` closes at `c` exactly when `c` is the first fence after it. */
  lemma NextFence(lines: seq<string>, j: nat, c: nat)
    requires j < c < |lines|
    ensures CloseOf(lines, j) == c <==> lines[c] == FENCE && FenceFree(lines[j + 1..c])
  {
    var rest, block := lines[j + 1..], lines[j + 1..c];
    FenceInIs(rest);
    assert rest[c - j - 1] == lines[c];
    if CloseOf(lines, j) == c {
      forall k | 0 <= k < |block| ensures block[k] != FENCE { assert block[k] == rest[k]; }
    }
    if lines[c] == FENCE && FenceFree(block) {
      FenceAfter(block, lines[c + 1..]);
      assert rest == block + ([FENCE] + lines[c + 1..]);
    }
  }
}
