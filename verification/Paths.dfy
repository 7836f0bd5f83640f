/** Lexical paths on Unix (`crates/luaml/src/stdlib/path.rs`). */
module Paths {
  datatype Component = RootDir | CurDir | ParentDir | Name(name: string)

  // Texts and components, as the host library reads them.

  /** The parts between slashes; there is always one. */
  function Segments(s: string): (parts: seq<string>)
    ensures parts != []
  {
    if s == [] then [""]
    else
      var rest := Segments(s[1..]);
      if s[0] == '/' then [""] + rest else [[s[0]] + rest[0]] + rest[1..]
  }

  function Part(segment: string): seq<Component> {
    if segment == "" || segment == "." then []
    else if segment == ".." then [ParentDir]
    else [Name(segment)]
  }

  function PartsOf(segments: seq<string>): seq<Component> {
    if segments == [] then [] else PartsOf(segments[..|segments| - 1]) + Part(segments[|segments| - 1])
  }

  predicate StartsWithSlash(s: string) { s != [] && s[0] == '/' }

  predicate EndsWithSlash(s: string) { s != [] && s[|s| - 1] == '/' }

  /** `Path::components`: empty and `.` parts are dropped, except a leading `.` of a relative path. */
  function Components(s: string): seq<Component> {
    Lead(s) + PartsOf(Segments(s))
  }

  function Lead(s: string): seq<Component> {
    if StartsWithSlash(s) then [RootDir] else if Segments(s)[0] == "." then [CurDir] else []
  }

  function Text(c: Component): string {
    match c
    case RootDir => "/"
    case CurDir => "."
    case ParentDir => ".."
    case Name(name) => name
  }

  /** `PathBuf::push`. */
  function Push(buf: string, s: string): string {
    if StartsWithSlash(s) then s
    else if buf == [] || EndsWithSlash(buf) then buf + s
    else buf + "/" + s
  }

  /** A path with the first `n` components pushed onto it. */
  function Render(buf: string, cs: seq<Component>, n: nat): string
    requires n <= |cs|
  {
    if n == 0 then buf else Push(Render(buf, cs, n - 1), Text(cs[n - 1]))
  }

  predicate IsAbsolute(s: string) { StartsWithSlash(s) }

  /** The name of a directory entry. */
  predicate IsName(s: string) {
    s != "" && '/' !in s && s != "." && s != ".."
  }

  /** Components as they are read from a text. */
  predicate WellFormed(cs: seq<Component>) {
    && (forall i | 0 <= i < |cs| :: (cs[i].RootDir? || cs[i].CurDir?) ==> i == 0)
    && (forall i | 0 <= i < |cs| && cs[i].Name? :: IsName(cs[i].name))
  }

  lemma {:induction false} SegmentsHaveNoSlash(s: string)
    ensures forall i | 0 <= i < |Segments(s)| :: '/' !in Segments(s)[i]
  {
    if s != [] {
      SegmentsHaveNoSlash(s[1..]);
    }
  }

  lemma {:induction false} PartsOfNames(segments: seq<string>)
    requires forall i | 0 <= i < |segments| :: '/' !in segments[i]
    ensures forall c | c in PartsOf(segments) :: c.ParentDir? || (c.Name? && IsName(c.name))
  {
    if segments != [] {
      PartsOfNames(segments[..|segments| - 1]);
    }
  }

  lemma ComponentsWellFormed(s: string)
    ensures WellFormed(Components(s))
    ensures IsAbsolute(s) <==> Components(s) != [] && Components(s)[0] == RootDir
  {
    SegmentsHaveNoSlash(s);
    PartsOfNames(Segments(s));
    var parts := PartsOf(Segments(s));
    forall i | 0 <= i < |parts| ensures parts[i].ParentDir? || (parts[i].Name? && IsName(parts[i].name)) {
      assert parts[i] in parts;
    }
  }

  lemma {:induction false} SegmentsOfWord(word: string)
    requires '/' !in word
    ensures Segments(word) == [word]
  {
    if word != [] {
      assert word[0] in word;
      SegmentsOfWord(word[1..]);
      assert [word[0]] + word[1..] == word;
    }
  }

  lemma {:induction false} SegmentsAppend(s: string, word: string)
    requires '/' !in word
    ensures var parts := Segments(s);
      Segments(s + word) == parts[..|parts| - 1] + [parts[|parts| - 1] + word]
  {
    if s == [] {
      assert s + word == word;
      SegmentsOfWord(word);
    } else {
      SegmentsAppend(s[1..], word);
      assert (s + word)[1..] == s[1..] + word && (s + word)[0] == s[0];
      LengthenLast(Segments(s[1..]), s[0], word);
    }
  }

  /** One more character in front, and a word at the end, of a list of segments. */
  lemma LengthenLast(rest: seq<string>, c: char, word: string)
    requires rest != []
    ensures var longer, parts := rest[..|rest| - 1] + [rest[|rest| - 1] + word], [[c] + rest[0]] + rest[1..];
      [[c] + longer[0]] + longer[1..] == parts[..|parts| - 1] + [parts[|parts| - 1] + word]
    ensures var longer, parts := rest[..|rest| - 1] + [rest[|rest| - 1] + word], [""] + rest;
      [""] + longer == parts[..|parts| - 1] + [parts[|parts| - 1] + word]
  {
    if |rest| == 1 {
      assert [c] + (rest[0] + word) == ([c] + rest[0]) + word;
    }
  }

  lemma {:induction false} SegmentsSlash(s: string)
    ensures Segments(s + "/") == Segments(s) + [""]
  {
    if s == [] {
      assert Segments("/") == [""] + Segments("/"[1..]);
      assert s + "/" == "/";
    } else {
      SegmentsSlash(s[1..]);
      assert (s + "/")[1..] == s[1..] + "/";
    }
  }

  lemma PartsOfSnoc(segments: seq<string>, segment: string)
    ensures PartsOf(segments + [segment]) == PartsOf(segments) + Part(segment)
  {
    assert (segments + [segment])[..|segments|] == segments;
  }

  lemma SegmentsAfterSlash(s: string, segment: string)
    requires '/' !in segment && EndsWithSlash(s)
    ensures PartsOf(Segments(s + segment)) == PartsOf(Segments(s)) + Part(segment)
  {
    var parts, front := Segments(s), s[..|s| - 1];
    assert s == front + "/" && "" + segment == segment;
    SegmentsSlash(front);
    SegmentsAppend(s, segment);
    assert parts[..|parts| - 1] == Segments(front);
    PartsOfSnoc(Segments(front), segment);
    PartsOfSnoc(Segments(front), "");
  }

  lemma SegmentsWithSlash(s: string, segment: string)
    requires '/' !in segment
    ensures PartsOf(Segments(s + "/" + segment)) == PartsOf(Segments(s)) + Part(segment)
  {
    SegmentsSlash(s);
    assert EndsWithSlash(s + "/");
    SegmentsAfterSlash(s + "/", segment);
    PartsOfSnoc(Segments(s), "");
  }

  lemma SegmentsPushed(s: string, segment: string)
    requires s != "" && '/' !in segment
    ensures PartsOf(Segments(Push(s, segment))) == PartsOf(Segments(s)) + Part(segment)
  {
    hide Segments, PartsOf, Part;
    assert segment != [] ==> segment[0] in segment;
    if EndsWithSlash(s) { SegmentsAfterSlash(s, segment); } else { SegmentsWithSlash(s, segment); }
  }

  lemma LeadPushed(s: string, segment: string)
    requires s != "" && '/' !in segment
    ensures Lead(Push(s, segment)) == Lead(s)
  {
    if !StartsWithSlash(s) {
      var parts := Segments(s);
      if EndsWithSlash(s) {
        var front := s[..|s| - 1];
        assert s == front + "/";
        SegmentsSlash(front);
        SegmentsAppend(s, segment);
        assert Segments(s + segment)[0] == parts[0];
      } else {
        SegmentsSlash(s);
        SegmentsAppend(s + "/", segment);
        assert Segments(s + "/" + segment)[0] == parts[0];
      }
    }
  }

  /** Pushing one segment onto a path appends its component. */
  lemma PushComponents(s: string, segment: string)
    requires s != "" && '/' !in segment
    ensures Components(Push(s, segment)) == Components(s) + Part(segment)
  {
    hide Push, Lead, Segments, PartsOf, Part;
    SegmentsPushed(s, segment);
    LeadPushed(s, segment);
    assert Lead(s) + (PartsOf(Segments(s)) + Part(segment)) == (Lead(s) + PartsOf(Segments(s))) + Part(segment);
  }

  // Normalization.

  /** The stack after one more component; the stack never holds a `.`. */
  function Step(out: seq<Component>, c: Component): seq<Component> {
    match c
    case CurDir => out
    case ParentDir =>
      if out == [] then [ParentDir]
      else
        var last := out[|out| - 1];
        if last.Name? then out[..|out| - 1]
        else if last.RootDir? then out
        else out + [ParentDir]
    case _ => out + [c]
  }

  /** The stack after the first `n` components. */
  function Stack(cs: seq<Component>, n: nat): seq<Component>
    requires n <= |cs|
  {
    if n == 0 then [] else Step(Stack(cs, n - 1), cs[n - 1])
  }

  function Normalize(cs: seq<Component>): seq<Component> {
    Stack(cs, |cs|)
  }

  /** The text of a normalized path. */
  function TextOf(cs: seq<Component>): string {
    if cs == [] then "." else Render("", cs, |cs|)
  }

  function NormalizeText(s: string): string {
    TextOf(Normalize(Components(s)))
  }

  method Collapse(comps: seq<Component>) returns (out: seq<Component>)
    ensures out == Normalize(comps)
  {
    out := [];
    for i := 0 to |comps|
      invariant out == Stack(comps, i)
    {
      match comps[i] {
        case CurDir =>
        case ParentDir =>
          if out != [] && out[|out| - 1].Name? {
            out := out[..|out| - 1];
          } else if out == [] || !out[|out| - 1].RootDir? {
            out := out + [ParentDir];
          }
        case other => out := out + [other];
      }
    }
  }

  method PushAll(buf: string, cs: seq<Component>) returns (path: string)
    ensures path == Render(buf, cs, |cs|)
  {
    path := buf;
    for i := 0 to |cs|
      invariant path == Render(buf, cs, i)
    {
      path := Push(path, Text(cs[i]));
    }
  }

  method NormalizeLexical(s: string) returns (buf: string)
    ensures buf == NormalizeText(s)
  {
    var out := Collapse(Components(s));
    if out == [] {
      return ".";
    }
    buf := PushAll("", out);
  }

  /** Where a path leads from a directory, both given by the names on the way from the root. */
  function Into(place: seq<string>, c: Component): seq<string> {
    match c
    case RootDir => []
    case CurDir => place
    case ParentDir => if place == [] then [] else place[..|place| - 1]
    case Name(name) => place + [name]
  }

  function Resolve(place: seq<string>, cs: seq<Component>): seq<string> {
    if cs == [] then place else Into(Resolve(place, cs[..|cs| - 1]), cs[|cs| - 1])
  }

  lemma ResolveSnoc(place: seq<string>, cs: seq<Component>, c: Component)
    ensures Resolve(place, cs + [c]) == Into(Resolve(place, cs), c)
  {
    assert (cs + [c])[..|cs|] == cs;
  }

  lemma {:induction false} ResolveConcat(place: seq<string>, a: seq<Component>, b: seq<Component>)
    ensures Resolve(place, a + b) == Resolve(Resolve(place, a), b)
  {
    if b == [] {
      assert a + b == a;
    } else {
      var front, last := b[..|b| - 1], b[|b| - 1];
      ResolveConcat(place, a, front);
      ResolveSnoc(place, a + front, last);
      assert a + b == (a + front) + [last];
    }
  }

  lemma StepPreserves(place: seq<string>, out: seq<Component>, c: Component)
    ensures Resolve(place, Step(out, c)) == Into(Resolve(place, out), c)
  {
    if Step(out, c) == out + [c] {
      ResolveSnoc(place, out, c);
    }
  }

  lemma {:induction false} StackPreserves(place: seq<string>, cs: seq<Component>, n: nat)
    requires n <= |cs|
    ensures Resolve(place, Stack(cs, n)) == Resolve(place, cs[..n])
  {
    hide Step, Into;
    if n > 0 {
      StackPreserves(place, cs, n - 1);
      StepPreserves(place, Stack(cs, n - 1), cs[n - 1]);
      assert cs[..n] == cs[..n - 1] + [cs[n - 1]];
      ResolveSnoc(place, cs[..n - 1], cs[n - 1]);
    }
  }

  predicate HasRoot(cs: seq<Component>) {
    cs != [] && cs[0].RootDir?
  }

  /** A root, then names; or parents, then names. */
  predicate NormalForm(cs: seq<Component>) {
    && WellFormed(cs)
    && (forall i | 0 <= i < |cs| :: !cs[i].CurDir?)
    && (forall i, j | 0 <= i < j < |cs| && cs[j].ParentDir? :: cs[i].ParentDir?)
  }

  lemma {:induction false} StackIsNormal(cs: seq<Component>, n: nat)
    requires n <= |cs| && WellFormed(cs)
    ensures NormalForm(Stack(cs, n))
    ensures n > 0 ==> (HasRoot(Stack(cs, n)) <==> HasRoot(cs))
  {
    hide NormalForm, HasRoot, WellFormed, Step;
    if n == 0 {
      EmptyIsNormal();
    } else {
      StackIsNormal(cs, n - 1);
      StepKeepsNormal(cs, n - 1, Stack(cs, n - 1));
    }
  }

  lemma EmptyIsNormal()
    ensures NormalForm([])
  {
  }

  lemma StepKeepsNormal(cs: seq<Component>, n: nat, out: seq<Component>)
    requires n < |cs| && WellFormed(cs) && NormalForm(out)
    requires n > 0 ==> (HasRoot(out) <==> HasRoot(cs))
    requires n == 0 ==> out == []
    ensures NormalForm(Step(out, cs[n])) && (HasRoot(Step(out, cs[n])) <==> HasRoot(cs))
  {
    assert cs[n].RootDir? || cs[n].CurDir? ==> n == 0;
  }

  lemma {:induction false} NormalIsFixed(cs: seq<Component>, n: nat)
    requires n <= |cs| && NormalForm(cs)
    ensures Stack(cs, n) == cs[..n]
  {
    if n > 0 {
      NormalIsFixed(cs, n - 1);
    }
  }

  lemma TextParts(c: Component)
    requires !c.RootDir? && (c.Name? ==> IsName(c.name))
    ensures Text(c) != "" && '/' !in Text(c) && Part(Text(c)) == if c.CurDir? then [] else [c]
  {
  }

  lemma SingleReads(c: Component)
    requires !c.CurDir? && (c.Name? ==> IsName(c.name))
    ensures Components(Text(c)) == [c]
  {
    if c.RootDir? {
      SegmentsSlash("");
      assert "" + "/" == "/";
      PartsOfSnoc([""], "");
      PartsOfSnoc([], "");
      assert [] + [""] == [""];
    } else {
      TextParts(c);
      SegmentsOfWord(Text(c));
      PartsOfSnoc([], Text(c));
      assert [] + [Text(c)] == [Text(c)];
    }
  }

  /** The components without the dots. */
  function Visible(cs: seq<Component>): seq<Component> {
    if cs == [] then []
    else
      var last := cs[|cs| - 1];
      Visible(cs[..|cs| - 1]) + if last.CurDir? then [] else [last]
  }

  /** Components that can be pushed onto a path. */
  ghost predicate Pushable(cs: seq<Component>) {
    forall i | 0 <= i < |cs| :: !cs[i].RootDir? && (cs[i].Name? ==> IsName(cs[i].name))
  }

  lemma PushOne(s: string, c: Component)
    requires s != "" && !c.RootDir? && (c.Name? ==> IsName(c.name))
    ensures Push(s, Text(c)) != "" && Components(Push(s, Text(c))) == Components(s) + if c.CurDir? then [] else [c]
  {
    TextParts(c);
    PushComponents(s, Text(c));
  }

  lemma {:induction false} RenderReads(buf: string, cs: seq<Component>, n: nat)
    requires buf != "" && n <= |cs| && Pushable(cs)
    ensures Render(buf, cs, n) != "" && Components(Render(buf, cs, n)) == Components(buf) + Visible(cs[..n])
  {
    hide Push, Components, Text;
    if n > 0 {
      RenderReads(buf, cs, n - 1);
      PushOne(Render(buf, cs, n - 1), cs[n - 1]);
      VisibleStep(Components(buf), cs, n);
    }
  }

  lemma VisibleStep(base: seq<Component>, cs: seq<Component>, n: nat)
    requires 0 < n <= |cs|
    ensures base + Visible(cs[..n]) == base + Visible(cs[..n - 1]) + if cs[n - 1].CurDir? then [] else [cs[n - 1]]
  {
    assert cs[..n][..n - 1] == cs[..n - 1];
  }

  lemma TextStarts(c: Component)
    requires !c.RootDir? && (c.Name? ==> IsName(c.name))
    ensures Text(c) != "" && !StartsWithSlash(Text(c)) && Push("", Text(c)) == Text(c)
  {
    TextParts(c);
    assert Text(c)[0] in Text(c) && "" + Text(c) == Text(c);
  }

  /** Pushing a rendered path is pushing its components. */
  lemma {:induction false} PushRendered(buf: string, cs: seq<Component>, n: nat)
    requires 0 < n <= |cs| && Pushable(cs)
    ensures Render("", cs, n) != "" && !StartsWithSlash(Render("", cs, n))
    ensures Push(buf, Render("", cs, n)) == Render(buf, cs, n)
  {
    TextStarts(cs[n - 1]);
    if n > 1 {
      PushRendered(buf, cs, n - 1);
      PushTwice(buf, Render("", cs, n - 1), Text(cs[n - 1]));
    } else {
      RenderOne(buf, cs);
      RenderOne("", cs);
    }
  }

  lemma RenderOne(buf: string, cs: seq<Component>)
    requires cs != []
    ensures Render(buf, cs, 1) == Push(buf, Text(cs[0]))
  {
    assert Render(buf, cs, 0) == buf;
  }

  lemma PushTwice(a: string, b: string, c: string)
    requires b != "" && !StartsWithSlash(b) && c != "" && !StartsWithSlash(c)
    ensures Push(a, Push(b, c)) == Push(Push(a, b), c)
    ensures Push(b, c) != "" && !StartsWithSlash(Push(b, c))
  {
    assert a + (b + c) == (a + b) + c && a + (b + "/" + c) == (a + b) + "/" + c;
    assert a + "/" + (b + c) == (a + "/" + b) + c && a + "/" + (b + "/" + c) == (a + "/" + b) + "/" + c;
  }

  lemma RenderFirst(cs: seq<Component>, n: nat)
    requires 0 < n <= |cs|
    ensures Render("", cs, n) == Render(Text(cs[0]), cs[1..], n - 1)
  {
    if n == 1 {
      assert "" + Text(cs[0]) == Text(cs[0]);
    } else {
      RenderFirst(cs, n - 1);
    }
  }

  lemma {:induction false} VisibleAll(cs: seq<Component>)
    requires forall i | 0 <= i < |cs| :: !cs[i].CurDir?
    ensures Visible(cs) == cs
  {
    if cs != [] {
      VisibleAll(cs[..|cs| - 1]);
      assert cs[..|cs| - 1] + [cs[|cs| - 1]] == cs;
    }
  }

  lemma RenderedReads(cs: seq<Component>, first: Component, rest: seq<Component>)
    requires cs != [] && first == cs[0] && rest == cs[1..]
    requires !first.CurDir? && (first.Name? ==> IsName(first.name))
    requires Pushable(rest) && forall i | 0 <= i < |rest| :: !rest[i].CurDir?
    ensures Components(Render("", cs, |cs|)) == cs
  {
    hide Push, Render, Components, Pushable, Visible;
    assert rest[..|rest|] == rest && cs == [first] + rest;
    SingleReads(first);
    VisibleAll(rest);
    RenderReads(Text(first), rest, |rest|);
    RenderFirst(cs, |cs|);
  }

  /** The components of a normalized path's text: the path itself, or `.` for the empty path. */
  lemma TextReads(cs: seq<Component>)
    requires NormalForm(cs)
    ensures Components(TextOf(cs)) == if cs == [] then [CurDir] else cs
  {
    if cs == [] {
      SegmentsOfWord(".");
      assert PartsOf(["."]) == PartsOf([]) + Part(".");
    } else {
      RenderedReads(cs, cs[0], cs[1..]);
    }
  }

  lemma NormalizedReads(s: string)
    ensures NormalForm(Normalize(Components(s)))
    ensures Normalize(Components(NormalizeText(s))) == Normalize(Components(s))
  {
    var cs := Components(s);
    var out := Normalize(cs);
    ComponentsWellFormed(s);
    StackIsNormal(cs, |cs|);
    TextReads(out);
    NormalIsFixed(out, |out|);
    if out == [] {
      assert Stack([CurDir], 1) == Step(Stack([CurDir], 0), CurDir);
    }
  }

  /** Normalizing keeps where a path leads, from every directory, and normalizing again changes nothing. */
  lemma NormalizePreserves(s: string, place: seq<string>)
    ensures Resolve(place, Components(NormalizeText(s))) == Resolve(place, Components(s))
    ensures NormalizeText(NormalizeText(s)) == NormalizeText(s)
    ensures NormalForm(Normalize(Components(s)))
  {
    var cs, again := Components(s), Components(NormalizeText(s));
    NormalizedReads(s);
    StackPreserves(place, cs, |cs|);
    StackPreserves(place, again, |again|);
    assert cs[..|cs|] == cs && again[..|again|] == again;
  }

  // Normal forms are canonical.

  ghost predicate AllNames(place: seq<string>) {
    forall i | 0 <= i < |place| :: IsName(place[i])
  }

  /** Two paths that lead to the same place from every directory. */
  ghost predicate SamePlace(a: seq<Component>, b: seq<Component>) {
    forall place | AllNames(place) :: Resolve(place, a) == Resolve(place, b)
  }

  function Ups(cs: seq<Component>): (n: nat)
    ensures n <= |cs|
  {
    if cs == [] || !cs[0].ParentDir? then 0 else 1 + Ups(cs[1..])
  }

  function NamesOf(cs: seq<Component>): (names: seq<string>)
    requires forall i | 0 <= i < |cs| :: cs[i].Name?
    ensures |names| == |cs|
  {
    seq(|cs|, i requires 0 <= i < |cs| => cs[i].name)
  }

  lemma {:induction false} UpsSplit(cs: seq<Component>)
    ensures forall i | 0 <= i < Ups(cs) :: cs[i].ParentDir?
    ensures Ups(cs) < |cs| ==> !cs[Ups(cs)].ParentDir?
  {
    if cs != [] && cs[0].ParentDir? {
      UpsSplit(cs[1..]);
    }
  }

  lemma {:induction false} ResolveNames(place: seq<string>, cs: seq<Component>)
    requires forall i | 0 <= i < |cs| :: cs[i].Name?
    ensures Resolve(place, cs) == place + NamesOf(cs)
  {
    if cs != [] {
      ResolveNames(place, cs[..|cs| - 1]);
      assert NamesOf(cs) == NamesOf(cs[..|cs| - 1]) + [cs[|cs| - 1].name];
    } else {
      assert place + [] == place;
    }
  }

  lemma {:induction false} ResolveUps(place: seq<string>, cs: seq<Component>)
    requires |cs| <= |place| && forall i | 0 <= i < |cs| :: cs[i].ParentDir?
    ensures Resolve(place, cs) == place[..|place| - |cs|]
  {
    if cs != [] {
      ResolveUps(place, cs[..|cs| - 1]);
    }
  }

  lemma NamesAfterUps(cs: seq<Component>)
    requires NormalForm(cs) && (cs != [] ==> !cs[0].RootDir?)
    ensures forall i | Ups(cs) <= i < |cs| :: cs[i].Name?
  {
    UpsSplit(cs);
  }

  /** Where a relative path in normal form leads, from a directory deep enough. */
  lemma ResolveRelative(place: seq<string>, cs: seq<Component>)
    requires NormalForm(cs) && (cs != [] ==> !cs[0].RootDir?) && Ups(cs) <= |place|
    ensures forall i | Ups(cs) <= i < |cs| :: cs[i].Name?
    ensures Resolve(place, cs) == place[..|place| - Ups(cs)] + NamesOf(cs[Ups(cs)..])
  {
    UpsSplit(cs);
    NamesAfterUps(cs);
    RelativeParts(place, cs, Ups(cs));
  }

  lemma RelativeParts(place: seq<string>, cs: seq<Component>, k: nat)
    requires k <= |cs| && k <= |place|
    requires (forall i | 0 <= i < k :: cs[i].ParentDir?) && (forall i | k <= i < |cs| :: cs[i].Name?)
    ensures Resolve(place, cs) == place[..|place| - k] + NamesOf(cs[k..])
  {
    ResolveParts(place, cs[..k], cs[k..]);
    assert cs == cs[..k] + cs[k..];
  }

  lemma ResolveParts(place: seq<string>, ups: seq<Component>, names: seq<Component>)
    requires |ups| <= |place| && (forall i | 0 <= i < |ups| :: ups[i].ParentDir?)
    requires forall i | 0 <= i < |names| :: names[i].Name?
    ensures Resolve(place, ups + names) == place[..|place| - |ups|] + NamesOf(names)
  {
    ResolveConcat(place, ups, names);
    ResolveUps(place, ups);
    ResolveNames(place[..|place| - |ups|], names);
  }

  lemma ResolveAbsolute(place: seq<string>, cs: seq<Component>)
    requires NormalForm(cs) && cs != [] && cs[0].RootDir?
    ensures forall i | 1 <= i < |cs| :: cs[i].Name?
    ensures Resolve(place, cs) == NamesOf(cs[1..])
  {
    assert cs == [RootDir] + cs[1..];
    ResolveConcat(place, [RootDir], cs[1..]);
    assert Resolve(place, [RootDir]) == [];
    ResolveNames([], cs[1..]);
    assert [] + NamesOf(cs[1..]) == NamesOf(cs[1..]);
  }

  lemma {:induction false} NamesInjective(a: seq<Component>, b: seq<Component>)
    requires (forall i | 0 <= i < |a| :: a[i].Name?) && (forall i | 0 <= i < |b| :: b[i].Name?)
    requires NamesOf(a) == NamesOf(b)
    ensures a == b
  {
    forall i | 0 <= i < |a| ensures a[i] == b[i] {
      assert NamesOf(a)[i] == NamesOf(b)[i];
    }
  }

  /** A directory of `n` equal names. */
  function Deep(n: nat, name: string): (place: seq<string>)
    requires IsName(name)
    ensures |place| == n && AllNames(place)
  {
    seq(n, _ => name)
  }

  lemma AbsoluteDiffers(a: seq<Component>, b: seq<Component>)
    requires NormalForm(a) && NormalForm(b) && a != [] && a[0].RootDir? && (b != [] ==> !b[0].RootDir?)
    ensures !SamePlace(a, b)
  {
    var place := Deep(Ups(b) + |a|, "x");
    ResolveAbsolute(place, a);
    ResolveRelative(place, b);
    assert Resolve(place, a) != Resolve(place, b);
  }

  lemma UpsDiffer(a: seq<Component>, b: seq<Component>)
    requires NormalForm(a) && NormalForm(b) && (a != [] ==> !a[0].RootDir?) && (b != [] ==> !b[0].RootDir?)
    requires Ups(a) < Ups(b)
    ensures !SamePlace(a, b)
  {
    UpsSplit(b);
    ResolveRelative(Deep(Ups(b), "x"), b);
    var k := Ups(b);
    var unused := if k < |b| then b[k].name + "x" else "x";
    assert unused[|unused| - 1] == 'x';
    var place := Deep(k, unused);
    ResolveRelative(place, a);
    ResolveRelative(place, b);
    var left, right := Resolve(place, a), Resolve(place, b);
    assert place[..0] == [] && right == NamesOf(b[k..]);
    assert left[0] == unused;
    if right != [] { assert right[0] == b[k].name; }
  }

  /** Paths in normal form that lead to the same place from every directory are equal. */
  lemma NormalIsCanonical(a: seq<Component>, b: seq<Component>)
    requires NormalForm(a) && NormalForm(b)
    ensures SamePlace(a, b) <==> a == b
  {
    var rootA, rootB := a != [] && a[0].RootDir?, b != [] && b[0].RootDir?;
    if rootA != rootB {
      if rootA { AbsoluteDiffers(a, b); } else { AbsoluteDiffers(b, a); }
    } else if !rootA && Ups(a) != Ups(b) {
      if Ups(a) < Ups(b) { UpsDiffer(a, b); } else { UpsDiffer(b, a); }
    } else if SamePlace(a, b) {
      if rootA { SameRoot(a, b); } else { SameUps(a, b); }
    }
  }

  lemma SameRoot(a: seq<Component>, b: seq<Component>)
    requires NormalForm(a) && NormalForm(b) && SamePlace(a, b)
    requires a != [] && a[0].RootDir? && b != [] && b[0].RootDir?
    ensures a == b
  {
    var place: seq<string> := [];
    assert AllNames(place) && Resolve(place, a) == Resolve(place, b);
    ResolveAbsolute(place, a);
    ResolveAbsolute(place, b);
    NamesInjective(a[1..], b[1..]);
    assert a == [RootDir] + a[1..] && b == [RootDir] + b[1..];
  }

  lemma SameUps(a: seq<Component>, b: seq<Component>)
    requires NormalForm(a) && NormalForm(b) && SamePlace(a, b) && Ups(a) == Ups(b)
    requires (a != [] ==> !a[0].RootDir?) && (b != [] ==> !b[0].RootDir?)
    ensures a == b
  {
    var k := Ups(a);
    var place := Deep(k, "x");
    assert Resolve(place, a) == Resolve(place, b);
    ResolveRelative(place, a);
    ResolveRelative(place, b);
    assert place[..0] + NamesOf(a[k..]) == NamesOf(a[k..]) && place[..0] + NamesOf(b[k..]) == NamesOf(b[k..]);
    NamesInjective(a[k..], b[k..]);
    EqualHalves(a, b, k);
  }

  lemma EqualHalves(a: seq<Component>, b: seq<Component>, k: nat)
    requires k == Ups(a) == Ups(b) && a[k..] == b[k..]
    ensures a == b
  {
    UpsSplit(a);
    UpsSplit(b);
    assert a[..k] == b[..k];
    assert a == a[..k] + a[k..] && b == b[..k] + b[k..];
  }

  lemma SamePlaceAsNormal(s: string)
    ensures SamePlace(Components(s), Normalize(Components(s)))
  {
    var cs := Components(s);
    forall place | AllNames(place) ensures Resolve(place, cs) == Resolve(place, Normalize(cs)) {
      StackPreserves(place, cs, |cs|);
      assert cs[..|cs|] == cs;
    }
  }

  lemma SamePlaceJoins(a: seq<Component>, b: seq<Component>, c: seq<Component>, d: seq<Component>)
    requires SamePlace(a, b) && SamePlace(c, d)
    ensures SamePlace(a, c) <==> SamePlace(b, d)
  {
    forall place | AllNames(place)
      ensures Resolve(place, a) == Resolve(place, b) && Resolve(place, c) == Resolve(place, d)
    {
    }
  }

  lemma TextInjective(a: seq<Component>, b: seq<Component>)
    requires NormalForm(a) && NormalForm(b) && TextOf(a) == TextOf(b)
    ensures a == b
  {
    TextReads(a);
    TextReads(b);
  }

  /** Two texts normalize to the same text exactly when they lead to the same place from every directory. */
  lemma NormalizeDecides(s: string, t: string)
    ensures NormalizeText(s) == NormalizeText(t) <==> SamePlace(Components(s), Components(t))
  {
    var a, b := Normalize(Components(s)), Normalize(Components(t));
    NormalizedReads(s);
    NormalizedReads(t);
    SamePlaceAsNormal(s);
    SamePlaceAsNormal(t);
    SamePlaceJoins(Components(s), a, Components(t), b);
    NormalIsCanonical(a, b);
    if NormalizeText(s) == NormalizeText(t) { TextInjective(a, b); }
  }

  // Relative paths.

  /** The length of the longest common prefix. */
  function Shared(a: seq<Component>, b: seq<Component>): (n: nat)
    ensures n <= |a| && n <= |b|
  {
    if a == [] || b == [] || a[0] != b[0] then 0 else 1 + Shared(a[1..], b[1..])
  }

  function Parents(n: nat): (cs: seq<Component>)
    ensures |cs| == n && forall i | 0 <= i < n :: cs[i] == ParentDir
  {
    seq(n, _ => ParentDir)
  }

  /** Up from the unshared part of `from`, then down the unshared part of `to`. */
  function Relative(from: seq<Component>, to: seq<Component>): seq<Component> {
    var n := Shared(from, to);
    Parents(|from| - n) + to[n..]
  }

  function RelativeText(from: string, to: string): string {
    TextOf(Relative(Components(from), Components(to)))
  }

  method SharedPrefix(a: seq<Component>, b: seq<Component>) returns (n: nat)
    ensures n == Shared(a, b)
  {
    n := 0;
    assert a[0..] == a && b[0..] == b;
    while n < |a| && n < |b| && a[n] == b[n]
      invariant n <= |a| && n <= |b| && n + Shared(a[n..], b[n..]) == Shared(a, b)
    {
      assert a[n..][1..] == a[n + 1..] && b[n..][1..] == b[n + 1..];
      n := n + 1;
    }
  }

  method PushParents(n: nat) returns (path: string)
    ensures path == Render("", Parents(n), n)
  {
    path := "";
    for i := 0 to n
      invariant path == Render("", Parents(n), i)
    {
      path := Push(path, "..");
    }
  }

  method RelativeLexical(from: string, to: string) returns (out: string)
    ensures out == RelativeText(from, to)
  {
    hide Push, Components;
    var fromParts, toParts := Components(from), Components(to);
    var shared := SharedPrefix(fromParts, toParts);
    var ups := PushParents(|fromParts| - shared);
    out := PushAll(ups, toParts[shared..]);
    RelativeRendered(fromParts, to);
    if out == "" {
      out := ".";
    }
  }

  lemma RelativeRendered(from: seq<Component>, to: string)
    ensures var toParts := Components(to);
      var n, cs := Shared(from, toParts), Relative(from, toParts);
      var path := Render(Render("", Parents(|from| - n), |from| - n), toParts[n..], |toParts| - n);
      path == Render("", cs, |cs|) && (path == "" <==> cs == [])
  {
    hide Push, Components, Render, Shared, Parents;
    var toParts := Components(to);
    var n := Shared(from, toParts);
    RenderBoth(Parents(|from| - n), toParts[n..]);
    ComponentsWellFormed(to);
    RenderedIsEmpty(Relative(from, toParts));
  }

  lemma RenderBoth(ups: seq<Component>, downs: seq<Component>)
    ensures Render(Render("", ups, |ups|), downs, |downs|) == Render("", ups + downs, |ups + downs|)
  {
    hide Push;
    RenderConcat("", ups, downs, |downs|);
  }

  lemma {:induction false} RenderConcat(buf: string, a: seq<Component>, b: seq<Component>, n: nat)
    requires n <= |b|
    ensures Render(buf, a + b, |a| + n) == Render(Render(buf, a, |a|), b, n)
  {
    hide Push;
    if n > 0 {
      RenderConcat(buf, a, b, n - 1);
      assert (a + b)[|a| + n - 1] == b[n - 1];
    } else {
      RenderPrefix(buf, a, b, |a|);
    }
  }

  lemma {:induction false} RenderPrefix(buf: string, a: seq<Component>, b: seq<Component>, n: nat)
    requires n <= |a|
    ensures Render(buf, a + b, n) == Render(buf, a, n)
  {
    hide Push;
    if n > 0 {
      RenderPrefix(buf, a, b, n - 1);
    }
  }

  lemma RenderedIsEmpty(cs: seq<Component>)
    requires forall i | 0 <= i < |cs| && cs[i].Name? :: cs[i].name != ""
    ensures Render("", cs, |cs|) == "" <==> cs == []
  {
    if cs != [] {
      assert Text(cs[|cs| - 1]) != "";
    }
  }

  /** `path.relative`. */
  function RelativePath(from: string, to: string): string {
    var f, t := NormalizeText(from), NormalizeText(to);
    if IsAbsolute(f) != IsAbsolute(t) then t else RelativeText(f, t)
  }

  lemma {:induction false} SharedIs(a: seq<Component>, b: seq<Component>)
    ensures a[..Shared(a, b)] == b[..Shared(a, b)]
    ensures Shared(a, b) < |a| && Shared(a, b) < |b| ==> a[Shared(a, b)] != b[Shared(a, b)]
  {
    if a != [] && b != [] && a[0] == b[0] {
      SharedIs(a[1..], b[1..]);
      var n := Shared(a[1..], b[1..]);
      assert a[..n + 1] == [a[0]] + a[1..][..n] && b[..n + 1] == [b[0]] + b[1..][..n];
    }
  }

  lemma {:induction false} VisibleResolves(place: seq<string>, cs: seq<Component>)
    ensures Resolve(place, Visible(cs)) == Resolve(place, cs)
  {
    if cs != [] {
      VisibleResolves(place, cs[..|cs| - 1]);
      ResolveSnoc(place, Visible(cs[..|cs| - 1]), cs[|cs| - 1]);
      assert Visible(cs[..|cs| - 1]) + [] == Visible(cs[..|cs| - 1]);
    }
  }

  /** Where joining a relative path leads. */
  lemma JoinedResolves(place: seq<string>, f: string, cs: seq<Component>)
    requires f != "" && Pushable(cs)
    ensures Resolve(place, Components(Push(f, TextOf(cs)))) == Resolve(place, Components(f) + cs)
  {
    if cs == [] {
      PushOne(f, CurDir);
      assert Components(f) + [] == Components(f);
    } else {
      PushRendered(f, cs, |cs|);
      RenderReads(f, cs, |cs|);
      assert cs[..|cs|] == cs;
      ResolveConcat(place, Components(f), Visible(cs));
      ResolveConcat(place, Components(f), cs);
      VisibleResolves(Resolve(place, Components(f)), cs);
    }
  }

  // When joining a relative path leads back.

  lemma NormalizeKeepsRoot(s: string)
    ensures IsAbsolute(NormalizeText(s)) <==> IsAbsolute(s)
    ensures NormalizeText(s) != ""
  {
    var cs := Components(s);
    var out := Normalize(cs);
    ComponentsWellFormed(s);
    StackIsNormal(cs, |cs|);
    TextReads(out);
    ComponentsWellFormed(NormalizeText(s));
  }

  /** What a normalized text is read as. */
  lemma NormalizedComponents(s: string) returns (f: seq<Component>)
    ensures NormalForm(f) && Components(NormalizeText(s)) == (if f == [] then [CurDir] else f)
    ensures HasRoot(f) <==> IsAbsolute(NormalizeText(s))
  {
    f := Normalize(Components(s));
    NormalizedReads(s);
    TextReads(f);
    ComponentsWellFormed(NormalizeText(s));
  }

  /** Going down some names and up as often changes nothing. */
  lemma DownAndUp(place: seq<string>, names: seq<Component>)
    requires forall i | 0 <= i < |names| :: names[i].Name?
    ensures Resolve(place, names + Parents(|names|)) == place
  {
    ResolveConcat(place, names, Parents(|names|));
    ResolveNames(place, names);
    var deep := place + NamesOf(names);
    ResolveUps(deep, Parents(|names|));
    assert deep[..|deep| - |names|] == place;
  }

  /** If the unshared part of `from` is names, the relative path leads from `from` to `to`. */
  lemma RelativeSplits(from: seq<Component>, to: seq<Component>)
    ensures var n := Shared(from, to);
      && from + Relative(from, to) == from[..n] + ((from[n..] + Parents(|from| - n)) + to[n..])
      && to == from[..n] + to[n..]
  {
    hide Shared, Parents;
    SharedIs(from, to);
    var n := Shared(from, to);
    assert from == from[..n] + from[n..];
  }

  lemma NamesLeadBack(from: seq<Component>, to: seq<Component>, place: seq<string>)
    requires forall i | Shared(from, to) <= i < |from| :: from[i].Name?
    ensures Resolve(place, from + Relative(from, to)) == Resolve(place, to)
  {
    hide Resolve, Shared, Parents, Relative;
    var n := Shared(from, to);
    var ups := Parents(|from| - n);
    RelativeSplits(from, to);
    ResolveConcat(place, from[..n], (from[n..] + ups) + to[n..]);
    ResolveConcat(Resolve(place, from[..n]), from[n..] + ups, to[n..]);
    DownAndUp(Resolve(place, from[..n]), from[n..]);
    ResolveConcat(place, from[..n], to[n..]);
  }

  /** From a deep directory, up and up again leads higher than `to` does. */
  lemma LengthAfter(place: seq<string>, from: seq<Component>, n: nat)
    requires NormalForm(from) && !HasRoot(from) && n <= Ups(from) && 2 * Ups(from) <= |place|
    ensures |Resolve(place, from + Parents(|from| - n))| == |place| - 2 * Ups(from) + n
  {
    var k := Ups(from);
    ResolveConcat(place, from, Parents(|from| - n));
    ResolveRelative(place, from);
    ResolveUps(Resolve(place, from), Parents(|from| - n));
  }

  lemma LengthOfNames(place: seq<string>, names: seq<Component>)
    requires forall i | 0 <= i < |names| :: names[i].Name?
    ensures |Resolve(place, names)| == |place| + |names|
  {
    ResolveNames(place, names);
  }

  /** If parents are left unshared, it does not. */
  lemma ParentsLeadAstray(from: seq<Component>, to: seq<Component>, n: nat)
    requires NormalForm(from) && !HasRoot(from) && NormalForm(to) && !HasRoot(to)
    requires n < |from| && from[n].ParentDir? && n == Ups(to)
    ensures !SamePlace(from + (Parents(|from| - n) + to[n..]), to)
  {
    var k := Ups(from);
    UpsSplit(from);
    assert n < k by { if k <= n { NamesAfterUps(from); } }
    var place := Deep(2 * k, "x");
    LengthAfter(place, from, n);
    NamesAfterUps(to);
    assert from + (Parents(|from| - n) + to[n..]) == (from + Parents(|from| - n)) + to[n..];
    ResolveConcat(place, from + Parents(|from| - n), to[n..]);
    LengthOfNames(Resolve(place, from + Parents(|from| - n)), to[n..]);
    ResolveRelative(place, to);
    assert |Resolve(place, to)| == 2 * k - n + |to| - n;
  }

  /** `.` has nothing to go up from. */
  lemma DotLeadsAstray(to: seq<Component>)
    requires NormalForm(to) && !HasRoot(to) && to != []
    ensures !SamePlace([CurDir] + ([ParentDir] + to), to)
  {
    var k := Ups(to);
    var place := Deep(k + 1, "x");
    NamesAfterUps(to);
    ResolveConcat(place, [CurDir] + [ParentDir], to);
    assert [CurDir] + ([ParentDir] + to) == ([CurDir] + [ParentDir]) + to;
    var higher := Resolve(place, [CurDir] + [ParentDir]);
    assert Resolve(place, [CurDir]) == place by { assert Resolve(place, []) == place && [CurDir][..0] == []; }
    ResolveSnoc(place, [CurDir], ParentDir);
    ResolveRelative(higher, to);
    ResolveRelative(place, to);
    assert |Resolve(place, to)| == 1 + |Resolve(higher, to)|;
  }

  /** What a path in normal form is read as from its text. */
  function Shown(cs: seq<Component>): seq<Component> {
    if cs == [] then [CurDir] else cs
  }

  ghost predicate UnsharedNames(from: seq<Component>, to: seq<Component>) {
    forall i | Shared(from, to) <= i < |from| :: from[i].Name?
  }

  lemma {:induction false} UpsIs(cs: seq<Component>, n: nat)
    requires n <= |cs| && (forall i | 0 <= i < n :: cs[i].ParentDir?) && (n < |cs| ==> !cs[n].ParentDir?)
    ensures Ups(cs) == n
  {
    if n > 0 {
      UpsIs(cs[1..], n - 1);
    }
  }

  lemma ShownResolves(place: seq<string>, cs: seq<Component>)
    ensures Resolve(place, Shown(cs)) == Resolve(place, cs)
  {
    assert [CurDir][..0] == [] && Resolve(place, []) == place;
  }

  /** Absolute paths share their root, so only names are left. */
  lemma RootedUnshared(f: seq<Component>, t: seq<Component>)
    requires NormalForm(f) && NormalForm(t) && HasRoot(f) && HasRoot(t)
    ensures UnsharedNames(f, t)
  {
    assert Shared(f, t) >= 1;
    assert f[0] == RootDir;
  }

  lemma UnsharedParentsAstray(f: seq<Component>, t: seq<Component>)
    requires NormalForm(f) && NormalForm(t) && !HasRoot(f) && !HasRoot(t) && f != []
    requires !UnsharedNames(f, Shown(t))
    ensures !SamePlace(f + Relative(f, Shown(t)), Shown(t))
  {
    var n := Shared(f, Shown(t));
    var i :| n <= i < |f| && !f[i].Name?;
    assert f[n].ParentDir? && forall j | 0 <= j < n :: f[j].ParentDir?;
    SharedIs(f, Shown(t));
    if t == [] {
      assert f[0] != [CurDir][0] && n == 0;
      ParentsLeadAstray(f, t, n);
      DotAfter(f, f + (Parents(|f|) + t));
    } else {
      assert forall j | 0 <= j < n :: t[j] == f[j] by { assert forall j | 0 <= j < n :: t[..n][j] == f[..n][j]; }
      UpsIs(t, n);
      ParentsLeadAstray(f, t, n);
    }
  }

  lemma DotAfter(f: seq<Component>, up: seq<Component>)
    requires up == f + (Parents(|f|) + []) && !SamePlace(up, [])
    ensures !SamePlace(f + (Parents(|f|) + [CurDir]), [CurDir])
  {
    var place :| AllNames(place) && Resolve(place, up) != Resolve(place, []);
    assert f + (Parents(|f|) + [CurDir]) == up + [CurDir];
    ResolveSnoc(place, up, CurDir);
    ShownResolves(place, []);
  }

  lemma RelativeLeadsBackIff(f: seq<Component>, t: seq<Component>)
    requires NormalForm(f) && NormalForm(t) && (HasRoot(f) <==> HasRoot(t))
    ensures SamePlace(Shown(f) + Relative(Shown(f), Shown(t)), Shown(t)) <==> UnsharedNames(Shown(f), Shown(t))
  {
    if HasRoot(f) {
      RootedUnshared(f, t);
    }
    if UnsharedNames(Shown(f), Shown(t)) {
      forall place | AllNames(place)
        ensures Resolve(place, Shown(f) + Relative(Shown(f), Shown(t))) == Resolve(place, Shown(t))
      {
        NamesLeadBack(Shown(f), Shown(t), place);
      }
    } else if f == [] {
      assert Relative([CurDir], t) == [ParentDir] + t;
      DotLeadsAstray(t);
    } else {
      UnsharedParentsAstray(f, t);
    }
  }

  lemma RelativePushable(f: seq<Component>, t: seq<Component>)
    requires NormalForm(f) && NormalForm(t) && (HasRoot(f) <==> HasRoot(t))
    ensures Pushable(Relative(Shown(f), Shown(t)))
  {
    var from, to := Shown(f), Shown(t);
    if HasRoot(f) { assert Shared(from, to) >= 1; }
    forall i | Shared(from, to) <= i < |to| ensures !to[i].RootDir? && (to[i].Name? ==> IsName(to[i].name)) {}
  }

  lemma SameFrameIff(from: string, to: string)
    requires IsAbsolute(NormalizeText(from)) == IsAbsolute(NormalizeText(to))
    ensures var f, t := NormalizeText(from), NormalizeText(to);
      NormalizeText(Push(f, RelativeText(f, t))) == t <==> UnsharedNames(Components(f), Components(t))
  {
    var f, t := NormalizeText(from), NormalizeText(to);
    var fs := NormalizedComponents(from);
    var ts := NormalizedComponents(to);
    var joined := Push(f, RelativeText(f, t));
    NormalizeKeepsRoot(from);
    RelativePushable(fs, ts);
    RelativeLeadsBackIff(fs, ts);
    NormalizePreserves(to, []);
    NormalizeDecides(joined, t);
    var cs := Relative(Shown(fs), Shown(ts));
    forall place | AllNames(place) ensures Resolve(place, Components(joined)) == Resolve(place, Shown(fs) + cs) {
      JoinedResolves(place, f, cs);
    }
    SamePlaceJoins(Components(joined), Shown(fs) + cs, Shown(ts), Shown(ts));
  }

  /** Between an absolute path and a relative one there is no way; the end itself is the answer. */
  lemma DifferentFrames(from: string, to: string)
    requires IsAbsolute(from) != IsAbsolute(to)
    ensures RelativePath(from, to) == NormalizeText(to)
  {
    hide NormalizeText;
    NormalizeKeepsRoot(from);
    NormalizeKeepsRoot(to);
  }

  /**
   Joining the relative path to where it starts leads to its end exactly when the end is absolute, or both
   are relative and what the start does not share with the end is plain names.
   */
  lemma RelativeInvertsJoinIff(from: string, to: string)
    ensures var f, t := NormalizeText(from), NormalizeText(to);
      NormalizeText(Push(f, RelativePath(from, to))) == t <==>
      IsAbsolute(t) || (!IsAbsolute(f) && UnsharedNames(Components(f), Components(t)))
  {
    var f, t := NormalizeText(from), NormalizeText(to);
    NormalizePreserves(to, []);
    if IsAbsolute(f) == IsAbsolute(t) {
      SameFrameIff(from, to);
      if IsAbsolute(f) {
        var fs := NormalizedComponents(from);
        var ts := NormalizedComponents(to);
        RootedUnshared(fs, ts);
      }
    } else if IsAbsolute(f) {
      NormalizeKeepsRoot(Push(f, t));
    }
  }

  lemma DotNormalizes()
    ensures Components(".") == [CurDir] && NormalizeText(".") == "."
  {
    TextReads([]);
    assert Stack([CurDir], 0) == [] && Stack([CurDir], 1) == [];
  }

  lemma NameNormalizes(name: string)
    requires IsName(name)
    ensures Components(name) == [Name(name)] && NormalizeText(name) == name
  {
    var cs := [Name(name)];
    SingleReads(cs[0]);
    TextStarts(cs[0]);
    RenderOne("", cs);
    assert Stack(cs, 0) == [] && Stack(cs, 1) == cs;
  }

  lemma DotToName(name: string)
    requires IsName(name)
    ensures TextOf(Relative([CurDir], [Name(name)])) == "../" + name
    ensures !UnsharedNames([CurDir], [Name(name)])
  {
    var cs := [ParentDir, Name(name)];
    TextStarts(cs[1]);
    assert Parents(1) + [Name(name)][0..] == cs;
    assert Relative([CurDir], [Name(name)]) == cs;
    RenderOne("", cs);
    assert Render("", cs, 2) == Push(Render("", cs, 1), Text(cs[1]));
    assert [CurDir][0] == CurDir && Shared([CurDir], [Name(name)]) == 0;
  }

  /** From `.` the relative path goes up once too often. */
  lemma DotIsNotInverted(name: string)
    requires IsName(name)
    ensures RelativePath(".", name) == "../" + name
    ensures NormalizeText(Push(NormalizeText("."), RelativePath(".", name))) != NormalizeText(name)
  {
    hide Push, Components, TextOf, Relative;
    DotNormalizes();
    NameNormalizes(name);
    DotToName(name);
    RelativeInvertsJoinIff(".", name);
    assert name[0] in name;
  }
}
