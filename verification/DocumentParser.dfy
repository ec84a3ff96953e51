/** Parsing a text into headings and paragraphs, and the checkpoints that save the result.

    How identifiers are made and which locators can be serialised are parameters; the values
    that a checkpoint stores are JSON values. */
module DocumentParser {
  import opened Values
  import opened Ordering
  import opened Texts

  /** Fresh identifiers are not empty and never repeat. */
  ghost predicate Sound(newId: nat -> string) {
    (forall n :: newId(n) != "") && forall m, n :: m != n ==> newId(m) != newId(n)
  }

  datatype Json = Null | Bool(b: bool) | Number(n: int) | Text(s: string) | List(items: seq<Json>) | Object(fields: map<string, Json>)

  datatype Block = Block(
    id: string, ordinal: int, kind: string, text: string, path: seq<string>,
    lineStart: int, lineEnd: int, locator: Option<map<string, Json>>)

  datatype Error = EmptyTextDocument | CheckpointInvalid

  // ------------------------------------------------------------ lines

  type Level = n: nat | 1 <= n <= 6 witness 1

  datatype Line = Heading(level: Level, title: string) | Blank | Prose

  function Run(s: string, p: char -> bool): (n: nat)
    ensures n <= |s| && (forall i :: 0 <= i < n ==> p(s[i])) && (n < |s| ==> !p(s[n]))
  {
    if s == "" || !p(s[0]) then 0
    else
      assert s == [s[0]] + s[1..];
      1 + Run(s[1..], p)
  }

  /** The length of the text without white space at its end. */
  function Stripped(s: string): (n: nat)
    ensures n <= |s| && (forall i :: n <= i < |s| ==> IsSpace(s[i])) && (n > 0 ==> !IsSpace(s[n - 1]))
  {
    if s != "" && IsSpace(s[|s| - 1]) then Stripped(s[..|s| - 1]) else |s|
  }

  predicate IsMark(c: char) { c == '#' }

  predicate IsGap(c: char) { c == ' ' || c == '\t' }

  /** One to six `#`, at least one blank, and a title that is not empty; trailing white space
      is not part of the title unless nothing else is left for it. */
  function HeadingOf(line: string): Option<(Level, string)> {
    var level := Run(line, IsMark);
    var rest := line[level..];
    var blanks := Run(rest, IsGap);
    var title := rest[blanks..];
    if level < 1 || level > 6 || blanks == 0 then None
    else if title == "" then (if blanks >= 2 then Some((level, [rest[blanks - 1]])) else None)
    else if Stripped(title) == 0 then Some((level, title[..1]))
    else Some((level, title[..Stripped(title)]))
  }

  /** A way to read a line as a heading: marks, blanks, a title and trailing white space. */
  ghost predicate Shape(line: string, level: nat, blanks: nat, length: nat) {
    && 1 <= level <= 6 && blanks >= 1 && length >= 1 && level + blanks + length <= |line|
    && (forall i :: 0 <= i < level ==> IsMark(line[i]))
    && (forall i :: level <= i < level + blanks ==> IsGap(line[i]))
    && forall i :: level + blanks + length <= i < |line| ==> IsSpace(line[i])
  }

  lemma ShapeLevel(line: string, level: nat, blanks: nat, length: nat)
    requires Shape(line, level, blanks, length)
    ensures level == Run(line, IsMark) && blanks <= Run(line[level..], IsGap)
  {
    assert IsGap(line[level]);
    var run := Run(line[level..], IsGap);
    assert run < |line[level..]| ==> line[level..][run] == line[level + run];
  }

  lemma ReadingsOfHeading(line: string, level: nat, blanks: nat, length: nat)
    requires Shape(line, level, blanks, length)
    ensures HeadingOf(line).Some?
  {
    ShapeLevel(line, level, blanks, length);
  }

  /** A line is a heading if and only if it can be read as one. */
  lemma HeadingIffReadable(line: string)
    ensures HeadingOf(line).Some? <==> exists level: nat, blanks: nat, length: nat :: Shape(line, level, blanks, length)
  {
    forall level: nat, blanks: nat, length: nat | Shape(line, level, blanks, length) ensures HeadingOf(line).Some? {
      ReadingsOfHeading(line, level, blanks, length);
    }
    if HeadingOf(line).Some? {
      var blanks := HeadingIsBestReading(line);
      assert Shape(line, HeadingOf(line).value.0, blanks, |HeadingOf(line).value.1|);
    }
  }

  /** Of all readings a heading takes the one with most blanks, and then the shortest title. */
  lemma HeadingIsBestReading(line: string) returns (blanks: nat)
    requires HeadingOf(line).Some?
    ensures var (level, title) := HeadingOf(line).value;
            IsBest(line, level, blanks, |title|) && title == line[level + blanks..level + blanks + |title|]
  {
    var level, title := HeadingOf(line).value.0, HeadingOf(line).value.1;
    var run := Run(line[level..], IsGap);
    if level + run == |line| {
      blanks := run - 1;
      BlankReading(line, level, run);
    } else {
      blanks := run;
      TitleReading(line, level, run, title);
      TitleIsBest(line, level, run, title);
    }
  }

  lemma BlankReading(line: string, level: nat, run: nat)
    requires HeadingOf(line).Some? && level == HeadingOf(line).value.0 && run == Run(line[level..], IsGap) && level + run == |line|
    ensures run >= 2 && |HeadingOf(line).value.1| == 1 && IsBest(line, level, run - 1, 1)
    ensures HeadingOf(line).value.1 == line[level + run - 1..level + run]
  {
    LastBlank(line, level, run);
    OnlyBlanks(line, level, run);
  }

  lemma LastBlank(line: string, level: nat, run: nat)
    requires HeadingOf(line).Some? && level == HeadingOf(line).value.0 && run == Run(line[level..], IsGap) && level + run == |line|
    ensures run >= 2 && HeadingOf(line).value.1 == line[level + run - 1..level + run]
  {
    assert line[level..][run - 1] == line[level + run - 1];
  }

  ghost predicate IsBest(line: string, level: nat, blanks: nat, length: nat) {
    && Shape(line, level, blanks, length)
    && forall l: nat, b: nat, n: nat :: Shape(line, l, b, n) ==> l == level && b <= blanks && (b == blanks ==> length <= n)
  }

  lemma OnlyBlanks(line: string, level: nat, run: nat)
    requires 1 <= level <= 6 && level == Run(line, IsMark) && run == Run(line[level..], IsGap) && level + run == |line| && run >= 2
    ensures IsBest(line, level, run - 1, 1)
  {
    forall i | level <= i < |line| ensures IsGap(line[i]) {
      assert line[level..][i - level] == line[i];
    }
    forall l: nat, b: nat, n: nat | Shape(line, l, b, n) ensures l == level && b <= run - 1 {
      ShapeLevel(line, l, b, n);
    }
  }

  lemma GapShape(line: string, level: nat, run: nat, length: nat)
    requires 1 <= level <= 6 && level == Run(line, IsMark) && run == Run(line[level..], IsGap) && run >= 1
    requires length >= 1 && level + run + length <= |line|
    requires forall i :: level + run + length <= i < |line| ==> IsSpace(line[i])
    ensures Shape(line, level, run, length)
  {
    forall i | level <= i < level + run ensures IsGap(line[i]) {
      assert line[level..][i - level] == line[i];
    }
  }

  lemma TitleIsBest(line: string, level: nat, run: nat, title: string)
    requires 1 <= level <= 6 && level == Run(line, IsMark) && run == Run(line[level..], IsGap) && run >= 1
    requires title != "" && level + run + |title| <= |line|
    requires forall i :: level + run + |title| <= i < |line| ==> IsSpace(line[i])
    requires forall n: nat :: Shape(line, level, run, n) ==> |title| <= n
    ensures IsBest(line, level, run, |title|)
  {
    GapShape(line, level, run, |title|);
    forall l: nat, b: nat, n: nat | Shape(line, l, b, n) ensures l == level && b <= run {
      ShapeLevel(line, l, b, n);
    }
  }

  lemma TitleReading(line: string, level: nat, blanks: nat, title: string)
    requires level + blanks < |line| && title == (if Stripped(line[level..][blanks..]) == 0 then line[level..][blanks..][..1] else line[level..][blanks..][..Stripped(line[level..][blanks..])])
    ensures level + blanks + |title| <= |line| && title == line[level + blanks..level + blanks + |title|] && |title| >= 1
    ensures forall i :: level + blanks + |title| <= i < |line| ==> IsSpace(line[i])
    ensures forall n: nat :: Shape(line, level, blanks, n) ==> |title| <= n
  {
    var rest := line[level..][blanks..];
    var kept := Stripped(rest);
    assert rest == line[level + blanks..];
    forall i | level + blanks + kept <= i < |line| ensures IsSpace(line[i]) {
      assert rest[i - level - blanks] == line[i];
    }
    if kept > 0 {
      assert line[level + blanks + kept - 1] == rest[kept - 1];
    }
  }

  predicate IsBlank(line: string) {
    forall i :: 0 <= i < |line| ==> IsSpace(line[i])
  }

  function LineOf(line: string): (l: Line)
    ensures l.Heading? ==> l.title != ""
  {
    match HeadingOf(line)
    case Some((level, title)) => Heading(level, title)
    case None => if IsBlank(line) then Blank else Prose
  }

  function Classified(lines: seq<string>): (kinds: seq<Line>)
    ensures |kinds| == |lines| && forall i :: 0 <= i < |lines| ==> kinds[i] == LineOf(lines[i])
  {
    seq(|lines|, i requires 0 <= i < |lines| => LineOf(lines[i]))
  }

  // ------------------------------------------------------------ heading paths

  /** A heading keeps the entries above its level and takes the next place. */
  function PathWith(path: seq<string>, level: Level, title: string): seq<string> {
    (if level - 1 <= |path| then path[..level - 1] else path) + [title]
  }

  /** The heading path after the first `n` lines. */
  function PathAfter(kinds: seq<Line>, n: nat): seq<string>
    requires n <= |kinds|
  {
    if n == 0 then []
    else match kinds[n - 1]
      case Heading(level, title) => PathWith(PathAfter(kinds, n - 1), level, title)
      case _ => PathAfter(kinds, n - 1)
  }

  // ------------------------------------------------------------ blocks

  ghost predicate ProseOnly(kinds: seq<Line>, from: int, to: int)
    requires 0 <= from <= to <= |kinds|
  {
    forall i :: from <= i < to ==> kinds[i] == Prose
  }

  /** What block `k` must be for its line range: a heading line, or a run of prose lines that
      no prose line touches. */
  ghost predicate IsBlock(newId: nat -> string, kinds: seq<Line>, lines: seq<string>, k: nat, b: Block)
    requires |kinds| == |lines|
  {
    && b.id == newId(k) && b.ordinal == k && b.locator == None
    && 1 <= b.lineStart <= b.lineEnd <= |lines|
    && b.path == PathAfter(kinds, b.lineEnd)
    && match kinds[b.lineStart - 1]
       case Heading(level, title) => b.kind == "heading" && b.lineEnd == b.lineStart && b.text == title
       case Blank => false
       case Prose =>
         && b.kind == "paragraph" && ProseOnly(kinds, b.lineStart - 1, b.lineEnd)
         && b.text == JoinRange(lines, b.lineStart - 1, b.lineEnd, '\n')
         && (b.lineStart > 1 ==> kinds[b.lineStart - 2] != Prose)
         && (b.lineEnd < |lines| ==> kinds[b.lineEnd] != Prose)
  }

  ghost predicate Holds(b: Block, line: int) {
    b.lineStart <= line <= b.lineEnd
  }

  ghost predicate Covered(blocks: seq<Block>, line: int) {
    exists k :: 0 <= k < |blocks| && Holds(blocks[k], line)
  }

  ghost predicate InOrder(blocks: seq<Block>) {
    forall j, k :: 0 <= j < k < |blocks| ==> blocks[j].lineEnd < blocks[k].lineStart
  }

  /** The blocks of the first `m` lines: in order, and every line that is not blank is in one. */
  ghost predicate BlocksOf(newId: nat -> string, kinds: seq<Line>, lines: seq<string>, m: nat, blocks: seq<Block>)
    requires m <= |kinds| == |lines|
  {
    && AllBlocks(newId, kinds, lines, blocks)
    && (forall k :: 0 <= k < |blocks| ==> blocks[k].lineEnd <= m)
    && InOrder(blocks)
    && forall n {:trigger Covered(blocks, n)} :: 1 <= n <= m && kinds[n - 1] != Blank ==> Covered(blocks, n)
  }

  lemma AppendCovers(blocks: seq<Block>, b: Block, line: int)
    requires Covered(blocks, line) || Holds(b, line)
    ensures Covered(blocks + [b], line)
  {
    if Covered(blocks, line) {
      var k :| 0 <= k < |blocks| && Holds(blocks[k], line);
      assert Holds((blocks + [b])[k], line);
    } else {
      assert Holds((blocks + [b])[|blocks|], line);
    }
  }

  ghost predicate AllBlocks(newId: nat -> string, kinds: seq<Line>, lines: seq<string>, blocks: seq<Block>)
    requires |kinds| == |lines|
  {
    forall k {:trigger IsBlock(newId, kinds, lines, k, blocks[k])} :: 0 <= k < |blocks| ==> IsBlock(newId, kinds, lines, k, blocks[k])
  }

  lemma AppendOne(newId: nat -> string, kinds: seq<Line>, lines: seq<string>, blocks: seq<Block>, b: Block)
    requires |kinds| == |lines| && AllBlocks(newId, kinds, lines, blocks) && IsBlock(newId, kinds, lines, |blocks|, b)
    ensures AllBlocks(newId, kinds, lines, blocks + [b])
  {
    var more := blocks + [b];
    forall k | 0 <= k < |more| ensures IsBlock(newId, kinds, lines, k, more[k]) {
      if k < |blocks| {
        assert IsBlock(newId, kinds, lines, k, blocks[k]) && more[k] == blocks[k];
      }
    }
  }

  lemma AppendBlock(newId: nat -> string, kinds: seq<Line>, lines: seq<string>, m: nat, blocks: seq<Block>, b: Block)
    requires m < |kinds| == |lines| && BlocksOf(newId, kinds, lines, m, blocks)
    requires IsBlock(newId, kinds, lines, |blocks|, b) && b.lineStart == m + 1
    ensures BlocksOf(newId, kinds, lines, b.lineEnd, blocks + [b])
  {
    AppendOne(newId, kinds, lines, blocks, b);
    forall n | 1 <= n <= b.lineEnd && kinds[n - 1] != Blank ensures Covered(blocks + [b], n) {
      assert n <= m ==> Covered(blocks, n);
      AppendCovers(blocks, b, n);
    }
  }

  /** A paragraph not yet closed: the prose lines from `start` to the `n`th. */
  ghost predicate Open(kinds: seq<Line>, lines: seq<string>, n: nat, paragraph: seq<string>, start: nat)
    requires n <= |kinds| == |lines|
  {
    && 1 <= start <= n + 1
    && |paragraph| == n + 1 - start && (forall i :: 0 <= i < |paragraph| ==> paragraph[i] == lines[start - 1 + i])
    && ProseOnly(kinds, start - 1, n)
    && (start > 1 ==> kinds[start - 2] != Prose)
  }

  /** Where the scan stands after `n` lines. */
  ghost predicate Progress(newId: nat -> string, kinds: seq<Line>, lines: seq<string>, n: nat, blocks: seq<Block>, path: seq<string>, paragraph: seq<string>, start: nat)
    requires n <= |kinds| == |lines|
  {
    path == PathAfter(kinds, n) && Open(kinds, lines, n, paragraph, start) && BlocksOf(newId, kinds, lines, start - 1, blocks)
  }

  method Flush(newId: nat -> string, ghost kinds: seq<Line>, lines: seq<string>, n: nat, paragraph: seq<string>, start: nat, path: seq<string>, blocks: seq<Block>) returns (r: seq<Block>)
    requires n <= |kinds| == |lines| && Progress(newId, kinds, lines, n, blocks, path, paragraph, start)
    requires n < |lines| ==> kinds[n] != Prose
    ensures BlocksOf(newId, kinds, lines, n, r)
  {
    if paragraph == [] {
      return blocks;
    }
    JoinRangeJoins(lines, start - 1, n, '\n');
    assert paragraph == lines[start - 1..n];
    var b := Block(newId(|blocks|), |blocks|, "paragraph", Join(paragraph, '\n'), path, start, n, None);
    AppendBlock(newId, kinds, lines, start - 1, blocks, b);
    r := blocks + [b];
  }

  lemma HeadingStep(newId: nat -> string, kinds: seq<Line>, lines: seq<string>, n: nat, blocks: seq<Block>, b: Block)
    requires n < |kinds| == |lines| && BlocksOf(newId, kinds, lines, n, blocks) && kinds[n].Heading?
    requires b == Block(newId(|blocks|), |blocks|, "heading", kinds[n].title, PathAfter(kinds, n + 1), n + 1, n + 1, None)
    ensures Progress(newId, kinds, lines, n + 1, blocks + [b], PathAfter(kinds, n + 1), [], n + 2)
  {
    AppendBlock(newId, kinds, lines, n, blocks, b);
  }

  lemma BlankStep(newId: nat -> string, kinds: seq<Line>, lines: seq<string>, n: nat, blocks: seq<Block>, path: seq<string>)
    requires n < |kinds| == |lines| && BlocksOf(newId, kinds, lines, n, blocks) && kinds[n] == Blank && path == PathAfter(kinds, n)
    ensures Progress(newId, kinds, lines, n + 1, blocks, path, [], n + 2)
  {
  }

  lemma ProseStep(newId: nat -> string, kinds: seq<Line>, lines: seq<string>, n: nat, blocks: seq<Block>, path: seq<string>, paragraph: seq<string>, start: nat)
    requires n < |kinds| == |lines| && Progress(newId, kinds, lines, n, blocks, path, paragraph, start) && kinds[n] == Prose
    ensures Progress(newId, kinds, lines, n + 1, blocks, path, paragraph + [lines[n]], start)
  {
  }

  /** The parser's whole result for a text. */
  ghost predicate IsParse(newId: nat -> string, text: string, blocks: seq<Block>) {
    var lines := Split(text, '\n');
    BlocksOf(newId, Classified(lines), lines, |lines|, blocks)
  }

  /** The scan over the classified lines. */
  method Scan(newId: nat -> string, kinds: seq<Line>, lines: seq<string>) returns (blocks: seq<Block>)
    requires |kinds| == |lines|
    ensures BlocksOf(newId, kinds, lines, |lines|, blocks)
  {
    blocks := [];
    var path: seq<string> := [];
    var paragraph: seq<string> := [];
    var start: nat := 1;
    for n := 0 to |lines|
      invariant Progress(newId, kinds, lines, n, blocks, path, paragraph, start)
    {
      match kinds[n]
      case Heading(level, title) =>
        blocks := Flush(newId, kinds, lines, n, paragraph, start, path, blocks);
        path := PathWith(path, level, title);
        var b := Block(newId(|blocks|), |blocks|, "heading", title, path, n + 1, n + 1, None);
        HeadingStep(newId, kinds, lines, n, blocks, b);
        blocks, paragraph, start := blocks + [b], [], n + 2;
      case Blank =>
        blocks := Flush(newId, kinds, lines, n, paragraph, start, path, blocks);
        BlankStep(newId, kinds, lines, n, blocks, path);
        paragraph, start := [], n + 2;
      case Prose =>
        ProseStep(newId, kinds, lines, n, blocks, path, paragraph, start);
        paragraph := paragraph + [lines[n]];
    }
    blocks := Flush(newId, kinds, lines, |lines|, paragraph, start, path, blocks);
  }

  /** Every line that is not blank goes into exactly one block, and nothing else does. */
  method BuildDocumentIr(newId: nat -> string, text: string) returns (r: Result<seq<Block>, Error>)
    ensures r.Ok? ==> r.value != [] && IsParse(newId, text, r.value)
    ensures r.Err? <==> forall k :: k in Classified(Split(text, '\n')) ==> k == Blank
    ensures r.Err? ==> r.error == EmptyTextDocument
  {
    var lines := Split(text, '\n');
    var kinds := Classified(lines);
    var blocks := Scan(newId, kinds, lines);
    AllBlank(newId, kinds, lines, blocks);
    r := if blocks == [] then Err(EmptyTextDocument) else Ok(blocks);
  }

  lemma AllBlank(newId: nat -> string, kinds: seq<Line>, lines: seq<string>, blocks: seq<Block>)
    requires |kinds| == |lines| && BlocksOf(newId, kinds, lines, |lines|, blocks)
    ensures blocks == [] <==> forall k :: k in kinds ==> k == Blank
  {
    if blocks == [] {
      forall i | 0 <= i < |kinds| ensures kinds[i] == Blank {
        assert !Covered(blocks, i + 1);
      }
    } else {
      assert IsBlock(newId, kinds, lines, 0, blocks[0]);
      assert kinds[blocks[0].lineStart - 1] in kinds;
    }
  }

  /** No line is in two blocks, and no blank line is in any. */
  lemma BlocksAreDisjoint(newId: nat -> string, kinds: seq<Line>, lines: seq<string>, blocks: seq<Block>, line: int, j: nat, k: nat)
    requires |kinds| == |lines| && BlocksOf(newId, kinds, lines, |lines|, blocks) && j < |blocks| && k < |blocks|
    requires Holds(blocks[j], line) && Holds(blocks[k], line)
    ensures j == k && 1 <= line <= |lines| && kinds[line - 1] != Blank
  {
    assert IsBlock(newId, kinds, lines, k, blocks[k]);
  }

  // ------------------------------------------------------------ nesting of headings

  datatype Section = Section(level: Level, title: string)

  /** The open sections that enclose a heading of a level: those above the first one as deep. */
  function Enclosing(open: seq<Section>, level: Level): (r: seq<Section>)
    ensures |r| <= |open| && r == open[..|r|]
    ensures r != [] ==> r[|r| - 1].level < level
    ensures forall i :: |r| <= i < |open| ==> open[i].level >= level
  {
    if open != [] && open[|open| - 1].level >= level then Enclosing(open[..|open| - 1], level) else open
  }

  /** The sections open after the first `n` lines, outermost first. */
  function SectionsAfter(kinds: seq<Line>, n: nat): seq<Section>
    requires n <= |kinds|
  {
    if n == 0 then []
    else match kinds[n - 1]
      case Heading(level, title) => Enclosing(SectionsAfter(kinds, n - 1), level) + [Section(level, title)]
      case _ => SectionsAfter(kinds, n - 1)
  }

  function Titles(open: seq<Section>): (r: seq<string>)
    ensures |r| == |open| && forall i :: 0 <= i < |r| ==> r[i] == open[i].title
  {
    seq(|open|, i requires 0 <= i < |open| => open[i].title)
  }

  ghost predicate Deepening(open: seq<Section>) {
    forall i :: 0 <= i < |open| ==> open[i].level >= i + 1 && (i > 0 ==> open[i - 1].level < open[i].level)
  }

  lemma {:induction false} SectionsDeepen(kinds: seq<Line>, n: nat)
    requires n <= |kinds|
    ensures Deepening(SectionsAfter(kinds, n))
  {
    if n > 0 {
      SectionsDeepen(kinds, n - 1);
    }
  }

  /** The path of a heading names exactly the sections that enclose it. */
  ghost predicate Nested(kinds: seq<Line>, n: nat)
    requires n <= |kinds|
  {
    PathAfter(kinds, n) == Titles(SectionsAfter(kinds, n))
  }

  /** Of the entries a heading keeps, the deepest is above the heading. */
  ghost predicate KeepsAncestors(kinds: seq<Line>, n: nat)
    requires n < |kinds|
  {
    kinds[n].Heading? ==>
      var open, level := SectionsAfter(kinds, n), kinds[n].level;
      var kept := if level - 1 <= |open| then level - 1 else |open|;
      kept == 0 || open[kept - 1].level < level
  }

  lemma KeptEntries(open: seq<Section>, level: Level, title: string)
    requires Deepening(open)
    ensures PathWith(Titles(open), level, title) == Titles(Enclosing(open, level) + [Section(level, title)])
       <==> (var kept := if level - 1 <= |open| then level - 1 else |open|; kept == 0 || open[kept - 1].level < level)
  {
    var kept := if level - 1 <= |open| then level - 1 else |open|;
    var enclosing := Enclosing(open, level);
    assert |PathWith(Titles(open), level, title)| == kept + 1;
    assert |Titles(enclosing + [Section(level, title)])| == |enclosing| + 1;
    if enclosing != [] {
      assert open[|enclosing| - 1].level >= |enclosing|;
    }
    if kept == |enclosing| {
      assert PathWith(Titles(open), level, title) == Titles(enclosing + [Section(level, title)]);
    }
  }

  lemma NestedStep(kinds: seq<Line>, n: nat)
    requires n < |kinds| && Nested(kinds, n)
    ensures Nested(kinds, n + 1) <==> KeepsAncestors(kinds, n)
  {
    SectionsDeepen(kinds, n);
    if kinds[n].Heading? {
      KeptEntries(SectionsAfter(kinds, n), kinds[n].level, kinds[n].title);
    }
  }

  ghost predicate NestedUpTo(kinds: seq<Line>, n: nat)
    requires n <= |kinds|
  {
    n == 0 || (NestedUpTo(kinds, n - 1) && Nested(kinds, n))
  }

  ghost predicate KeepsUpTo(kinds: seq<Line>, n: nat)
    requires n <= |kinds|
  {
    n == 0 || (KeepsUpTo(kinds, n - 1) && KeepsAncestors(kinds, n - 1))
  }

  /** Heading paths name the enclosing sections throughout a document if and only if no
      heading keeps an entry as deep as itself. */
  lemma {:induction false} NestedThroughout(kinds: seq<Line>, n: nat)
    requires n <= |kinds|
    ensures NestedUpTo(kinds, n) <==> KeepsUpTo(kinds, n)
  {
    if n > 0 {
      NestedThroughout(kinds, n - 1);
      if NestedUpTo(kinds, n - 1) {
        NestedStep(kinds, n - 1);
      }
    }
  }

  ghost predicate SkipsNoLevel(kinds: seq<Line>) {
    forall n :: 0 <= n < |kinds| && kinds[n].Heading? ==> kinds[n].level <= |SectionsAfter(kinds, n)| + 1
  }

  ghost predicate OnePerLevel(open: seq<Section>) {
    forall i :: 0 <= i < |open| ==> open[i].level == i + 1
  }

  lemma OpenNext(open: seq<Section>, level: Level, title: string)
    requires OnePerLevel(open) && level <= |open| + 1
    ensures OnePerLevel(Enclosing(open, level) + [Section(level, title)])
  {
    var enclosing := Enclosing(open, level);
    if |enclosing| < |open| {
      assert open[|enclosing|].level >= level;
    }
  }

  /** Documents that never skip a level keep true paths, one entry for each level. */
  lemma {:induction false} NoSkipsNest(kinds: seq<Line>, n: nat)
    requires n <= |kinds| && SkipsNoLevel(kinds)
    ensures Nested(kinds, n) && OnePerLevel(SectionsAfter(kinds, n))
  {
    if n > 0 {
      NoSkipsNest(kinds, n - 1);
      if kinds[n - 1].Heading? {
        OpenNext(SectionsAfter(kinds, n - 1), kinds[n - 1].level, kinds[n - 1].title);
      }
      NestedStep(kinds, n - 1);
    }
  }

  /** A skipped level misplaces the next heading of the same depth: `c` is put below `b`. */
  lemma SkippedLevel(kinds: seq<Line>, a: string, b: string, c: string)
    requires kinds == [Heading(1, a), Heading(3, b), Heading(3, c)]
    ensures PathAfter(kinds, 3) == [a, b, c]
    ensures Titles(SectionsAfter(kinds, 3)) == [a, c]
  {
    assert PathAfter(kinds, 1) == [a] && SectionsAfter(kinds, 1) == [Section(1, a)];
    assert PathAfter(kinds, 2) == [a, b];
    assert SectionsAfter(kinds, 2) == [Section(1, a), Section(3, b)];
    assert Enclosing(SectionsAfter(kinds, 2), 3) == [Section(1, a)];
  }

  // ------------------------------------------------------------ usability

  ghost predicate ValidStructure(blocks: seq<Block>) {
    && (forall k :: 0 <= k < |blocks| ==> WellShaped(blocks[k], k))
    && DistinctIds(blocks)
  }

  predicate WellShaped(b: Block, k: int) {
    b.id != "" && b.ordinal == k && b.kind != "" && b.lineStart >= 0 && b.lineEnd >= b.lineStart
  }

  ghost predicate DistinctIds(blocks: seq<Block>) {
    forall j, k :: 0 <= j < k < |blocks| ==> blocks[j].id != blocks[k].id
  }

  method StructureIsValid(blocks: seq<Block>) returns (ok: bool)
    ensures ok <==> ValidStructure(blocks)
  {
    var seen: set<string> := {};
    for k := 0 to |blocks|
      invariant forall i :: 0 <= i < k ==> WellShaped(blocks[i], i)
      invariant DistinctIds(blocks[..k])
      invariant forall d :: d in seen <==> exists i :: 0 <= i < k && blocks[i].id == d
    {
      if !WellShaped(blocks[k], k) || blocks[k].id in seen {
        return false;
      }
      seen := seen + {blocks[k].id};
    }
    assert blocks[..|blocks|] == blocks;
    ok := true;
  }

  const LOCATOR_KEYS := {"page", "page_index", "slide", "sheet", "paragraph", "cell", "bbox"}

  predicate HasLocator(b: Block) {
    (b.lineStart > 0 && b.lineEnd >= b.lineStart) || (b.locator.Some? && exists key :: key in LOCATOR_KEYS && key in b.locator.value)
  }

  predicate Located(blocks: seq<Block>) {
    forall k :: 0 <= k < |blocks| ==> HasLocator(blocks[k])
  }

  function Count(p: char -> bool, s: string): (n: nat)
    ensures n == 0 <==> forall i :: 0 <= i < |s| ==> !p(s[i])
  {
    if s == "" then 0
    else
      assert s == s[..|s| - 1] + [s[|s| - 1]];
      Count(p, s[..|s| - 1]) + if p(s[|s| - 1]) then 1 else 0
  }

  /** The characters of a kind in the text of all blocks but figures. */
  function CountIn(p: char -> bool, blocks: seq<Block>): (n: nat)
    ensures n == 0 <==> forall k :: 0 <= k < |blocks| ==> blocks[k].kind == "figure" || Count(p, blocks[k].text) == 0
  {
    if blocks == [] then 0
    else
      var last := |blocks| - 1;
      assert blocks == blocks[..last] + [blocks[last]];
      CountIn(p, blocks[..last]) + if blocks[last].kind == "figure" then 0 else Count(p, blocks[last].text)
  }

  lemma {:induction false} CountMeans(p: char -> bool, s: string)
    ensures Count(p, s) == |set i | 0 <= i < |s| && p(s[i])|
  {
    if s != "" {
      var n := |s| - 1;
      CountMeans(p, s[..n]);
      var before, all := (set i | 0 <= i < n && p(s[..n][i])), (set i | 0 <= i < |s| && p(s[i]));
      assert all == before + if p(s[n]) then {n} else {};
    }
  }

  /** The text of all blocks but figures. */
  function TextOfBlocks(blocks: seq<Block>): string {
    if blocks == [] then ""
    else
      var last := blocks[|blocks| - 1];
      TextOfBlocks(blocks[..|blocks| - 1]) + if last.kind == "figure" then "" else last.text
  }

  lemma {:induction false} CountJoined(p: char -> bool, a: string, b: string)
    ensures Count(p, a + b) == Count(p, a) + Count(p, b)
  {
    if b == "" {
      assert a + b == a;
    } else {
      CountJoined(p, a, b[..|b| - 1]);
      assert (a + b)[..|a + b| - 1] == a + b[..|b| - 1];
    }
  }

  /** The characters counted are those of that text. */
  lemma {:induction false} CountInMeans(p: char -> bool, blocks: seq<Block>)
    ensures CountIn(p, blocks) == Count(p, TextOfBlocks(blocks))
  {
    if blocks != [] {
      var n := |blocks| - 1;
      CountInMeans(p, blocks[..n]);
      CountJoined(p, TextOfBlocks(blocks[..n]), if blocks[n].kind == "figure" then "" else blocks[n].text);
    }
  }

  function Legible(readable: char -> bool, blocks: seq<Block>): nat {
    CountIn(c => IsVisible(c) && readable(c), blocks)
  }

  function Illegible(readable: char -> bool, blocks: seq<Block>): nat {
    CountIn(c => IsVisible(c) && !readable(c), blocks)
  }

  datatype Failure = Empty | Invalid | Garbled | Unlocated | Insufficient

  /** `readable` says which characters are neither control, private nor replacement ones. */
  method AssessDocumentIr(readable: char -> bool, minimum: nat, blocks: seq<Block>) returns (failure: Option<Failure>)
    ensures failure == Assessment(readable, minimum, blocks)
  {
    var visible := CountIn(IsVisible, blocks);
    var legible := Legible(readable, blocks);
    var valid := StructureIsValid(blocks);
    var located := true;
    for k := 0 to |blocks|
      invariant located <==> forall i :: 0 <= i < k ==> HasLocator(blocks[i])
    {
      located := located && HasLocator(blocks[k]);
    }
    failure :=
      if blocks == [] || visible == 0 then Some(Empty)
      else if !valid then Some(Invalid)
      else if 5 * legible < 4 * visible then Some(Garbled)
      else if !located then Some(Unlocated)
      else if legible < minimum then Some(Insufficient)
      else None;
  }

  ghost function Assessment(readable: char -> bool, minimum: nat, blocks: seq<Block>): Option<Failure> {
    var visible := CountIn(IsVisible, blocks);
    var legible := Legible(readable, blocks);
    if blocks == [] || visible == 0 then Some(Empty)
    else if !ValidStructure(blocks) then Some(Invalid)
    else if 5 * legible < 4 * visible then Some(Garbled)
    else if !Located(blocks) then Some(Unlocated)
    else if legible < minimum then Some(Insufficient)
    else None
  }

  /** Parsed blocks are structurally valid, located and of known kinds. */
  lemma ParseIsValid(newId: nat -> string, kinds: seq<Line>, lines: seq<string>, blocks: seq<Block>)
    requires |kinds| == |lines| && BlocksOf(newId, kinds, lines, |lines|, blocks)
    requires Sound(newId)
    ensures ValidStructure(blocks)
    ensures forall k :: 0 <= k < |blocks| ==> HasLocator(blocks[k]) && blocks[k].kind in {"heading", "paragraph"} && blocks[k].locator == None
    ensures forall k :: 0 <= k < |blocks| ==> blocks[k].lineStart >= 1
  {
    forall k | 0 <= k < |blocks|
      ensures blocks[k].id == newId(k) && WellShaped(blocks[k], k) && HasLocator(blocks[k])
      ensures blocks[k].kind in {"heading", "paragraph"} && blocks[k].lineStart >= 1 && blocks[k].locator == None
    {
      assert IsBlock(newId, kinds, lines, k, blocks[k]);
    }
  }

  lemma {:induction false} JoinKeepsFirst(parts: seq<string>, from: nat, to: nat, c: char)
    requires from < to <= |parts| && c in parts[from]
    ensures c in JoinRange(parts, from, to, '\n')
  {
  }

  /** A parse is never judged invalid or unlocated, and empty only if it has nothing but
      headings whose titles are white space. */
  lemma ParseAssessment(newId: nat -> string, readable: char -> bool, minimum: nat, text: string, blocks: seq<Block>)
    requires Sound(newId) && IsParse(newId, text, blocks) && blocks != []
    ensures Assessment(readable, minimum, blocks) !in {Some(Invalid), Some(Unlocated)}
    ensures Assessment(readable, minimum, blocks) == Some(Empty)
       <==> forall k :: 0 <= k < |blocks| ==> blocks[k].kind == "heading" && IsBlank(blocks[k].text)
  {
    var lines := Split(text, '\n');
    ParseIsValid(newId, Classified(lines), lines, blocks);
    ParagraphsAreVisible(newId, Classified(lines), lines, blocks);
    EmptyIffBlankHeadings(blocks);
  }

  predicate IsVisible(c: char) {
    !IsSpace(c)
  }

  lemma EmptyIffBlankHeadings(blocks: seq<Block>)
    requires forall k :: 0 <= k < |blocks| ==> blocks[k].kind in {"heading", "paragraph"}
    requires forall k :: 0 <= k < |blocks| && blocks[k].kind == "paragraph" ==> !IsBlank(blocks[k].text)
    ensures CountIn(IsVisible, blocks) == 0 <==> forall k :: 0 <= k < |blocks| ==> blocks[k].kind == "heading" && IsBlank(blocks[k].text)
  {
    forall k | 0 <= k < |blocks| ensures Count(IsVisible, blocks[k].text) == 0 <==> IsBlank(blocks[k].text) {
    }
  }

  lemma ParagraphsAreVisible(newId: nat -> string, kinds: seq<Line>, lines: seq<string>, blocks: seq<Block>)
    requires kinds == Classified(lines) && BlocksOf(newId, kinds, lines, |lines|, blocks)
    ensures forall k :: 0 <= k < |blocks| && blocks[k].kind == "paragraph" ==> !IsBlank(blocks[k].text)
  {
    forall k | 0 <= k < |blocks| && blocks[k].kind == "paragraph" ensures !IsBlank(blocks[k].text) {
      assert IsBlock(newId, kinds, lines, k, blocks[k]);
      ParagraphIsVisible(newId, kinds, lines, k, blocks[k]);
    }
  }

  lemma ParagraphIsVisible(newId: nat -> string, kinds: seq<Line>, lines: seq<string>, k: nat, b: Block)
    requires kinds == Classified(lines) && IsBlock(newId, kinds, lines, k, b)
    ensures b.kind == "paragraph" ==> !IsBlank(b.text)
  {
    if b.kind == "paragraph" {
      var from, to := b.lineStart - 1, b.lineEnd;
      assert from < to <= |lines| && kinds[from] == Prose && b.text == JoinRange(lines, from, to, '\n');
      ProseIsVisible(lines, kinds, from, to);
    }
  }

  lemma ProseIsVisible(lines: seq<string>, kinds: seq<Line>, from: nat, to: nat)
    requires kinds == Classified(lines) && from < to <= |lines| && kinds[from] == Prose
    ensures !IsBlank(JoinRange(lines, from, to, '\n'))
  {
    var i :| 0 <= i < |lines[from]| && !IsSpace(lines[from][i]);
    JoinKeepsFirst(lines, from, to, lines[from][i]);
    var joined := JoinRange(lines, from, to, '\n');
    var k :| 0 <= k < |joined| && joined[k] == lines[from][i];
  }

  lemma BlankTitleLine()
    ensures Split("#  ", '\n') == ["#  "] && LineOf("#  ") == Heading(1, " ")
  {
    var line := "#  ";
    SplitWithout(line, '\n');
    assert Run(line, IsMark) == 1;
    assert line[1..] == "  " && Run(line[1..], IsGap) == 2;
  }

  /** A text that is one heading mark and blanks is parsed, and then judged empty. */
  lemma BlankTitleIsEmpty(newId: nat -> string, readable: char -> bool, minimum: nat, blocks: seq<Block>)
    requires Sound(newId) && IsParse(newId, "#  ", blocks)
    ensures blocks != [] && Assessment(readable, minimum, blocks) == Some(Empty)
  {
    BlankTitleLine();
    var lines := ["#  "];
    var kinds := Classified(lines);
    assert kinds == [Heading(1, " ")];
    assert Covered(blocks, 1);
    forall k | 0 <= k < |blocks| ensures blocks[k].text == " " && blocks[k].kind == "heading" {
      assert IsBlock(newId, kinds, lines, k, blocks[k]);
    }
    ParseAssessment(newId, readable, minimum, "#  ", blocks);
  }

  /** A document is usable exactly if it has visible text, a valid structure, four fifths of
      the visible characters legible, a location for every block and enough legible text. */
  lemma UsableIff(readable: char -> bool, minimum: nat, blocks: seq<Block>)
    ensures Assessment(readable, minimum, blocks) == None <==>
              var legible := Legible(readable, blocks);
              && HasVisibleText(blocks) && ValidStructure(blocks) && Located(blocks)
              && 4 * CountIn(IsVisible, blocks) <= 5 * legible && minimum <= legible
  {
    VisibleIff(blocks);
  }

  /** Empty: there is no visible text outside figures. */
  lemma EmptyIff(readable: char -> bool, minimum: nat, blocks: seq<Block>)
    ensures Assessment(readable, minimum, blocks) == Some(Empty) <==> !HasVisibleText(blocks)
  {
    VisibleIff(blocks);
  }

  /** Invalid: there is text, but an identifier is missing or repeated, or a block is out of
      place or without kind or proper line range. */
  lemma InvalidIff(readable: char -> bool, minimum: nat, blocks: seq<Block>)
    ensures Assessment(readable, minimum, blocks) == Some(Invalid) <==> HasVisibleText(blocks) && !ValidStructure(blocks)
  {
    VisibleIff(blocks);
  }

  /** Garbled: more than a fifth of the visible characters of a valid document are illegible. */
  lemma GarbledIff(readable: char -> bool, minimum: nat, blocks: seq<Block>)
    ensures Assessment(readable, minimum, blocks) == Some(Garbled) <==>
              && ValidStructure(blocks)
              && CountIn(IsVisible, blocks) < 5 * Illegible(readable, blocks)
  {
    VisibleIff(blocks);
    VisibleSplits(readable, blocks);
  }

  /** Unlocated: mostly legible and valid, but some block says nothing about where it is. */
  lemma UnlocatedIff(readable: char -> bool, minimum: nat, blocks: seq<Block>)
    ensures Assessment(readable, minimum, blocks) == Some(Unlocated) <==>
              && HasVisibleText(blocks) && ValidStructure(blocks) && !Located(blocks)
              && 5 * Illegible(readable, blocks) <= CountIn(IsVisible, blocks)
  {
    VisibleIff(blocks);
    VisibleSplits(readable, blocks);
  }

  /** Insufficient: nothing is wrong but that there are fewer legible characters than asked for. */
  lemma InsufficientIff(readable: char -> bool, minimum: nat, blocks: seq<Block>)
    ensures Assessment(readable, minimum, blocks) == Some(Insufficient) <==>
              && HasVisibleText(blocks) && ValidStructure(blocks) && Located(blocks)
              && 5 * Illegible(readable, blocks) <= CountIn(IsVisible, blocks) && Legible(readable, blocks) < minimum
  {
    VisibleIff(blocks);
    VisibleSplits(readable, blocks);
  }

  lemma {:induction false} SplitText(readable: char -> bool, text: string)
    ensures Count(IsVisible, text) == Count(c => IsVisible(c) && readable(c), text) + Count(c => IsVisible(c) && !readable(c), text)
  {
    if text != "" {
      SplitText(readable, text[..|text| - 1]);
    }
  }

  /** Visible characters are legible or not. */
  lemma {:induction false} VisibleSplits(readable: char -> bool, blocks: seq<Block>)
    ensures CountIn(IsVisible, blocks) == Legible(readable, blocks) + Illegible(readable, blocks)
  {
    if blocks != [] {
      var last := |blocks| - 1;
      VisibleSplits(readable, blocks[..last]);
      SplitText(readable, blocks[last].text);
    }
  }

  ghost predicate HasVisibleText(blocks: seq<Block>) {
    exists k :: 0 <= k < |blocks| && blocks[k].kind != "figure" && !IsBlank(blocks[k].text)
  }

  lemma VisibleIff(blocks: seq<Block>)
    ensures CountIn(IsVisible, blocks) > 0 <==> HasVisibleText(blocks)
  {
    forall k | 0 <= k < |blocks| ensures Count(IsVisible, blocks[k].text) == 0 <==> IsBlank(blocks[k].text) {
    }
  }

  // ------------------------------------------------------------ the conversion checkpoint

  function Get(fields: map<string, Json>, key: string): Json {
    if key in fields then fields[key] else Null
  }

  function PathJson(path: seq<string>): seq<Json> {
    if path == [] then [] else [Text(path[0])] + PathJson(path[1..])
  }

  function BlockJson(b: Block): Json {
    Object(map[
             "block_id" := Text(b.id), "ordinal" := Number(b.ordinal), "kind" := Text(b.kind), "text" := Text(b.text),
             "heading_path" := List(PathJson(b.path)),
             "line_start" := Number(b.lineStart), "line_end" := Number(b.lineEnd),
             "locator" := if b.locator.Some? then Object(b.locator.value) else Null])
  }

  /** Without images the blocks stand alone, as in the first checkpoints. */
  function DocumentIrCheckpoint(blocks: seq<Block>, images: seq<Json>): Json {
    var payload := List(seq(|blocks|, k requires 0 <= k < |blocks| => BlockJson(blocks[k])));
    if images == [] then payload else Object(map["blocks" := payload, "source_images" := List(images)])
  }

  function TextsOf(items: seq<Json>): Option<seq<string>> {
    if items == [] then Some([])
    else match (items[0], TextsOf(items[1..]))
      case (Text(s), Some(rest)) => Some([s] + rest)
      case _ => None
  }

  /** One saved block, if its fields are well formed and it stands at its place. */
  function BlockFrom(serialisable: map<string, Json> -> bool, item: Json, place: int): Option<Block> {
    match item
    case Object(f) => (
      match (Get(f, "block_id"), Get(f, "kind"), Get(f, "text"), Get(f, "heading_path"), Get(f, "ordinal"), Get(f, "line_start"), Get(f, "line_end"))
      case (Text(id), Text(kind), Text(text), List(path), Number(ordinal), Number(from), Number(to)) =>
        var titles, locator := TextsOf(path), Get(f, "locator");
        if id == "" || kind == "" || titles == None || ordinal != place || from < 1 || to < from then None
        else if locator.Null? then Some(Block(id, ordinal, kind, text, titles.value, from, to, None))
        else if locator.Object? && serialisable(locator.fields) then Some(Block(id, ordinal, kind, text, titles.value, from, to, Some(locator.fields)))
        else None
      case _ => None)
    case _ => None
  }

  function ItemsOf(payload: Json): Option<seq<Json>> {
    match (if payload.Object? then Get(payload.fields, "blocks") else payload)
    case List(items) => Some(items)
    case _ => None
  }

  ghost predicate Restores(serialisable: map<string, Json> -> bool, payload: Json, blocks: seq<Block>) {
    var items := ItemsOf(payload);
    && items.Some? && |items.value| == |blocks| > 0
    && (forall k :: 0 <= k < |blocks| ==> BlockFrom(serialisable, items.value[k], k) == Some(blocks[k]))
    && DistinctIds(blocks)
  }

  method DocumentIrFromCheckpoint(serialisable: map<string, Json> -> bool, payload: Json) returns (r: Result<seq<Block>, Error>)
    ensures r.Ok? ==> Restores(serialisable, payload, r.value)
    ensures r.Err? ==> r.error == CheckpointInvalid && forall blocks :: !Restores(serialisable, payload, blocks)
  {
    var items := ItemsOf(payload);
    if items == None {
      return Err(CheckpointInvalid);
    }
    var blocks: seq<Block> := [];
    var seen: set<string> := {};
    for k := 0 to |items.value|
      invariant |blocks| == k && forall i :: 0 <= i < k ==> BlockFrom(serialisable, items.value[i], i) == Some(blocks[i])
      invariant DistinctIds(blocks)
      invariant forall d :: d in seen <==> exists i :: 0 <= i < k && blocks[i].id == d
    {
      var b := BlockFrom(serialisable, items.value[k], k);
      if b == None {
        return Err(CheckpointInvalid);
      }
      if b.value.id in seen {
        ghost var i :| 0 <= i < k && blocks[i].id == b.value.id;
        forall other ensures !Restores(serialisable, payload, other) {
          RepeatedIdRefused(serialisable, payload, other, i, k);
        }
        return Err(CheckpointInvalid);
      }
      seen := seen + {b.value.id};
      blocks := blocks + [b.value];
    }
    r := if blocks == [] then Err(CheckpointInvalid) else Ok(blocks);
  }

  lemma RepeatedIdRefused(serialisable: map<string, Json> -> bool, payload: Json, blocks: seq<Block>, i: nat, k: nat)
    requires ItemsOf(payload).Some? && i < k < |ItemsOf(payload).value|
    requires var b, c := BlockFrom(serialisable, ItemsOf(payload).value[i], i), BlockFrom(serialisable, ItemsOf(payload).value[k], k);
             b.Some? && c.Some? && b.value.id == c.value.id
    ensures !Restores(serialisable, payload, blocks)
  {
  }

  /** A block that a checkpoint can carry at a place. */
  predicate Saveable(serialisable: map<string, Json> -> bool, b: Block, place: int) {
    && b.id != "" && b.kind != "" && b.ordinal == place && 1 <= b.lineStart <= b.lineEnd
    && (b.locator.Some? ==> serialisable(b.locator.value))
  }

  lemma {:induction false} TextsBack(path: seq<string>)
    ensures TextsOf(PathJson(path)) == Some(path)
  {
    if path != [] {
      TextsBack(path[1..]);
      assert PathJson(path)[1..] == PathJson(path[1..]);
      assert [path[0]] + path[1..] == path;
    }
  }

  lemma BlockBack(serialisable: map<string, Json> -> bool, b: Block, place: int)
    ensures BlockFrom(serialisable, BlockJson(b), place) == if Saveable(serialisable, b, place) then Some(b) else None
  {
    TextsBack(b.path);
  }

  ghost predicate AllSaveable(serialisable: map<string, Json> -> bool, blocks: seq<Block>) {
    blocks != [] && DistinctIds(blocks) && forall k :: 0 <= k < |blocks| ==> Saveable(serialisable, blocks[k], k)
  }

  /** A checkpoint restores exactly what was saved, if and only if that was saveable; anything
      else is refused rather than altered. */
  lemma CheckpointRoundTrip(serialisable: map<string, Json> -> bool, blocks: seq<Block>, images: seq<Json>, restored: seq<Block>)
    ensures Restores(serialisable, DocumentIrCheckpoint(blocks, images), restored) <==> restored == blocks && AllSaveable(serialisable, blocks)
  {
    forall k | 0 <= k < |blocks| ensures BlockFrom(serialisable, BlockJson(blocks[k]), k) == if Saveable(serialisable, blocks[k], k) then Some(blocks[k]) else None {
      BlockBack(serialisable, blocks[k], k);
    }
    assert ItemsOf(DocumentIrCheckpoint(blocks, images)) == Some(seq(|blocks|, k requires 0 <= k < |blocks| => BlockJson(blocks[k])));
    if Restores(serialisable, DocumentIrCheckpoint(blocks, images), restored) {
      assert forall k :: 0 <= k < |restored| ==> restored[k] == blocks[k];
    }
  }

  /** Whatever a checkpoint restores can be saved again, and passes the structure check. */
  lemma RestoredIsSaveable(serialisable: map<string, Json> -> bool, payload: Json, blocks: seq<Block>)
    requires Restores(serialisable, payload, blocks)
    ensures AllSaveable(serialisable, blocks) && ValidStructure(blocks)
    ensures forall k :: 0 <= k < |blocks| ==> HasLocator(blocks[k])
  {
    var items := ItemsOf(payload).value;
    forall k | 0 <= k < |blocks| ensures Saveable(serialisable, blocks[k], k) {
      assert BlockFrom(serialisable, items[k], k) == Some(blocks[k]);
    }
  }

  /** A parse survives its checkpoint. */
  lemma ParseRoundTrip(newId: nat -> string, serialisable: map<string, Json> -> bool, text: string, blocks: seq<Block>, restored: seq<Block>)
    requires Sound(newId) && IsParse(newId, text, blocks) && blocks != []
    ensures Restores(serialisable, DocumentIrCheckpoint(blocks, []), restored) <==> restored == blocks
  {
    ParseIsValid(newId, Classified(Split(text, '\n')), Split(text, '\n'), blocks);
    CheckpointRoundTrip(serialisable, blocks, [], restored);
  }

  // ------------------------------------------------------------ the evidence checkpoint

  type Evidence = seq<(string, Block)>

  function ById(blocks: seq<Block>): (r: map<string, Block>)
    ensures forall d :: d in r <==> exists k :: 0 <= k < |blocks| && blocks[k].id == d
    ensures forall d :: d in r ==> r[d] in blocks && r[d].id == d
  {
    if blocks == [] then map[]
    else
      var last := |blocks| - 1;
      assert blocks == blocks[..last] + [blocks[last]];
      ById(blocks[..last])[blocks[last].id := blocks[last]]
  }

  function PairJson(e: (string, Block)): Json {
    Object(map["evidence_id" := Text(e.0), "block_id" := Text(e.1.id)])
  }

  function EvidenceCheckpoint(evidence: Evidence): Json {
    List(seq(|evidence|, k requires 0 <= k < |evidence| => PairJson(evidence[k])))
  }

  function PairFrom(item: Json, byId: map<string, Block>): Option<(string, Block)> {
    match item
    case Object(f) => (
      match (Get(f, "evidence_id"), Get(f, "block_id"))
      case (Text(e), Text(b)) => if e == "" || b !in byId then None else Some((e, byId[b]))
      case _ => None)
    case _ => None
  }

  ghost predicate DistinctPairs(evidence: Evidence) {
    forall j, k :: 0 <= j < k < |evidence| ==> evidence[j].0 != evidence[k].0 && evidence[j].1.id != evidence[k].1.id
  }

  ghost predicate Attaches(evidence: Evidence, id: string) {
    exists i :: 0 <= i < |evidence| && evidence[i].1.id == id
  }

  ghost predicate CoversBlocks(evidence: Evidence, blocks: seq<Block>) {
    forall k {:trigger blocks[k]} :: 0 <= k < |blocks| ==> Attaches(evidence, blocks[k].id)
  }

  ghost predicate ArePairs(items: seq<Json>, byId: map<string, Block>, evidence: Evidence) {
    |items| == |evidence| && forall k :: 0 <= k < |evidence| ==> PairFrom(items[k], byId) == Some(evidence[k])
  }

  ghost predicate EvidenceRestores(payload: Json, blocks: seq<Block>, evidence: Evidence) {
    && payload.List? && evidence != [] && ArePairs(payload.items, ById(blocks), evidence)
    && DistinctPairs(evidence) && CoversBlocks(evidence, blocks)
  }

  method PairsFrom(items: seq<Json>, byId: map<string, Block>) returns (r: Option<Evidence>, blockIds: set<string>)
    ensures r.Some? ==> ArePairs(items, byId, r.value) && DistinctPairs(r.value)
    ensures r.Some? ==> forall d :: d in blockIds <==> Attaches(r.value, d)
    ensures r == None ==> forall evidence :: ArePairs(items, byId, evidence) ==> !DistinctPairs(evidence)
  {
    var evidence: Evidence := [];
    var evidenceIds: set<string> := {};
    blockIds := {};
    for k := 0 to |items|
      invariant |evidence| == k && forall i :: 0 <= i < k ==> PairFrom(items[i], byId) == Some(evidence[i])
      invariant DistinctPairs(evidence)
      invariant forall d :: d in evidenceIds <==> exists i :: 0 <= i < k && evidence[i].0 == d
      invariant forall d :: d in blockIds <==> exists i :: 0 <= i < k && evidence[i].1.id == d
    {
      var pair := PairFrom(items[k], byId);
      if pair == None || pair.value.0 in evidenceIds || pair.value.1.id in blockIds {
        forall other | ArePairs(items, byId, other) ensures !DistinctPairs(other) {
          assert PairFrom(items[k], byId) == Some(other[k]);
          assert forall i :: 0 <= i < k ==> other[i] == evidence[i];
        }
        return None, {};
      }
      evidenceIds, blockIds := evidenceIds + {pair.value.0}, blockIds + {pair.value.1.id};
      evidence := evidence + [pair.value];
    }
    r := Some(evidence);
  }

  method EvidenceFromCheckpoint(payload: Json, blocks: seq<Block>) returns (r: Result<Evidence, Error>)
    ensures r.Ok? ==> EvidenceRestores(payload, blocks, r.value)
    ensures r.Err? ==> r.error == CheckpointInvalid && forall evidence :: !EvidenceRestores(payload, blocks, evidence)
  {
    if !payload.List? {
      return Err(CheckpointInvalid);
    }
    var byId := ById(blocks);
    var evidence, blockIds := PairsFrom(payload.items, byId);
    if evidence == None {
      return Err(CheckpointInvalid);
    }
    CoversIff(evidence.value, blocks, blockIds);
    if evidence.value == [] || blockIds != byId.Keys {
      forall other ensures !EvidenceRestores(payload, blocks, other) {
        if ArePairs(payload.items, byId, other) {
          SamePairs(payload.items, byId, other, evidence.value);
        }
      }
      return Err(CheckpointInvalid);
    }
    r := Ok(evidence.value);
  }

  lemma CoversIff(evidence: Evidence, blocks: seq<Block>, blockIds: set<string>)
    requires forall d :: d in blockIds <==> Attaches(evidence, d)
    requires forall k :: 0 <= k < |evidence| ==> evidence[k].1.id in ById(blocks)
    ensures CoversBlocks(evidence, blocks) <==> blockIds == ById(blocks).Keys
  {
    forall k | 0 <= k < |blocks| ensures blocks[k].id in ById(blocks) {
    }
    if CoversBlocks(evidence, blocks) {
      forall d | d in ById(blocks) ensures d in blockIds {
        var k :| 0 <= k < |blocks| && blocks[k].id == d;
      }
    }
  }

  lemma SamePairs(items: seq<Json>, byId: map<string, Block>, a: Evidence, b: Evidence)
    requires ArePairs(items, byId, a) && ArePairs(items, byId, b)
    ensures a == b
  {
    forall k | 0 <= k < |a| ensures a[k] == b[k] {
      assert PairFrom(items[k], byId) == Some(a[k]) && PairFrom(items[k], byId) == Some(b[k]);
    }
  }

  /** Evidence that gives every block its own identifier. */
  ghost predicate Attached(evidence: Evidence, blocks: seq<Block>) {
    && evidence != [] && DistinctPairs(evidence) && CoversBlocks(evidence, blocks)
    && forall k :: 0 <= k < |evidence| ==> evidence[k].0 != "" && evidence[k].1.id in ById(blocks) && ById(blocks)[evidence[k].1.id] == evidence[k].1
  }

  lemma PairBack(e: (string, Block), blocks: seq<Block>)
    ensures PairFrom(PairJson(e), ById(blocks)) == if e.0 == "" || e.1.id !in ById(blocks) then None else Some((e.0, ById(blocks)[e.1.id]))
  {
  }

  /** Saved evidence comes back exactly as it was, if and only if it attaches the blocks. */
  lemma EvidenceRoundTrip(evidence: Evidence, blocks: seq<Block>)
    ensures EvidenceRestores(EvidenceCheckpoint(evidence), blocks, evidence) <==> Attached(evidence, blocks)
  {
    forall k | 0 <= k < |evidence|
      ensures PairFrom(PairJson(evidence[k]), ById(blocks)) == if evidence[k].0 == "" || evidence[k].1.id !in ById(blocks) then None else Some((evidence[k].0, ById(blocks)[evidence[k].1.id]))
    {
      PairBack(evidence[k], blocks);
    }
  }

  /** Fresh evidence, one identifier for each block. */
  function BuildEvidence(newId: nat -> string, blocks: seq<Block>): Evidence {
    seq(|blocks|, k requires 0 <= k < |blocks| => (newId(k), blocks[k]))
  }

  lemma {:induction false} ByIdFinds(blocks: seq<Block>, k: nat)
    requires DistinctIds(blocks) && k < |blocks|
    ensures blocks[k].id in ById(blocks) && ById(blocks)[blocks[k].id] == blocks[k]
  {
    var found := ById(blocks)[blocks[k].id];
    var i :| 0 <= i < |blocks| && blocks[i] == found;
  }

  lemma FreshIsAttached(newId: nat -> string, blocks: seq<Block>, evidence: Evidence)
    requires blocks != [] && DistinctIds(blocks) && evidence == BuildEvidence(newId, blocks)
    requires Sound(newId)
    ensures Attached(evidence, blocks)
  {
    forall k | 0 <= k < |evidence| ensures evidence[k].1.id in ById(blocks) && ById(blocks)[evidence[k].1.id] == evidence[k].1 {
      ByIdFinds(blocks, k);
    }
    forall k | 0 <= k < |blocks| ensures Attaches(evidence, blocks[k].id) {
      assert evidence[k].1.id == blocks[k].id;
    }
  }

  /** Fresh evidence for a saveable document survives its checkpoint. */
  lemma FreshEvidenceRoundTrip(newId: nat -> string, blocks: seq<Block>)
    requires blocks != [] && DistinctIds(blocks)
    requires Sound(newId)
    ensures EvidenceRestores(EvidenceCheckpoint(BuildEvidence(newId, blocks)), blocks, BuildEvidence(newId, blocks))
  {
    FreshIsAttached(newId, blocks, BuildEvidence(newId, blocks));
    EvidenceRoundTrip(BuildEvidence(newId, blocks), blocks);
  }
}