/** Reader pages of a text: as many whole characters as fit a byte budget, page after page. */
module ReaderPaging {
  import opened Values

  const PAGE_BYTES: nat := 1 * 1024 * 1024

  datatype Error = InvalidPage | PageNotFound

  /** The length of a character in UTF-8. */
  function Utf8Size(c: char): (n: nat)
    ensures 1 <= n <= 4
  {
    if (c as int) < 0x80 then 1 else if (c as int) < 0x800 then 2 else if (c as int) < 0x1_0000 then 3 else 4
  }

  /** The bytes of the characters from `start` to `end`. */
  function Bytes(content: string, start: nat, end: nat): nat
    requires start <= end <= |content|
  {
    if start == end then 0 else Bytes(content, start, end - 1) + Utf8Size(content[end - 1])
  }

  lemma {:induction false} BytesGrow(content: string, start: nat, a: nat, b: nat)
    requires start <= a <= b <= |content|
    ensures Bytes(content, start, a) <= Bytes(content, start, b)
  {
    if a < b {
      BytesGrow(content, start, a, b - 1);
    }
  }

  // ------------------------------------------------------------ boundaries

  /** The page from `start` to `end` is as long as the budget allows. */
  ghost predicate IsBoundary(content: string, start: nat, end: nat)
    requires start <= |content|
  {
    && start <= end <= |content|
    && Bytes(content, start, end) <= PAGE_BYTES
    && (end < |content| ==> Bytes(content, start, end + 1) > PAGE_BYTES)
  }

  lemma BoundaryUnique(content: string, start: nat, a: nat, b: nat)
    requires start <= |content| && IsBoundary(content, start, a) && IsBoundary(content, start, b)
    ensures a == b
  {
    if a < b {
      BytesGrow(content, start, a + 1, b);
    } else if b < a {
      BytesGrow(content, start, b + 1, a);
    }
  }

  ghost function Next(content: string, start: nat): (end: nat)
    requires start <= |content|
    ensures start <= end <= |content|
    ensures start < |content| ==> start < end
  {
    Extend(content, start, start)
  }

  ghost function Extend(content: string, start: nat, end: nat): (r: nat)
    requires start <= end <= |content| && Bytes(content, start, end) <= PAGE_BYTES
    ensures end <= r <= |content|
    ensures start == end < |content| ==> start < r
    ensures IsBoundary(content, start, r)
    decreases |content| - end
  {
    if end == |content| || Bytes(content, start, end + 1) > PAGE_BYTES then end else Extend(content, start, end + 1)
  }

  lemma NextIsBoundary(content: string, start: nat)
    requires start <= |content|
    ensures IsBoundary(content, start, Next(content, start))
  {
  }

  method NextPageBoundary(content: string, start: nat) returns (end: nat)
    requires start <= |content|
    ensures end == Next(content, start)
  {
    var used := 0;
    end := start;
    while end < |content|
      invariant start <= end <= |content|
      invariant used == Bytes(content, start, end) <= PAGE_BYTES
    {
      var size := Utf8Size(content[end]);
      if used != 0 && used + size > PAGE_BYTES {
        break;
      }
      used := used + size;
      end := end + 1;
    }
    NextIsBoundary(content, start);
    BoundaryUnique(content, start, end, Next(content, start));
  }

  // ------------------------------------------------------------ pages

  /** Where page `k` starts. */
  ghost function Start(content: string, k: nat): (start: nat)
    ensures start <= |content|
  {
    if k == 0 then 0 else Next(content, Start(content, k - 1))
  }

  ghost function Page(content: string, k: nat): string {
    content[Start(content, k)..Start(content, k + 1)]
  }

  ghost predicate HasMore(content: string, k: nat) {
    Start(content, k + 1) < |content|
  }

  lemma {:induction false} StartsAscend(content: string, i: nat, j: nat)
    requires i <= j
    ensures Start(content, i) <= Start(content, j)
    ensures i < j && Start(content, i) < |content| ==> Start(content, i) < Start(content, j)
    decreases j
  {
    if i < j {
      StartsAscend(content, i, j - 1);
    }
  }

  /** A page that can be read: it comes at most one after the last page with text. */
  ghost predicate Readable(content: string, k: nat) {
    k == 0 || Start(content, k - 1) < |content|
  }

  method ContentPage(content: string, page: nat) returns (r: Result<(string, bool), Error>)
    ensures r.Ok? <==> Readable(content, page)
    ensures r.Err? ==> r.error == PageNotFound
    ensures r.Ok? ==> r.value == (Page(content, page), HasMore(content, page))
  {
    var start := 0;
    for k := 0 to page
      invariant start == Start(content, k)
      invariant k > 0 ==> Start(content, k - 1) < |content|
    {
      if start == |content| {
        StartsAscend(content, k, page - 1);
        return Err(PageNotFound);
      }
      start := NextPageBoundary(content, start);
    }
    var end := NextPageBoundary(content, start);
    r := Ok((content[start..end], end < |content|));
  }

  ghost function Joined(content: string, k: nat): string {
    if k == 0 then "" else Joined(content, k - 1) + Page(content, k - 1)
  }

  /** The first `k` pages are the text up to where page `k` starts. */
  lemma {:induction false} PagesJoin(content: string, k: nat)
    ensures Joined(content, k) == content[..Start(content, k)]
  {
    if k > 0 {
      PagesJoin(content, k - 1);
      PageAppends(content, k - 1);
    }
  }

  lemma PageAppends(content: string, k: nat)
    ensures content[..Start(content, k)] + Page(content, k) == content[..Start(content, k + 1)]
  {
    SlicesJoin(content, Start(content, k), Start(content, k + 1));
  }

  lemma SlicesJoin(content: string, a: nat, b: nat)
    requires a <= b <= |content|
    ensures content[..a] + content[a..b] == content[..b]
  {
  }

  /** Reading on as long as there is more ends, never asks for a missing page and gives the
      whole text. */
  method ReadOn(content: string) returns (text: string, pages: nat)
    ensures text == content
    ensures pages >= 1 && !HasMore(content, pages - 1) && forall k :: 0 <= k < pages - 1 ==> HasMore(content, k)
  {
    text, pages := "", 0;
    var more := true;
    while more
      invariant text == Joined(content, pages)
      invariant if pages == 0 then more else more == HasMore(content, pages - 1)
      invariant pages >= 2 ==> HasMore(content, pages - 2)
      decreases |content| - Start(content, pages), more
    {
      OnePageOn(content, pages);
      var r := ContentPage(content, pages);
      text, more, pages := text + r.value.0, r.value.1, pages + 1;
    }
    PagesJoin(content, pages);
    EarlierHaveMore(content, pages);
    assert content[..|content|] == content;
  }

  lemma OnePageOn(content: string, pages: nat)
    requires pages > 0 ==> HasMore(content, pages - 1)
    ensures Readable(content, pages)
    ensures Joined(content, pages + 1) == Joined(content, pages) + Page(content, pages)
    ensures HasMore(content, pages) ==> Start(content, pages) < Start(content, pages + 1) < |content|
  {
    StartsAscend(content, pages, pages + 1);
    if pages > 0 {
      StartsAscend(content, pages - 1, pages);
    }
  }

  lemma EarlierHaveMore(content: string, pages: nat)
    requires pages >= 2 ==> HasMore(content, pages - 2)
    ensures forall k :: 0 <= k < pages - 1 ==> HasMore(content, k)
  {
    forall k | 0 <= k < pages - 1 ensures HasMore(content, k) {
      StartsAscend(content, k + 1, pages - 1);
    }
  }

  /** Every page fits the budget, and a page is cut short only where the next character no
      longer fits; one page with no text can follow the last one. */
  lemma PageIsFull(content: string, k: nat)
    ensures Start(content, k) <= Start(content, k + 1)
    ensures Bytes(content, Start(content, k), Start(content, k + 1)) <= PAGE_BYTES
    ensures HasMore(content, k) ==> Bytes(content, Start(content, k), Start(content, k + 1) + 1) > PAGE_BYTES
    ensures Page(content, k) == "" ==> !HasMore(content, k) && Start(content, k) == |content|
  {
    NextIsBoundary(content, Start(content, k));
  }

  // ------------------------------------------------------------ focusing on a line

  /** The first page that reaches beyond the offset, or the first page. */
  method PageForFocusOffset(content: string, offset: nat) returns (page: nat)
    ensures offset < |content| ==> Start(content, page) <= offset < Start(content, page + 1)
    ensures offset >= |content| ==> page == 0
    ensures Readable(content, page)
  {
    page := 0;
    var start := 0;
    while start < |content|
      invariant start == Start(content, page)
      invariant start <= offset || start == 0
      invariant Readable(content, page)
      decreases |content| - start
    {
      var end := NextPageBoundary(content, start);
      if offset < end {
        return;
      }
      start := end;
      page := page + 1;
    }
    page := 0;
  }

  /** The characters that end a line. */
  predicate IsBreak(c: char) {
    var n := c as int;
    0x0A <= n <= 0x0D || 0x1C <= n <= 0x1E || n == 0x85 || n == 0x2028 || n == 0x2029
  }

  /** Where the first line ends, its break included; a carriage return and a line feed make
      one break. */
  function LineEnd(s: string): (end: nat)
    requires s != ""
    ensures 0 < end <= |s|
  {
    if (s[0] as int) == 0x0D && |s| > 1 && (s[1] as int) == 0x0A then 2
    else if IsBreak(s[0]) || |s| == 1 then 1
    else 1 + LineEnd(s[1..])
  }

  function Lines(s: string): seq<string>
    decreases |s|
  {
    if s == "" then [] else [s[..LineEnd(s)]] + Lines(s[LineEnd(s)..])
  }

  function Length(lines: seq<string>): nat {
    if lines == [] then 0 else |lines[0]| + Length(lines[1..])
  }

  function OffsetForLine(content: string, line: Option<int>): Option<nat> {
    var lines := Lines(content);
    if line == None || line.value < 1 || line.value > |lines| then None else Some(Length(lines[..line.value - 1]))
  }

  /** The offset is where the line stands in the text. */
  lemma {:induction false} LineAtOffset(content: string, line: nat)
    requires 1 <= line <= |Lines(content)|
    ensures var offset, text := Length(Lines(content)[..line - 1]), Lines(content)[line - 1];
            text != "" && offset + |text| <= |content| && content[offset..offset + |text|] == text
    decreases line
  {
    var end := LineEnd(content);
    var rest := Lines(content[end..]);
    assert Lines(content) == [content[..end]] + rest;
    if line > 1 {
      LineAtOffset(content[end..], line - 1);
      assert Lines(content)[..line - 1][1..] == rest[..line - 2];
      SliceShift(content, end, Length(rest[..line - 2]), |rest[line - 2]|);
    }
  }

  lemma SliceShift(s: string, start: nat, offset: nat, n: nat)
    requires start + offset + n <= |s|
    ensures s[start..][offset..offset + n] == s[start + offset..start + offset + n]
  {
  }

  /** A line starts at the start of the text and behind every line break, where a carriage
      return and a line feed make one. */
  ghost predicate StartsLine(content: string, p: nat)
    requires p < |content|
  {
    p == 0 || (content[p - 1] in LINE_BREAKS && !(content[p - 1] == '\r' && content[p] == '\n'))
  }

  const LINE_BREAKS := {'\n', '\r', '\U{0B}', '\U{0C}', '\U{1C}', '\U{1D}', '\U{1E}', '\U{85}', '\U{2028}', '\U{2029}'}

  lemma LineEndStarts(content: string, p: nat)
    requires content != [] && p < |content|
    ensures p < LineEnd(content) ==> (StartsLine(content, p) <==> p == 0)
    ensures p == LineEnd(content) ==> StartsLine(content, p)
    ensures p > LineEnd(content) ==> (StartsLine(content, p) <==> StartsLine(content[LineEnd(content)..], p - LineEnd(content)))
    decreases |content|
  {
    if LineEnd(content) > 1 && !((content[0] as int) == 0x0D && |content| > 1 && (content[1] as int) == 0x0A) && p > 0 {
      LineEndStarts(content[1..], p - 1);
    }
  }

  /** Where a line stands among the lines. */
  ghost function OffsetIn(lines: seq<string>, line: int): Option<nat> {
    if 1 <= line <= |lines| then Some(Length(lines[..line - 1])) else None
  }

  lemma OffsetBehind(first: string, rest: seq<string>, line: int)
    ensures OffsetIn([first] + rest, 1) == Some(0)
    ensures line >= 2 ==> OffsetIn([first] + rest, line) == Shifted(|first|, OffsetIn(rest, line - 1))
  {
    if 2 <= line <= |rest| + 1 {
      assert ([first] + rest)[..line - 1][1..] == rest[..line - 2];
    }
  }

  function Shifted(start: nat, offset: Option<nat>): Option<nat> {
    match offset case None => None case Some(p) => Some(start + p)
  }

  ghost predicate StandsAt(lines: seq<string>, p: nat) {
    exists line :: OffsetIn(lines, line) == Some(p)
  }

  lemma StandsBehind(first: string, rest: seq<string>, p: nat)
    ensures StandsAt([first] + rest, p) <==> p == 0 || (p >= |first| && StandsAt(rest, p - |first|))
  {
    OffsetBehind(first, rest, 1);
    if line :| OffsetIn([first] + rest, line) == Some(p) {
      OffsetBehind(first, rest, line);
      assert line >= 2 ==> OffsetIn(rest, line - 1) == Some(p - |first|);
    }
    if p >= |first| && StandsAt(rest, p - |first|) {
      var line :| OffsetIn(rest, line) == Some(p - |first|);
      OffsetBehind(first, rest, line + 1);
      assert OffsetIn([first] + rest, line + 1) == Some(p);
    }
  }

  lemma {:induction false} LinesStand(content: string, p: nat)
    requires p < |content|
    ensures StandsAt(Lines(content), p) <==> StartsLine(content, p)
    decreases |content|
  {
    var end := LineEnd(content);
    var first, rest := content[..end], Lines(content[end..]);
    assert Lines(content) == [first] + rest;
    LineEndStarts(content, p);
    StandsBehind(first, rest, p);
    if p >= end {
      LinesStand(content[end..], p - end);
    }
  }

  /** The numbered lines stand exactly at these places. */
  lemma LinesStart(content: string, p: nat)
    requires p < |content|
    ensures StartsLine(content, p) <==> exists line :: OffsetForLine(content, Some(line)) == Some(p)
  {
    LinesStand(content, p);
    forall line ensures OffsetForLine(content, Some(line)) == OffsetIn(Lines(content), line) {}
  }

  lemma {:induction false} LongerIsFurther(lines: seq<string>, i: nat, j: nat)
    requires i < j <= |lines| && forall l :: l in lines ==> l != ""
    ensures Length(lines[..i]) < Length(lines[..j])
    decreases i
  {
    assert lines[0] in lines && forall k :: 0 < k <= |lines| ==> lines[..k][1..] == lines[1..][..k - 1];
    if i > 0 {
      assert forall l :: l in lines[1..] ==> l in lines;
      LongerIsFurther(lines[1..], i - 1, j - 1);
    }
  }

  lemma {:induction false} LinesNotEmpty(content: string, l: string)
    requires l in Lines(content)
    ensures l != ""
    decreases |content|
  {
    var end := LineEnd(content);
    if l != content[..end] {
      LinesNotEmpty(content[end..], l);
    }
  }

  /** A later line stands further on, so the n-th line stands at the n-th of these places. */
  lemma LaterLines(content: string, i: int, j: int)
    requires i < j && OffsetForLine(content, Some(i)).Some? && OffsetForLine(content, Some(j)).Some?
    ensures OffsetForLine(content, Some(i)).value < OffsetForLine(content, Some(j)).value
  {
    forall l | l in Lines(content) ensures l != "" {
      LinesNotEmpty(content, l);
    }
    LongerIsFurther(Lines(content), i - 1, j - 1);
  }

  /** The size of a character by the range of its code point, as in section 3 of RFC 3629. */
  lemma Utf8Ranges(c: char)
    ensures Utf8Size(c) == 1 <==> c <= '\U{7F}'
    ensures Utf8Size(c) == 2 <==> '\U{80}' <= c <= '\U{7FF}'
    ensures Utf8Size(c) == 3 <==> '\U{800}' <= c <= '\U{FFFF}'
    ensures Utf8Size(c) == 4 <==> '\U{10000}' <= c
  {
  }

  /** What the reader shows for a page number or, when a line of the text is named, for the
      page with that line. */
  method ReadDocument(content: string, page: int, line: Option<int>) returns (r: Result<(string, nat, bool), Error>)
    ensures r == Err(InvalidPage) <==> page < 0
    ensures page >= 0 && OffsetForLine(content, line) == None ==> (r.Ok? <==> Readable(content, page)) && (r.Ok? ==> r.value.1 == page)
    ensures page >= 0 && OffsetForLine(content, line).Some? ==> r.Ok? && Shows(content, line.value, r.value.1, r.value.0)
    ensures r.Ok? ==> r.value.0 == Page(content, r.value.1) && r.value.2 == HasMore(content, r.value.1)
  {
    if page < 0 {
      return Err(InvalidPage);
    }
    var offset := OffsetForLine(content, line);
    var shown: nat := page;
    if offset.Some? {
      shown := PageForFocusOffset(content, offset.value);
      LineAtOffset(content, line.value);
    }
    var found := ContentPage(content, shown);
    if found.Err? {
      return Err(found.error);
    }
    r := Ok((found.value.0, shown, found.value.1));
  }

  /** The shown page contains the line's first character. */
  ghost predicate Shows(content: string, line: int, page: nat, text: string)
    requires 1 <= line <= |Lines(content)|
  {
    var at := Length(Lines(content)[..line - 1]) - Start(content, page);
    0 <= at < |text| && |Lines(content)[line - 1]| > 0 && text[at] == Lines(content)[line - 1][0]
  }
}
