/** What the chunks of a page say, read against the page: which comment is metadata, under
    which heading a chunk stands, how full its parts are and what its text tells
    (internal/memory/chunk.go). */
module MemoryPages {
  import opened Wrappers
  import opened Lines
  import opened MemoryChunks

  // ---------------------------------------------------------------- metadata

  predicate MarkAt(line: string, k: int) {
    0 <= k <= |line| - 3 && line[k..k + 3] == "-->"
  }

  ghost predicate HasMark(line: string) {
    exists k :: MarkAt(line, k)
  }

  /** A comment at the head of a body, from line `first` to line `last`: nothing but blank
      lines before it, no blank one inside, and `before` and `after` around the first mark
      that closes it. `lines` is its lines trimmed, the opening mark off. */
  ghost predicate IsComment(body: seq<string>, first: nat, last: nat, lines: seq<string>,
                            before: string, after: string) {
    && first <= last < |body| && |lines| == last - first + 1
    && AllBlank(body[..first]) && Opens(body[first], lines[0])
    && AreTrimmed(body[first + 1..last + 1], lines[1..])
    && NoMarks(lines[..last - first])
    && lines[last - first] == before + "-->" + after && !HasMark(before + "--")
  }

  ghost predicate AllBlank(lines: seq<string>) {
    forall j :: 0 <= j < |lines| ==> TrimSpace(lines[j]) == ""
  }

  ghost predicate AreTrimmed(lines: seq<string>, trimmed: seq<string>) {
    |lines| == |trimmed| && forall j :: 0 <= j < |lines| ==> trimmed[j] == TrimSpace(lines[j]) != ""
  }

  ghost predicate NoMarks(lines: seq<string>) {
    forall j :: 0 <= j < |lines| ==> !HasMark(lines[j])
  }

  /** The line opens a comment and goes on so. */
  ghost predicate Opens(line: string, rest: string) {
    exists x: string :: TrimSpace(line) == "<!--" + x && rest == TrimSpace(x)
  }

  lemma FirstCloseIsFirst(s: string, k: int)
    requires MarkAt(s, k)
    ensures FirstClose(s) <= k
  {
    hide FirstClose;
    if k < FirstClose(s) { NoneClosesEarlier(s, k); }
  }

  lemma MarkIsFound(s: string)
    ensures HasMark(s) <==> FirstClose(s) < |s|
  {
    if k :| MarkAt(s, k) {
      FirstCloseIsFirst(s, k);
    }
    if FirstClose(s) < |s| {
      assert MarkAt(s, FirstClose(s));
    }
  }

  lemma MarkIsAt(before: string, after: string)
    requires !HasMark(before + "--")
    ensures FirstClose(before + "-->" + after) == |before|
  {
    var line := before + "-->" + after;
    var cut := FirstClose(line);
    assert MarkAt(line, |before|);
    FirstCloseIsFirst(line, |before|);
    if cut < |before| {
      var open := before + "--";
      assert open[cut..cut + 3] == line[cut..cut + 3] == "-->";
      assert MarkAt(open, cut);
    }
  }

  lemma {:induction false} FirstInkedIs(body: seq<string>, first: nat)
    requires first < |body| && TrimSpace(body[first]) != ""
    requires forall j :: 0 <= j < first ==> TrimSpace(body[j]) == ""
    ensures FirstInked(body) == first
  {
    hide TrimSpace;
    if first > 0 {
      assert body[0] == body[0..][0];
      forall j | 0 <= j < first - 1 ensures TrimSpace(body[1..][j]) == "" {
        assert body[1..][j] == body[j + 1];
      }
      FirstInkedIs(body[1..], first - 1);
    }
  }

  lemma {:induction false} FirstInkedStops(body: seq<string>)
    ensures forall j :: 0 <= j < FirstInked(body) ==> TrimSpace(body[j]) == ""
    ensures FirstInked(body) < |body| ==> TrimSpace(body[FirstInked(body)]) != ""
  {
    hide TrimSpace;
    if body != [] && TrimSpace(body[0]) == "" {
      FirstInkedStops(body[1..]);
      forall j | 0 <= j < FirstInked(body) ensures TrimSpace(body[j]) == "" {
        if j > 0 { assert body[1..][j - 1] == body[j]; }
      }
    }
  }

  lemma OpeningLine(body: seq<string>, first: nat, rest: string)
    requires first < |body| && Opens(body[first], rest)
    ensures CommentLine(body, first, first) == rest
    ensures HasPrefix(TrimSpace(body[first]), "<!--") && TrimSpace(body[first]) != ""
  {
    hide TrimSpace;
    var x: string :| TrimSpace(body[first]) == "<!--" + x && rest == TrimSpace(x);
    assert ("<!--" + x)[..4] == "<!--" && ("<!--" + x)[4..] == x;
  }

  lemma LaterLine(body: seq<string>, first: nat, j: nat)
    requires first < j < |body|
    ensures CommentLine(body, first, j) == TrimSpace(body[j])
  {
    hide TrimSpace;
  }

  lemma CommentLines(body: seq<string>, first: nat, last: nat, lines: seq<string>,
                     before: string, after: string, j: nat)
    requires IsComment(body, first, last, lines, before, after) && first <= j <= last
    ensures first <= last < |body| && |lines| == last - first + 1 && CommentLine(body, first, j) == lines[j - first]
    ensures HasPrefix(TrimSpace(body[first]), "<!--")
  {
    hide *;
    CommentMeans(body, first, last, lines, before, after);
    OpeningLine(body, first, lines[0]);
    if j > first { LaterLine(body, first, j); }
  }

  lemma ClosesIf(body: seq<string>, first: nat, last: nat, lines: seq<string>)
    requires first <= last < |body| && |lines| == last - first + 1
    requires forall j :: first <= j <= last ==> CommentLine(body, first, j) == lines[j - first]
    requires forall j :: 0 <= j < last - first ==> !HasMark(lines[j]) && (j == 0 || lines[j] != "")
    requires FirstClose(lines[last - first]) < |lines[last - first]|
    ensures ClosesAt(body, first, last)
  {
    hide CommentLine;
    hide FirstClose;
    hide HasMark;
    forall j | first <= j < last ensures FirstClose(CommentLine(body, first, j)) == |CommentLine(body, first, j)| {
      MarkIsFound(lines[j - first]);
    }
  }

  lemma ClosedWith(body: seq<string>, first: nat, last: nat, lines: seq<string>, before: string, after: string)
    requires first <= last < |body| && |lines| == last - first + 1
    requires forall j :: first <= j <= last ==> CommentLine(body, first, j) == lines[j - first]
    requires lines[last - first] == before + "-->" + after && FirstClose(lines[last - first]) == |before|
    ensures ClosedAt(body, first, last)
            == (Join(lines[..last - first] + [TrimSpace(before)]),
                (if TrimSpace(after) == "" then [] else [TrimSpace(after)]) + body[last + 1..])
  {
    hide CommentLine;
    hide FirstClose;
    hide Join;
    hide TrimSpace;
    var line := lines[last - first];
    assert line[..|before|] == before && line[|before| + 3..] == after;
    assert seq(last - first, k requires 0 <= k < last - first => CommentLine(body, first, first + k))
        == lines[..last - first];
    assert [] + body[last + 1..] == body[last + 1..];
  }

  lemma CommentCloses(body: seq<string>, first: nat, last: nat, lines: seq<string>, before: string, after: string)
    requires IsComment(body, first, last, lines, before, after)
    ensures ClosesAt(body, first, last)
    ensures ClosedAt(body, first, last)
            == (Join(lines[..last - first] + [TrimSpace(before)]),
                (if TrimSpace(after) == "" then [] else [TrimSpace(after)]) + body[last + 1..])
  {
    hide *;
    CommentMeans(body, first, last, lines, before, after);
    forall j | first <= j <= last ensures CommentLine(body, first, j) == lines[j - first] {
      CommentLines(body, first, last, lines, before, after, j);
    }
    forall j | 0 <= j < last - first ensures j == 0 || lines[j] != "" {
      if j > 0 { assert lines[j] == TrimSpace(body[first + j]) != ""; }
    }
    MarkIsAt(before, after);
    ClosesIf(body, first, last, lines);
    ClosedWith(body, first, last, lines, before, after);
  }

  /** A comment at the head of a body is metadata if it gives a value for any of the five
      fields, and then the body goes on with what followed its closing mark; one that gives
      none stays. */
  lemma CommentsAreLifted(rd: Reading, body: seq<string>, first: nat, last: nat, lines: seq<string>,
                          before: string, after: string)
    requires IsComment(body, first, last, lines, before, after)
    ensures var inner := Join(lines[..last - first] + [TrimSpace(before)]);
            var (id, date, source) := (rd.scalar(inner, "id"), rd.scalar(inner, "date"), rd.scalar(inner, "source"));
            var (confirmed, supersedes) := (rd.scalar(inner, "confirmed"), rd.scalar(inner, "supersedes"));
            TakeMeta(rd, body)
            == if id == date == source == confirmed == supersedes == "" then (Meta("", "", "", "", ""), body)
               else (Meta(id, date, source, confirmed, supersedes),
                     (if TrimSpace(after) == "" then [] else [TrimSpace(after)]) + body[last + 1..])
  {
    assert first <= last < |body|;
    hide *;
    CommentLines(body, first, last, lines, before, after, first);
    CommentCloses(body, first, last, lines, before, after);
    MetaBlockIsExact(body, first);
    InkedAtOpening(body, first, last, lines, before, after);
    TakingFound(rd, body, ClosedAt(body, first, last));
  }

  lemma TakingFound(rd: Reading, body: seq<string>, found: (string, seq<string>))
    requires var first := FirstInked(body);
             && first < |body| && HasPrefix(TrimSpace(body[first]), "<!--")
             && MetaBlockFrom(body, first, first, []) == Some(found)
    ensures var inner := found.0;
            var (id, date, source) := (rd.scalar(inner, "id"), rd.scalar(inner, "date"), rd.scalar(inner, "source"));
            var (confirmed, supersedes) := (rd.scalar(inner, "confirmed"), rd.scalar(inner, "supersedes"));
            TakeMeta(rd, body)
            == if id == date == source == confirmed == supersedes == "" then (Meta("", "", "", "", ""), body)
               else (Meta(id, date, source, confirmed, supersedes), found.1)
  {
    hide TrimSpace;
    hide MetaBlockFrom;
    hide FirstInked;
    hide HasPrefix;
  }

  lemma InkedAtOpening(body: seq<string>, first: nat, last: nat, lines: seq<string>, before: string, after: string)
    requires IsComment(body, first, last, lines, before, after)
    ensures FirstInked(body) == first < |body|
  {
    hide *;
    CommentMeans(body, first, last, lines, before, after);
    OpeningLine(body, first, lines[0]);
    FirstInkedIs(body, first);
  }

  /** Nothing else is lifted: without such a comment the body stays as it is. */
  lemma NothingElseIsLifted(rd: Reading, body: seq<string>)
    ensures || TakeMeta(rd, body) == (Meta("", "", "", "", ""), body)
            || exists first, last, lines, before, after :: IsComment(body, first, last, lines, before, after)
  {
    var first := FirstInked(body);
    if first < |body| && HasPrefix(TrimSpace(body[first]), "<!--")
       && MetaBlockFrom(body, first, first, []).Some? {
      MetaBlockIsExact(body, first);
      var last: nat :| ClosesAt(body, first, last);
      ClosingIsComment(body, last);
    }
    hide TrimSpace;
    hide IsComment;
    hide MetaBlockFrom;
    hide FirstInked;
  }

  lemma ClosingIsComment(body: seq<string>, last: nat)
    requires var first := FirstInked(body);
             first < |body| && HasPrefix(TrimSpace(body[first]), "<!--") && ClosesAt(body, first, last)
    ensures exists first, last, lines, before, after :: IsComment(body, first, last, lines, before, after)
  {
    hide *;
    var first := FirstInked(body);
    FirstInkedStops(body);
    OpensWhereItStarts(body, first);
    ClosedLines(body, first, last);
    var lines := seq(last - first + 1, k requires 0 <= k < last - first + 1 => CommentLine(body, first, first + k));
    forall j | first <= j <= last ensures lines[j - first] == CommentLine(body, first, j) {
    }
    forall j | 0 <= j < last - first ensures !HasMark(lines[j]) {
      assert lines[j] == CommentLine(body, first, first + j);
    }
    var before, after := CutAtMark(lines[last - first]);
    CommentOf(body, first, last, lines, before, after);
  }

  lemma CutAtMark(line: string) returns (before: string, after: string)
    requires FirstClose(line) < |line|
    ensures line == before + "-->" + after && !HasMark(before + "--")
  {
    NoMarkBefore(line);
    hide FirstClose;
    hide HasMark;
    var cut := FirstClose(line);
    before, after := line[..cut], line[cut + 3..];
    assert line == line[..cut] + line[cut..cut + 3] + line[cut + 3..];
  }

  lemma ClosedLines(body: seq<string>, first: nat, last: nat)
    requires first < |body| && ClosesAt(body, first, last)
    ensures first <= last < |body| && FirstClose(CommentLine(body, first, last)) < |CommentLine(body, first, last)|
    ensures forall j :: first <= j < last ==> !HasMark(CommentLine(body, first, j))
    ensures forall j :: first < j <= last ==> CommentLine(body, first, j) == TrimSpace(body[j]) != ""
  {
    forall j | first <= j < last ensures !HasMark(CommentLine(body, first, j)) {
      MarkIsFound(CommentLine(body, first, j));
    }
    hide FirstClose;
    hide TrimSpace;
    hide HasMark;
    forall j | first < j <= last ensures CommentLine(body, first, j) == TrimSpace(body[j]) != "" {
      if j == last { assert CommentLine(body, first, last) != ""; }
    }
  }

  lemma CommentOf(body: seq<string>, first: nat, last: nat, lines: seq<string>, before: string, after: string)
    requires first <= last < |body| && |lines| == last - first + 1 && Opens(body[first], lines[0])
    requires forall j :: 0 <= j < first ==> TrimSpace(body[j]) == ""
    requires forall j :: first < j <= last ==> lines[j - first] == TrimSpace(body[j]) != ""
    requires forall j :: 0 <= j < last - first ==> !HasMark(lines[j])
    requires lines[last - first] == before + "-->" + after && !HasMark(before + "--")
    ensures exists first, last, lines, before, after :: IsComment(body, first, last, lines, before, after)
  {
    hide TrimSpace;
    hide HasMark;
    hide Opens;
    var rest, trimmed := body[first + 1..last + 1], lines[1..];
    forall j | 0 <= j < |rest| ensures trimmed[j] == TrimSpace(rest[j]) != "" {
      assert rest[j] == body[first + 1 + j] && trimmed[j] == lines[first + 1 + j - first];
    }
    assert AreTrimmed(rest, trimmed) && AllBlank(body[..first]) && NoMarks(lines[..last - first]);
    hide AllBlank;
    hide AreTrimmed;
    hide NoMarks;
    assert IsComment(body, first, last, lines, before, after);
  }

  lemma CommentMeans(body: seq<string>, first: nat, last: nat, lines: seq<string>, before: string, after: string)
    requires IsComment(body, first, last, lines, before, after)
    ensures first <= last < |body| && |lines| == last - first + 1 && Opens(body[first], lines[0])
    ensures forall j :: 0 <= j < first ==> TrimSpace(body[j]) == ""
    ensures forall j :: first < j <= last ==> lines[j - first] == TrimSpace(body[j]) != ""
    ensures forall j :: 0 <= j < last - first ==> !HasMark(lines[j])
    ensures lines[last - first] == before + "-->" + after && !HasMark(before + "--")
  {
    hide TrimSpace;
    hide HasMark;
    hide Opens;
    forall j | 0 <= j < first ensures TrimSpace(body[j]) == "" {
      assert body[..first][j] == body[j];
    }
    forall j | first < j <= last ensures lines[j - first] == TrimSpace(body[j]) != "" {
      assert body[first + 1..last + 1][j - first - 1] == body[j] && lines[1..][j - first - 1] == lines[j - first];
    }
    forall j | 0 <= j < last - first ensures !HasMark(lines[j]) {
      assert lines[..last - first][j] == lines[j];
    }
  }

  lemma OpensWhereItStarts(body: seq<string>, first: nat)
    requires first < |body| && HasPrefix(TrimSpace(body[first]), "<!--")
    ensures Opens(body[first], CommentLine(body, first, first))
  {
    hide TrimSpace;
    var x := TrimSpace(body[first])[4..];
    assert TrimSpace(body[first]) == "<!--" + x;
  }

  lemma DashesAt(line: string, cut: nat)
    requires MarkAt(line, cut)
    ensures line[..cut] + "--" == line[..cut + 2]
  {
    var mark := line[cut..cut + 3];
    assert mark[0] == '-' && mark[1] == '-' && line[cut] == mark[0] && line[cut + 1] == mark[1];
  }

  lemma MarkInFront(line: string, n: nat, k: int)
    requires n <= |line|
    ensures MarkAt(line[..n], k) <==> MarkAt(line, k) && k + 3 <= n
  {
    if 0 <= k <= n - 3 { assert line[..n][k..k + 3] == line[k..k + 3]; }
  }

  lemma NoMarkBefore(line: string)
    requires FirstClose(line) < |line|
    ensures !HasMark(line[..FirstClose(line)] + "--")
  {
    hide FirstClose;
    var cut := FirstClose(line);
    assert MarkAt(line, cut);
    hide MarkAt;
    DashesAt(line, cut);
    var open := line[..cut + 2];
    forall k ensures !MarkAt(open, k) {
      MarkInFront(line, cut + 2, k);
      if MarkAt(line, k) { FirstCloseIsFirst(line, k); }
    }
  }

  // ---------------------------------------------------------------- parts

  function FirstLine(text: string): string {
    text[..FirstBreak(text)]
  }

  /** The part stands right below the one before, whose last line is followed by its first,
      and that line would not have fitted any more. */
  ghost predicate Follows(a: Chunk, b: Chunk) {
    b.line == a.line + Breaks(a.body) + 1 && |a.body| + 1 + |FirstLine(b.body)| > 1600
  }

  ghost predicate Filled(parts: seq<Chunk>) {
    forall k :: 0 < k < |parts| ==> Follows(parts[k - 1], parts[k])
  }

  lemma FirstLineOfJoin(lines: seq<string>)
    requires lines != [] && '\n' !in lines[0]
    ensures FirstLine(Join(lines)) == lines[0]
  {
    var text := Join(lines);
    assert |lines| == 1 || text == lines[0] + ("\n" + Join(lines[1..]));
    assert forall k :: 0 <= k < |lines[0]| ==> text[k] == lines[0][k];
    assert |lines| > 1 ==> text[|lines[0]|] == '\n';
  }

  lemma FilledOneMore(a: Chunk, rest: seq<Chunk>)
    requires rest != [] && Filled(rest) && Follows(a, rest[0])
    ensures Filled([a] + rest)
  {
    hide Follows;
    var parts := [a] + rest;
    forall k | 0 < k < |parts| ensures Follows(parts[k - 1], parts[k]) {
      if k > 1 { assert parts[k - 1] == rest[k - 2] && parts[k] == rest[k - 1]; }
    }
  }

  lemma {:induction false} SplitFills(c: Chunk, lines: seq<string>, i: nat, buf: seq<string>, size: nat, lineAt: nat)
    requires i <= |lines| && Unbroken(lines) && Unbroken(buf) && Holding(buf, size)
    requires lineAt + |buf| == c.line + i && (buf != [] || i < |lines|)
    ensures var parts := SplitFrom(c, lines, i, buf, size, lineAt);
            && parts != [] && Filled(parts) && parts[0].line == lineAt
            && FirstLine(parts[0].body) == (buf + lines[i..])[0]
    decreases |lines| - i
  {
    hide Join;
    hide Fits;
    hide FirstLine;
    hide Follows;
    if i == |lines| {
      assert buf[0] in buf;
      FirstLineOfJoin(buf);
    } else {
      var line := lines[i];
      assert line in lines;
      if size + |line| > MAX_CHUNK_CHARS && buf != [] {
        HoldingOneMore([], 0, line);
        assert [] + [line] == [line];
        SplitFills(c, lines, i + 1, [line], |line| + 1, c.line + i);
        var a := c.(body := Join(buf), line := lineAt);
        var rest := SplitFrom(c, lines, i + 1, [line], |line| + 1, c.line + i);
        CutFollows(a, buf, rest[0], line);
        FilledOneMore(a, rest);
        assert buf[0] in buf;
        FirstLineOfJoin(buf);
      } else {
        HoldingOneMore(buf, size, line);
        SplitFills(c, lines, i + 1, buf + [line], size + |line| + 1, lineAt);
        assert buf + [line] + lines[i + 1..] == buf + lines[i..];
      }
    }
  }

  lemma CutFollows(a: Chunk, buf: seq<string>, b: Chunk, line: string)
    requires buf != [] && Unbroken(buf) && a.body == Join(buf)
    requires b.line == a.line + |buf| && FirstLine(b.body) == line && |Join(buf)| + 1 + |line| > 1600
    ensures Follows(a, b)
  {
    BreaksOfLines(buf);
  }

  /** A block over the limit is cut into parts that follow one another, each as full as
      whole lines allow; any other stays whole. */
  lemma PartsAreFilled(rd: Reading, c: Chunk)
    ensures Filled(SplitChunk(rd, c)) && (|Text(rd, c)| <= 1600 ==> SplitChunk(rd, c) == [c])
  {
    if |Text(rd, c)| > MAX_CHUNK_CHARS {
      assert Unbroken(Split(c.body));
      hide Split;
      SplitFills(c, Split(c.body), 0, [], 0, c.line);
    }
  }

  // ---------------------------------------------------------------- sections

  /** The header a heading's chunks carry. */
  function Under(header: string, heading: string): string {
    if heading == "" then header else header + " / " + heading
  }

  /** One heading's body gives nothing when both are empty. Otherwise its text, trimmed and
      without the metadata, is the bodies of its chunks joined; the first of them stands at
      the heading's own line, and each says the page, the heading and the metadata. */
  lemma SectionIsWhole(rd: Reading, c: Chunk, body: seq<string>)
    ensures var parts, taken := ChunksFor(rd, c, body), TakeMeta(rd, body);
            var text := TrimSpace(Join(taken.1));
            if text == "" && c.heading == "" then parts == []
            else
              && parts != [] && parts[0].line == c.line && Join(Bodies(parts)) == text && Filled(parts)
              && forall p :: p in parts ==>
                   p == Chunk(c.path, c.heading, p.line, Under(c.header, c.heading), p.body, c.related, taken.0)
  {
    hide TakeMeta;
    hide TrimSpace;
    hide Join;
    hide SplitChunk;
    hide Filled;
    var taken := TakeMeta(rd, body);
    var text := TrimSpace(Join(taken.1));
    if text != "" || c.heading != "" {
      var whole := c.(meta := taken.0, body := text, header := Under(c.header, c.heading));
      assert ChunksFor(rd, c, body) == SplitChunk(rd, whole);
      SplittingIsSound(rd, whole);
      PartsAreFilled(rd, whole);
    }
  }

  /** The chunk is of this page, and the heading at or above its line is line h: its own,
      and named in its header. At -1 it is above the first heading. */
  ghost predicate StandsUnder(page: Page, lines: seq<string>, x: Chunk, h: int) {
    && -1 <= h < |lines|
    && x.path == page.path && x.related == page.related
    && page.offset + 1 <= x.line < page.offset + 1 + |lines| && page.offset + 1 + h <= x.line
    && (h >= 0 ==> "### " <= lines[h] && x.heading == TrimSpace(lines[h][3..]))
    && (h == -1 ==> x.heading == "")
    && x.header == Under(page.header, x.heading)
    && forall j :: h < j < |lines| && "### " <= lines[j] ==> x.line < page.offset + 1 + j
  }

  /** What the chunk being gathered is: the head of the lines from h on. */
  ghost predicate Heads(page: Page, lines: seq<string>, c: Chunk, h: int) {
    && -1 <= h < |lines|
    && c.path == page.path && c.related == page.related && c.header == page.header
    && c.line == page.offset + 1 + (if h < 0 then 0 else h)
    && (h >= 0 ==> "### " <= lines[h] && c.heading == TrimSpace(lines[h][3..]))
    && (h == -1 ==> c.heading == "")
  }

  lemma SectionStands(rd: Reading, page: Page, lines: seq<string>, i: nat, c: Chunk, body: seq<string>, h: int)
    requires Heads(page, lines, c, h) && h < i <= |lines| && |body| == i - h - 1 && Unbroken(body)
    requires forall j :: h < j < i ==> !("### " <= lines[j])
    ensures forall x :: x in ChunksFor(rd, c, body) ==> StandsUnder(page, lines, x, h)
    ensures c.heading != "" ==> ChunksFor(rd, c, body) != [] && ChunksFor(rd, c, body)[0].line == c.line
  {
    hide ChunksFor;
    hide TakeMeta;
    hide TrimSpace;
    hide Filled;
    BlocksAscend(rd, c, body);
    SectionIsWhole(rd, c, body);
    forall x | x in ChunksFor(rd, c, body) ensures StandsUnder(page, lines, x, h) {
      var k :| 0 <= k < |ChunksFor(rd, c, body)| && ChunksFor(rd, c, body)[k] == x;
    }
  }

  lemma HeadingStarts(page: Page, lines: seq<string>, i: nat)
    requires i < |lines| && "### " <= lines[i]
    ensures HasPrefix(lines[i], "### ") && Heads(page, lines, Headed(page, lines[i], i), i)
  {
    hide TrimSpace;
    assert lines[i][..3] == "### "[..3] == "###";
  }

  lemma {:induction false} ChunksStand(
    rd: Reading, page: Page, lines: seq<string>, i: nat, c: Chunk, body: seq<string>, h: int)
    requires Heads(page, lines, c, h) && h < i <= |lines| && |body| == i - h - 1
    requires Unbroken(body) && Unbroken(lines)
    requires forall j :: h < j < i ==> !("### " <= lines[j])
    ensures forall x :: x in ChunksFrom(rd, page, lines, i, c, body) ==>
              exists g :: h <= g && StandsUnder(page, lines, x, g)
    decreases |lines| - i
  {
    hide Heads;
    hide StandsUnder;
    hide ChunksFor;
    hide Headed;
    if i == |lines| {
      SectionStands(rd, page, lines, i, c, body, h);
    } else if "### " <= lines[i] {
      SectionStands(rd, page, lines, i, c, body, h);
      HeadingStarts(page, lines, i);
      ChunksStand(rd, page, lines, i + 1, Headed(page, lines[i], i), [], i);
    } else {
      assert lines[i] in lines;
      ChunksStand(rd, page, lines, i + 1, c, body + [lines[i]], h);
    }
  }

  /** Every chunk of a page stands, in the page, under the last heading at or above its own
      line, and says so. */
  lemma ChunksStandUnderTheirHeadings(rd: Reading, page: Page, x: Chunk)
    requires x in ChunksOf(rd, page)
    ensures exists h :: StandsUnder(page, Split(page.text), x, h)
  {
    var lines := Split(page.text);
    hide Split;
    ChunksStand(rd, page, lines, 0, Preamble(page), [], -1);
  }

  lemma {:induction false} HeadingsAreFoundFrom(
    rd: Reading, page: Page, lines: seq<string>, i: nat, c: Chunk, body: seq<string>, h: int, g: int)
    requires Heads(page, lines, c, h) && h < i <= |lines| && |body| == i - h - 1
    requires Unbroken(body) && Unbroken(lines)
    requires forall j :: h < j < i ==> !("### " <= lines[j])
    requires 0 <= g < |lines| && (g == h || g >= i) && "### " <= lines[g] && TrimSpace(lines[g][3..]) != ""
    ensures exists x :: x in ChunksFrom(rd, page, lines, i, c, body) && x.line == page.offset + 1 + g
    decreases |lines| - i
  {
    hide StandsUnder;
    hide ChunksFor;
    hide Headed;
    hide TrimSpace;
    if i == |lines| {
      SectionStands(rd, page, lines, i, c, body, h);
    } else if "### " <= lines[i] {
      SectionStands(rd, page, lines, i, c, body, h);
      HeadingStarts(page, lines, i);
      if g == h {
        var x := ChunksFor(rd, c, body)[0];
        assert x in ChunksFrom(rd, page, lines, i, c, body);
      } else {
        HeadingsAreFoundFrom(rd, page, lines, i + 1, Headed(page, lines[i], i), [], i, g);
      }
    } else {
      assert lines[i] in lines;
      HeadingsAreFoundFrom(rd, page, lines, i + 1, c, body + [lines[i]], h, g);
    }
  }

  /** Every heading with a title has a chunk at its line. */
  lemma HeadingsAreFound(rd: Reading, page: Page, g: nat)
    requires var lines := Split(page.text);
             g < |lines| && "### " <= lines[g] && TrimSpace(lines[g][3..]) != ""
    ensures exists x :: x in ChunksOf(rd, page) && x.line == page.offset + 1 + g
  {
    var lines := Split(page.text);
    hide Split;
    hide TrimSpace;
    HeadingsAreFoundFrom(rd, page, lines, 0, Preamble(page), [], -1, g);
  }

  // ---------------------------------------------------------------- what a text tells

  lemma BreakSplitsOnce(a: string, restA: string, b: string, restB: string)
    requires '\n' !in a && '\n' !in b && a + "\n\n" + restA == b + "\n\n" + restB
    ensures a == b && restA == restB
  {
    var whole := a + "\n\n" + restA;
    assert whole[|a|] == '\n' && whole[|b|] == '\n';
    assert forall i :: 0 <= i < |a| ==> whole[i] == a[i] != '\n';
    assert forall i :: 0 <= i < |b| ==> whole[i] == b[i] != '\n';
    assert a == whole[..|a|] && b == whole[..|b|];
    assert restA == whole[|a| + 2..] && restB == whole[|b| + 2..];
  }

  /** The text that is embedded tells one header and one body, struck spans dropped, from
      another; of two chunks with one header it tells the bodies whatever the header. */
  lemma TextsTellChunksApart(rd: Reading, x: Chunk, y: Chunk)
    ensures x.header == y.header ==>
              (Text(rd, x) == Text(rd, y) <==> rd.dropStruck(x.body) == rd.dropStruck(y.body))
    ensures x.header != "" && y.header != "" && '\n' !in x.header && '\n' !in y.header ==>
              (Text(rd, x) == Text(rd, y) <==>
                 x.header == y.header && rd.dropStruck(x.body) == rd.dropStruck(y.body))
  {
    var s, t := rd.dropStruck(x.body), rd.dropStruck(y.body);
    if x.header == y.header != "" && Text(rd, x) == Text(rd, y) {
      var n := |x.header + "\n\n"|;
      assert (x.header + "\n\n" + s)[n..] == s && (y.header + "\n\n" + t)[n..] == t;
    }
    if x.header != "" && y.header != "" && '\n' !in x.header && '\n' !in y.header && Text(rd, x) == Text(rd, y) {
      BreakSplitsOnce(x.header, s, y.header, t);
    }
  }
}
