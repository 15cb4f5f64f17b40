/** Cutting a page into chunks (internal/memory/chunk.go, and the keys of embed.go). Text
    is a sequence of bytes; reading a scalar out of a comment and dropping struck-through
    spans are parameters, about which nothing is assumed. */
module MemoryChunks {
  import opened Wrappers
  import opened Lines
  import Decimal

  const MAX_CHUNK_CHARS := 1600

  datatype Meta = Meta(id: string, date: string, source: string, confirmed: string, supersedes: string)

  const NO_META := Meta("", "", "", "", "")

  datatype Chunk = Chunk(
    path: string, heading: string, line: nat, header: string, body: string, related: string, meta: Meta)

  datatype Reading = Reading(scalar: (string, string) -> string, dropStruck: string -> string)

  /** A page past its frontmatter: what the frontmatter gave, the text after it, and how
      many lines it took. */
  datatype Page = Page(path: string, header: string, related: string, text: string, offset: nat)

  /** What gets indexed and embedded. */
  function Text(rd: Reading, c: Chunk): string {
    var body := rd.dropStruck(c.body);
    if c.header == "" then body else c.header + "\n\n" + body
  }

  function ChunkKey(c: Chunk): string {
    c.path + "#" + Decimal.Digits(c.line)
  }

  // ---------------------------------------------------------------- the metadata comment

  predicate HasPrefix(s: string, prefix: string) {
    |s| >= |prefix| && s[..|prefix|] == prefix
  }

  /** strings.Index(s, "-->"), or the length when there is none. */
  function FirstClose(s: string): (i: nat)
    ensures i <= |s|
    ensures i < |s| ==> i + 3 <= |s| && s[i..i + 3] == "-->"
  {
    if |s| < 3 then |s|
    else if s[..3] == "-->" then 0
    else
      var j := FirstClose(s[1..]);
      if j == |s[1..]| then |s| else
        assert s[1..][j..j + 3] == s[1 + j..1 + j + 3];
        1 + j
  }

  lemma {:induction false} NoneClosesEarlier(s: string, k: nat)
    requires k < FirstClose(s) && k + 3 <= |s|
    ensures s[k..k + 3] != "-->"
  {
    if k > 0 {
      NoneClosesEarlier(s[1..], k - 1);
      assert s[1..][k - 1..k + 2] == s[k..k + 3];
    }
  }

  function WithTail(tail: string, rest: seq<string>): seq<string> {
    if tail == "" then rest else [tail] + rest
  }

  /** One line of the comment as its search sees it. */
  function CommentLine(body: seq<string>, start: nat, i: nat): string
    requires start <= i < |body|
  {
    var line := TrimSpace(body[i]);
    if i == start then TrimSpace(if HasPrefix(line, "<!--") then line[4..] else line) else line
  }

  /** What is left of metaBlock's loop from line i on. */
  function MetaBlockFrom(body: seq<string>, start: nat, i: nat, inner: seq<string>): Option<(string, seq<string>)>
    requires start <= i <= |body|
    decreases |body| - i
  {
    if i == |body| then None
    else
      var line := CommentLine(body, start, i);
      if i != start && line == "" then None
      else
        var cut := FirstClose(line);
        if cut == |line| then MetaBlockFrom(body, start, i + 1, inner + [line])
        else Some((Join(inner + [TrimSpace(line[..cut])]), WithTail(TrimSpace(line[cut + 3..]), body[i + 1..])))
  }

  method MetaBlock(body: seq<string>, start: nat) returns (r: Option<(string, seq<string>)>)
    requires start <= |body|
    ensures r == MetaBlockFrom(body, start, start, [])
  {
    hide TrimSpace;
    hide FirstClose;
    var inner: seq<string> := [];
    for i := start to |body|
      invariant MetaBlockFrom(body, start, start, []) == MetaBlockFrom(body, start, i, inner)
    {
      var line := CommentLine(body, start, i);
      if i != start && line == "" {
        return None;
      }
      var cut := FirstClose(line);
      if cut == |line| {
        inner := inner + [line];
        continue;
      }
      inner := inner + [TrimSpace(line[..cut])];
      return Some((Join(inner), WithTail(TrimSpace(line[cut + 3..]), body[i + 1..])));
    }
    r := None;
  }

  /** Line i is where the comment closes: the first to hold "-->", with no blank line on
      the way to it. */
  ghost predicate ClosesAt(body: seq<string>, start: nat, i: nat) {
    && start <= i < |body|
    && FirstClose(CommentLine(body, start, i)) < |CommentLine(body, start, i)|
    && forall j :: start <= j < i ==>
         FirstClose(CommentLine(body, start, j)) == |CommentLine(body, start, j)|
         && (j == start || CommentLine(body, start, j) != "")
  }

  /** What closing at line i gives: the comment's lines up to the mark, and the rest of
      the body with whatever followed the mark at its head. */
  function ClosedAt(body: seq<string>, start: nat, i: nat): (string, seq<string>)
    requires start <= i < |body|
  {
    var line := CommentLine(body, start, i);
    var cut := FirstClose(line);
    (Join(seq(i - start, k requires 0 <= k < i - start => CommentLine(body, start, start + k))
          + [TrimSpace(line[..cut])]),
     WithTail(TrimSpace(if cut == |line| then "" else line[cut + 3..]), body[i + 1..]))
  }

  lemma {:induction false} MetaBlockFromIsExact(body: seq<string>, start: nat, i: nat, inner: seq<string>)
    requires start <= i <= |body|
    requires inner == seq(i - start, k requires 0 <= k < i - start => CommentLine(body, start, start + k))
    requires forall j :: start <= j < i ==>
               FirstClose(CommentLine(body, start, j)) == |CommentLine(body, start, j)|
               && (j == start || CommentLine(body, start, j) != "")
    ensures MetaBlockFrom(body, start, i, inner).None? ==> forall c: nat :: !ClosesAt(body, start, c)
    ensures MetaBlockFrom(body, start, i, inner).Some? ==>
              exists c: nat :: ClosesAt(body, start, c)
                && MetaBlockFrom(body, start, i, inner).value == ClosedAt(body, start, c)
    decreases |body| - i
  {
    hide TrimSpace;
    hide FirstClose;
    hide Join;
    hide CommentLine;
    if i < |body| {
      var line := CommentLine(body, start, i);
      if i == start || line != "" {
        if FirstClose(line) == |line| {
          MetaBlockFromIsExact(body, start, i + 1, inner + [line]);
        } else {
          assert ClosesAt(body, start, i);
        }
      }
    }
  }

  /** The comment is found if and only if it closes before a blank line, and then what is
      found is what closing there gives. */
  lemma MetaBlockIsExact(body: seq<string>, start: nat)
    requires start <= |body|
    ensures MetaBlockFrom(body, start, start, []).Some? <==> exists c: nat :: ClosesAt(body, start, c)
    ensures forall c: nat :: ClosesAt(body, start, c) ==>
              MetaBlockFrom(body, start, start, []) == Some(ClosedAt(body, start, c))
  {
    hide ClosedAt;
    hide CommentLine;
    hide FirstClose;
    MetaBlockFromIsExact(body, start, start, []);
  }

  function FirstInked(body: seq<string>): (i: nat)
    ensures i <= |body|
  {
    if body == [] || TrimSpace(body[0]) != "" then 0 else 1 + FirstInked(body[1..])
  }

  function ReadMeta(rd: Reading, inner: string): Meta {
    Meta(rd.scalar(inner, "id"), rd.scalar(inner, "date"), rd.scalar(inner, "source"),
         rd.scalar(inner, "confirmed"), rd.scalar(inner, "supersedes"))
  }

  /** Lifts the metadata comment off a body; a comment that declares nothing stays. */
  function TakeMeta(rd: Reading, body: seq<string>): (Meta, seq<string>) {
    var start := FirstInked(body);
    if start == |body| || !HasPrefix(TrimSpace(body[start]), "<!--") then (NO_META, body)
    else
      match MetaBlockFrom(body, start, start, [])
      case None => (NO_META, body)
      case Some(found) =>
        var meta := ReadMeta(rd, found.0);
        if meta == NO_META then (NO_META, body) else (meta, found.1)
  }

  predicate Unbroken(lines: seq<string>) {
    forall l :: l in lines ==> '\n' !in l
  }

  lemma CutLinesStayUnbroken(s: string, cut: nat)
    requires '\n' !in s && cut <= |s|
    ensures '\n' !in TrimSpace(s[cut..]) && '\n' !in TrimSpace(s)
  {
    TrimmingCuts(s[cut..]);
    TrimmingCuts(s);
    assert forall c :: c in s[cut..] ==> c in s;
  }

  lemma {:induction false} MetaBlockShortens(body: seq<string>, start: nat, i: nat, inner: seq<string>)
    requires start <= i <= |body| && Unbroken(body)
    ensures var r := MetaBlockFrom(body, start, i, inner);
            r.Some? ==> |r.value.1| <= |body| && Unbroken(r.value.1)
    decreases |body| - i
  {
    hide TrimSpace;
    hide FirstClose;
    if i < |body| {
      assert body[i] in body;
      CutLinesStayUnbroken(body[i], 0);
      assert body[i][0..] == body[i];
      var trimmed := TrimSpace(body[i]);
      if HasPrefix(trimmed, "<!--") { CutLinesStayUnbroken(trimmed, 4); }
      CutLinesStayUnbroken(trimmed, 0);
      var line := CommentLine(body, start, i);
      var cut := FirstClose(line);
      if cut == |line| {
        MetaBlockShortens(body, start, i + 1, inner + [line]);
      } else {
        CutLinesStayUnbroken(line, cut + 3);
        assert forall l :: l in body[i + 1..] ==> l in body;
      }
    }
  }

  /** Taking the metadata off never leaves more lines than there were. */
  lemma TakingMetaShortens(rd: Reading, body: seq<string>)
    requires Unbroken(body)
    ensures |TakeMeta(rd, body).1| <= |body| && Unbroken(TakeMeta(rd, body).1)
  {
    hide TrimSpace;
    hide MetaBlockFrom;
    MetaBlockShortens(body, FirstInked(body), FirstInked(body), []);
  }

  // ---------------------------------------------------------------- splitting a block

  /** What is left of split's loop from line i on. */
  function SplitFrom(c: Chunk, lines: seq<string>, i: nat, buf: seq<string>, size: nat, lineAt: nat): seq<Chunk>
    requires i <= |lines|
    decreases |lines| - i
  {
    if i == |lines| then if buf == [] then [] else [c.(body := Join(buf), line := lineAt)]
    else if size + |lines[i]| > MAX_CHUNK_CHARS && buf != [] then
      [c.(body := Join(buf), line := lineAt)]
      + SplitFrom(c, lines, i + 1, [lines[i]], |lines[i]| + 1, c.line + i)
    else SplitFrom(c, lines, i + 1, buf + [lines[i]], size + |lines[i]| + 1, lineAt)
  }

  function SplitChunk(rd: Reading, c: Chunk): seq<Chunk> {
    if |Text(rd, c)| <= MAX_CHUNK_CHARS then [c]
    else SplitFrom(c, Split(c.body), 0, [], 0, c.line)
  }

  method SplitParts(rd: Reading, c: Chunk) returns (parts: seq<Chunk>)
    ensures parts == SplitChunk(rd, c)
  {
    hide Text;
    hide Split;
    hide Join;
    if |Text(rd, c)| <= MAX_CHUNK_CHARS {
      return [c];
    }
    parts := [];
    var part := c;
    var lineAt: nat := c.line;
    var buf: seq<string> := [];
    var size: nat := 0;
    var lines := Split(c.body);
    for i := 0 to |lines|
      invariant part == c.(body := part.body, line := part.line)
      invariant parts + SplitFrom(c, lines, i, buf, size, lineAt) == SplitFrom(c, lines, 0, [], 0, c.line)
    {
      if size + |lines[i]| > MAX_CHUNK_CHARS && buf != [] {
        part := part.(body := Join(buf), line := lineAt);
        ghost var rest := SplitFrom(c, lines, i + 1, [lines[i]], |lines[i]| + 1, c.line + i);
        assert parts + ([part] + rest) == parts + [part] + rest;
        parts := parts + [part];
        buf, size, lineAt := [], 0, c.line + i;
        assert buf + [lines[i]] == [lines[i]];
      }
      buf := buf + [lines[i]];
      size := size + |lines[i]| + 1;
    }
    if buf != [] {
      part := part.(body := Join(buf), line := lineAt);
      parts := parts + [part];
    } else {
      assert parts + [] == parts;
    }
  }

  /** The parts of a block are the block but for body and line, each fits or is one line,
      and their lines start where the block does and go up. */
  ghost predicate ArePartsOf(c: Chunk, parts: seq<Chunk>) {
    && parts != []
    && (forall k :: 0 <= k < |parts| ==> parts[k] == c.(body := parts[k].body, line := parts[k].line))
    && (forall j, k :: 0 <= j < k < |parts| ==> parts[j].line < parts[k].line)
  }

  ghost predicate Fits(body: string) {
    |body| <= MAX_CHUNK_CHARS || '\n' !in body
  }

  function Bodies(parts: seq<Chunk>): seq<string> {
    if parts == [] then [] else [parts[0].body] + Bodies(parts[1..])
  }

  lemma {:induction false} JoinOfJoins(a: seq<string>, rest: seq<string>)
    requires a != [] && rest != []
    ensures Join(a + rest) == Join(a) + "\n" + Join(rest)
    decreases |a|
  {
    if |a| == 1 {
      assert (a + rest)[1..] == rest;
    } else {
      JoinOfJoins(a[1..], rest);
      assert (a + rest)[1..] == a[1..] + rest;
      assert a[0] + "\n" + (Join(a[1..]) + "\n" + Join(rest)) == a[0] + "\n" + Join(a[1..]) + "\n" + Join(rest);
    }
  }

  /** The state of split's loop: the lines held add up to `size`, with their breaks. */
  ghost predicate Holding(buf: seq<string>, size: nat) {
    if buf == [] then size == 0 else |Join(buf)| + 1 == size && Fits(Join(buf))
  }

  lemma HoldingOneMore(buf: seq<string>, size: nat, line: string)
    requires Holding(buf, size) && '\n' !in line
    requires size + |line| <= MAX_CHUNK_CHARS || buf == []
    ensures Holding(buf + [line], size + |line| + 1)
  {
    if buf == [] {
      assert buf + [line] == [line];
    } else {
      JoinOneMore(buf, line);
    }
  }

  lemma JoinOfOne(body: string)
    ensures Join([body]) == body
  {
  }

  lemma BodiesOfCut(parts: seq<Chunk>, rest: seq<Chunk>, buf: seq<string>, later: seq<string>)
    requires parts != [] && rest != [] && parts == [parts[0]] + rest && parts[0].body == Join(buf)
    requires buf != [] && later != [] && Join(Bodies(rest)) == Join(later)
    ensures Join(Bodies(parts)) == Join(buf + later)
  {
    assert parts[1..] == rest;
    JoinOfJoins(buf, later);
    assert Bodies(parts) == [parts[0].body] + Bodies(rest) && Bodies(rest) != [];
  }

  lemma {:induction false} SplitLinesAscend(
    c: Chunk, lines: seq<string>, i: nat, buf: seq<string>, size: nat, lineAt: nat)
    requires i <= |lines| && lines != []
    requires c.line <= lineAt && (if buf == [] then i == 0 && lineAt == c.line else lineAt < c.line + i)
    ensures var parts := SplitFrom(c, lines, i, buf, size, lineAt);
            && ArePartsOf(c, parts)
            && parts[0].line == lineAt
            && parts[|parts| - 1].line < c.line + |lines|
    decreases |lines| - i
  {
    hide Join;
    if i < |lines| {
      var line := lines[i];
      if size + |line| > MAX_CHUNK_CHARS && buf != [] {
        SplitLinesAscend(c, lines, i + 1, [line], |line| + 1, c.line + i);
        var rest := SplitFrom(c, lines, i + 1, [line], |line| + 1, c.line + i);
        FirstPart(c, c.(body := Join(buf), line := lineAt), rest);
      } else {
        SplitLinesAscend(c, lines, i + 1, buf + [line], size + |line| + 1, lineAt);
      }
    }
  }

  lemma {:induction false} SplitBodiesJoin(
    c: Chunk, lines: seq<string>, i: nat, buf: seq<string>, size: nat, lineAt: nat)
    requires i <= |lines| && (buf != [] || i < |lines|)
    ensures var parts := SplitFrom(c, lines, i, buf, size, lineAt);
            parts != [] && Join(Bodies(parts)) == Join(buf + lines[i..])
    decreases |lines| - i
  {
    hide Join;
    var parts := SplitFrom(c, lines, i, buf, size, lineAt);
    if i == |lines| {
      assert Bodies(parts) == [Join(buf)] by { assert parts[1..] == []; }
      JoinOfOne(Join(buf));
      assert buf + lines[i..] == buf;
    } else {
      var line := lines[i];
      if size + |line| > MAX_CHUNK_CHARS && buf != [] {
        SplitBodiesJoin(c, lines, i + 1, [line], |line| + 1, c.line + i);
        var rest := SplitFrom(c, lines, i + 1, [line], |line| + 1, c.line + i);
        BodiesOfCut(parts, rest, buf, [line] + lines[i + 1..]);
        assert buf + lines[i..] == buf + ([line] + lines[i + 1..]);
      } else {
        SplitBodiesJoin(c, lines, i + 1, buf + [line], size + |line| + 1, lineAt);
        assert buf + [line] + lines[i + 1..] == buf + lines[i..];
      }
    }
  }

  lemma {:induction false} SplitBodiesFit(
    c: Chunk, lines: seq<string>, i: nat, buf: seq<string>, size: nat, lineAt: nat)
    requires i <= |lines| && Unbroken(lines) && Holding(buf, size)
    ensures forall p :: p in SplitFrom(c, lines, i, buf, size, lineAt) ==> Fits(p.body)
    decreases |lines| - i
  {
    hide Fits;
    hide Join;
    if i < |lines| {
      var line := lines[i];
      assert line in lines;
      if size + |line| > MAX_CHUNK_CHARS && buf != [] {
        HoldingOneMore([], 0, line);
        assert [] + [line] == [line];
        SplitBodiesFit(c, lines, i + 1, [line], |line| + 1, c.line + i);
      } else {
        HoldingOneMore(buf, size, line);
        SplitBodiesFit(c, lines, i + 1, buf + [line], size + |line| + 1, lineAt);
      }
    }
  }

  lemma FirstPart(c: Chunk, first: Chunk, rest: seq<Chunk>)
    requires ArePartsOf(c, rest) && first == c.(body := first.body, line := first.line)
    requires first.line < rest[0].line
    ensures ArePartsOf(c, [first] + rest)
  {
    var parts := [first] + rest;
    forall j, k | 0 <= j < k < |parts| ensures parts[j].line < parts[k].line {
      assert parts[k] == rest[k - 1];
      if j > 0 { assert parts[j] == rest[j - 1]; }
    }
  }

  /** Splitting a block: the parts' lines go up from the block's own and stay within it,
      each keeps all but body and line, the bodies join back to the block's, and when the
      block is cut none is over the limit unless it is a single line. */
  lemma SplittingIsSound(rd: Reading, c: Chunk)
    ensures var parts := SplitChunk(rd, c);
            && ArePartsOf(c, parts)
            && parts[0].line == c.line
            && parts[|parts| - 1].line < c.line + 1 + Breaks(c.body)
            && Join(Bodies(parts)) == c.body
            && (|Text(rd, c)| > MAX_CHUNK_CHARS ==> forall p :: p in parts ==> Fits(p.body))
  {
    hide Fits;
    hide Split;
    LinesOfText(c.body);
    JoinOfSplit(c.body);
    if |Text(rd, c)| <= MAX_CHUNK_CHARS {
      assert Bodies([c]) == [c.body] by { assert [c][1..] == []; }
    } else {
      var lines := Split(c.body);
      SplitLinesAscend(c, lines, 0, [], 0, c.line);
      SplitBodiesJoin(c, lines, 0, [], 0, c.line);
      SplitBodiesFit(c, lines, 0, [], 0, c.line);
      assert [] + lines[0..] == lines;
    }
  }

  // ---------------------------------------------------------------- a page

  /** The chunks one heading's body gives: none when both are empty. */
  function ChunksFor(rd: Reading, c: Chunk, body: seq<string>): seq<Chunk> {
    var taken := TakeMeta(rd, body);
    var text := TrimSpace(Join(taken.1));
    if text == "" && c.heading == "" then []
    else
      SplitChunk(rd, c.(meta := taken.0, body := text,
                        header := if c.heading != "" then c.header + " / " + c.heading else c.header))
  }

  function Preamble(page: Page): Chunk {
    Chunk(page.path, "", page.offset + 1, page.header, "", page.related, NO_META)
  }

  function Headed(page: Page, line: string, i: nat): Chunk {
    var title := if HasPrefix(line, "###") then line[3..] else line;
    Chunk(page.path, TrimSpace(title), page.offset + i + 1, page.header, "", page.related, NO_META)
  }

  /** What is left of Chunks' loop from line i on. */
  function ChunksFrom(rd: Reading, page: Page, lines: seq<string>, i: nat, current: Chunk,
                      body: seq<string>): seq<Chunk>
    requires i <= |lines|
    decreases |lines| - i
  {
    if i == |lines| then ChunksFor(rd, current, body)
    else if !HasPrefix(lines[i], "### ") then ChunksFrom(rd, page, lines, i + 1, current, body + [lines[i]])
    else ChunksFor(rd, current, body) + ChunksFrom(rd, page, lines, i + 1, Headed(page, lines[i], i), [])
  }

  function ChunksOf(rd: Reading, page: Page): seq<Chunk> {
    ChunksFrom(rd, page, Split(page.text), 0, Preamble(page), [])
  }

  method AppendChunk(rd: Reading, chunks: seq<Chunk>, c: Chunk, body: seq<string>) returns (r: seq<Chunk>)
    ensures r == chunks + ChunksFor(rd, c, body)
  {
    hide TakeMeta;
    hide TrimSpace;
    hide Join;
    hide SplitChunk;
    var (meta, rest) := TakeMeta(rd, body);
    var chunk := c.(meta := meta, body := TrimSpace(Join(rest)));
    if chunk.body == "" && chunk.heading == "" {
      assert chunks + [] == chunks;
      return chunks;
    }
    if chunk.heading != "" {
      chunk := chunk.(header := chunk.header + " / " + chunk.heading);
    }
    var parts := SplitParts(rd, chunk);
    r := chunks + parts;
  }

  method Chunks(rd: Reading, page: Page) returns (chunks: seq<Chunk>)
    ensures chunks == ChunksOf(rd, page)
  {
    hide ChunksFor;
    hide Split;
    hide TrimSpace;
    var lines := Split(page.text);
    chunks := [];
    var current := Preamble(page);
    var body: seq<string> := [];
    for i := 0 to |lines|
      invariant chunks + ChunksFrom(rd, page, lines, i, current, body) == ChunksOf(rd, page)
    {
      if !HasPrefix(lines[i], "### ") {
        body := body + [lines[i]];
        continue;
      }
      ghost var rest := ChunksFrom(rd, page, lines, i + 1, Headed(page, lines[i], i), []);
      assert chunks + (ChunksFor(rd, current, body) + rest) == chunks + ChunksFor(rd, current, body) + rest;
      chunks := AppendChunk(rd, chunks, current, body);
      body := [];
      current := Headed(page, lines[i], i);
    }
    chunks := AppendChunk(rd, chunks, current, body);
  }

  // ---------------------------------------------------------------- where a page is cut

  /** A heading line and the lines under it. */
  datatype Section = Section(heading: string, body: seq<string>)

  predicate IsHeading(line: string) {
    HasPrefix(line, "### ")
  }

  ghost predicate NoHeadings(lines: seq<string>) {
    forall l :: l in lines ==> !IsHeading(l)
  }

  function Flat(sections: seq<Section>): seq<string> {
    if sections == [] then [] else [sections[0].heading] + sections[0].body + Flat(sections[1..])
  }

  /** The lines are those before the first heading and then the sections, and headings
      stand nowhere but at the head of a section. */
  ghost predicate CutsAtHeadings(lines: seq<string>, preamble: seq<string>, sections: seq<Section>) {
    && lines == preamble + Flat(sections)
    && NoHeadings(preamble)
    && forall s :: s in sections ==> IsHeading(s.heading) && NoHeadings(s.body)
  }

  /** The chunks of the sections in order, the first of them standing at line `at`. */
  function ChunksOfSections(rd: Reading, page: Page, sections: seq<Section>, at: nat): seq<Chunk> {
    if sections == [] then []
    else ChunksFor(rd, Headed(page, sections[0].heading, at), sections[0].body)
         + ChunksOfSections(rd, page, sections[1..], at + 1 + |sections[0].body|)
  }

  lemma {:induction false} RestCutsAtHeadings(
    rd: Reading, page: Page, lines: seq<string>, i: nat, current: Chunk, body: seq<string>)
    returns (more: seq<string>, sections: seq<Section>)
    requires i <= |lines|
    ensures CutsAtHeadings(lines[i..], more, sections)
    ensures ChunksFrom(rd, page, lines, i, current, body)
            == ChunksFor(rd, current, body + more) + ChunksOfSections(rd, page, sections, i + |more|)
    decreases |lines| - i
  {
    hide *;
    if i == |lines| {
      more, sections := [], [];
      assert body + [] == body;
      NothingIsCut(rd, page, lines, current, body);
    } else {
      var line := lines[i];
      assert lines[i..] == [line] + lines[i + 1..];
      if !IsHeading(line) {
        var under;
        under, sections := RestCutsAtHeadings(rd, page, lines, i + 1, current, body + [line]);
        more := [line] + under;
        assert body + [line] + under == body + more;
        LineBefore(rd, page, lines, i, current, body, under, sections);
      } else {
        var under, rest := RestCutsAtHeadings(rd, page, lines, i + 1, Headed(page, line, i), []);
        more, sections := [], [Section(line, under)] + rest;
        assert body + [] == body && [] + under == under;
        HeadingBefore(rd, page, lines, i, current, body, under, rest);
      }
    }
  }

  lemma NothingIsCut(rd: Reading, page: Page, lines: seq<string>, current: Chunk, body: seq<string>)
    ensures CutsAtHeadings(lines[|lines|..], [], [])
    ensures ChunksFrom(rd, page, lines, |lines|, current, body)
            == ChunksFor(rd, current, body) + ChunksOfSections(rd, page, [], |lines|)
  {
    hide ChunksFor;
  }

  lemma LineBefore(rd: Reading, page: Page, lines: seq<string>, i: nat, current: Chunk, body: seq<string>,
                   under: seq<string>, sections: seq<Section>)
    requires i < |lines| && CutsAtHeadings(lines[i + 1..], under, sections) && !IsHeading(lines[i])
    ensures CutsAtHeadings([lines[i]] + lines[i + 1..], [lines[i]] + under, sections)
    ensures ChunksFrom(rd, page, lines, i, current, body)
            == ChunksFrom(rd, page, lines, i + 1, current, body + [lines[i]])
  {
    hide ChunksFor;
    hide HasPrefix;
  }

  lemma HeadingBefore(rd: Reading, page: Page, lines: seq<string>, i: nat, current: Chunk, body: seq<string>,
                      under: seq<string>, rest: seq<Section>)
    requires i < |lines| && CutsAtHeadings(lines[i + 1..], under, rest) && IsHeading(lines[i])
    ensures var sections := [Section(lines[i], under)] + rest;
            && CutsAtHeadings([lines[i]] + lines[i + 1..], [], sections)
            && ChunksOfSections(rd, page, sections, i)
               == ChunksFor(rd, Headed(page, lines[i], i), under) + ChunksOfSections(rd, page, rest, i + 1 + |under|)
    ensures ChunksFrom(rd, page, lines, i, current, body)
            == ChunksFor(rd, current, body) + ChunksFrom(rd, page, lines, i + 1, Headed(page, lines[i], i), [])
  {
    hide ChunksFor;
    hide HasPrefix;
    hide Headed;
    var sections := [Section(lines[i], under)] + rest;
    assert sections[1..] == rest;
    assert Flat(sections) == [lines[i]] + under + Flat(rest);
  }

  /** A page is cut at its headings and nowhere else: every line is in the preamble or in
      the one section of its heading, and the chunks are those of the preamble and then
      of each section, under its own heading and at its own line. */
  lemma PagesAreCutAtHeadings(rd: Reading, page: Page) returns (preamble: seq<string>, sections: seq<Section>)
    ensures CutsAtHeadings(Split(page.text), preamble, sections)
    ensures ChunksOf(rd, page)
            == ChunksFor(rd, Preamble(page), preamble) + ChunksOfSections(rd, page, sections, |preamble|)
  {
    hide ChunksFor;
    hide Split;
    hide ChunksFrom;
    hide ChunksOfSections;
    hide CutsAtHeadings;
    var lines := Split(page.text);
    preamble, sections := RestCutsAtHeadings(rd, page, lines, 0, Preamble(page), []);
    assert lines[0..] == lines && [] + preamble == preamble;
  }

  /** A page of one heading and nothing else is one section, and its preamble gives no
      chunk. */
  lemma OneHeadingPage(rd: Reading, page: Page)
    requires IsHeading(page.text) && '\n' !in page.text
    ensures ChunksOf(rd, page) == ChunksFor(rd, Headed(page, page.text, 0), [])
  {
    OneLine(page.text);
    NothingUnderNothing(rd, Preamble(page));
    hide ChunksFor;
    hide Split;
    hide HasPrefix;
    hide Headed;
    var lines, head := [page.text], Headed(page, page.text, 0);
    assert ChunksFrom(rd, page, lines, 1, head, []) == ChunksFor(rd, head, []);
    assert ChunksOf(rd, page) == ChunksFor(rd, Preamble(page), []) + ChunksFrom(rd, page, lines, 1, head, []);
  }

  lemma NothingUnderNothing(rd: Reading, c: Chunk)
    ensures TakeMeta(rd, []) == (NO_META, []) && TrimSpace(Join([])) == ""
    ensures c.heading == "" ==> ChunksFor(rd, c, []) == []
  {
    NothingTrimsToNothing();
  }

  // ---------------------------------------------------------------- where chunks stand

  /** Chunks of one page, their lines going up from `low` and staying below `high`. */
  ghost predicate Ascend(path: string, chunks: seq<Chunk>, low: nat, high: nat) {
    && (forall k :: 0 <= k < |chunks| ==> chunks[k].path == path && low <= chunks[k].line < high)
    && (forall j, k :: 0 <= j < k < |chunks| ==> chunks[j].line < chunks[k].line)
  }

  lemma BlocksAscend(rd: Reading, c: Chunk, body: seq<string>)
    requires Unbroken(body)
    ensures Ascend(c.path, ChunksFor(rd, c, body), c.line, c.line + if c.heading != "" then |body| + 1 else |body|)
  {
    hide TakeMeta;
    hide TrimSpace;
    hide Join;
    hide SplitChunk;
    hide Fits;
    var (meta, rest) := TakeMeta(rd, body);
    TakingMetaShortens(rd, body);
    TrimmingCuts(Join(rest));
    BreaksOfRest(rest);
    var text := TrimSpace(Join(rest));
    if text != "" || c.heading != "" {
      var chunk := c.(meta := meta, body := text,
                      header := if c.heading != "" then c.header + " / " + c.heading else c.header);
      SplittingIsSound(rd, chunk);
      var parts := SplitChunk(rd, chunk);
      assert rest == [] ==> text == "" by { NothingTrimsToNothing(); }
      forall k | 0 <= k < |parts| ensures parts[0].line <= parts[k].line <= parts[|parts| - 1].line {
      }
    }
  }

  lemma NothingTrimsToNothing()
    ensures TrimSpace(Join([])) == ""
  {
  }

  lemma BreaksOfRest(rest: seq<string>)
    requires Unbroken(rest)
    ensures rest != [] ==> Breaks(Join(rest)) == |rest| - 1
    ensures rest == [] ==> Breaks(Join(rest)) == 0
  {
    if rest != [] { BreaksOfLines(rest); }
  }

  lemma {:induction false} ChunksFromAscend(
    rd: Reading, page: Page, lines: seq<string>, i: nat, current: Chunk, body: seq<string>)
    requires i <= |lines| && Unbroken(lines) && Unbroken(body)
    requires current.path == page.path
    requires current.line + (if current.heading != "" then |body| + 1 else |body|) <= page.offset + 1 + i
    ensures Ascend(page.path, ChunksFrom(rd, page, lines, i, current, body), current.line, page.offset + 1 + |lines|)
    decreases |lines| - i
  {
    hide ChunksFor;
    hide TrimSpace;
    BlocksAscend(rd, current, body);
    if i < |lines| {
      assert lines[i] in lines;
      if !HasPrefix(lines[i], "### ") {
        ChunksFromAscend(rd, page, lines, i + 1, current, body + [lines[i]]);
      } else {
        var next := Headed(page, lines[i], i);
        ChunksFromAscend(rd, page, lines, i + 1, next, []);
        AscendJoins(page.path, ChunksFor(rd, current, body), ChunksFrom(rd, page, lines, i + 1, next, []),
                    current.line, next.line, page.offset + 1 + |lines|);
      }
    }
  }

  lemma AscendJoins(path: string, a: seq<Chunk>, b: seq<Chunk>, low: nat, mid: nat, high: nat)
    requires Ascend(path, a, low, mid) && Ascend(path, b, mid, high) && low <= mid <= high
    ensures Ascend(path, a + b, low, high)
  {
    var all := a + b;
    forall j, k | 0 <= j < k < |all| ensures all[j].line < all[k].line {
      if k < |a| {
        assert all[j] == a[j] && all[k] == a[k];
      } else {
        assert all[k] == b[k - |a|];
        if j < |a| { assert all[j] == a[j]; } else { assert all[j] == b[j - |a|]; }
      }
    }
  }

  /** The chunks of a page start on lines of that page, each further down than the one
      before, whatever metadata was taken out and however blocks were cut. */
  lemma ChunkLinesAscend(rd: Reading, page: Page)
    ensures Ascend(page.path, ChunksOf(rd, page), page.offset + 1, page.offset + 1 + |Split(page.text)|)
  {
    hide Split;
    ChunksFromAscend(rd, page, Split(page.text), 0, Preamble(page), []);
  }

  // ---------------------------------------------------------------- keys

  /** A key names its page and line: no two pages or lines share one, whatever the paths
      hold. */
  lemma KeysAreExact(pathA: string, lineA: nat, pathB: string, lineB: nat)
    requires pathA + "#" + Decimal.Digits(lineA) == pathB + "#" + Decimal.Digits(lineB)
    ensures pathA == pathB && lineA == lineB
  {
    var key := pathA + "#" + Decimal.Digits(lineA);
    KeyParts(pathA, lineA, key);
    KeyParts(pathB, lineB, key);
    SameHash(key, |pathA|, |pathB|);
    Decimal.DigitsAreInjective(lineA, lineB);
  }

  lemma KeyParts(path: string, line: nat, key: string)
    requires key == path + "#" + Decimal.Digits(line)
    ensures |path| < |key| && key[|path|] == '#'
    ensures path == key[..|path|] && Decimal.Digits(line) == key[|path| + 1..]
    ensures forall i :: |path| < i < |key| ==> Decimal.IsDigit(key[i])
  {
    var d := Decimal.Digits(line);
    hide Decimal.Digits;
    forall i | |path| < i < |key| ensures Decimal.IsDigit(key[i]) {
      assert key[i] == d[i - |path| - 1];
    }
  }

  lemma SameHash(key: string, a: nat, b: nat)
    requires a < |key| && b < |key| && key[a] == '#' && key[b] == '#'
    requires forall i :: a < i < |key| ==> Decimal.IsDigit(key[i])
    requires forall i :: b < i < |key| ==> Decimal.IsDigit(key[i])
    ensures a == b
  {
  }

  /** No two chunks of a page share a key. */
  lemma ChunkKeysNeverCollide(rd: Reading, page: Page, i: nat, j: nat)
    requires i < j < |ChunksOf(rd, page)|
    ensures ChunkKey(ChunksOf(rd, page)[i]) != ChunkKey(ChunksOf(rd, page)[j])
  {
    hide ChunksFrom;
    ChunkLinesAscend(rd, page);
    var a, b := ChunksOf(rd, page)[i], ChunksOf(rd, page)[j];
    if ChunkKey(a) == ChunkKey(b) {
      KeysAreExact(a.path, a.line, b.path, b.line);
    }
  }

  /** Chunk i is the last of the first n to start at or before a line. */
  ghost predicate LastAtOrBefore(list: seq<Chunk>, n: nat, i: nat, line: nat) {
    i < n <= |list| && list[i].line <= line && forall k :: i < k < n ==> list[k].line > line
  }

  ghost predicate NoneAtOrBefore(list: seq<Chunk>, n: nat, line: nat) {
    n <= |list| && forall k :: 0 <= k < n ==> list[k].line > line
  }

  /** Of chunks in file order, the key of the last to start at or before a line, or of the
      first when none does. */
  method KeyAt(list: seq<Chunk>, line: nat) returns (key: Option<string>)
    ensures key.None? <==> list == []
    ensures forall i: nat :: LastAtOrBefore(list, |list|, i, line) ==> key == Some(ChunkKey(list[i]))
    ensures list != [] && NoneAtOrBefore(list, |list|, line) ==> key == Some(ChunkKey(list[0]))
  {
    hide ChunkKey;
    if |list| == 0 {
      return None;
    }
    var best := list[0];
    ghost var at: nat := 0;
    for i := 0 to |list|
      invariant at < |list| && best == list[at]
      invariant LastAtOrBefore(list, i, at, line) || (at == 0 && NoneAtOrBefore(list, i, line))
    {
      if list[i].line <= line {
        best := list[i];
        at := i;
      }
    }
    forall i: nat | LastAtOrBefore(list, |list|, i, line) ensures i == at {
      assert list[i].line <= line;
    }
    key := Some(ChunkKey(best));
  }

  /** Looking a chunk's own line up finds that chunk. */
  method KeyAtOwnLine(rd: Reading, page: Page, i: nat) returns (key: Option<string>)
    requires i < |ChunksOf(rd, page)|
    ensures key == Some(ChunkKey(ChunksOf(rd, page)[i]))
  {
    hide ChunksFrom;
    hide ChunksOf;
    hide ChunkKey;
    ChunkLinesAscend(rd, page);
    var list := Chunks(rd, page);
    assert LastAtOrBefore(list, |list|, i, list[i].line);
    key := KeyAt(list, list[i].line);
  }
}
