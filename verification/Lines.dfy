/** Text as lines: where a line breaks, splitting at the breaks and joining again, as
    strings.Split, strings.Join and strings.TrimSpace do. Text is a sequence of bytes. */
module Lines {

  /** strings.Index(text, "\n"), or the length when there is none. */
  function FirstBreak(text: string): (i: nat)
    ensures i <= |text|
    ensures i < |text| ==> text[i] == '\n'
    ensures forall k :: 0 <= k < i ==> text[k] != '\n'
  {
    if text == "" || text[0] == '\n' then 0 else 1 + FirstBreak(text[1..])
  }

  /** strings.Split(text, "\n"). */
  function Split(text: string): (lines: seq<string>)
    ensures lines != []
    ensures forall l :: l in lines ==> '\n' !in l
    decreases |text|
  {
    var i := FirstBreak(text);
    if i == |text| then [text] else [text[..i]] + Split(text[i + 1..])
  }

  /** strings.Join(lines, "\n"). */
  function Join(lines: seq<string>): string {
    if lines == [] then ""
    else if |lines| == 1 then lines[0]
    else lines[0] + "\n" + Join(lines[1..])
  }

  function Breaks(text: string): nat {
    if text == "" then 0 else (if text[0] == '\n' then 1 else 0) + Breaks(text[1..])
  }

  /** Joining what was split gives the text back. */
  lemma {:induction false} JoinOfSplit(text: string)
    ensures Join(Split(text)) == text
    decreases |text|
  {
    var i := FirstBreak(text);
    if i < |text| {
      JoinOfSplit(text[i + 1..]);
      assert Split(text)[1..] == Split(text[i + 1..]);
      assert text == text[..i] + "\n" + text[i + 1..];
    }
  }

  lemma {:induction false} BreaksJoin(a: string, b: string)
    ensures Breaks(a + b) == Breaks(a) + Breaks(b)
  {
    if a == "" {
      assert a + b == b;
    } else {
      BreaksJoin(a[1..], b);
      assert (a + b)[1..] == a[1..] + b;
    }
  }

  lemma {:induction false} NoBreaks(a: string)
    requires '\n' !in a
    ensures Breaks(a) == 0
  {
    if a != "" {
      assert a[0] in a && forall c :: c in a[1..] ==> c in a;
      NoBreaks(a[1..]);
    }
  }

  /** A text has one line more than it has breaks. */
  lemma {:induction false} LinesOfText(text: string)
    ensures |Split(text)| == 1 + Breaks(text)
    decreases |text|
  {
    var i := FirstBreak(text);
    if i == |text| {
      NoBreaks(text);
    } else {
      LinesOfText(text[i + 1..]);
      assert text == text[..i] + (['\n'] + text[i + 1..]);
      BreaksJoin(text[..i], ['\n'] + text[i + 1..]);
      NoBreaks(text[..i]);
      assert (['\n'] + text[i + 1..])[1..] == text[i + 1..];
    }
  }

  lemma {:induction false} BreaksOfLines(lines: seq<string>)
    requires lines != [] && forall l :: l in lines ==> '\n' !in l
    ensures Breaks(Join(lines)) == |lines| - 1
  {
    assert lines[0] in lines;
    NoBreaks(lines[0]);
    if |lines| > 1 {
      BreaksOfLines(lines[1..]);
      var rest := Join(lines[1..]);
      assert Join(lines) == lines[0] + (['\n'] + rest);
      BreaksJoin(lines[0], ['\n'] + rest);
      assert (['\n'] + rest)[1..] == rest;
    }
  }

  /** Joining one more line at the end. */
  lemma {:induction false} JoinOneMore(lines: seq<string>, line: string)
    requires lines != []
    ensures Join(lines + [line]) == Join(lines) + "\n" + line
  {
    if |lines| == 1 {
      assert (lines + [line])[1..] == [line];
    } else {
      JoinOneMore(lines[1..], line);
      assert (lines + [line])[1..] == lines[1..] + [line];
      assert lines[0] + "\n" + (Join(lines[1..]) + "\n" + line) == lines[0] + "\n" + Join(lines[1..]) + "\n" + line;
    }
  }

  lemma OneLine(text: string)
    requires '\n' !in text
    ensures Split(text) == [text]
  {
    assert FirstBreak(text) == |text|;
  }

  predicate IsSpace(c: char) {
    c == ' ' || c == '\t' || c == '\n' || c == '\r' || c == 11 as char || c == 12 as char
  }

  function TrimLeft(s: string): (r: string)
    ensures |r| <= |s| && r == s[|s| - |r|..]
  {
    if s != "" && IsSpace(s[0]) then TrimLeft(s[1..]) else s
  }

  function TrimRight(s: string): (r: string)
    ensures |r| <= |s| && r == s[..|r|]
  {
    if s != "" && IsSpace(s[|s| - 1]) then TrimRight(s[..|s| - 1]) else s
  }

  /** strings.TrimSpace, for ASCII white space. */
  function TrimSpace(s: string): string {
    TrimRight(TrimLeft(s))
  }

  /** A space, or one of the five control characters from tab to carriage return. */
  predicate IsWhite(c: char) {
    c == ' ' || 9 <= c as int <= 13
  }

  ghost predicate AllWhite(s: string) {
    forall i :: 0 <= i < |s| ==> IsWhite(s[i])
  }

  /** What is left of a text once the white space at both ends is off. */
  ghost predicate IsTrimmed(s: string, t: string) {
    && (t != "" ==> !IsWhite(t[0]) && !IsWhite(t[|t| - 1]))
    && exists i: nat, j: nat :: i <= j <= |s| && t == s[i..j] && AllWhite(s[..i]) && AllWhite(s[j..])
  }

  lemma {:induction false} LeftIsOff(s: string)
    ensures AllWhite(s[..|s| - |TrimLeft(s)|])
    ensures TrimLeft(s) != "" ==> !IsWhite(TrimLeft(s)[0])
  {
    if s != "" && IsSpace(s[0]) {
      LeftIsOff(s[1..]);
      OneMoreOff(s, |s[1..]| - |TrimLeft(s[1..])|);
    }
  }

  lemma OneMoreOff(s: string, n: nat)
    requires s != "" && IsSpace(s[0]) && n < |s| && AllWhite(s[1..][..n])
    ensures AllWhite(s[..n + 1])
  {
    forall i | 0 <= i < n + 1 ensures IsWhite(s[i]) {
      if i > 0 { assert s[1..][..n][i - 1] == s[i]; }
    }
  }

  lemma {:induction false} RightIsOff(s: string)
    ensures AllWhite(s[|TrimRight(s)|..])
    ensures TrimRight(s) != "" ==> !IsWhite(TrimRight(s)[|TrimRight(s)| - 1])
  {
    if s != "" && IsSpace(s[|s| - 1]) {
      var n := |s| - 1;
      RightIsOff(s[..n]);
      OneMoreOffEnd(s, |TrimRight(s[..n])|);
    }
  }

  lemma OneMoreOffEnd(s: string, k: nat)
    requires s != "" && IsSpace(s[|s| - 1]) && k <= |s| - 1 && AllWhite(s[..|s| - 1][k..])
    ensures AllWhite(s[k..])
  {
    forall i | k <= i < |s| ensures IsWhite(s[i]) {
      if i < |s| - 1 { assert s[..|s| - 1][k..][i - k] == s[i]; }
    }
  }

  lemma WhiteEnds(s: string, k: nat, l: nat)
    requires k <= l <= |s| && AllWhite(s[..k]) && AllWhite(s[l..])
    ensures forall m :: 0 <= m < k || l <= m < |s| ==> IsWhite(s[m])
  {
    forall m | 0 <= m < k ensures IsWhite(s[m]) { assert s[..k][m] == s[m]; }
    forall m | l <= m < |s| ensures IsWhite(s[m]) { assert s[l..][m - l] == s[m]; }
  }

  /** What is not white at the ends of one trimming lies inside any other. */
  lemma InkedInside(s: string, i: nat, j: nat, k: nat, l: nat)
    requires i <= j <= |s| && (i < j ==> !IsWhite(s[i]) && !IsWhite(s[j - 1]))
    requires k <= l <= |s| && AllWhite(s[..k]) && AllWhite(s[l..])
    ensures i < j ==> k <= i && j <= l
  {
    WhiteEnds(s, k, l);
    hide AllWhite;
    hide IsWhite;
  }

  lemma InkAt(s: string, i: nat, j: nat, t: string)
    requires i <= j <= |s| && t == s[i..j] && (t != "" ==> !IsWhite(t[0]) && !IsWhite(t[|t| - 1]))
    ensures |t| == j - i && (i < j ==> !IsWhite(s[i]) && !IsWhite(s[j - 1]))
  {
  }

  lemma TrimmedOnce(s: string, t: string, u: string)
    requires IsTrimmed(s, t) && IsTrimmed(s, u)
    ensures t == u
  {
    var i: nat, j: nat :| i <= j <= |s| && t == s[i..j] && AllWhite(s[..i]) && AllWhite(s[j..]);
    var k: nat, l: nat :| k <= l <= |s| && u == s[k..l] && AllWhite(s[..k]) && AllWhite(s[l..]);
    InkAt(s, i, j, t);
    InkAt(s, k, l, u);
    hide *;
    InkedInside(s, i, j, k, l);
    InkedInside(s, k, l, i, j);
  }

  /** Trimming takes the white space off both ends and nothing else. */
  lemma TrimmingIsExact(s: string, t: string)
    ensures TrimSpace(s) == t <==> IsTrimmed(s, t)
  {
    var l := TrimLeft(s);
    var r := TrimRight(l);
    LeftIsOff(s);
    RightIsOff(l);
    hide TrimLeft;
    hide TrimRight;
    var i := |s| - |l|;
    assert r == s[i..i + |r|] && s[i + |r|..] == l[|r|..];
    assert r != "" ==> r[0] == l[0];
    assert IsTrimmed(s, r);
    if IsTrimmed(s, t) { TrimmedOnce(s, r, t); }
  }

  /** Trimming cuts out of a text: no break is added, and no character. */
  lemma TrimmingCuts(s: string)
    ensures Breaks(TrimSpace(s)) <= Breaks(s)
    ensures forall c :: c in TrimSpace(s) ==> c in s
  {
    hide TrimLeft;
    hide TrimRight;
    hide Breaks;
    var l := TrimLeft(s);
    var t := TrimRight(l);
    assert s == s[..|s| - |l|] + l && l == t + l[|t|..];
    BreaksJoin(s[..|s| - |l|], l);
    BreaksJoin(t, l[|t|..]);
  }
}
