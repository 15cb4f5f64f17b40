/** The redactor a step's output goes through (internal/flow/run.go, newRedactor), and
    exactly when the mirror of a stream does not depend on how it was written. Which values
    are secret is given: a list, the ones a replacer tries first in front. */
module FlowRedact {
  import opened Wrappers
  import opened Lines
  import opened FlowStream

  const MASK := "***"

  /** The first listed secret that the text starts with. An empty one is passed over right
      where one has just been replaced. */
  function FirstMatch(secrets: seq<string>, text: string, skipEmpty: bool): (m: Option<string>)
    ensures m.Some? ==> m.value in secrets && m.value <= text && (skipEmpty ==> m.value != "")
  {
    if secrets == [] then None
    else if secrets[0] <= text && !(skipEmpty && secrets[0] == "") then Some(secrets[0])
    else FirstMatch(secrets[1..], text, skipEmpty)
  }

  /** Every match replaced, left to right and without overlap, as a strings.Replacer does. */
  function Replace(secrets: seq<string>, text: string, skipEmpty: bool): string
    decreases |text|, if skipEmpty then 0 else 1
  {
    match FirstMatch(secrets, text, skipEmpty)
    case Some(m) => MASK + Replace(secrets, text[|m|..], m == "")
    case None => if text == "" then "" else [text[0]] + Replace(secrets, text[1..], false)
  }

  function Redact(secrets: seq<string>, text: string): string {
    Replace(secrets, text, false)
  }

  function RedactorOf(secrets: seq<string>): Redactor {
    text => Redact(secrets, text)
  }

  /** What is mirrored of a stream written in these pieces. */
  function Mirror(prefix: string, secrets: seq<string>, writes: seq<string>): string {
    Sent(prefix, RedactorOf(secrets), TextsOf("", writes))
  }

  /** A secret behind one that starts it never matches. */
  ghost predicate Shadowed(secrets: seq<string>, i: nat)
    requires i < |secrets|
  {
    exists j :: 0 <= j < i && secrets[j] != "" && secrets[j] <= secrets[i]
  }

  /** No secret is empty, and every secret that holds a line break is behind one that
      starts it. */
  ghost predicate BreaksNeverMatch(secrets: seq<string>) {
    forall i :: 0 <= i < |secrets| ==>
      secrets[i] != "" && ('\n' in secrets[i] ==> Shadowed(secrets, i))
  }

  // ---------------------------------------------------------------- what matches

  /** A match is a listed secret, and none listed before it matches. */
  lemma {:induction false} MatchIsFirst(secrets: seq<string>, text: string, skipEmpty: bool) returns (i: nat)
    requires FirstMatch(secrets, text, skipEmpty).Some?
    ensures i < |secrets| && FirstMatch(secrets, text, skipEmpty) == Some(secrets[i])
    ensures forall j :: 0 <= j < i ==> !(secrets[j] <= text) || (skipEmpty && secrets[j] == "")
  {
    if secrets[0] <= text && !(skipEmpty && secrets[0] == "") {
      i := 0;
    } else {
      var k := MatchIsFirst(secrets[1..], text, skipEmpty);
      i := k + 1;
      forall j | 0 <= j < i ensures !(secrets[j] <= text) || (skipEmpty && secrets[j] == "") {
        if j > 0 { assert secrets[j] == secrets[1..][j - 1]; }
      }
    }
  }

  lemma {:induction false} FirstIsMatch(secrets: seq<string>, text: string, skipEmpty: bool, i: nat)
    requires i < |secrets| && secrets[i] <= text && !(skipEmpty && secrets[i] == "")
    requires forall j :: 0 <= j < i ==> !(secrets[j] <= text) || (skipEmpty && secrets[j] == "")
    ensures FirstMatch(secrets, text, skipEmpty) == Some(secrets[i])
  {
    if i > 0 {
      assert !(secrets[0] <= text) || (skipEmpty && secrets[0] == "");
      FirstIsMatch(secrets[1..], text, skipEmpty, i - 1);
    }
  }

  lemma ShadowedIsNotFirst(secrets: seq<string>, text: string, i: nat)
    requires i < |secrets| && secrets[i] <= text && Shadowed(secrets, i)
    ensures exists j :: 0 <= j < i && secrets[j] != "" && secrets[j] <= text
  {
    var j :| 0 <= j < i && secrets[j] != "" && secrets[j] <= secrets[i];
    assert secrets[j] <= text;
  }

  /** What matches holds no line break, if no unshadowed secret does. */
  lemma MatchesHoldNoBreak(secrets: seq<string>, text: string, skipEmpty: bool)
    requires forall i :: 0 <= i < |secrets| && '\n' in secrets[i] ==> Shadowed(secrets, i)
    requires FirstMatch(secrets, text, skipEmpty).Some?
    ensures '\n' !in FirstMatch(secrets, text, skipEmpty).value
  {
    var i := MatchIsFirst(secrets, text, skipEmpty);
    if '\n' in secrets[i] {
      ShadowedIsNotFirst(secrets, text, i);
      assert false;
    }
  }

  // ---------------------------------------------------------------- redaction line by line

  /** A match in front of whole lines is a match in front of them alone. */
  lemma MatchesStayInLines(secrets: seq<string>, a: string, b: string)
    requires BreaksNeverMatch(secrets) && WholeLines(a) && a != ""
    ensures FirstMatch(secrets, a + b, false) == FirstMatch(secrets, a, false)
    ensures var m := FirstMatch(secrets, a, false); m.Some? ==> 0 < |m.value| < |a|
  {
    var whole := FirstMatch(secrets, a + b, false);
    if whole.Some? {
      MatchesHoldNoBreak(secrets, a + b, false);
      var m := whole.value;
      assert a[|a| - 1] == '\n' && (a + b)[|a| - 1] == '\n';
      var k: nat := |a| - 1;
      if k < |m| {
        BreakIsHeld(m, a + b, k);
        assert false;
      }
      assert m == (a + b)[..|m|] == a[..|m|];
      var i := MatchIsFirst(secrets, a + b, false);
      forall j | 0 <= j < i ensures !(secrets[j] <= a) {
        if secrets[j] <= a { PrefixOfLonger(secrets[j], a, b); }
      }
      FirstIsMatch(secrets, a, false, i);
    } else {
      NoMatchInFront(secrets, a, b);
    }
  }

  lemma BreakIsHeld(m: string, text: string, k: nat)
    requires m <= text && k < |m| && text[k] == '\n'
    ensures '\n' in m
  {
    assert m[k] == text[k];
  }

  lemma PrefixOfLonger(s: string, a: string, b: string)
    requires s <= a
    ensures s <= a + b
  {
  }

  lemma {:induction false} NoMatchInFront(secrets: seq<string>, a: string, b: string)
    requires FirstMatch(secrets, a + b, false).None?
    ensures FirstMatch(secrets, a, false).None?
  {
    if secrets != [] {
      if secrets[0] <= a { PrefixOfLonger(secrets[0], a, b); }
      NoMatchInFront(secrets[1..], a, b);
    }
  }

  /** Whole lines and what follows them are redacted apart, and whole lines stay whole. */
  lemma {:induction false} LinesAreRedactedApart(secrets: seq<string>, a: string, b: string)
    requires BreaksNeverMatch(secrets) && WholeLines(a)
    ensures Redact(secrets, a + b) == Redact(secrets, a) + Redact(secrets, b)
    ensures WholeLines(Redact(secrets, a)) && (a != "" ==> Redact(secrets, a) != "")
    decreases |a|
  {
    if a == "" {
      assert a + b == b;
      NothingRedacted(secrets);
    } else {
      MatchesStayInLines(secrets, a, b);
      var m := FirstMatch(secrets, a, false);
      hide BreaksNeverMatch;
      hide FirstMatch;
      if m.Some? {
        var rest := a[|m.value|..];
        assert (a + b)[|m.value|..] == rest + b && rest[|rest| - 1] == a[|a| - 1];
        LinesAreRedactedApart(secrets, rest, b);
        assert MASK + (Redact(secrets, rest) + Redact(secrets, b)) == MASK + Redact(secrets, rest) + Redact(secrets, b);
      } else {
        var rest := a[1..];
        assert (a + b)[1..] == rest + b && (a + b)[0] == a[0];
        LinesAreRedactedApart(secrets, rest, b);
        assert [a[0]] + (Redact(secrets, rest) + Redact(secrets, b))
            == [a[0]] + Redact(secrets, rest) + Redact(secrets, b);
      }
    }
  }

  lemma NothingRedacted(secrets: seq<string>)
    requires BreaksNeverMatch(secrets)
    ensures Redact(secrets, "") == ""
  {
    var m := FirstMatch(secrets, "", false);
    if m.Some? {
      assert false;
    }
  }

  lemma RedactorIsLineWise(secrets: seq<string>)
    requires BreaksNeverMatch(secrets)
    ensures LineWise(RedactorOf(secrets))
  {
    forall a | WholeLines(a) ensures WholeLines(Redact(secrets, a)) {
      LinesAreRedactedApart(secrets, a, "");
    }
    forall a, b | WholeLines(a) ensures Redact(secrets, a + b) == Redact(secrets, a) + Redact(secrets, b) {
      LinesAreRedactedApart(secrets, a, b);
    }
  }

  // ---------------------------------------------------------------- a mirror that is exact

  /** Whole lines, all but perhaps the last. */
  ghost predicate WholeButLast(texts: seq<string>) {
    forall i :: 0 <= i < |texts| - 1 ==> WholeLines(texts[i])
  }

  lemma {:induction false} JoinedWhole(texts: seq<string>)
    requires forall i :: 0 <= i < |texts| ==> WholeLines(texts[i])
    ensures WholeLines(Joined(texts))
  {
    if texts != [] {
      var n := |texts| - 1;
      JoinedWhole(texts[..n]);
      assert WholeLines(texts[n]);
    }
  }

  lemma {:induction false} JoinedFront(text: string, texts: seq<string>)
    ensures Joined([text] + texts) == text + Joined(texts)
  {
    var all := [text] + texts;
    if texts == [] {
      assert all[..0] == [] && all == [text];
    } else {
      var n := |texts| - 1;
      JoinedFront(text, texts[..n]);
      assert all[..|all| - 1] == [text] + texts[..n] && all[|all| - 1] == texts[n];
    }
  }

  lemma WholeFront(text: string, texts: seq<string>)
    requires WholeLines(text) && WholeButLast(texts)
    ensures WholeButLast([text] + texts)
  {
  }

  /** What is handed to the redactor is the stream, cut after whole lines. */
  lemma {:induction false} TextsAreTheStream(pending: string, writes: seq<string>)
    ensures Joined(TextsOf(pending, writes)) == pending + Joined(writes)
    ensures WholeButLast(TextsOf(pending, writes))
    decreases |writes|
  {
    if writes == [] {
      LeftoverIsTheStream(pending);
    } else {
      var first, rest := writes[0], writes[1..];
      assert writes == [first] + rest && writes[0..] == writes;
      TextsOfWrite(pending, writes, 0);
      hide *;
      var (texts, left) := Completed(pending, first);
      TextsAreTheStream(left, rest);
      CompletedSplits(pending, first);
      JoinedFront(first, rest);
      Associates(pending, first, Joined(rest));
      if texts == [] {
        assert [] + TextsOf(left, rest) == TextsOf(left, rest);
      } else {
        JoinedFront(texts[0], TextsOf(left, rest));
        WholeFront(texts[0], TextsOf(left, rest));
        Associates(texts[0], left, Joined(rest));
      }
    }
  }

  lemma LeftoverIsTheStream(pending: string)
    ensures Joined(TextsOf(pending, [])) == pending + Joined([]) && WholeButLast(TextsOf(pending, []))
  {
    assert [pending][..0] == [];
  }

  lemma CompletedSplits(pending: string, p: string)
    ensures var (texts, left) := Completed(pending, p);
            (texts == [] && left == pending + p)
            || (|texts| == 1 && texts == [texts[0]] && WholeLines(texts[0]) && texts[0] + left == pending + p)
  {
    var all := pending + p;
    var cut := LastBreak(all);
    if p != "" && cut >= 0 {
      assert all[..cut + 1] + all[cut + 1..] == all;
      assert all[..cut + 1][cut] == '\n';
    }
  }

  /** Texts of whole lines, under a redactor that treats lines apart, mirror as one. */
  lemma {:induction false} SentAsOne(prefix: string, redact: Redactor, texts: seq<string>)
    requires LineWise(redact) && WholeButLast(texts)
    ensures Sent(prefix, redact, texts) == Prefixed(prefix, redact(Joined(texts)))
  {
    if texts == [] {
      assert redact("" + "") == redact("") + redact("");
      assert |redact("")| == 0;
    } else {
      var n := |texts| - 1;
      SentAsOne(prefix, redact, texts[..n]);
      forall i | 0 <= i < n ensures WholeLines(texts[..n][i]) {
        assert WholeLines(texts[i]);
      }
      JoinedWhole(texts[..n]);
      PrefixedJoins(prefix, redact(Joined(texts[..n])), redact(texts[n]));
    }
  }

  lemma LineWiseMirrors(prefix: string, redact: Redactor, writes: seq<string>)
    requires LineWise(redact)
    ensures Sent(prefix, redact, TextsOf("", writes)) == Prefixed(prefix, redact(Joined(writes)))
  {
    hide LineWise;
    hide WholeButLast;
    TextsAreTheStream("", writes);
    assert "" + Joined(writes) == Joined(writes);
    SentAsOne(prefix, redact, TextsOf("", writes));
  }

  // ---------------------------------------------------------------- a mirror that is not

  /** A secret that can match and holds a line break, the first of its kind. */
  ghost predicate FirstSpanning(secrets: seq<string>, i: nat) {
    && i < |secrets| && '\n' in secrets[i] && !Shadowed(secrets, i)
    && forall j :: 0 <= j < i && '\n' in secrets[j] ==> Shadowed(secrets, j)
  }

  lemma FindSpanning(secrets: seq<string>, at: nat) returns (i: nat)
    requires at < |secrets| && '\n' in secrets[at] && !Shadowed(secrets, at)
    ensures FirstSpanning(secrets, i)
  {
    if FirstSpanning(secrets, at) {
      i := at;
    } else {
      var j :| 0 <= j < at && '\n' in secrets[j] && !Shadowed(secrets, j);
      i := FindSpanning(secrets, j);
    }
  }

  /** Whatever follows such a secret, nothing listed before it starts the text. */
  lemma {:induction false} EarlierWouldShadow(secrets: seq<string>, i: nat, after: string, j: nat)
    requires i < |secrets| && '\n' in secrets[i] && j < i
    requires forall k :: 0 <= k < i && '\n' in secrets[k] ==> Shadowed(secrets, k)
    requires secrets[j] != "" && secrets[j] <= secrets[i] + after
    ensures Shadowed(secrets, i)
    decreases j
  {
    if |secrets[j]| <= |secrets[i]| {
      assert secrets[j] <= secrets[i];
    } else {
      LongerHoldsBreak(secrets[i], secrets[j], after);
      assert Shadowed(secrets, j);
      var k :| 0 <= k < j && secrets[k] != "" && secrets[k] <= secrets[j];
      EarlierWouldShadow(secrets, i, after, k);
    }
  }

  lemma LongerHoldsBreak(s: string, longer: string, after: string)
    requires '\n' in s && |longer| > |s| && longer <= s + after
    ensures '\n' in longer
  {
    var k :| 0 <= k < |s| && s[k] == '\n';
    assert longer[k] == (s + after)[k];
  }

  lemma {:induction false} SomethingMatches(secrets: seq<string>, text: string, skipEmpty: bool, i: nat)
    requires i < |secrets| && secrets[i] <= text && !(skipEmpty && secrets[i] == "")
    ensures FirstMatch(secrets, text, skipEmpty).Some?
  {
    if i > 0 { SomethingMatches(secrets[1..], text, skipEmpty, i - 1); }
  }

  /** Such a secret is masked wherever it stands in front, after an empty one at most. */
  lemma SpanningIsMasked(secrets: seq<string>, i: nat, after: string) returns (mask: string)
    requires FirstSpanning(secrets, i)
    ensures Redact(secrets, secrets[i] + after) == mask + Redact(secrets, after) && '\n' !in mask
  {
    var s := secrets[i];
    var text := s + after;
    assert text[|s|..] == after && s <= text;
    forall j | 0 <= j < i ensures !(secrets[j] <= text) || secrets[j] == "" {
      if secrets[j] != "" && secrets[j] <= text { EarlierWouldShadow(secrets, i, after, j); }
    }
    FirstIsMatch(secrets, text, true, i);
    SomethingMatches(secrets, text, false, i);
    var k := MatchIsFirst(secrets, text, false);
    assert Replace(secrets, text, true) == MASK + Redact(secrets, after);
    if k == i {
      mask := MASK;
    } else {
      assert k < i && secrets[k] == "" && text[0..] == text;
      mask := MASK + MASK;
      assert mask + Redact(secrets, after) == MASK + (MASK + Redact(secrets, after));
    }
  }

  lemma RedactedIsNotEmpty(secrets: seq<string>, text: string)
    requires text != ""
    ensures Redact(secrets, text) != ""
  {
  }

  lemma BreakAtEnd(text: string)
    requires text != "" && text[|text| - 1] == '\n'
    ensures Breaks(text) >= 1
  {
    var n := |text| - 1;
    assert text == text[..n] + "\n";
    BreaksJoin(text[..n], "\n");
    assert "\n"[1..] == "";
  }

  lemma {:induction false} PrefixedEndsInBreak(prefix: string, text: string)
    requires text != ""
    ensures Breaks(Prefixed(prefix, text)) >= 1
  {
    var i := FirstBreak(text);
    if i == |text| {
      BreakAtEnd(prefix + text + "\n");
    } else {
      var head := prefix + text[..i + 1];
      BreakAtEnd(head);
      BreaksJoin(head, Prefixed(prefix, text[i + 1..]));
    }
  }

  lemma PrefixedOpens(prefix: string, text: string)
    requires text != ""
    ensures var i := FirstBreak(text);
            && (i == |text| ==> Breaks(Prefixed(prefix, text)) == Breaks(prefix) + Breaks(text) + 1)
            && (i < |text| ==>
                  Breaks(Prefixed(prefix, text))
                  == Breaks(prefix) + Breaks(text[..i + 1]) + Breaks(Prefixed(prefix, text[i + 1..])))
  {
    var i := FirstBreak(text);
    if i == |text| {
      BreaksOfThree(prefix, text, "\n");
      assert Breaks("\n") == 1 by { assert "\n"[1..] == ""; }
    } else {
      BreaksOfThree(prefix, text[..i + 1], Prefixed(prefix, text[i + 1..]));
    }
  }

  /** Text put in front of a first line adds no line. */
  lemma FrontAddsNoLine(prefix: string, mask: string, text: string)
    requires text != "" && '\n' !in mask
    ensures Breaks(Prefixed(prefix, mask + text)) == Breaks(Prefixed(prefix, text))
  {
    hide Prefixed;
    hide Breaks;
    hide FirstBreak;
    var i, k := FirstBreak(text), FirstBreak(mask + text);
    FirstBreakBehind(mask, text);
    NoBreaks(mask);
    PrefixedOpens(prefix, text);
    PrefixedOpens(prefix, mask + text);
    if i == |text| {
      BreaksJoin(mask, text);
    } else {
      assert (mask + text)[..k + 1] == mask + text[..i + 1] && (mask + text)[k + 1..] == text[i + 1..];
      BreaksJoin(mask, text[..i + 1]);
    }
  }

  lemma FirstBreakBehind(mask: string, text: string)
    requires '\n' !in mask
    ensures FirstBreak(mask + text) == |mask| + FirstBreak(text)
  {
    var i, k := FirstBreak(text), FirstBreak(mask + text);
    assert forall j :: 0 <= j < |mask| ==> (mask + text)[j] == mask[j];
    assert forall j :: 0 <= j < |text| ==> (mask + text)[|mask| + j] == text[j];
    assert i < |text| ==> (mask + text)[|mask| + i] == '\n';
    assert k < |mask + text| ==> k >= |mask| && text[k - |mask|] == '\n';
  }

  lemma BreaksOfThree(a: string, b: string, c: string)
    ensures Breaks(a + b + c) == Breaks(a) + Breaks(b) + Breaks(c)
  {
    BreaksJoin(a, b);
    BreaksJoin(a + b, c);
  }

  lemma OneTextOfLines(text: string)
    requires text != "" && WholeLines(text)
    ensures TextsOf("", [text]) == [text] && Joined([text]) == text
  {
    WholeLinesGoAtOnce(text, []);
    JoinedFront(text, []);
    assert [text] + [] == [text];
  }

  lemma TwoTextsOfLines(a: string, b: string)
    requires a != "" && WholeLines(a) && b != "" && WholeLines(b)
    ensures TextsOf("", [a, b]) == [a, b] && Joined([a, b]) == a + b
  {
    OneTextOfLines(b);
    assert [a] + [b] == [a, b];
    hide *;
    WholeLinesGoAtOnce(a, [b]);
    JoinedFront(a, [b]);
  }

  lemma SendingOne(prefix: string, redact: Redactor, text: string)
    ensures Sent(prefix, redact, [text]) == Prefixed(prefix, redact(text))
  {
    hide Prefixed;
    assert [text][..0] == [];
  }

  lemma SendingTwo(prefix: string, redact: Redactor, a: string, b: string)
    ensures Sent(prefix, redact, [a, b]) == Prefixed(prefix, redact(a)) + Prefixed(prefix, redact(b))
  {
    hide *;
    assert [a] + [b] == [a, b];
    SendingOne(prefix, redact, a);
    SendingOneMore(prefix, redact, [a], b);
  }

  /** A text of whole lines written at once is mirrored at once. */
  lemma MirrorOfOne(prefix: string, secrets: seq<string>, text: string)
    requires text != "" && WholeLines(text)
    ensures Mirror(prefix, secrets, [text]) == Prefixed(prefix, Redact(secrets, text)) && Joined([text]) == text
  {
    hide Redact;
    hide Prefixed;
    hide Sent;
    hide TextsOf;
    OneTextOfLines(text);
    SendingOne(prefix, RedactorOf(secrets), text);
  }

  lemma MirrorOfTwo(prefix: string, secrets: seq<string>, a: string, b: string)
    requires a != "" && WholeLines(a) && b != "" && WholeLines(b)
    ensures Mirror(prefix, secrets, [a, b])
            == Prefixed(prefix, Redact(secrets, a)) + Prefixed(prefix, Redact(secrets, b))
    ensures Joined([a, b]) == a + b
  {
    hide Redact;
    hide Prefixed;
    hide Sent;
    hide TextsOf;
    hide Joined;
    TwoTextsOfLines(a, b);
    SendingTwo(prefix, RedactorOf(secrets), a, b);
  }

  /** One stream written in two ways, and mirrored in two. */
  ghost predicate Shows(prefix: string, secrets: seq<string>, v: seq<string>, w: seq<string>) {
    && Joined(v) == Joined(w) && Mirror(prefix, secrets, v) != Mirror(prefix, secrets, w)
    && Mirror(prefix, secrets, v) == Prefixed(prefix, Redact(secrets, Joined(v)))
  }

  /** A secret that spans a line break and then its lines again: masked when written at
      once, cut at the break when not. */
  lemma SpanningShows(prefix: string, secrets: seq<string>, i: nat) returns (v: seq<string>, w: seq<string>)
    requires FirstSpanning(secrets, i)
    ensures Shows(prefix, secrets, v, w)
  {
    var s := secrets[i];
    var at := LastBreak(s);
    HeldBreakIsFound(s);
    var lines, rest := s[..at + 1], s[at + 1..];
    assert s == lines + rest && WholeLines(lines) && WholeLines(s + lines) && WholeLines(rest + lines);
    assert s + lines == lines + (rest + lines);
    v, w := [s + lines], [lines, rest + lines];
    MirrorOfOne(prefix, secrets, s + lines);
    MirrorOfTwo(prefix, secrets, lines, rest + lines);
    var mask := SpanningIsMasked(secrets, i, lines);
    hide *;
    RedactedIsNotEmpty(secrets, lines);
    RedactedIsNotEmpty(secrets, rest + lines);
    OneLineMore(prefix, mask, Redact(secrets, lines), Redact(secrets, rest + lines));
    ShowingIs(prefix, secrets, v, w);
  }

  lemma OneLineMore(prefix: string, mask: string, x: string, y: string)
    requires '\n' !in mask && x != "" && y != ""
    ensures Prefixed(prefix, mask + x) != Prefixed(prefix, x) + Prefixed(prefix, y)
  {
    hide *;
    FrontAddsNoLine(prefix, mask, x);
    PrefixedEndsInBreak(prefix, y);
    BreaksJoin(Prefixed(prefix, x), Prefixed(prefix, y));
  }

  lemma ShowingIs(prefix: string, secrets: seq<string>, v: seq<string>, w: seq<string>)
    requires Joined(v) == Joined(w) && Mirror(prefix, secrets, v) != Mirror(prefix, secrets, w)
    requires Mirror(prefix, secrets, v) == Prefixed(prefix, Redact(secrets, Joined(v)))
    ensures Shows(prefix, secrets, v, w)
  {
    hide Mirror;
    hide Redact;
  }

  lemma HeldBreakIsFound(s: string)
    requires '\n' in s
    ensures LastBreak(s) >= 0
  {
    var k :| 0 <= k < |s| && s[k] == '\n';
  }

  // ---------------------------------------------------------------- an empty secret

  /** With an empty secret, and none that spans, a line break in front is masked before it
      and kept. */
  lemma EmptySecretMasksGaps(secrets: seq<string>, after: string)
    requires "" in secrets
    requires forall i :: 0 <= i < |secrets| && '\n' in secrets[i] ==> Shadowed(secrets, i)
    ensures Redact(secrets, "\n" + after) == MASK + "\n" + Redact(secrets, after)
    ensures Redact(secrets, "") == MASK
  {
    var text := "\n" + after;
    var k :| 0 <= k < |secrets| && secrets[k] == "";
    EmptyMatches(secrets, text, k);
    EmptyMatches(secrets, "", k);
    assert text[0..] == text && ""[0..] == "" && text[1..] == after && text[0] == '\n';
    NothingElseMatches(secrets, text);
    assert Replace(secrets, text, true) == [text[0]] + Redact(secrets, after) == "\n" + Redact(secrets, after);
    assert Redact(secrets, text) == MASK + Replace(secrets, text, true);
    assert MASK + ("\n" + Redact(secrets, after)) == MASK + "\n" + Redact(secrets, after);
  }

  lemma EmptyMatches(secrets: seq<string>, text: string, k: nat)
    requires k < |secrets| && secrets[k] == "" && (text == "" || text[0] == '\n')
    requires forall i :: 0 <= i < |secrets| && '\n' in secrets[i] ==> Shadowed(secrets, i)
    ensures FirstMatch(secrets, text, false) == Some("")
  {
    SomethingMatches(secrets, text, false, k);
    MatchesHoldNoBreak(secrets, text, false);
    HeadIsHeld(FirstMatch(secrets, text, false).value, text);
  }

  lemma HeadIsHeld(m: string, text: string)
    requires m <= text && (text == "" || text[0] == '\n')
    ensures m == "" || '\n' in m
  {
    if m != "" { assert m[0] == text[0]; }
  }

  lemma NothingElseMatches(secrets: seq<string>, text: string)
    requires text != "" && text[0] == '\n'
    requires forall i :: 0 <= i < |secrets| && '\n' in secrets[i] ==> Shadowed(secrets, i)
    ensures FirstMatch(secrets, text, true).None?
  {
    if FirstMatch(secrets, text, true).Some? {
      MatchesHoldNoBreak(secrets, text, true);
      HeadIsHeld(FirstMatch(secrets, text, true).value, text);
    }
  }

  /** Two empty lines, written at once and one by one. */
  lemma EmptySecretShows(prefix: string, secrets: seq<string>) returns (v: seq<string>, w: seq<string>)
    requires "" in secrets
    requires forall i :: 0 <= i < |secrets| && '\n' in secrets[i] ==> Shadowed(secrets, i)
    ensures Shows(prefix, secrets, v, w)
  {
    var two := "\n" + "\n";
    v, w := [two], ["\n", "\n"];
    MirrorOfOne(prefix, secrets, two);
    MirrorOfTwo(prefix, secrets, "\n", "\n");
    EmptySecretMasksGaps(secrets, "");
    EmptySecretMasksGaps(secrets, "\n");
    assert "\n" + "" == "\n";
    var line := prefix + MASK + "\n";
    MaskedLine(prefix, "");
    MaskedLine(prefix, MASK);
    MaskedLine(prefix, MASK + "\n" + MASK);
    OneMaskedLine(prefix);
    hide Mirror;
    hide Redact;
    hide Prefixed;
    assert |Mirror(prefix, secrets, v)| == |line| + |line| + |line|;
    assert |Mirror(prefix, secrets, w)| == |line| + |line| + |line| + |line|;
  }

  lemma MaskedLine(prefix: string, rest: string)
    ensures Prefixed(prefix, MASK + "\n" + rest) == prefix + MASK + "\n" + Prefixed(prefix, rest)
  {
    var text := MASK + "\n" + rest;
    assert text == MASK + ("\n" + rest);
    FirstBreakBehind(MASK, "\n" + rest);
    assert text[..4] == MASK + "\n" && text[4..] == rest;
    assert prefix + (MASK + "\n") == prefix + MASK + "\n";
  }

  lemma OneMaskedLine(prefix: string)
    ensures Prefixed(prefix, MASK) == prefix + MASK + "\n"
  {
    FirstBreakBehind(MASK, "");
    assert MASK + "" == MASK;
  }

  // ---------------------------------------------------------------- exactly when

  lemma SomeCutShows(prefix: string, secrets: seq<string>) returns (v: seq<string>, w: seq<string>)
    requires !BreaksNeverMatch(secrets)
    ensures Shows(prefix, secrets, v, w)
  {
    if at :| 0 <= at < |secrets| && '\n' in secrets[at] && !Shadowed(secrets, at) {
      var i := FindSpanning(secrets, at);
      v, w := SpanningShows(prefix, secrets, i);
    } else {
      v, w := EmptySecretShows(prefix, secrets);
    }
  }

  /** However a stream is written, its mirror is the redacted stream with every line under
      the prefix once, if and only if no secret that can match holds a line break and none
      is empty. */
  lemma MirrorIsExactExactlyWhen(prefix: string, secrets: seq<string>)
    ensures (forall writes :: Mirror(prefix, secrets, writes) == Prefixed(prefix, Redact(secrets, Joined(writes))))
            <==> BreaksNeverMatch(secrets)
  {
    if BreaksNeverMatch(secrets) {
      RedactorIsLineWise(secrets);
      forall writes ensures Mirror(prefix, secrets, writes) == Prefixed(prefix, Redact(secrets, Joined(writes))) {
        LineWiseMirrors(prefix, RedactorOf(secrets), writes);
      }
    } else {
      var v, w := SomeCutShows(prefix, secrets);
      assert Mirror(prefix, secrets, w) != Prefixed(prefix, Redact(secrets, Joined(w)));
    }
  }

  /** Under the same condition, and no other, the mirror depends on the stream alone and not
      on how it was cut into writes. */
  lemma MirrorForgetsCutsExactlyWhen(prefix: string, secrets: seq<string>)
    ensures (forall v, w :: Joined(v) == Joined(w) ==> Mirror(prefix, secrets, v) == Mirror(prefix, secrets, w))
            <==> BreaksNeverMatch(secrets)
  {
    hide Mirror;
    MirrorIsExactExactlyWhen(prefix, secrets);
    if !BreaksNeverMatch(secrets) {
      var v, w := SomeCutShows(prefix, secrets);
    }
  }

  /** The input: one secret that spans a line break, masked in one write and shown in two. */
  lemma SpanningSecretsShow(prefix: string)
    ensures Joined(["s\ne\n"]) == Joined(["s\n", "e\n"])
    ensures Mirror(prefix, ["s\ne"], ["s\ne\n"]) == prefix + "***\n"
    ensures Mirror(prefix, ["s\ne"], ["s\n", "e\n"]) == prefix + "s\n" + (prefix + "e\n")
  {
    hide *;
    assert "s\n" + "e\n" == "s\ne\n";
    SpanningIsCut(["s\ne"]);
    ShortWhole();
    MirrorOfOne(prefix, ["s\ne"], "s\ne\n");
    MirrorOfTwo(prefix, ["s\ne"], "s\n", "e\n");
    OneLinePrefixed(prefix, "***\n");
    OneLinePrefixed(prefix, "s\n");
    OneLinePrefixed(prefix, "e\n");
  }

  lemma ShortWhole()
    ensures WholeLines("s\ne\n") && WholeLines("s\n") && WholeLines("e\n")
    ensures FirstBreak("***\n") == 3 && FirstBreak("s\n") == 1 && FirstBreak("e\n") == 1
  {
  }

  lemma SpanningIsCut(secrets: seq<string>)
    requires secrets == ["s\ne"]
    ensures Redact(secrets, "s\ne\n") == "***\n"
    ensures Redact(secrets, "s\n") == "s\n" && Redact(secrets, "e\n") == "e\n"
  {
    var s := secrets[0];
    TooShort(secrets, "");
    TooShort(secrets, "\n");
    TooShort(secrets, "e\n");
    TooShort(secrets, "s\n");
    assert s <= "s\ne\n" && "s\ne\n"[|s|..] == "\n";
    assert FirstMatch(secrets, "s\ne\n", false) == Some(s);
    assert "***" + "\n" == "***\n";
  }

  /** What is shorter than the only secret is left alone. */
  lemma {:induction false} TooShort(secrets: seq<string>, text: string)
    requires |secrets| == 1 && |text| < |secrets[0]|
    ensures Redact(secrets, text) == text
  {
    assert secrets[1..] == [];
    if text != "" {
      TooShort(secrets, text[1..]);
      assert [text[0]] + text[1..] == text;
    }
  }

  /** Of one secret: it is not empty and holds no line break. */
  lemma OneSecret(secret: string)
    ensures BreaksNeverMatch([secret]) <==> secret != "" && '\n' !in secret
  {
    assert !Shadowed([secret], 0);
  }

  /** A stream captured with the redactor of a step's secrets: what is kept of it, and what
      the terminal shows. */
  method CaptureRedacted(prefix: string, secrets: seq<string>, writes: seq<string>)
    returns (kept: string, truncated: bool, sent: string)
    ensures kept == Kept(Joined(writes)) && (truncated <==> |Joined(writes)| > MAX_STREAM_BYTES)
    ensures sent == Mirror(prefix, secrets, writes)
    ensures BreaksNeverMatch(secrets) ==> sent == Prefixed(prefix, Redact(secrets, Joined(writes)))
  {
    hide BreaksNeverMatch;
    MirrorIsExactExactlyWhen(prefix, secrets);
    kept, truncated, sent := CaptureAll(prefix, RedactorOf(secrets), true, writes);
  }
}
