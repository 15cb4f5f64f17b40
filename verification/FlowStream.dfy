/** What a step prints: the bounded copy kept for the artifact and the prefixed lines
    mirrored while it runs (internal/flow/stream.go). Text is a sequence of bytes. */
module FlowStream {
  import opened Lines

  const MAX_STREAM_BYTES := 1048576

  type Redactor = string -> string

  /** Empty, or ending with a line break. */
  predicate WholeLines(text: string) {
    text == "" || text[|text| - 1] == '\n'
  }

  /** A redactor that treats lines apart: whole lines stay whole, and what follows them
      is redacted as if it stood alone. */
  ghost predicate LineWise(redact: Redactor) {
    && (forall a :: WholeLines(a) ==> WholeLines(redact(a)))
    && (forall a, b :: WholeLines(a) ==> redact(a + b) == redact(a) + redact(b))
  }

  /** bytes.LastIndexByte(text, '\n'). */
  function LastBreak(text: string): (i: int)
    ensures -1 <= i < |text|
    ensures i >= 0 ==> text[i] == '\n'
    ensures forall k :: i < k < |text| ==> text[k] != '\n'
  {
    if text == "" then -1
    else if text[|text| - 1] == '\n' then |text| - 1
    else LastBreak(text[..|text| - 1])
  }

  /** strings.SplitAfter(text, "\n"): every line with its break, then what is left. */
  function SplitAfter(text: string): (lines: seq<string>)
    decreases |text|
  {
    var i := FirstBreak(text);
    if i == |text| then [text] else [text[..i + 1]] + SplitAfter(text[i + 1..])
  }

  /** Every line under the prefix once, each ended with a break. */
  function Prefixed(prefix: string, text: string): string
    decreases |text|
  {
    if text == "" then ""
    else
      var i := FirstBreak(text);
      if i == |text| then prefix + text + "\n"
      else prefix + text[..i + 1] + Prefixed(prefix, text[i + 1..])
  }

  lemma FirstBreakOfJoin(a: string, b: string)
    requires WholeLines(a) && a != ""
    ensures FirstBreak(a + b) == FirstBreak(a) < |a|
  {
    var i, j := FirstBreak(a), FirstBreak(a + b);
    assert a[|a| - 1] == '\n';
    assert i < |a| && (a + b)[i] == a[i] == '\n';
    assert forall k :: 0 <= k < i ==> (a + b)[k] == a[k];
  }

  /** The mirror of a text that holds a break: its first line, then the rest. */
  lemma PrefixedPeels(prefix: string, text: string, line: string, rest: string)
    requires FirstBreak(text) < |text|
    requires line == text[..FirstBreak(text) + 1] && rest == text[FirstBreak(text) + 1..]
    ensures Prefixed(prefix, text) == prefix + line + Prefixed(prefix, rest)
  {
  }

  lemma JoinPeels(prefix: string, a: string, b: string) returns (line: string, rest: string)
    requires WholeLines(a) && a != ""
    ensures |rest| < |a| && WholeLines(rest)
    ensures Prefixed(prefix, a) == prefix + line + Prefixed(prefix, rest)
    ensures Prefixed(prefix, a + b) == prefix + line + Prefixed(prefix, rest + b)
  {
    hide Prefixed;
    FirstBreakOfJoin(a, b);
    var i := FirstBreak(a);
    line, rest := a[..i + 1], a[i + 1..];
    assert (a + b)[..i + 1] == line && (a + b)[i + 1..] == rest + b;
    PrefixedPeels(prefix, a + b, line, rest + b);
    PrefixedPeels(prefix, a, line, rest);
  }

  /** Whole lines and what follows them are prefixed independently. */
  lemma {:induction false} PrefixedJoins(prefix: string, a: string, b: string)
    requires WholeLines(a)
    ensures Prefixed(prefix, a + b) == Prefixed(prefix, a) + Prefixed(prefix, b)
    decreases |a|
  {
    if a == "" {
      assert a + b == b;
    } else {
      hide Prefixed;
      var line, rest := JoinPeels(prefix, a, b);
      PrefixedJoins(prefix, rest, b);
      Associates(prefix + line, Prefixed(prefix, rest), Prefixed(prefix, b));
    }
  }

  lemma Associates(a: string, b: string, c: string)
    ensures a + b + c == a + (b + c)
  {
  }

  /** Lines, each ended with a break; and the same under a prefix. */
  function Ended(lines: seq<string>): string {
    if lines == [] then "" else lines[0] + "\n" + Ended(lines[1..])
  }

  function EndedUnder(prefix: string, lines: seq<string>): string {
    if lines == [] then "" else prefix + lines[0] + "\n" + EndedUnder(prefix, lines[1..])
  }

  lemma FirstBreakOfLine(line: string, rest: string)
    requires '\n' !in line
    ensures FirstBreak(line) == |line| && FirstBreak(line + ("\n" + rest)) == |line|
  {
    var text := line + ("\n" + rest);
    assert forall k :: 0 <= k < |line| ==> text[k] == line[k];
    assert text[|line|] == '\n';
  }

  /** Every line is mirrored once under the prefix, the last with a break it may have
      lacked. */
  lemma {:induction false} EveryLineIsPrefixed(prefix: string, lines: seq<string>, last: string)
    requires '\n' !in last && forall l :: l in lines ==> '\n' !in l
    ensures Prefixed(prefix, Ended(lines) + last)
            == EndedUnder(prefix, lines) + if last == "" then "" else prefix + last + "\n"
  {
    if lines == [] {
      FirstBreakOfLine(last, "");
      assert Ended(lines) + last == last;
    } else {
      assert lines[0] in lines;
      EveryLineIsPrefixed(prefix, lines[1..], last);
      LineIsPeeled(prefix, lines[0], Ended(lines[1..]) + last);
      hide Prefixed;
      Associates(lines[0] + "\n", Ended(lines[1..]), last);
      Associates(lines[0], "\n", Ended(lines[1..]) + last);
      Associates(prefix + lines[0] + "\n", EndedUnder(prefix, lines[1..]),
                 if last == "" then "" else prefix + last + "\n");
    }
  }

  lemma LineIsPeeled(prefix: string, line: string, rest: string)
    requires '\n' !in line
    ensures Prefixed(prefix, line + ("\n" + rest)) == prefix + line + "\n" + Prefixed(prefix, rest)
  {
    var text := line + ("\n" + rest);
    FirstBreakOfLine(line, rest);
    assert text[..|line| + 1] == line + "\n" && text[|line| + 1..] == rest;
    PrefixedPeels(prefix, text, line + "\n", rest);
    hide Prefixed;
    assert prefix + (line + "\n") == prefix + line + "\n";
  }

  function Joined(parts: seq<string>): string {
    if parts == [] then "" else Joined(parts[..|parts| - 1]) + parts[|parts| - 1]
  }

  function Kept(total: string): string {
    if |total| > MAX_STREAM_BYTES then total[..MAX_STREAM_BYTES] else total
  }

  lemma KeptIsFirst(total: string)
    ensures Kept(total) <= total
    ensures if |total| > 1024 * 1024 then |Kept(total)| == 1024 * 1024 else Kept(total) == total
  {
  }

  /** What one line contributes to the mirror; nothing for the empty one. */
  function EmittedLine(prefix: string, line: string): string {
    if line == "" then "" else prefix + line + (if WholeLines(line) then "" else "\n")
  }

  /** The mirror of a list of lines, in order. */
  function EmittedLines(prefix: string, lines: seq<string>): string {
    if lines == [] then "" else EmittedLine(prefix, lines[0]) + EmittedLines(prefix, lines[1..])
  }

  lemma NothingEmitted(prefix: string)
    ensures EmittedLines(prefix, []) == ""
  {
  }

  lemma {:induction false} SplitEmitsPrefixed(prefix: string, text: string)
    ensures EmittedLines(prefix, SplitAfter(text)) == Prefixed(prefix, text)
    decreases |text|
  {
    var i := FirstBreak(text);
    if i < |text| {
      SplitEmitsPrefixed(prefix, text[i + 1..]);
      assert SplitAfter(text)[1..] == SplitAfter(text[i + 1..]);
    }
  }

  /** What is mirrored of the texts handed to the redactor one after another. */
  function Sent(prefix: string, redact: Redactor, texts: seq<string>): string {
    if texts == [] then ""
    else Sent(prefix, redact, texts[..|texts| - 1]) + Prefixed(prefix, redact(texts[|texts| - 1]))
  }

  /** The text a write completes, if it completes a line, and what it leaves pending. */
  function Completed(pending: string, p: string): (seq<string>, string) {
    var all := pending + p;
    var cut := LastBreak(all);
    if p == "" then ([], pending)
    else if cut < 0 then ([], all)
    else ([all[..cut + 1]], all[cut + 1..])
  }

  /** The texts a run of writes hands to the redactor: the lines each completes, and at the
      end what is left over. */
  function TextsOf(pending: string, writes: seq<string>): seq<string>
    decreases |writes|
  {
    if writes == [] then if pending == "" then [] else [pending]
    else
      var (texts, rest) := Completed(pending, writes[0]);
      texts + TextsOf(rest, writes[1..])
  }

  lemma SendingOneMore(prefix: string, redact: Redactor, texts: seq<string>, text: string)
    ensures Sent(prefix, redact, texts + [text]) == Sent(prefix, redact, texts) + Prefixed(prefix, redact(text))
  {
    assert (texts + [text])[..|texts|] == texts;
  }

  lemma WholeLinesGoAtOnce(line: string, writes: seq<string>)
    requires line != "" && WholeLines(line)
    ensures TextsOf("", [line] + writes) == [line] + TextsOf("", writes)
  {
    assert "" + line == line && ([line] + writes)[1..] == writes;
    assert LastBreak(line) == |line| - 1;
    assert line[..|line|] == line && line[|line|..] == "";
  }

  /** One write of many: what it completes, then what the rest do. */
  lemma TextsOfWrite(pending: string, writes: seq<string>, i: nat)
    requires i < |writes|
    ensures var (more, rest) := Completed(pending, writes[i]);
            TextsOf(pending, writes[i..]) == more + TextsOf(rest, writes[i + 1..])
  {
    hide Completed;
    assert writes[i..][0] == writes[i] && writes[i..][1..] == writes[i + 1..];
  }

  lemma OneLinePrefixed(prefix: string, line: string)
    requires line != "" && FirstBreak(line) == |line| - 1
    ensures Prefixed(prefix, line) == prefix + line
  {
    assert line[|line|..] == "";
  }

  class Capture {
    const prefix: string
    const redact: Redactor
    /** Whether there is a stream to mirror to. */
    const mirrored: bool
    var buf: string
    var pending: string
    var truncated: bool
    /** What has been written to the stream. */
    var sent: string
    /** Every byte written to the capture, the whole lines among them, and the texts handed
        to the redactor. */
    ghost var total: string
    ghost var lines: string
    ghost var texts: seq<string>

    ghost predicate Valid()
      reads this
    {
      && buf == Kept(total)
      && truncated == (|total| > MAX_STREAM_BYTES)
      && (!mirrored ==> sent == "" && pending == "")
      && (mirrored ==> total == lines + pending && WholeLines(lines) && '\n' !in pending)
      && (mirrored && LineWise(redact) ==> sent == Prefixed(prefix, redact(lines)))
      && (mirrored ==> sent == Sent(prefix, redact, texts))
    }

    constructor (prefix: string, redact: Redactor, mirrored: bool)
      ensures Valid() && total == "" && texts == [] && pending == ""
      ensures this.prefix == prefix && this.redact == redact && this.mirrored == mirrored
    {
      this.prefix, this.redact, this.mirrored := prefix, redact, mirrored;
      buf, pending, truncated, sent := "", "", false, "";
      total, lines, texts := "", "", [];
      new;
      if LineWise(redact) {
        assert redact("" + "") == redact("") + redact("");
        assert |redact("")| == 0;
      }
    }

    /** Keeps what still fits and mirrors every line the bytes complete. */
    method Write(p: string)
      requires Valid()
      modifies this
      ensures Valid() && total == old(total) + p
      ensures mirrored ==> var (more, rest) := Completed(old(pending), p); texts == old(texts) + more && pending == rest
    {
      hide LineWise;
      hide LastBreak;
      var room := MAX_STREAM_BYTES - |buf|;
      if room > 0 {
        if |p| > room {
          buf := buf + p[..room];
          truncated := true;
        } else {
          buf := buf + p;
        }
      } else if |p| > 0 {
        truncated := true;
      }
      total := total + p;
      MirrorLines(p);
    }

    method MirrorLines(p: string)
      requires buf == Kept(total) && truncated == (|total| > MAX_STREAM_BYTES)
      requires !mirrored ==> sent == "" && pending == ""
      requires mirrored ==> total == lines + pending + p && WholeLines(lines) && '\n' !in pending
      requires mirrored && LineWise(redact) ==> sent == Prefixed(prefix, redact(lines))
      requires mirrored ==> sent == Sent(prefix, redact, texts)
      modifies this`pending, this`sent, this`lines, this`texts
      ensures Valid()
      ensures mirrored ==> var (more, rest) := Completed(old(pending), p); texts == old(texts) + more && pending == rest
    {
      hide LineWise;
      hide Sent;
      hide Prefixed;
      hide Kept;
      hide LastBreak;
      if !mirrored || |p| == 0 {
        assert mirrored ==> p == "" && pending + p == pending && lines + pending + p == lines + pending;
        return;
      }
      pending := pending + p;
      assert total == lines + pending;
      var cut := LastBreak(pending);
      if cut < 0 {
        return;
      }
      var complete := pending[..cut + 1];
      assert complete + pending[cut + 1..] == pending;
      pending := pending[cut + 1..];
      Emit(complete);
      JoinedLines(lines, complete);
      SendingOneMore(prefix, redact, texts, complete);
      lines := lines + complete;
      texts := texts + [complete];
    }

    lemma JoinedLines(a: string, b: string)
      requires WholeLines(a) && WholeLines(b)
      ensures WholeLines(a + b)
      ensures LineWise(redact) ==>
                Prefixed(prefix, redact(a + b)) == Prefixed(prefix, redact(a)) + Prefixed(prefix, redact(b))
    {
      if LineWise(redact) {
        PrefixedJoins(prefix, redact(a), redact(b));
      }
    }

    method Emit(text: string)
      modifies this`sent
      ensures sent == old(sent) + Prefixed(prefix, redact(text))
    {
      var split := SplitAfter(redact(text));
      SplitEmitsPrefixed(prefix, redact(text));
      var b := EmitAll(split);
      sent := sent + b;
    }

    method EmitAll(split: seq<string>) returns (b: string)
      ensures b == EmittedLines(prefix, split)
    {
      hide EmittedLines;
      b := "";
      assert split[0..] == split && "" + EmittedLines(prefix, split) == EmittedLines(prefix, split);
      for i := 0 to |split|
        invariant EmittedLines(prefix, split) == b + EmittedLines(prefix, split[i..])
      {
        var line := split[i];
        var before := b;
        if line != "" {
          b := b + prefix + line;
          if !WholeLines(line) {
            b := b + "\n";
          }
        }
        EmissionAdvances(before, b, line, split[i..]);
        assert split[i..][1..] == split[i + 1..];
      }
      NothingEmitted(prefix);
      assert split[|split|..] == [] && b + "" == b;
    }

    lemma EmissionAdvances(before: string, b: string, line: string, rest: seq<string>)
      requires rest != [] && rest[0] == line
      requires b == before + (if line == "" then "" else prefix + line + (if WholeLines(line) then "" else "\n"))
      ensures before + EmittedLines(prefix, rest) == b + EmittedLines(prefix, rest[1..])
    {
      Associates(before, EmittedLine(prefix, line), EmittedLines(prefix, rest[1..]));
    }

    /** Writes whatever was left without a line break. */
    method Flush()
      requires Valid()
      modifies this`pending, this`sent, this`texts
      ensures mirrored && LineWise(redact) ==> sent == Prefixed(prefix, redact(total))
      ensures mirrored ==> texts == old(texts) + TextsOf(old(pending), []) && sent == Sent(prefix, redact, texts)
      ensures !mirrored ==> sent == ""
    {
      if !mirrored || |pending| == 0 {
        assert mirrored ==> lines + pending == lines;
        return;
      }
      if LineWise(redact) {
        PrefixedJoins(prefix, redact(lines), redact(pending));
      }
      Emit(pending);
      SendingOneMore(prefix, redact, texts, pending);
      texts := texts + [pending];
      pending := "";
    }
  }

  lemma Regroups(a: seq<string>, b: seq<string>, c: seq<string>)
    ensures a + (b + c) == a + b + c
  {
  }

  /** However a stream is cut into writes, what is kept is its first bytes up to the limit,
      the flag says whether there were more, and the mirror is of the texts the writes
      complete, redacted one by one; under a redactor that treats lines apart it shows every
      line of the stream once under the prefix. */
  method CaptureAll(prefix: string, redact: Redactor, mirrored: bool, writes: seq<string>)
    returns (kept: string, truncated: bool, sent: string)
    ensures kept == Kept(Joined(writes))
    ensures kept <= Joined(writes) && (truncated ==> |kept| == 1024 * 1024) && (!truncated ==> kept == Joined(writes))
    ensures truncated <==> |Joined(writes)| > 1024 * 1024
    ensures mirrored ==> sent == Sent(prefix, redact, TextsOf("", writes))
    ensures mirrored && LineWise(redact) ==> sent == Prefixed(prefix, redact(Joined(writes)))
    ensures !mirrored ==> sent == ""
  {
    hide LineWise;
    hide Kept;
    hide Sent;
    hide Completed;
    hide TextsOf;
    hide Prefixed;
    KeptIsFirst(Joined(writes));
    assert writes[0..] == writes;
    var c := new Capture(prefix, redact, mirrored);
    for i := 0 to |writes|
      invariant c.Valid() && c.total == Joined(writes[..i])
      invariant c.prefix == prefix && c.redact == redact && c.mirrored == mirrored
      invariant mirrored ==> c.texts + TextsOf(c.pending, writes[i..]) == TextsOf("", writes)
    {
      assert writes[..i + 1][..i] == writes[..i];
      TextsOfWrite(c.pending, writes, i);
      ghost var had, more := c.texts, Completed(c.pending, writes[i]).0;
      c.Write(writes[i]);
      Regroups(had, more, TextsOf(c.pending, writes[i + 1..]));
    }
    assert writes[..|writes|] == writes && writes[|writes|..] == [];
    c.Flush();
    kept, truncated, sent := c.buf, c.truncated, c.sent;
  }
}
