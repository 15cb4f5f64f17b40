/** Steps, and the values one step reads out of another (internal/flow/needs.go). */
module FlowNeeds {
  import opened Wrappers
  import Order
  import Decimal

  const MAX_VALUE_BYTES := 65536
  const MAX_TOTAL_VALUE_BYTES := 262144

  /** One step, reduced to what ordering and chaining read. `dependsOn` is None when
      the flow file does not write the key, which is not the same as an empty list. */
  datatype Step = Step(
    name: string,
    needs: map<string, string>,
    dependsOn: Option<seq<string>>,
    allowFailure: bool)

  datatype Field = Stdout | Stderr | ExitCode

  datatype Reference = Reference(step: string, field: Field)

  /** A finished step's raw result; a cut stream is one that was truncated. */
  datatype Output = Output(stdout: string, stderr: string, exitCode: int, stdoutCut: bool, stderrCut: bool)

  const NO_OUTPUT := Output("", "", 0, false, false)

  datatype NeedError =
    | BadReference(text: string)
    | DidNotRun(step: string)
    | Truncated(field: Field)
    | ContainsNul(field: Field)
    | TooLong(field: Field)
    | OverTotal

  function FieldName(f: Field): string {
    match f
    case Stdout => "stdout"
    case Stderr => "stderr"
    case ExitCode => "exit_code"
  }

  /** strings.LastIndex(s, "."), -1 when there is none. */
  function LastDot(s: string): (i: int)
    ensures -1 <= i < |s|
    ensures i >= 0 ==> s[i] == '.'
    ensures forall j :: i < j < |s| ==> s[j] != '.'
  {
    if s == [] then -1
    else if s[|s| - 1] == '.' then |s| - 1
    else LastDot(s[..|s| - 1])
  }

  function FieldNamed(name: string): Option<Field> {
    if name == "stdout" then Some(Stdout)
    else if name == "stderr" then Some(Stderr)
    else if name == "exit_code" then Some(ExitCode)
    else None
  }

  function ParseReference(text: string): Result<Reference, NeedError> {
    var i := LastDot(text);
    if i <= 0 || i == |text| - 1 then Err(BadReference(text))
    else
      match FieldNamed(text[i + 1..])
      case None => Err(BadReference(text))
      case Some(field) => Ok(Reference(text[..i], field))
  }

  lemma FieldNamesAreExact(name: string, field: Field)
    ensures FieldNamed(name) == Some(field) <==> name == FieldName(field)
    ensures '.' !in FieldName(field) && FieldName(field) != ""
  {
    match field
    case Stdout => assert "stdout"[0] != "exit_code"[0] && "stdout"[3] != "stderr"[3];
    case Stderr => assert "stderr"[0] != "exit_code"[0] && "stdout"[3] != "stderr"[3];
    case ExitCode => assert "stdout"[0] != "exit_code"[0] && "stderr"[0] != "exit_code"[0];
  }

  /** A reference parses to a step and a field exactly when it is that step's name, a
      dot and that field's name, whatever dots the step's own name holds. */
  lemma ParsesExactly(text: string, step: string, field: Field)
    ensures ParseReference(text) == Ok(Reference(step, field)) <==>
            step != "" && text == step + "." + FieldName(field)
  {
    hide FieldNamed;
    hide FieldName;
    if ParseReference(text) == Ok(Reference(step, field)) {
      var i := LastDot(text);
      FieldNamesAreExact(text[i + 1..], field);
      assert text == text[..i] + "." + text[i + 1..];
    }
    if step != "" && text == step + "." + FieldName(field) {
      FieldNamesAreExact(FieldName(field), field);
      LastDotOf(step, FieldName(field));
    }
  }

  lemma LastDotOf(step: string, name: string)
    requires '.' !in name
    ensures var text := step + "." + name;
            LastDot(text) == |step| && text[..|step|] == step && text[|step| + 1..] == name
  {
    var text := step + "." + name;
    assert text[|step|] == '.';
    forall j | |step| < j < |text| ensures text[j] != '.' {
      assert text[j] == name[j - |step| - 1];
    }
  }

  function TrimRightNewlines(s: string): string {
    if s != [] && (s[|s| - 1] == '\r' || s[|s| - 1] == '\n') then TrimRightNewlines(s[..|s| - 1]) else s
  }

  function StreamValue(value: string, cut: bool, field: Field): Result<string, NeedError> {
    if cut then Err(Truncated(field))
    else
      var trimmed := TrimRightNewlines(value);
      if 0 as char in trimmed then Err(ContainsNul(field))
      else if |trimmed| > MAX_VALUE_BYTES then Err(TooLong(field))
      else Ok(trimmed)
  }

  predicate IsLineEnd(c: char) {
    c == '\r' || c == '\n'
  }

  /** What "$(...)" would keep of a stream: all of it but the line endings it ends with. */
  ghost predicate IsShellValue(value: string, v: string) {
    && v <= value
    && (forall i :: |v| <= i < |value| ==> IsLineEnd(value[i]))
    && (v != "" ==> !IsLineEnd(v[|v| - 1]))
  }

  lemma {:induction false} TrimmingIsExact(value: string, v: string)
    ensures TrimRightNewlines(value) == v <==> IsShellValue(value, v)
  {
    if value != "" && IsLineEnd(value[|value| - 1]) {
      var n := |value| - 1;
      TrimmingIsExact(value[..n], v);
      assert value == value[..n] + [value[n]];
      if IsShellValue(value, v) {
        assert v != value && v <= value[..n];
      }
    }
  }

  /** A stream passes on its whole value, as a shell would have it, or nothing: never a
      truncated one, one with a NUL, or one over the limit. */
  lemma StreamsPassWholeValues(value: string, cut: bool, field: Field, v: string)
    ensures StreamValue(value, cut, field) == Ok(v)
            <==> !cut && IsShellValue(value, v) && 0 as char !in v && |v| <= 64 * 1024
  {
    hide TrimRightNewlines;
    hide IsShellValue;
    TrimmingIsExact(value, v);
  }

  function FieldOf(o: Output, field: Field): Result<string, NeedError> {
    match field
    case Stdout => StreamValue(o.stdout, o.stdoutCut, Stdout)
    case Stderr => StreamValue(o.stderr, o.stderrCut, Stderr)
    case ExitCode => Ok(Decimal.Itoa(o.exitCode))
  }

  function ResolveOne(text: string, outputs: map<string, Output>): Result<string, NeedError> {
    match ParseReference(text)
    case Err(e) => Err(e)
    case Ok(parsed) =>
      if parsed.step !in outputs then Err(DidNotRun(parsed.step))
      else FieldOf(outputs[parsed.step], parsed.field)
  }

  /** The text asks for an output of that step. */
  ghost predicate RefersTo(text: string, step: string) {
    step != "" && (text == step + ".stdout" || text == step + ".stderr" || text == step + ".exit_code")
  }

  lemma RefersExactly(text: string, step: string)
    ensures RefersTo(text, step) <==> ParseReference(text).Ok? && ParseReference(text).value.step == step
  {
    ParsesExactly(text, step, Stdout);
    ParsesExactly(text, step, Stderr);
    ParsesExactly(text, step, ExitCode);
    assert step + "." + FieldName(Stdout) == step + ".stdout";
    assert step + "." + FieldName(Stderr) == step + ".stderr";
    assert step + "." + FieldName(ExitCode) == step + ".exit_code";
    hide ParseReference;
    if ParseReference(text).Ok? {
      var parsed := ParseReference(text).value;
      assert parsed == Reference(parsed.step, parsed.field);
    }
  }

  /** What `field` of a stream is bound to: the stream as a shell would have it, or the
      first thing wrong with it. `v` is what the shell would have. */
  ghost function Bound(v: string, cut: bool, field: Field): Result<string, NeedError> {
    if cut then Err(Truncated(field))
    else if 0 as char in v then Err(ContainsNul(field))
    else if |v| > 64 * 1024 then Err(TooLong(field))
    else Ok(v)
  }

  lemma BoundIsExact(value: string, v: string, cut: bool, field: Field)
    requires IsShellValue(value, v)
    ensures StreamValue(value, cut, field) == Bound(v, cut, field)
  {
    TrimmingIsExact(value, v);
    hide TrimRightNewlines;
    hide IsShellValue;
  }

  lemma ReadsField(step: string, field: Field, outputs: map<string, Output>)
    requires step != ""
    ensures ResolveOne(step + "." + FieldName(field), outputs)
            == if step in outputs then FieldOf(outputs[step], field) else Err(DidNotRun(step))
  {
    ParsesExactly(step + "." + FieldName(field), step, field);
    hide ParseReference;
    hide FieldOf;
  }

  /** A reference is bound to the field it names of that step's own output, and to nothing
      when the step left none. */
  lemma ReferencesReadTheirFields(step: string, outputs: map<string, Output>, out: string, err: string)
    requires step != ""
    requires step in outputs ==> IsShellValue(outputs[step].stdout, out) && IsShellValue(outputs[step].stderr, err)
    ensures step in outputs ==>
              var o := outputs[step];
              && ResolveOne(step + ".stdout", outputs) == Bound(out, o.stdoutCut, Stdout)
              && ResolveOne(step + ".stderr", outputs) == Bound(err, o.stderrCut, Stderr)
              && exists n :: Decimal.IsNumeral(n, o.exitCode) && ResolveOne(step + ".exit_code", outputs) == Ok(n)
    ensures step !in outputs ==>
              forall text :: RefersTo(text, step) ==> ResolveOne(text, outputs) == Err(DidNotRun(step))
  {
    hide ResolveOne;
    hide StreamValue;
    hide IsShellValue;
    hide Bound;
    hide Decimal.IsNumeral;
    ReadsField(step, Stdout, outputs);
    ReadsField(step, Stderr, outputs);
    ReadsField(step, ExitCode, outputs);
    assert step + "." + FieldName(Stdout) == step + ".stdout";
    assert step + "." + FieldName(Stderr) == step + ".stderr";
    assert step + "." + FieldName(ExitCode) == step + ".exit_code";
    if step in outputs {
      var o := outputs[step];
      BoundIsExact(o.stdout, out, o.stdoutCut, Stdout);
      BoundIsExact(o.stderr, err, o.stderrCut, Stderr);
      Decimal.NumeralsAreItoa(Decimal.Itoa(o.exitCode), o.exitCode);
    }
  }

  /** Reading the value one environment variable is bound to. */
  type Reader = string -> Result<string, NeedError>

  function ReaderOf(needs: map<string, string>, outputs: map<string, Output>): Reader {
    name => if name in needs then ResolveOne(needs[name], outputs) else Err(BadReference(""))
  }

  /** What is left of resolve's loop: the names still to visit, the bytes and the
      values gathered so far. */
  function ResolveRest(names: seq<string>, read: Reader, total: nat, values: map<string, string>)
    : Result<map<string, string>, NeedError>
  {
    if names == [] then Ok(values)
    else
      match read(names[0])
      case Err(e) => Err(e)
      case Ok(value) =>
        var sum := total + |names[0]| + |value|;
        if sum > MAX_TOTAL_VALUE_BYTES then Err(OverTotal)
        else ResolveRest(names[1..], read, sum, values[names[0] := value])
  }

  function ResolveNeeds(step: Step, outputs: map<string, Output>): Result<map<string, string>, NeedError> {
    ResolveRest(Order.Sorted(step.needs.Keys), ReaderOf(step.needs, outputs), 0, map[])
  }

  method Resolve(step: Step, outputs: map<string, Output>) returns (r: Result<map<string, string>, NeedError>)
    ensures r == ResolveNeeds(step, outputs)
  {
    hide ResolveOne;
    hide Order.Sorted;
    if |step.needs| == 0 {
      assert step.needs.Keys == {};
      return Ok(map[]);
    }
    r := ResolveNamed(step, Order.Sorted(step.needs.Keys), outputs);
  }

  method ResolveNamed(step: Step, names: seq<string>, outputs: map<string, Output>)
    returns (r: Result<map<string, string>, NeedError>)
    requires forall n :: n in names ==> n in step.needs
    ensures r == ResolveRest(names, ReaderOf(step.needs, outputs), 0, map[])
  {
    hide ResolveOne;
    hide ResolveRest;
    hide ReaderOf;
    var values: map<string, string> := map[];
    var total: nat := 0;
    ghost var read := ReaderOf(step.needs, outputs);
    for i := 0 to |names|
      invariant ResolveRest(names, read, 0, map[]) == ResolveRest(names[i..], read, total, values)
    {
      var name := names[i];
      assert name in names;
      ResolvingOneMore(names, read, i, total, values);
      var one := ResolveOne(step.needs[name], outputs);
      ReadingOne(step.needs, outputs, name);
      if one.Err? {
        return Err(one.error);
      }
      total := total + |name| + |one.value|;
      if total > MAX_TOTAL_VALUE_BYTES {
        return Err(OverTotal);
      }
      values := values[name := one.value];
    }
    assert names[|names|..] == [];
    ResolvingNoMore(read, total, values);
    r := Ok(values);
  }

  lemma ReadingOne(needs: map<string, string>, outputs: map<string, Output>, name: string)
    requires name in needs
    ensures ReaderOf(needs, outputs)(name) == ResolveOne(needs[name], outputs)
  {
    hide ResolveOne;
  }

  lemma ResolvingOneMore(names: seq<string>, read: Reader, i: nat, total: nat, values: map<string, string>)
    requires i < |names|
    ensures ResolveRest(names[i..], read, total, values)
              == match read(names[i])
                 case Err(e) => Err(e)
                 case Ok(value) =>
                   var sum := total + |names[i]| + |value|;
                   if sum > MAX_TOTAL_VALUE_BYTES then Err(OverTotal)
                   else ResolveRest(names[i + 1..], read, sum, values[names[i] := value])
  {
    assert names[i..][1..] == names[i + 1..];
  }

  lemma ResolvingNoMore(read: Reader, total: nat, values: map<string, string>)
    ensures ResolveRest([], read, total, values) == Ok(values)
  {
  }

  /** The bytes a set of bound values adds to the environment. */
  ghost function TotalSize(names: seq<string>, values: map<string, string>): nat
    requires forall n :: n in names ==> n in values
  {
    if names == [] then 0 else |names[0]| + |values[names[0]]| + TotalSize(names[1..], values)
  }

  /** Each named variable holds the value its own reference names. */
  ghost predicate Binds(names: seq<string>, read: Reader, values: map<string, string>) {
    forall n :: n in names ==> n in values && read(n) == Ok(values[n])
  }

  /** resolve succeeds exactly when every reference can be read and the whole fits the
      limit, and then binds every variable to its own reference and nothing else. */
  lemma ResolveBindsEveryNeed(step: Step, outputs: map<string, Output>, values: map<string, string>)
    ensures ResolveNeeds(step, outputs) == Ok(values) <==>
            && values.Keys == step.needs.Keys
            && (forall n :: n in step.needs ==> ResolveOne(step.needs[n], outputs) == Ok(values[n]))
            && TotalSize(Order.Sorted(step.needs.Keys), values) <= 256 * 1024
  {
    hide ResolveOne;
    hide Order.Sorted;
    hide ResolveRest;
    hide TotalSize;
    var names := Order.Sorted(step.needs.Keys);
    var read := ReaderOf(step.needs, outputs);
    assert forall n :: n in step.needs ==> read(n) == ResolveOne(step.needs[n], outputs);
    ResolveRestIsExact(names, read, values);
  }

  lemma ResolveRestIsExact(names: seq<string>, read: Reader, values: map<string, string>)
    requires Order.Ascending(names)
    ensures ResolveRest(names, read, 0, map[]) == Ok(values) <==>
            && (forall n :: n in values <==> n in names)
            && Binds(names, read, values)
            && TotalSize(names, values) <= MAX_TOTAL_VALUE_BYTES
  {
    if ResolveRest(names, read, 0, map[]) == Ok(values) {
      ResolveRestIsSound(names, read, 0, map[], values);
    }
    if (forall n :: n in values <==> n in names) && Binds(names, read, values)
       && TotalSize(names, values) <= MAX_TOTAL_VALUE_BYTES {
      ResolveRestIsComplete(names, read, 0, map[], values);
    }
  }

  lemma {:induction false} ResolveRestIsSound(
    names: seq<string>, read: Reader, total: nat, values: map<string, string>, final: map<string, string>)
    requires Order.Ascending(names)
    requires forall n :: n in names ==> n !in values
    requires total <= MAX_TOTAL_VALUE_BYTES
    requires ResolveRest(names, read, total, values) == Ok(final)
    ensures forall n :: n in final <==> n in values || n in names
    ensures forall n :: n in values ==> final[n] == values[n]
    ensures Binds(names, read, final)
    ensures total + TotalSize(names, final) <= MAX_TOTAL_VALUE_BYTES
  {
    if names != [] {
      Order.AscendingTail(names);
      var value := read(names[0]).value;
      ResolveRestIsSound(names[1..], read, total + |names[0]| + |value|, values[names[0] := value], final);
      assert names[0] in values[names[0] := value];
    }
  }

  lemma {:induction false} ResolveRestIsComplete(
    names: seq<string>, read: Reader, total: nat, values: map<string, string>, final: map<string, string>)
    requires Binds(names, read, final)
    requires forall n :: n in final <==> n in values || n in names
    requires forall n :: n in values ==> n in final && final[n] == values[n]
    requires total + TotalSize(names, final) <= MAX_TOTAL_VALUE_BYTES
    ensures ResolveRest(names, read, total, values) == Ok(final)
  {
    if names == [] {
      assert values == final;
    } else {
      assert names[0] in names;
      assert forall n :: n in names[1..] ==> n in names;
      assert forall n :: n in names ==> n == names[0] || n in names[1..];
      ResolveRestIsComplete(names[1..], read, total + |names[0]| + |final[names[0]]|,
                            values[names[0] := final[names[0]]], final);
    }
  }

  /** The steps a step's references name. */
  function NeededSteps(step: Step): set<string> {
    set n | n in step.needs && ParseReference(step.needs[n]).Ok? :: ParseReference(step.needs[n]).value.step
  }

  lemma NeededStepsAreNamed(step: Step, d: string)
    ensures d in NeededSteps(step) <==> exists n :: n in step.needs && RefersTo(step.needs[n], d)
  {
    forall n | n in step.needs
      ensures RefersTo(step.needs[n], d)
              <==> ParseReference(step.needs[n]).Ok? && ParseReference(step.needs[n]).value.step == d
    {
      RefersExactly(step.needs[n], d);
    }
    hide ParseReference;
    hide RefersTo;
  }

  /** Only the outputs of the needed steps matter to what resolve returns. */
  lemma ResolveReadsOnlyNeededSteps(step: Step, a: map<string, Output>, b: map<string, Output>)
    requires forall s :: s in NeededSteps(step) ==> (s in a <==> s in b) && (s in a ==> a[s] == b[s])
    ensures ResolveNeeds(step, a) == ResolveNeeds(step, b)
  {
    forall n | n in step.needs
      ensures ResolveOne(step.needs[n], a) == ResolveOne(step.needs[n], b)
    {
      if ParseReference(step.needs[n]).Ok? {
        assert ParseReference(step.needs[n]).value.step in NeededSteps(step);
      }
    }
    ResolveRestAgrees(Order.Sorted(step.needs.Keys), ReaderOf(step.needs, a), ReaderOf(step.needs, b), 0, map[]);
  }

  lemma {:induction false} ResolveRestAgrees(
    names: seq<string>, a: Reader, b: Reader, total: nat, values: map<string, string>)
    requires forall n :: n in names ==> a(n) == b(n)
    ensures ResolveRest(names, a, total, values) == ResolveRest(names, b, total, values)
  {
    if names != [] {
      assert names[0] in names;
      match a(names[0])
      case Err(_) =>
      case Ok(value) =>
        ResolveRestAgrees(names[1..], a, b, total + |names[0]| + |value|, values[names[0] := value]);
    }
  }

  /** resolve fails only for a reason one of its reads gave, or for the total. */
  lemma {:induction false} ErrorsComeFromReads(names: seq<string>, read: Reader, total: nat,
                                               values: map<string, string>)
    ensures var r := ResolveRest(names, read, total, values);
            r.Err? ==> r.error == OverTotal || exists n :: n in names && read(n) == Err(r.error)
  {
    if names != [] {
      assert names[0] in names;
      match read(names[0])
      case Err(_) =>
      case Ok(value) =>
        ErrorsComeFromReads(names[1..], read, total + |names[0]| + |value|, values[names[0] := value]);
    }
  }

  /** The bytes that names and what they read add up to. */
  ghost function ReadSize(names: seq<string>, read: Reader): nat {
    if names == [] then 0
    else |names[0]| + (if read(names[0]).Ok? then |read(names[0]).value| else 0) + ReadSize(names[1..], read)
  }

  lemma {:induction false} FirstErrorAt(names: seq<string>, read: Reader, total: nat, values: map<string, string>)
    returns (i: nat)
    requires ResolveRest(names, read, total, values).Err?
    ensures i < |names| && forall j :: 0 <= j < i ==> read(names[j]).Ok?
    ensures var e := ResolveRest(names, read, total, values).error;
            read(names[i]) == Err(e)
            || (e == OverTotal && read(names[i]).Ok? && total + ReadSize(names[..i + 1], read) > MAX_TOTAL_VALUE_BYTES)
  {
    var one := read(names[0]);
    i := 0;
    assert names[..1] == [names[0]] && [names[0]][1..] == [];
    if one.Ok? && total + |names[0]| + |one.value| <= MAX_TOTAL_VALUE_BYTES {
      var sum := total + |names[0]| + |one.value|;
      var k := FirstErrorAt(names[1..], read, sum, values[names[0] := one.value]);
      i := k + 1;
      assert names[..i + 1][1..] == names[1..][..k + 1] && names[1..][k] == names[i];
      forall j | 0 <= j < i ensures read(names[j]).Ok? {
        if j > 0 { assert names[j] == names[1..][j - 1]; }
      }
    }
  }

  /** resolve reports the first thing wrong in ascending order of the variables: the error of
      the first that cannot be read, or that the names and values up to one are too much. */
  lemma FirstErrorIsReported(step: Step, outputs: map<string, Output>) returns (i: nat)
    requires ResolveNeeds(step, outputs).Err?
    ensures var e, names := ResolveNeeds(step, outputs).error, Order.Sorted(step.needs.Keys);
            && i < |names| && names[i] in step.needs
            && (forall j :: 0 <= j < i ==> names[j] in step.needs && ResolveOne(step.needs[names[j]], outputs).Ok?)
            && (|| ResolveOne(step.needs[names[i]], outputs) == Err(e)
                || (e == OverTotal && ResolveOne(step.needs[names[i]], outputs).Ok?
                    && ReadSize(names[..i + 1], ReaderOf(step.needs, outputs)) > 256 * 1024))
  {
    hide ResolveOne;
    hide ResolveRest;
    hide ReadSize;
    hide Order.Sorted;
    var names := Order.Sorted(step.needs.Keys);
    i := FirstErrorAt(names, ReaderOf(step.needs, outputs), 0, map[]);
    assert forall j :: 0 <= j <= i ==> names[j] in names;
  }

  /** Reading one reference fails for a step that did not run only when that step
      left no output. */
  lemma DidNotRunMeansMissing(text: string, outputs: map<string, Output>, s: string)
    requires ResolveOne(text, outputs) == Err(DidNotRun(s))
    ensures ParseReference(text).Ok? && ParseReference(text).value.step == s && s !in outputs
  {
    hide LastDot;
    hide FieldNamed;
    hide TrimRightNewlines;
  }

  /** A step whose needed steps have all left an output never fails for one that did
      not run. */
  lemma PresentOutputsDidRun(step: Step, outputs: map<string, Output>)
    requires NeededSteps(step) <= outputs.Keys
    ensures ResolveNeeds(step, outputs).Err? ==> !ResolveNeeds(step, outputs).error.DidNotRun?
  {
    hide ResolveOne;
    hide ParseReference;
    hide Order.Sorted;
    var names, read := Order.Sorted(step.needs.Keys), ReaderOf(step.needs, outputs);
    ErrorsComeFromReads(names, read, 0, map[]);
    var r := ResolveNeeds(step, outputs);
    if r.Err? && r.error.DidNotRun? {
      var n :| n in names && read(n) == Err(r.error);
      assert ParseReference(step.needs[n]).Ok? ==>
          ParseReference(step.needs[n]).value.step in NeededSteps(step);
      DidNotRunMeansMissing(step.needs[n], outputs, r.error.step);
    }
  }
}
