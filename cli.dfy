/**
 * internal/cli/cli.go: the plain-text formatter of a run's results and the one-check
 * command body built around the crane engine.
 */
module Cli {
  import opened Wrappers
  import opened Strings
  import opened Plugin
  import Crane

  /** `time.Duration.Milliseconds`: the nanoseconds divided by one million, truncated toward zero. */
  function Milliseconds(nanos: int): (ms: int)
    ensures nanos >= 0 ==> 0 <= ms && ms * 1000000 <= nanos < (ms + 1) * 1000000
    ensures nanos < 0 ==> ms <= 0 && (ms - 1) * 1000000 < nanos <= ms * 1000000
  {
    if nanos >= 0 then nanos / 1000000 else -((-nanos) / 1000000)
  }

  const PassedPrefix: string := "PASSED  "
  const FailedPrefix: string := "FAILED  "
  const ErroredPrefix: string := "ERRORED "

  /** One line of the report without its newline: prefix, check name, elapsed milliseconds. */
  function LineBody(prefix: string, c: CheckResult): string
  {
    prefix + c.check.name + " in " + IntToString(Milliseconds(c.elapsedNanos)) + "ms"
  }

  /** The lines of one result list, in list order. */
  function Bodies(prefix: string, rs: seq<CheckResult>): (lines: seq<string>)
    ensures |lines| == |rs|
    ensures forall i :: 0 <= i < |rs| ==> lines[i] == LineBody(prefix, rs[i])
  {
    seq(|rs|, i requires 0 <= i < |rs| => LineBody(prefix, rs[i]))
  }

  /** All report lines: the passed checks, then the failed ones, then the errored ones. */
  function LineList(r: Results): seq<string>
  {
    Bodies(PassedPrefix, r.passed) + Bodies(FailedPrefix, r.failed) + Bodies(ErroredPrefix, r.errors)
  }

  /** Every line followed by its newline. */
  function Terminated(lines: seq<string>): string
  {
    if |lines| == 0 then "" else lines[0] + "\n" + Terminated(lines[1..])
  }

  /** The text `formatAsText` produces. */
  function TextOf(r: Results): (t: string)
    ensures r.passed == [] && r.failed == [] && r.errors == [] ==> t == ""
  {
    Terminated(LineList(r))
  }

  lemma {:induction false} TerminatedConcat(a: seq<string>, b: seq<string>)
    ensures Terminated(a + b) == Terminated(a) + Terminated(b)
    decreases |a|
  {
    if |a| > 0 {
      assert (a + b)[1..] == a[1..] + b;
      TerminatedConcat(a[1..], b);
    } else {
      assert a + b == b;
    }
  }

  lemma BodiesStep(prefix: string, rs: seq<CheckResult>, i: int)
    requires 0 <= i < |rs|
    ensures Bodies(prefix, rs[..i + 1]) == Bodies(prefix, rs[..i]) + [LineBody(prefix, rs[i])]
  {
  }

  /** One more result adds its line at the end. */
  lemma TerminatedStep(done: seq<string>, prefix: string, rs: seq<CheckResult>, i: int)
    requires 0 <= i < |rs|
    ensures Terminated(done + Bodies(prefix, rs[..i + 1])) ==
      Terminated(done + Bodies(prefix, rs[..i])) + (LineBody(prefix, rs[i]) + "\n")
  {
    BodiesStep(prefix, rs, i);
    assert done + Bodies(prefix, rs[..i + 1]) == (done + Bodies(prefix, rs[..i])) + [LineBody(prefix, rs[i])];
    TerminatedConcat(done + Bodies(prefix, rs[..i]), [LineBody(prefix, rs[i])]);
    TerminatedSingle(LineBody(prefix, rs[i]));
  }

  /** Appends the lines of `rs` to `b`. */
  method AppendLines(b: string, prefix: string, rs: seq<CheckResult>, ghost done: seq<string>) returns (b': string)
    requires b == Terminated(done)
    ensures b' == Terminated(done + Bodies(prefix, rs))
  {
    b' := b;
    var i := 0;
    assert done + Bodies(prefix, rs[..0]) == done;
    while i < |rs|
      invariant 0 <= i <= |rs|
      invariant b' == Terminated(done + Bodies(prefix, rs[..i]))
    {
      var t := Milliseconds(rs[i].elapsedNanos);
      var s := prefix + rs[i].check.name + " in " + IntToString(t) + "ms\n";
      TerminatedStep(done, prefix, rs, i);
      b' := b' + s;
      i := i + 1;
    }
    assert rs[..|rs|] == rs;
  }

  /** `formatAsText`: the three result lists, one line each, and never an error. */
  method FormatAsText(r: Results) returns (b: string, err: Option<string>)
    ensures b == TextOf(r)
    ensures err.None?
  {
    b := [];
    b := AppendLines(b, PassedPrefix, r.passed, []);
    assert [] + Bodies(PassedPrefix, r.passed) == Bodies(PassedPrefix, r.passed);
    b := AppendLines(b, FailedPrefix, r.failed, Bodies(PassedPrefix, r.passed));
    b := AppendLines(b, ErroredPrefix, r.errors, Bodies(PassedPrefix, r.passed) + Bodies(FailedPrefix, r.failed));
    err := None;
  }

  // ----- Properties of the report text -----

  /** Splitting terminated lines at newlines gives the lines back, and an empty tail. */
  lemma {:induction false} SplitTerminated(lines: seq<string>, tail: string)
    requires forall i :: 0 <= i < |lines| ==> '\n' !in lines[i]
    requires '\n' !in tail
    ensures Split(Terminated(lines) + tail, '\n') == lines + [tail]
    decreases |lines|
  {
    if |lines| == 0 {
      assert Terminated(lines) + tail == tail;
      SplitNoSeparator(tail, '\n');
    } else {
      var rest := Terminated(lines[1..]) + tail;
      assert Terminated(lines) + tail == lines[0] + ['\n'] + rest;
      SplitAround(lines[0], rest, '\n');
      SplitNoSeparator(lines[0], '\n');
      SplitTerminated(lines[1..], tail);
      assert [lines[0]] + (lines[1..] + [tail]) == lines + [tail];
    }
  }

  predicate NamesWithoutNewlines(rs: seq<CheckResult>)
  {
    forall i :: 0 <= i < |rs| ==> '\n' !in rs[i].check.name
  }

  lemma BodiesWithoutNewlines(prefix: string, rs: seq<CheckResult>, i: int)
    requires '\n' !in prefix && NamesWithoutNewlines(rs) && 0 <= i < |rs|
    ensures '\n' !in Bodies(prefix, rs)[i]
  {
    var ms := IntToString(Milliseconds(rs[i].elapsedNanos));
    assert Bodies(prefix, rs)[i] == prefix + rs[i].check.name + " in " + ms + "ms";
  }

  lemma LinesWithoutNewlines(r: Results)
    requires NamesWithoutNewlines(r.passed) && NamesWithoutNewlines(r.failed) && NamesWithoutNewlines(r.errors)
    ensures forall i :: 0 <= i < |LineList(r)| ==> '\n' !in LineList(r)[i]
  {
    var lines := LineList(r);
    var np := |r.passed|;
    var nf := |r.failed|;
    forall i | 0 <= i < |lines|
      ensures '\n' !in lines[i]
    {
      if i < np {
        BodiesWithoutNewlines(PassedPrefix, r.passed, i);
      } else if i < np + nf {
        BodiesWithoutNewlines(FailedPrefix, r.failed, i - np);
      } else {
        BodiesWithoutNewlines(ErroredPrefix, r.errors, i - np - nf);
      }
    }
  }

  /**
   * The report reads back line by line: the passed lines first, then the failed, then
   * the errored, each group in list order, and nothing after the last newline.
   */
  lemma ReportLines(r: Results)
    requires NamesWithoutNewlines(r.passed) && NamesWithoutNewlines(r.failed) && NamesWithoutNewlines(r.errors)
    ensures Split(TextOf(r), '\n') == LineList(r) + [""]
    ensures |LineList(r)| == |r.passed| + |r.failed| + |r.errors|
    ensures forall i :: 0 <= i < |r.passed| ==> LineList(r)[i] == LineBody(PassedPrefix, r.passed[i])
    ensures forall i :: 0 <= i < |r.failed| ==> LineList(r)[|r.passed| + i] == LineBody(FailedPrefix, r.failed[i])
    ensures forall i :: 0 <= i < |r.errors| ==>
      LineList(r)[|r.passed| + |r.failed| + i] == LineBody(ErroredPrefix, r.errors[i])
  {
    var lines := LineList(r);
    LinesWithoutNewlines(r);
    SplitTerminated(lines, "");
    assert TextOf(r) + "" == TextOf(r);
    LineListAt(r);
  }

  /** Where each result's line sits in the report: the passed lines, then the failed, then the errored. */
  lemma LineListAt(r: Results)
    ensures |LineList(r)| == |r.passed| + |r.failed| + |r.errors|
    ensures forall i :: 0 <= i < |r.passed| ==> LineList(r)[i] == LineBody(PassedPrefix, r.passed[i])
    ensures forall i :: 0 <= i < |r.failed| ==> LineList(r)[|r.passed| + i] == LineBody(FailedPrefix, r.failed[i])
    ensures forall i :: 0 <= i < |r.errors| ==>
      LineList(r)[|r.passed| + |r.failed| + i] == LineBody(ErroredPrefix, r.errors[i])
  {
    var p := Bodies(PassedPrefix, r.passed);
    var f := Bodies(FailedPrefix, r.failed);
    var e := Bodies(ErroredPrefix, r.errors);
    var pf := p + f;
    assert LineList(r) == pf + e;
    forall i | 0 <= i < |r.passed|
      ensures LineList(r)[i] == p[i]
    {
      assert pf[i] == p[i];
    }
    forall i | 0 <= i < |r.failed|
      ensures LineList(r)[|r.passed| + i] == f[i]
    {
      assert pf[|p| + i] == f[i];
    }
  }

  /** The report has exactly one newline per recorded result. */
  lemma LineCount(r: Results)
    requires NamesWithoutNewlines(r.passed) && NamesWithoutNewlines(r.failed) && NamesWithoutNewlines(r.errors)
    ensures CountChar(TextOf(r), '\n') == |r.passed| + |r.failed| + |r.errors|
  {
    ReportLines(r);
    SplitLength(TextOf(r), '\n');
  }

  // ----- The one-check command -----

  /**
   * `RunEFunctionWithCheck`'s command body: a crane engine for the single check on the
   * image named by the first argument, not scratch; the engine's error is returned
   * unchanged, and otherwise the formatted report is printed with a final newline.
   */
  method RunEFunctionWithCheck(ch: CheckInfo, args: seq<string>, dockerCfg: string, platform: string,
                               setup: Crane.Setup, outcome: Outcome)
    returns (err: Option<string>, stdout: string)
    requires |args| >= 1
    ensures err == Crane.SetupError(setup, false)
    ensures err.Some? ==> stdout == ""
    ensures err.None? ==> stdout == TextOf(Crane.RunChecks(EmptyResults, args[0], [ch], [outcome])) + "\n"
  {
    var engine := new Crane.CraneEngine(dockerCfg, args[0], [ch], platform, false, false);
    err := engine.ExecuteChecks(setup, [outcome]);
    if err.Some? {
      return err, "";
    }
    var results := engine.Report();
    var textResults, _ := FormatAsText(results);
    stdout := textResults + "\n";
  }

  /** The prefix of the list an outcome lands in. */
  function PrefixFor(o: Outcome): string
  {
    match Crane.Classify(o)
      case PassedBucket => PassedPrefix
      case FailedBucket => FailedPrefix
      case ErrorsBucket => ErroredPrefix
  }

  /**
   * A one-check run prints a single line labelled with the outcome's verdict (an error
   * wins over the boolean), or nothing but the final newline when the check is optional.
   */
  lemma RecordedSingle(ch: CheckInfo, outcome: Outcome, b: Crane.Bucket)
    ensures Crane.Recorded([ch], [outcome], b) ==
      if Crane.Lands(ch, outcome, b) then [CheckResult(ch, outcome.elapsedNanos)] else []
  {
    assert [ch][..0] == [] && [outcome][..0] == [];
  }

  lemma TerminatedSingle(line: string)
    ensures Terminated([line]) == line + "\n"
  {
    assert [line][1..] == [];
  }

  lemma SingleCheckOutput(image: string, ch: CheckInfo, outcome: Outcome)
    ensures TextOf(Crane.RunChecks(EmptyResults, image, [ch], [outcome])) ==
      if IsOptional(ch) then "" else LineBody(PrefixFor(outcome), CheckResult(ch, outcome.elapsedNanos)) + "\n"
  {
    var r := Crane.RunChecks(EmptyResults, image, [ch], [outcome]);
    var res := CheckResult(ch, outcome.elapsedNanos);
    RecordedSingle(ch, outcome, Crane.PassedBucket);
    RecordedSingle(ch, outcome, Crane.FailedBucket);
    RecordedSingle(ch, outcome, Crane.ErrorsBucket);
    var line := LineBody(PrefixFor(outcome), res);
    if !IsOptional(ch) {
      TerminatedSingle(line);
      assert Bodies(PrefixFor(outcome), [res]) == [line];
      assert LineList(r) == [line];
    }
  }
}
