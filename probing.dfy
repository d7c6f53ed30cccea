/**
 * Executable lookup and probing, as values: what `which -a <bin>` and
 * `<bin> --version` do to the checker's results map and warning list.
 * A process run is an input here: its exit code and its standard output.
 */
module Probing {
  import opened Text
  import SearchPath

  /** The exit code and captured standard output of one child process. */
  datatype ExecResult = ExecResult(code: int, stdout: string)

  /** The checker's accumulated state: a verdict per name and the warnings
      recorded so far, oldest first. */
  datatype Report = Report(results: map<string, bool>, warnings: seq<string>)

  /** The names probed with `which -a` and then `--version`, in order. */
  const Probed: seq<string> :=
    ["which", "curl", "sync", "modprobe", "sysctl", "mkdir",
     "mount", "cp", "chroot", "systemctl", "service"]

  /** The one name that is looked up but never run. */
  const Telinit: string := "telinit"

  /** The executables a `which -a` run reports: nothing when it failed,
      otherwise its output split at newlines with the last piece dropped
      (the piece after the final newline, or an unterminated last line).
      There are exactly as many hits as newlines in the output. */
  function Hits(w: ExecResult): (hits: seq<string>)
    ensures |hits| == if w.code != 0 then 0 else multiset(w.stdout)['\n']
    ensures forall i :: 0 <= i < |hits| ==> '\n' !in hits[i]
  {
    if w.code != 0 then []
    else
      var pieces := Split(w.stdout, '\n');
      SplitCount(w.stdout, '\n');
      SplitPiecesFree(w.stdout, '\n');
      pieces[..|pieces| - 1]
  }

  /** A lookup finds the executable: exit 0 and at least one newline. */
  predicate Found(w: ExecResult)
  {
    w.code == 0 && '\n' in w.stdout
  }

  /** A lookup finds the executable more than once. */
  predicate FoundMany(w: ExecResult)
  {
    w.code == 0 && multiset(w.stdout)['\n'] >= 2
  }

  /** Output of the form `l1\nl2\n...\nln\n`: each line followed by a newline. */
  function Lines(lines: seq<string>): string
    decreases |lines|
  {
    if |lines| == 0 then "" else lines[0] + "\n" + Lines(lines[1..])
  }

  /** Python's rendering of a list of strings, `['a', 'b']`. */
  function ListText(items: seq<string>): string
  {
    "[" + Items(items) + "]"
  }

  function Items(items: seq<string>): string
    decreases |items|
  {
    if |items| == 0 then ""
    else if |items| == 1 then "'" + items[0] + "'"
    else "'" + items[0] + "', " + Items(items[1..])
  }

  /** The warning recorded for a name found more than once. */
  function MultipleWarning(bin: string, hits: seq<string>): (text: string)
    ensures |text| > |bin| && text[..|bin|] == bin
  {
    bin + " is found multiple times at " + ListText(hits) + "."
  }

  /** The specification of `which_a`: the name's verdict becomes whether
      the lookup found it, one warning is added when it was found more than
      once, and nothing else changes. */
  function AfterWhich(r: Report, bin: string, w: ExecResult): (r': Report)
    ensures bin in r'.results && (r'.results[bin] <==> Found(w))
    ensures r'.results.Keys == r.results.Keys + {bin}
    ensures forall k :: k in r.results && k != bin ==> r'.results[k] == r.results[k]
    ensures r'.warnings ==
            if FoundMany(w) then r.warnings + [MultipleWarning(bin, Hits(w))] else r.warnings
  {
    var hits := Hits(w);
    if |hits| == 0 then Report(r.results[bin := false], r.warnings)
    else if |hits| == 1 then Report(r.results[bin := true], r.warnings)
    else Report(r.results[bin := true], r.warnings + [MultipleWarning(bin, hits)])
  }

  /** The specification of `try_run`: a non-zero exit marks the name as
      failed; a zero exit changes nothing. It never marks anything as
      working and never touches the warnings. */
  function AfterTryRun(r: Report, bin: string, code: int): (r': Report)
    ensures r'.warnings == r.warnings
    ensures forall k :: k in r'.results && r'.results[k] ==> k in r.results && r.results[k]
    ensures code == 0 ==> r' == r
    ensures code != 0 ==> bin in r'.results && !r'.results[bin]
    ensures r'.results.Keys == r.results.Keys + (if code != 0 then {bin} else {})
    ensures forall k :: k in r.results && k != bin ==> r'.results[k] == r.results[k]
  {
    if code == 0 then r else Report(r.results[bin := false], r.warnings)
  }

  /** One block of the driver: look the name up, and run it with
      `--version` only when the lookup left its verdict true. */
  function AfterProbe(r: Report, bin: string, w: ExecResult, versionCode: int): (r': Report)
    ensures bin in r'.results && (r'.results[bin] <==> Found(w) && versionCode == 0)
    ensures r'.results.Keys == r.results.Keys + {bin}
    ensures forall k :: k in r.results && k != bin ==> r'.results[k] == r.results[k]
    ensures r'.warnings ==
            if FoundMany(w) then r.warnings + [MultipleWarning(bin, Hits(w))] else r.warnings
  {
    var r1 := AfterWhich(r, bin, w);
    if r1.results[bin] then AfterTryRun(r1, bin, versionCode) else r1
  }

  /** The probe blocks for `names`, in order. */
  function AfterProbes(r: Report, names: seq<string>,
                       whichOutput: string -> ExecResult, versionExit: string -> int): Report
    decreases |names|
  {
    if |names| == 0 then r
    else
      var last := names[|names| - 1];
      AfterProbe(AfterProbes(r, names[..|names| - 1], whichOutput, versionExit),
                 last, whichOutput(last), versionExit(last))
  }

  /** Taking one more name of a sequence is one more probe block. */
  lemma ProbesStep(r: Report, names: seq<string>, k: nat,
                   whichOutput: string -> ExecResult, versionExit: string -> int)
    requires k < |names|
    ensures AfterProbes(r, names[..k + 1], whichOutput, versionExit)
            == AfterProbe(AfterProbes(r, names[..k], whichOutput, versionExit),
                          names[k], whichOutput(names[k]), versionExit(names[k]))
  {
    assert names[..k + 1][..k] == names[..k];
  }

  /** The eleven probe blocks, one step per name. */
  lemma ProbedSteps(r: Report, whichOutput: string -> ExecResult, versionExit: string -> int)
    ensures AfterProbes(r, Probed, whichOutput, versionExit) ==
            AfterProbe(AfterProbe(AfterProbe(AfterProbe(AfterProbe(AfterProbe(AfterProbe(AfterProbe(AfterProbe(AfterProbe(AfterProbe(r,
              "which", whichOutput("which"), versionExit("which")),
              "curl", whichOutput("curl"), versionExit("curl")),
              "sync", whichOutput("sync"), versionExit("sync")),
              "modprobe", whichOutput("modprobe"), versionExit("modprobe")),
              "sysctl", whichOutput("sysctl"), versionExit("sysctl")),
              "mkdir", whichOutput("mkdir"), versionExit("mkdir")),
              "mount", whichOutput("mount"), versionExit("mount")),
              "cp", whichOutput("cp"), versionExit("cp")),
              "chroot", whichOutput("chroot"), versionExit("chroot")),
              "systemctl", whichOutput("systemctl"), versionExit("systemctl")),
              "service", whichOutput("service"), versionExit("service"))
  {
    var d := Probed;
    assert d[..11] == d;
    ProbesStep(r, d, 10, whichOutput, versionExit);
    ProbesStep(r, d, 9, whichOutput, versionExit);
    ProbesStep(r, d, 8, whichOutput, versionExit);
    ProbesStep(r, d, 7, whichOutput, versionExit);
    ProbesStep(r, d, 6, whichOutput, versionExit);
    ProbesStep(r, d, 5, whichOutput, versionExit);
    ProbesStep(r, d, 4, whichOutput, versionExit);
    ProbesStep(r, d, 3, whichOutput, versionExit);
    ProbesStep(r, d, 2, whichOutput, versionExit);
    ProbesStep(r, d, 1, whichOutput, versionExit);
    ProbesStep(r, d, 0, whichOutput, versionExit);
    assert d[..0] == [];
  }

  /** The whole probe sequence: the eleven probed names, then the lookup of
      `telinit` alone. */
  function AfterAll(r: Report, whichOutput: string -> ExecResult, versionExit: string -> int): Report
  {
    AfterWhich(AfterProbes(r, Probed, whichOutput, versionExit), Telinit, whichOutput(Telinit))
  }

  /** The warnings the lookups of `names` add, in order. */
  function Warned(names: seq<string>, whichOutput: string -> ExecResult): seq<string>
    decreases |names|
  {
    if |names| == 0 then []
    else
      var last := names[|names| - 1];
      var w := whichOutput(last);
      Warned(names[..|names| - 1], whichOutput)
        + (if FoundMany(w) then [MultipleWarning(last, Hits(w))] else [])
  }

  /** `which -a` output with one path per line yields exactly those paths;
      an unterminated last line (`tail`) is dropped, not reported. */
  lemma {:induction false} HitsOfOutput(lines: seq<string>, tail: string)
    requires forall i :: 0 <= i < |lines| ==> '\n' !in lines[i]
    requires '\n' !in tail
    ensures Hits(ExecResult(0, Lines(lines) + tail)) == lines
  {
    SplitLines(lines, tail);
  }

  lemma {:induction false} SplitLines(lines: seq<string>, tail: string)
    requires forall i :: 0 <= i < |lines| ==> '\n' !in lines[i]
    requires '\n' !in tail
    ensures Split(Lines(lines) + tail, '\n') == lines + [tail]
    decreases |lines|
  {
    if |lines| == 0 {
      assert Lines(lines) + tail == tail;
      SplitNoSep(tail, '\n');
    } else {
      SplitLines(lines[1..], tail);
      SplitFirstLine(lines, tail);
      assert lines + [tail] == [lines[0]] + (lines[1..] + [tail]);
    }
  }

  lemma SplitFirstLine(lines: seq<string>, tail: string)
    requires |lines| > 0 && '\n' !in lines[0]
    ensures Split(Lines(lines) + tail, '\n') == [lines[0]] + Split(Lines(lines[1..]) + tail, '\n')
  {
    var rest := Lines(lines[1..]) + tail;
    assert Lines(lines) + tail == lines[0] + ['\n'] + rest;
    SplitConcat(lines[0], rest, '\n');
    SplitNoSep(lines[0], '\n');
  }

  /** Each probed name's final verdict: found by `which -a` and its
      `--version` run exited 0. */
  lemma {:induction false} ProbesVerdicts(r: Report, names: seq<string>,
                                          whichOutput: string -> ExecResult, versionExit: string -> int)
    requires SearchPath.Distinct(names)
    ensures forall i :: 0 <= i < |names| ==>
              names[i] in AfterProbes(r, names, whichOutput, versionExit).results &&
              (AfterProbes(r, names, whichOutput, versionExit).results[names[i]] <==>
                 Found(whichOutput(names[i])) && versionExit(names[i]) == 0)
    decreases |names|
  {
    if |names| > 0 {
      var init, last := names[..|names| - 1], names[|names| - 1];
      var before := AfterProbes(r, init, whichOutput, versionExit);
      var after := AfterProbes(r, names, whichOutput, versionExit);
      assert after == AfterProbe(before, last, whichOutput(last), versionExit(last));
      ProbesVerdicts(r, init, whichOutput, versionExit);
      forall i | 0 <= i < |names|
        ensures names[i] in after.results &&
                (after.results[names[i]] <==> Found(whichOutput(names[i])) && versionExit(names[i]) == 0)
      {
        if i < |names| - 1 {
          assert names[i] == init[i] && names[i] != last;
        }
      }
    }
  }

  /** Names outside the probed list keep their presence and verdict. */
  lemma {:induction false} ProbesOthers(r: Report, names: seq<string>,
                                        whichOutput: string -> ExecResult, versionExit: string -> int, k: string)
    requires k !in names
    ensures k in AfterProbes(r, names, whichOutput, versionExit).results <==> k in r.results
    ensures k in r.results ==> AfterProbes(r, names, whichOutput, versionExit).results[k] == r.results[k]
    decreases |names|
  {
    if |names| > 0 {
      ProbesOthers(r, names[..|names| - 1], whichOutput, versionExit, k);
    }
  }

  /** The warnings after the probes: the old ones, then one per name found
      more than once, in probe order; `--version` runs add none. */
  lemma {:induction false} ProbesWarnings(r: Report, names: seq<string>,
                                          whichOutput: string -> ExecResult, versionExit: string -> int)
    ensures AfterProbes(r, names, whichOutput, versionExit).warnings == r.warnings + Warned(names, whichOutput)
    decreases |names|
  {
    if |names| > 0 {
      ProbesWarnings(r, names[..|names| - 1], whichOutput, versionExit);
    }
  }

  /** A `--version` run happens only for a name the lookup found: two runs
      whose `--version` exit codes differ only for names not found end in
      the same report. */
  lemma {:induction false} ProbesIgnoreUnfound(r: Report, names: seq<string>,
                                               whichOutput: string -> ExecResult,
                                               v1: string -> int, v2: string -> int)
    requires forall i :: 0 <= i < |names| && Found(whichOutput(names[i])) ==> v1(names[i]) == v2(names[i])
    ensures AfterProbes(r, names, whichOutput, v1) == AfterProbes(r, names, whichOutput, v2)
    decreases |names|
  {
    if |names| > 0 {
      var init := names[..|names| - 1];
      ProbesIgnoreUnfound(r, init, whichOutput, v1, v2);
    }
  }

  lemma ProbedWellFormed()
    ensures SearchPath.Distinct(Probed) && Telinit !in Probed && "path" !in Probed
  {
  }

  /** After the whole sequence each probed name is true exactly when it
      was found and its `--version` run exited 0, and `telinit` exactly
      when it was found. */
  lemma AllVerdicts(r: Report, whichOutput: string -> ExecResult, versionExit: string -> int)
    ensures forall i :: 0 <= i < |Probed| ==>
              Probed[i] in AfterAll(r, whichOutput, versionExit).results &&
              (AfterAll(r, whichOutput, versionExit).results[Probed[i]] <==>
                 Found(whichOutput(Probed[i])) && versionExit(Probed[i]) == 0)
    ensures Telinit in AfterAll(r, whichOutput, versionExit).results
    ensures AfterAll(r, whichOutput, versionExit).results[Telinit] <==> Found(whichOutput(Telinit))
  {
    ProbedWellFormed();
    ProbesVerdicts(r, Probed, whichOutput, versionExit);
  }

  /** Every other name keeps its presence and its verdict. */
  lemma AllOthers(r: Report, whichOutput: string -> ExecResult, versionExit: string -> int, k: string)
    requires k !in Probed && k != Telinit
    ensures k in AfterAll(r, whichOutput, versionExit).results <==> k in r.results
    ensures k in r.results ==> AfterAll(r, whichOutput, versionExit).results[k] == r.results[k]
  {
    ProbesOthers(r, Probed, whichOutput, versionExit, k);
  }

  /** The warnings grow by one per probed name found more than once, in
      probe order, then by one more when `telinit` was found more than once. */
  lemma AllWarnings(r: Report, whichOutput: string -> ExecResult, versionExit: string -> int)
    ensures AfterAll(r, whichOutput, versionExit).warnings ==
            r.warnings + Warned(Probed, whichOutput) +
            (if FoundMany(whichOutput(Telinit))
             then [MultipleWarning(Telinit, Hits(whichOutput(Telinit)))] else [])
  {
    ProbesWarnings(r, Probed, whichOutput, versionExit);
  }

  /** `telinit --version` is never run, and neither is `--version` of a
      name not found. */
  lemma AllIgnoresUnusedRuns(r: Report, whichOutput: string -> ExecResult,
                             v1: string -> int, v2: string -> int)
    requires forall i :: 0 <= i < |Probed| && Found(whichOutput(Probed[i])) ==> v1(Probed[i]) == v2(Probed[i])
    ensures AfterAll(r, whichOutput, v1) == AfterAll(r, whichOutput, v2)
  {
    ProbesIgnoreUnfound(r, Probed, whichOutput, v1, v2);
  }
}
