/**
 * The checker's run from the `$PATH` step on: one session object holds the
 * process's `PATH` value, the verdict per name and the warning list, and
 * each operation of the script updates them in place. Child processes are
 * inputs: `whichOutput(b)` is what `which -a b` returned and
 * `versionExit(b)` is the exit code of `b --version`.
 */
module EnvTest {
  import opened Text
  import opened SearchPath
  import opened Probing

  class Session {
    var path: string
    var results: map<string, bool>
    var warnings: seq<string>

    /** The results and warnings as a value. */
    function View(): Report
      reads this
    {
      Report(results, warnings)
    }

    /** A fresh session over the process's current `PATH`, with no verdicts
        and no warnings yet. */
    constructor (initialPath: string)
      ensures path == initialPath && results == map[] && warnings == []
    {
      path := initialPath;
      results := map[];
      warnings := [];
    }

    /** `path_find_or_workaround`: split `PATH` at `':'` and, when `dir` is
        not an entry, append it and write the joined list back. */
    method PathFindOrWorkaround(dir: string)
      modifies this`path
      ensures path == Appended(old(path), dir)
      ensures dir in Entries(old(path)) ==> path == old(path)
      ensures ':' !in dir ==> dir in Entries(path)
      ensures ':' !in dir && dir !in Entries(old(path)) ==>
                Entries(path) == Entries(old(path)) + [dir]
    {
      var entries := Split(path, ':');
      if dir !in entries {
        entries := entries + [dir];
        JoinAppend(Split(path, ':'), dir, ':');
        SplitJoin(path, ':');
        path := Join(entries, ':');
      }
      if ':' !in dir {
        AppendedMember(old(path), dir);
      }
    }

    /** The six calls of the `$PATH` step. Afterwards every standard
        directory is an entry; the original entries come first, in their
        order, then each standard directory that was missing, once, in the
        standard order; as text, the old `PATH` followed by `":" + d` for each. */
    method NormalizePath()
      modifies this`path
      ensures path == AppendAll(old(path), StandardDirs)
      ensures forall i :: 0 <= i < |StandardDirs| ==> StandardDirs[i] in Entries(path)
      ensures Entries(path) == Entries(old(path)) + Missing(Entries(old(path)), StandardDirs)
      ensures path == old(path) + Suffix(Missing(Entries(old(path)), StandardDirs))
    {
      ghost var p0 := path;
      PathFindOrWorkaround("/usr/local/sbin");
      PathFindOrWorkaround("/usr/local/bin");
      PathFindOrWorkaround("/usr/sbin");
      PathFindOrWorkaround("/usr/bin");
      PathFindOrWorkaround("/sbin");
      PathFindOrWorkaround("/bin");
      StandardSteps(p0);
      StandardNormalization(p0);
    }

    /** `which_a`: the hit list is empty for a failed lookup, otherwise the
        output split at newlines with its last piece popped; no hits marks
        the name invalid, one marks it valid, more also add a warning. */
    method WhichA(bin: string, w: ExecResult)
      modifies this`results, this`warnings
      ensures View() == AfterWhich(old(View()), bin, w)
    {
      var executables: seq<string>;
      if w.code != 0 {
        executables := [];
      } else {
        executables := Split(w.stdout, '\n');
        executables := executables[..|executables| - 1];
      }
      if |executables| == 0 {
        results := results[bin := false];
      } else if |executables| == 1 {
        results := results[bin := true];
      } else {
        results := results[bin := true];
        warnings := warnings + [MultipleWarning(bin, executables)];
      }
    }

    /** `try_run`: a non-zero exit of the run marks the name invalid. */
    method TryRun(bin: string, code: int)
      modifies this`results
      ensures View() == AfterTryRun(old(View()), bin, code)
    {
      if code != 0 {
        results := results[bin := false];
      }
    }

    /** One block of the executables step: look `bin` up and, only when
        that left its verdict true, run `bin --version`. */
    method Probe(bin: string, w: ExecResult, versionCode: int)
      modifies this`results, this`warnings
      ensures View() == AfterProbe(old(View()), bin, w, versionCode)
    {
      WhichA(bin, w);
      if results[bin] {
        TryRun(bin, versionCode);
      }
    }

    /** The executables step: the eleven probe blocks in order, then the
        lookup of `telinit`, which is never run. */
    method ProbeExecutables(whichOutput: string -> ExecResult, versionExit: string -> int)
      modifies this`results, this`warnings
      ensures View() == AfterAll(old(View()), whichOutput, versionExit)
    {
      ghost var r0 := View();
      Probe("which", whichOutput("which"), versionExit("which"));
      Probe("curl", whichOutput("curl"), versionExit("curl"));
      Probe("sync", whichOutput("sync"), versionExit("sync"));
      Probe("modprobe", whichOutput("modprobe"), versionExit("modprobe"));
      Probe("sysctl", whichOutput("sysctl"), versionExit("sysctl"));
      Probe("mkdir", whichOutput("mkdir"), versionExit("mkdir"));
      Probe("mount", whichOutput("mount"), versionExit("mount"));
      Probe("cp", whichOutput("cp"), versionExit("cp"));
      Probe("chroot", whichOutput("chroot"), versionExit("chroot"));
      Probe("systemctl", whichOutput("systemctl"), versionExit("systemctl"));
      Probe("service", whichOutput("service"), versionExit("service"));
      ghost var r11 := View();
      ProbedSteps(r0, whichOutput, versionExit);
      assert r11 == AfterProbes(r0, Probed, whichOutput, versionExit);
      WhichA(Telinit, whichOutput(Telinit));
    }

    /** The run from the `$PATH` step to the end: normalise `PATH`, record
        it as valid, then probe the executables. */
    method Run(whichOutput: string -> ExecResult, versionExit: string -> int)
      modifies this
      ensures path == AppendAll(old(path), StandardDirs)
      ensures View() == AfterAll(Report(old(results)["path" := true], old(warnings)), whichOutput, versionExit)
      ensures "path" in results && results["path"]
    {
      NormalizePath();
      results := results["path" := true];
      ghost var r1 := View();
      assert r1 == Report(old(results)["path" := true], old(warnings));
      ProbeExecutables(whichOutput, versionExit);
      ProbedWellFormed();
      AllOthers(r1, whichOutput, versionExit, "path");
    }
  }
}
