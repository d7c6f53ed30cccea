/**
 * The search-path normaliser: the `PATH` value seen as its `':'`-separated
 * entries, what appending one required directory does to it, and what the
 * fixed sequence of six standard directories does to it.
 */
module SearchPath {
  import opened Text

  /** The directories the checker insists on, in the order it checks them. */
  const StandardDirs: seq<string> :=
    ["/usr/local/sbin", "/usr/local/bin", "/usr/sbin", "/usr/bin", "/sbin", "/bin"]

  /** The entries of a `PATH` value, as `PATH.split(':')`. */
  function Entries(path: string): seq<string>
  {
    Split(path, ':')
  }

  /** The specification of one normalising step: a directory that is
      already an entry (exact string match) leaves `PATH` alone; any other
      is added at the end after one `':'`. */
  function Appended(path: string, dir: string): string
  {
    if dir in Entries(path) then path else path + [':'] + dir
  }

  /** The six-step normalisation, one directory at a time in order. */
  function AppendAll(path: string, dirs: seq<string>): string
    decreases |dirs|
  {
    if |dirs| == 0 then path
    else Appended(AppendAll(path, dirs[..|dirs| - 1]), dirs[|dirs| - 1])
  }

  /** Taking one more directory of a sequence is one more step. */
  lemma AppendAllStep(path: string, dirs: seq<string>, k: nat)
    requires k < |dirs|
    ensures AppendAll(path, dirs[..k + 1]) == Appended(AppendAll(path, dirs[..k]), dirs[k])
  {
    assert dirs[..k + 1][..k] == dirs[..k];
  }

  /** The directories of `dirs` that are not among `entries`, in order. */
  function Missing(entries: seq<string>, dirs: seq<string>): (m: seq<string>)
    ensures forall x :: x in m ==> x in dirs && x !in entries
    decreases |dirs|
  {
    if |dirs| == 0 then []
    else
      var last := dirs[|dirs| - 1];
      Missing(entries, dirs[..|dirs| - 1]) + (if last in entries then [] else [last])
  }

  /** What the string gains: `":" + d` for each directory in turn. */
  function Suffix(dirs: seq<string>): string
    decreases |dirs|
  {
    if |dirs| == 0 then ""
    else Suffix(dirs[..|dirs| - 1]) + [':'] + dirs[|dirs| - 1]
  }

  predicate Distinct(s: seq<string>)
  {
    forall i, j :: 0 <= i < j < |s| ==> s[i] != s[j]
  }

  predicate ColonFree(dirs: seq<string>)
  {
    forall i :: 0 <= i < |dirs| ==> ':' !in dirs[i]
  }

  /** A step keeps every entry and their order; a missing directory adds
      its own pieces (itself alone when it has no `':'`) at the end. */
  lemma AppendedEntries(path: string, dir: string)
    ensures Entries(Appended(path, dir)) ==
            if dir in Entries(path) then Entries(path)
            else Entries(path) + Split(dir, ':')
  {
    if dir !in Entries(path) {
      SplitConcat(path, dir, ':');
    }
  }

  /** A colon-free directory is an entry after its step, and a directory
      that already was one leaves `PATH` exactly unchanged. */
  lemma AppendedMember(path: string, dir: string)
    requires ':' !in dir
    ensures dir in Entries(Appended(path, dir))
    ensures dir in Entries(path) ==> Appended(path, dir) == path
    ensures dir !in Entries(path) ==> Entries(Appended(path, dir)) == Entries(path) + [dir]
  {
    AppendedEntries(path, dir);
    SplitNoSep(dir, ':');
  }

  /** Normalising twice for the same colon-free directory is normalising once. */
  lemma AppendedIdempotent(path: string, dir: string)
    requires ':' !in dir
    ensures Appended(Appended(path, dir), dir) == Appended(path, dir)
  {
    AppendedMember(path, dir);
  }

  /** A directory holding `':'` never matches an entry, so every step
      appends it again and the step is not idempotent for it. */
  lemma ColonDirAlwaysAppended(path: string, dir: string)
    requires ':' in dir
    ensures Appended(path, dir) == path + [':'] + dir
    ensures Appended(Appended(path, dir), dir) != Appended(path, dir)
  {
    SplitPiecesFree(path, ':');
    var p1 := Appended(path, dir);
    SplitPiecesFree(p1, ':');
    assert |Appended(p1, dir)| > |p1|;
  }

  /** The entries after the whole sequence: the original entries, in their
      order, followed by each directory that was missing, once, in the
      order given. */
  lemma {:induction false} AppendAllEntries(path: string, dirs: seq<string>)
    requires Distinct(dirs) && ColonFree(dirs)
    ensures Entries(AppendAll(path, dirs)) == Entries(path) + Missing(Entries(path), dirs)
    decreases |dirs|
  {
    if |dirs| > 0 {
      var init, last := dirs[..|dirs| - 1], dirs[|dirs| - 1];
      var q := AppendAll(path, init);
      AppendAllEntries(path, init);
      assert last !in init;
      assert last !in Missing(Entries(path), init);
      AppendedMember(q, last);
    }
  }

  /** A directory not in the sequence is an entry after it exactly when
      it was one before. */
  lemma AppendAllKeepsOthers(path: string, dirs: seq<string>, dir: string)
    requires Distinct(dirs) && ColonFree(dirs) && dir !in dirs
    ensures dir in Entries(AppendAll(path, dirs)) <==> dir in Entries(path)
  {
    AppendAllEntries(path, dirs);
  }

  /** The same result as text: the original `PATH` followed by `":" + d`
      for each missing directory, in order. */
  lemma {:induction false} AppendAllText(path: string, dirs: seq<string>)
    requires Distinct(dirs) && ColonFree(dirs)
    ensures AppendAll(path, dirs) == path + Suffix(Missing(Entries(path), dirs))
    decreases |dirs|
  {
    if |dirs| > 0 {
      var init, last := dirs[..|dirs| - 1], dirs[|dirs| - 1];
      var q := AppendAll(path, init);
      var m := Missing(Entries(path), init);
      AppendAllText(path, init);
      assert q == path + Suffix(m);
      AppendAllKeepsOthers(path, init, last);
      MissingSuffixStep(Entries(path), dirs);
    }
  }

  /** One more directory adds `":" + d` to the text exactly when it was
      missing. */
  lemma MissingSuffixStep(entries: seq<string>, dirs: seq<string>)
    requires |dirs| > 0
    ensures Suffix(Missing(entries, dirs)) ==
            var m, last := Missing(entries, dirs[..|dirs| - 1]), dirs[|dirs| - 1];
            if last in entries then Suffix(m) else Suffix(m) + [':'] + last
  {
    var m, last := Missing(entries, dirs[..|dirs| - 1]), dirs[|dirs| - 1];
    if last in entries {
      assert Missing(entries, dirs) == m;
    } else {
      assert Missing(entries, dirs) == m + [last];
      assert (m + [last])[..|m|] == m;
    }
  }

  /** Every colon-free directory of the sequence is an entry at the end. */
  lemma {:induction false} AppendAllPresent(path: string, dirs: seq<string>)
    requires ColonFree(dirs)
    ensures forall i :: 0 <= i < |dirs| ==> dirs[i] in Entries(AppendAll(path, dirs))
    decreases |dirs|
  {
    if |dirs| > 0 {
      var init, last := dirs[..|dirs| - 1], dirs[|dirs| - 1];
      var q := AppendAll(path, init);
      AppendAllPresent(path, init);
      AppendedMember(q, last);
      AppendedEntries(q, last);
      forall i | 0 <= i < |dirs|
        ensures dirs[i] in Entries(AppendAll(path, dirs))
      {
        if i < |dirs| - 1 {
          assert init[i] in Entries(q);
        }
      }
    }
  }

  /** The six-directory sequence, one step per directory. */
  lemma StandardSteps(path: string)
    ensures AppendAll(path, StandardDirs) ==
            Appended(Appended(Appended(Appended(Appended(Appended(path,
              "/usr/local/sbin"), "/usr/local/bin"), "/usr/sbin"), "/usr/bin"), "/sbin"), "/bin")
  {
    var d := StandardDirs;
    assert d[..6] == d;
    AppendAllStep(path, d, 5);
    AppendAllStep(path, d, 4);
    AppendAllStep(path, d, 3);
    AppendAllStep(path, d, 2);
    AppendAllStep(path, d, 1);
    AppendAllStep(path, d, 0);
    assert d[..0] == [];
  }

  /** The `$PATH` step: after the six standard directories every one of
      them is an entry; the original entries come first, in their order,
      then each standard directory that was missing, once, in the standard
      order; as text, the old `PATH` followed by `":" + d` for each. */
  lemma StandardNormalization(path: string)
    ensures forall i :: 0 <= i < |StandardDirs| ==>
              StandardDirs[i] in Entries(AppendAll(path, StandardDirs))
    ensures Entries(AppendAll(path, StandardDirs)) ==
            Entries(path) + Missing(Entries(path), StandardDirs)
    ensures AppendAll(path, StandardDirs) == path + Suffix(Missing(Entries(path), StandardDirs))
  {
    StandardDirsWellFormed();
    AppendAllPresent(path, StandardDirs);
    AppendAllEntries(path, StandardDirs);
    AppendAllText(path, StandardDirs);
  }

  /** The six standard directories are distinct and free of `':'`. */
  lemma StandardDirsWellFormed()
    ensures Distinct(StandardDirs) && ColonFree(StandardDirs)
  {
  }
}
