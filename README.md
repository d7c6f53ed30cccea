# Runtime environment checker: search path and executable probes

This project models the stateful core of `env_test.py`, the runtime test
script of the Menhera init environment, and proves what that core does.
The script has two state-changing parts that are modelled here:

- **The `$PATH` step.** `path_find_or_workaround(dir)` splits `PATH` at
  `':'`. If `dir` is not one of the entries (exact string match), it appends
  `dir` and writes the joined list back. The script calls it for
  `/usr/local/sbin`, `/usr/local/bin`, `/usr/sbin`, `/usr/bin`, `/sbin` and
  `/bin`, in that order.
- **The executables step.** `which_a(bin)` runs `which -a bin` and turns
  its output into a hit list. On a non-zero exit the list is empty.
  Otherwise it is the output split at `'\n'` with the last piece popped.
  No hits set `results[bin]` to false. One hit sets it to true. More hits
  set it to true and append a warning. `try_run(bin, '--version')` can only
  set `results[bin]` to false, and does so when the run exits non-zero. The
  driver runs `which_a` and then, only when the verdict is true, `try_run`
  for `which`, `curl`, `sync`, `modprobe`, `sysctl`, `mkdir`, `mount`, `cp`,
  `chroot`, `systemctl` and `service`. For `telinit` it runs `which_a` only.

Files and modules:

- `text.dfy` (module `Text`): `str.split` with a one-character separator
  and `str.join`, with their round trips.
- `search_path.dfy` (module `SearchPath`): what one normalising step and
  the six-directory sequence do to `PATH`, stated as values.
- `probing.dfy` (module `Probing`): the hit list, and what `which_a`,
  `try_run` and the probe sequence do to the results map and the warning
  list, stated as values (`Report`).
- `env_test.dfy` (module `EnvTest`): class `Session`. Its fields `path`,
  `results` and `warnings` are the script's `os.environ['PATH']`, `results`
  and `warnings`. Its methods update them in place as the script does. Each
  method is proved against the value-level specification.

Child processes are inputs. `whichOutput(b)` is the exit code and standard
output of `which -a b`. `versionExit(b)` is the exit code of `b --version`.

`which_a` in `env_test.py` resolves no symlinks. It warns on any two or
more lines of `which -a` output, even when they name the same file. The
model does the same.

## Model

| member | source | states |
|---|---|---|
| `Text.Split` | env_test.py:13 | `str.split(sep)` never returns an empty list, so the `pop()` at line 42 cannot fail |
| `Text.SplitCount` | env_test.py:41-42 | there is one more piece than there are separators, so the hit count equals the number of newlines |
| `Text.SplitPiecesFree` | env_test.py:13-14 | no piece holds the separator, so a directory containing `':'` never matches an entry |
| `Text.SplitNoSep` | env_test.py:13-14 | a string without the separator splits into itself alone |
| `Text.SplitConcat` | env_test.py:15-16 | splitting `a + sep + b` gives the pieces of `a` followed by the pieces of `b` |
| `Text.SplitJoin` | env_test.py:13-16 | joining the pieces of a split gives back the original `PATH` |
| `Text.JoinSplit` | env_test.py:13-16 | splitting a join of separator-free parts gives back the parts |
| `Text.JoinAppend` | env_test.py:15-16 | joining a list with one more part appends one separator and that part to the text |
| `SearchPath.Missing` | env_test.py:158-163 | the directories it returns come from the required list and were not entries |
| `SearchPath.AppendedEntries` | env_test.py:12-16 | one step keeps every entry in order; a missing directory adds its own pieces at the end |
| `SearchPath.AppendedMember` | env_test.py:12-16 | a colon-free directory is an entry afterwards; one already present leaves `PATH` unchanged; one missing becomes the single new last entry |
| `SearchPath.AppendedIdempotent` | env_test.py:12-16 | two calls for the same colon-free directory do what one call does |
| `SearchPath.ColonDirAlwaysAppended` | env_test.py:14-16 | a directory containing `':'` is appended on every call, so the step is not idempotent for it |
| `SearchPath.AppendAllEntries` | env_test.py:158-163 | after a sequence of distinct directories, the entries are the old entries followed by each missing directory once, in the given order |
| `SearchPath.AppendAllKeepsOthers` | env_test.py:158-163 | a directory outside the sequence is an entry afterwards exactly when it was before |
| `SearchPath.AppendAllText` | env_test.py:158-163 | as text, the new `PATH` is the old `PATH` followed by `":" + d` for each missing directory, in order |
| `SearchPath.AppendAllPresent` | env_test.py:158-163 | every colon-free directory of the sequence is an entry at the end |
| `SearchPath.StandardNormalization` | env_test.py:158-163 | after the six calls every standard directory is an entry; the old entries come first, then the missing standard directories in standard order |
| `Probing.Hits` | env_test.py:38-42 | a failed lookup has no hits; otherwise there are as many hits as newlines in the output, none containing a newline |
| `Probing.HitsOfOutput` | env_test.py:41-42 | one path per line yields exactly those paths; an unterminated last line is dropped, so output without a trailing newline loses its last path |
| `Probing.SplitLines` | env_test.py:41 | output made of newline-terminated lines and a tail splits into those lines followed by the tail |
| `Probing.MultipleWarning` | env_test.py:52 | the warning text starts with the binary's name |
| `Probing.AfterWhich` | env_test.py:36-55 | the verdict becomes true exactly when the lookup exits 0 with a newline in its output; a warning is added exactly when there are two or more newlines; no other key changes |
| `Probing.AfterTryRun` | env_test.py:57-64 | a zero exit changes nothing; a non-zero exit sets the name to false; no name ever becomes true; warnings are untouched |
| `Probing.AfterProbe` | env_test.py:171-173 | after one block the name is true exactly when it was found and `--version` exited 0; no other key changes; warnings grow as for the lookup alone |
| `Probing.ProbesVerdicts` | env_test.py:170-223 | after the probe blocks for distinct names, each name is true exactly when found and its `--version` run exited 0 |
| `Probing.ProbesOthers` | env_test.py:170-223 | names outside the probed list keep their presence and verdict |
| `Probing.ProbesWarnings` | env_test.py:170-223 | the warnings are the old ones followed by one per name found more than once, in probe order |
| `Probing.ProbesIgnoreUnfound` | env_test.py:170-223 | `--version` runs only for found names: exit codes of names not found do not affect the report |
| `Probing.AllVerdicts` | env_test.py:170-229 | after the whole sequence the eleven probed names hold "found and `--version` succeeded" and `telinit` holds "found" |
| `Probing.AllOthers` | env_test.py:170-229 | every name other than the twelve keeps its presence and verdict |
| `Probing.AllWarnings` | env_test.py:170-229 | the warnings grow by one per probed name found more than once, then one more if `telinit` was |
| `Probing.AllIgnoresUnusedRuns` | env_test.py:225-229 | `telinit --version` is never run, and neither is `--version` of a name not found: the report does not depend on them |
| `EnvTest.Session.constructor` | env_test.py:66-68 | a session starts with no verdicts and no warnings |
| `EnvTest.Session.PathFindOrWorkaround` | env_test.py:12-17 | split, append when missing, join: the new `PATH` is the specification step; unchanged when present; a colon-free directory is an entry afterwards, as the new last entry when it was missing |
| `EnvTest.Session.NormalizePath` | env_test.py:158-163 | the six calls give the specified sequence; every standard directory is an entry; old entries first, then the missing ones in order; the old text is a prefix |
| `EnvTest.Session.WhichA` | env_test.py:36-55 | the new results and warnings are those of the lookup specification |
| `EnvTest.Session.TryRun` | env_test.py:57-64 | the new results are those of the `try_run` specification; warnings unchanged |
| `EnvTest.Session.Probe` | env_test.py:171-173 | one lookup-then-run block yields the specified block result |
| `EnvTest.Session.ProbeExecutables` | env_test.py:170-229 | the eleven blocks and the `telinit` lookup yield the specified whole-sequence report |
| `EnvTest.Session.Run` | env_test.py:157-229 | `PATH` is normalised, `results['path']` is true and stays true, then the executables are probed as specified |

## Left out

- The subprocess self-test and the choice between `subprocess.run` and `Popen` (env_test.py:87-155) are not modelled. They spawn real processes and depend on which library members exist. `Run` starts from whatever `results` holds, including any `results['subprocess']`.
- `exec_with_popen` and `exec_with_run` are not modelled. They are foreign process calls plus UTF-8 decoding; their `(returncode, stdout)` is an input. On the `Popen` path stdout is bytes, and `which_a`'s `str` split would raise a type error. The model treats stdout as text.
- When the import of `subprocess` or the `Popen('/bin/true')` call fails (env_test.py:87-104), `fork_and_exec` stays `None` (env_test.py:66), and the first `which_a` raises `TypeError`. When only a later self-test fails (env_test.py:115-147), `fork_and_exec` is already set at env_test.py:110 or :112. Only `results['subprocess']` becomes false, and `which_a` runs normally. The model covers that second case.
- The process call at env_test.py:37 raises `FileNotFoundError` when `which` is not installed. `.decode("utf-8")` at env_test.py:29 raises `UnicodeDecodeError` on output that is not UTF-8. Neither exception is modelled: the model assumes every process call returns an exit code and text.
- Standard error of each run is ignored, as in the source.
- All printed output is left out: the banner, interpreter versions, `print_exception`, the per-probe lines, the `Workaround:` lines and the `stdout` echo in `try_run`.
- `os.environ['PATH']` raises `KeyError` when `PATH` is unset. The model assumes `PATH` is set.
- The model keeps `PATH` as a field. The process environment it is written back to is left out.
- `Probing.MultipleWarning`: the list part is rendered as `['a', 'b']`. Python's `repr` escaping of quotes, backslashes and unprintable characters is not modelled.
- `try_run` takes any argument list. Only the `--version` form is modelled, because that is the only form the driver uses.
- Symlink resolution, real-path deduplication, the workaround log, the final conclusion and fatal exits are not modelled. The code does none of these.
