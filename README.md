# pytest-system-statistics, modelled in Dafny

This project models the core of the pytest plugin `pytestsysstats`. After each
test the plugin prints CPU and memory statistics for the system and for a
registry of tracked processes.

The model has two parts:

- **`StatsProcesses`** (`registry.dfy`) is the registry of tracked processes:
  an insertion-ordered mapping from display name to process handle. It is a
  class with a `names: seq<string>` field (the key order) and a
  `handles: map<string, Handle>` field. `Add` overwrites or appends and, when it
  is given a raw pid, resolves that pid first. `Remove` does nothing for an
  absent name. `Items` and `Keys` are the ordered views.
- **`SystemStatsReporter`** (`reporting.dfy`) is the reporter. Its constructor
  turns the four flags and "is FreeBSD" into `showSysStats`,
  `sysStatsNoChildren` and `sysStatsMemType`. `LogReport` is the
  `pytest_runtest_logreport` hook. It checks the gates and computes the left
  padding. It writes a section line, a system line, and one line per registry
  entry whose process still exists, stopping at an access-denied error. It
  aggregates child-process memory, marks names for pruning during the loop,
  and removes them in a second phase after the loop.

The operating system is replaced by an `Os` snapshot (`oracle.dfy`):

- system-wide CPU, virtual-memory and swap percentages;
- a map from each live pid to its CPU, its RSS and USS memory, whether its
  memory can be read, and its recursive list of descendants.

A pid exists exactly when it is a key of that map. All percentages are whole
numbers of hundredths of a percent. Output is a sequence of `Line` records
(`Section`, `SystemLine`, `ProcLine`), not text.

The behaviour of one report pass is specified by ghost functions:

- `EntryOutcome` gives the result for one registry entry;
- `Pass` gives the result of the loop over all entries;
- `NewPids`, `Counted`, `MemSum` and `AnyVanished` (`children.dfy`) specify
  the child aggregation. `MemSum` gives 0 for a pid that does not exist; it is
  only applied to counted pids, which all exist.

The methods that do the work (`AggregateChildren`, `SampleEntry`,
`ReportEntries`, `LogReport`) are proved against these functions. Lemmas then
prove the properties the plugin promises about them.

`SessionStart` (`session.dfy`) seeds the registry with `"Test Suite Run"`
mapped to the run's own pid, which is passed in as a parameter. It binds the
reporter to that registry, or to none when reporting is disabled.

Two behaviours of the hook are easy to misread; the model keeps them as the code has them:

- An access-denied error on a tracked process's own queries is not caught (only
  `NoSuchProcess` is caught, plugin.py:183). It escapes the hook, so a report is
  not always free of errors. `LogReport` returns `raised` in that case. The
  lines written before the error stay written, and the registry is left
  unchanged, because the pruning loop is never reached.
- A descendant whose pid no longer exists is not just skipped. It causes the
  parent's name to be pruned, and the parent's line is still written
  (plugin.py:167-169, 182).

## Model

| member | source | states |
|---|---|---|
| `Registry.StatsProcesses.constructor` | src/pytestsysstats/plugin.py:37-39 | a new registry is empty and well formed (distinct names, order lists exactly the stored names) |
| `Registry.StatsProcesses.Add` | src/pytestsysstats/plugin.py:41-48 | a raw pid that names no live process fails with `NoSuchProcess(pid)` and leaves the registry unchanged; otherwise the handle is stored under the name, a new name goes last in the order, an existing name keeps its place, and all other entries are unchanged |
| `Registry.StatsProcesses.Remove` | src/pytestsysstats/plugin.py:50-54 | the name is deleted from the mapping and from the order (`RemoveKeepsOrder`: the other names keep their order); an absent name changes nothing and raises nothing |
| `Registry.StatsProcesses.Items` | src/pytestsysstats/plugin.py:56-60 | the (name, handle) pairs, one per registered name, in insertion order |
| `Registry.StatsProcesses.Keys` | src/pytestsysstats/plugin.py:62-66 | the registered names in the order of `names` (the insertion order that `Add` keeps), each exactly once, and exactly those that have a handle |
| `Registry.InsertKey` | src/pytestsysstats/plugin.py:48 | the key order after a store contains the old keys plus the new one, and keeps keys distinct |
| `Registry.RemoveKey` | src/pytestsysstats/plugin.py:54 | the key order after a delete holds exactly the other keys, keeps them distinct, and never grows |
| `Registry.RemoveKeys` | src/pytestsysstats/plugin.py:186-188 | deleting a set of keys leaves exactly the keys outside the set, distinct |
| `Registry.RemoveAbsent` | src/pytestsysstats/plugin.py:54 | deleting a name that is not registered leaves the key order unchanged |
| `Registry.RemoveKeepsOrder` | src/pytestsysstats/plugin.py:50-54 | deleting a registered name from an order `a + [n] + b` leaves exactly `a + b`: the other names keep their relative order |
| `Registry.RemoveIdempotent` | src/pytestsysstats/plugin.py:50-54 | removing a name twice gives the same key order as removing it once |
| `Registry.AddThenRemove` | src/pytestsysstats/plugin.py:41-54 | adding a fresh name and then removing it restores the original key order and the original mapping |
| `Registry.InsertKeysInOrder` | src/pytestsysstats/plugin.py:41-48 | adding distinct new names one after another lists them after the old keys, in call order |
| `Registry.RemoveOneMore` | src/pytestsysstats/plugin.py:186-188 | removing the marked names one at a time, in any order, gives the old order with exactly those names deleted |
| `Children.NewPidsMembers` | src/pytestsysstats/plugin.py:157-166 | the pids that pass the "already seen" check (the parent is seen first) are exactly the descendants other than the parent, each once |
| `Children.CountedMembers` | src/pytestsysstats/plugin.py:167-177 | the counted children are exactly those that exist and whose memory can be read, with no repetitions |
| `Children.AnyVanishedIff` | src/pytestsysstats/plugin.py:163-169 | scanning the descendants in order and flagging the first-seen pid that no longer exists finds a vanished child exactly when some descendant other than the parent no longer exists |
| `Children.CountIsDistinctLive` | src/pytestsysstats/plugin.py:163-177 | the child count equals the number of distinct descendants, other than the parent, that exist and whose memory can be read |
| `Children.AggregateChildren` | src/pytestsysstats/plugin.py:157-177 | the loop's count is that number of children; its sum is the parent's memory plus those children's memory; and it reports a vanished child exactly when some descendant other than the parent no longer exists |
| `Children.VisitChild` | src/pytestsysstats/plugin.py:157-177 | one iteration of the child loop moves the seen list, the count, the sum and the vanished flag from their values for the first children to their values for one more child |
| `Reporting.Dots` | src/pytestsysstats/plugin.py:145 | a dot-leader is `k` dots, and is empty when `k` is not positive |
| `Reporting.LeftPadding` | src/pytestsysstats/plugin.py:118 | the padding is at least `len("System")` and at least the length of every registered name, and equals one of those lengths |
| `Reporting.SystemLineFor` | src/pytestsysstats/plugin.py:123-136 | the system line carries the system-wide CPU and virtual-memory percentages, a dot-leader of `pad - len("System")` dots, and a swap field exactly when swap use is positive, holding that swap value |
| `Reporting.ChildInfo` | src/pytestsysstats/plugin.py:156-181 | a process line gets a child summary exactly when at least one distinct readable live descendant other than the parent exists (otherwise the plain template is used); the summary counts those descendants and its memory sum is the parent's memory plus theirs |
| `Reporting.SampleEntry` | src/pytestsysstats/plugin.py:144-185 | one entry yields exactly `EntryOutcome`: gone (prune, no line), access denied (the error escapes), or its line and whether it is pruned |
| `Reporting.EntryChildSummary` | src/pytestsysstats/plugin.py:149-182 | an entry that is live and readable emits a line with its name, CPU, memory and kind; the line carries a child summary iff children are enabled and at least one distinct readable child exists; the summary's count is the number of those children and its sum is the parent's memory plus theirs; the entry is pruned iff children are enabled and a descendant vanished, while its line is still written |
| `Reporting.SummarizeChildren` | src/pytestsysstats/plugin.py:156-181 | the child summary attached to a line is present iff at least one child was counted, and then holds the loop's sum and count; the parent is pruned iff a descendant vanished |
| `Reporting.ReportEntries` | src/pytestsysstats/plugin.py:143-185 | the loop over the entries writes exactly the lines of `Pass`, collects exactly its prune set, and stops at the first access-denied error |
| `Reporting.PassStopsAtDenial` | src/pytestsysstats/plugin.py:147-185 | once an error has escaped, the entries after it are never looked at |
| `Reporting.PassAligned` | src/pytestsysstats/plugin.py:118-145 | when the padding bounds every name, every line written for an entry is a process line whose dot-leader has `pad - len(name)` dots |
| `Reporting.PassWithoutChildren` | src/pytestsysstats/plugin.py:156-182 | with `--sys-stats-no-children`, no process line carries a child summary |
| `Reporting.PassLineNames` | src/pytestsysstats/plugin.py:143-185 | a pass without an escaping error writes one line per entry whose process still exists, in registry order, and none for a vanished one |
| `Reporting.PassPrune` | src/pytestsysstats/plugin.py:164-184 | a pass without an escaping error marks for pruning exactly the names whose process is gone or, with children enabled, has a vanished descendant |
| `Reporting.PassDenied` | src/pytestsysstats/plugin.py:147-185 | an error escapes the pass iff some entry's process exists but cannot be read |
| `Reporting.SystemStatsReporter.constructor` | src/pytestsysstats/plugin.py:82-97 | `showSysStats` holds iff `--sys-stats` is set and `--no-sys-stats` is not; `sysStatsNoChildren` is the flag's value; the memory kind is USS iff `--sys-stats-uss-mem` is set and the platform is not FreeBSD, and RSS otherwise |
| `Reporting.SystemStatsReporter.Shows` | src/pytestsysstats/plugin.py:104-113 | the four gates in order (verbosity > 0, phase "call", reporting enabled, verbosity > 1) pass exactly when verbosity > 1, the phase is "call" and reporting is enabled; the first gate is subsumed by the last |
| `Reporting.SystemStatsReporter.LogReport` | src/pytestsysstats/plugin.py:100-188 | unless verbosity > 0, the phase is "call", reporting is enabled and verbosity > 1, nothing is written and the registry is unchanged; otherwise the output is a section line, then the system line, then the lines of `Pass` over a snapshot of the registry; the system line's dots have length `pad - len("System")`, the line has a swap field iff swap > 0, every process line's dots have length `pad - len(name)`, and no line has a child summary with children disabled; an error escapes iff `Pass` says so, and then the registry is unchanged; otherwise exactly the marked names are removed, after the loop, and nothing else changes |
| `Reporting.SystemStatsReporter.PruneStats` | src/pytestsysstats/plugin.py:186-188 | removing the marked names one by one leaves the old order without them and the old mapping without them |
| `Session.SessionStart` | src/pytestsysstats/plugin.py:228-246 | a registry exists iff `--sys-stats` is set and `--no-sys-stats` is not; it then holds only "Test Suite Run" mapped to the run's own pid; the reporter is bound to it and configured from the same flags |

## Left out

- The process-inspection library (psutil) is replaced by the `Os` snapshot. Process CPU percent in the plugin is measured over the interval since the previous call; here it is a given number.
- Floating-point percentages become whole hundredths of a percent. The `{:6.2f}` formatting, the text templates and the terminal-reporter calls (`ensure_newline`, `section`, `write`) are replaced by `Line` records. The memory kind is an enumeration, not the strings "rss"/"uss".
- A handle is identified by its pid alone, so psutil's detection of a reused pid is not modelled.
- `Proc.accessible` covers several failures at once. For a descendant, it stands for both an access-denied error and a process that disappears between the existence check and the memory query; the plugin skips both the same way. For a tracked process, it stands for any access-denied error on its own queries.
- A snapshot cannot express a tracked process that vanishes after its own CPU and memory queries but before its children are listed. The `NoSuchProcess` from `children()` in that case is not modelled.
- `Pid` is a natural number, so psutil's `ValueError` for a negative pid is not modelled.
- The hook's iteration over the live mapping view is modelled as a snapshot of `Items()`. The registry is not changed during the loop, so the two agree.
- `Session.SessionStart` requires the run's own pid to be live, because `os.getpid()` always names the running process. It also omits the plugin-manager registration of the two objects.
- `pytest_addoption` (flag declarations), plugin registration and the `stats_processes` fixture are host-framework plumbing and are not modelled. The flags enter as the `Options` value.
