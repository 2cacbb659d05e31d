/**
 * The reporter: configuration from the command-line flags, the gates that
 * decide whether anything is shown after a test, and the statistics table,
 * emitted as abstract line records.
 */
module Reporting {
  import opened Seqs
  import opened Oracle
  import opened Registry
  import opened Children

  datatype Option<T> = None | Some(value: T)

  /** The four flags: --sys-stats, --no-sys-stats, --sys-stats-no-children, --sys-stats-uss-mem. */
  datatype Options = Options(sysStats: bool, noSysStats: bool, sysStatsNoChildren: bool, sysStatsUssMem: bool)

  /** The child part of a process line: the memory sum (parent included) and the child count. */
  datatype ChildSummary = ChildSummary(memSum: nat, count: nat)

  /** One line of the statistics table. */
  datatype Line =
    | Section(title: string)
    | SystemLine(dots: string, cpu: Centi, mem: Centi, swap: Option<Centi>)
    | ProcLine(name: string, dots: string, cpu: Centi, mem: Centi, kind: MemKind, children: Option<ChildSummary>)

  const SystemLabel: string := "System"
  const SectionTitle: string := "Processes Statistics"

  /** A dot-leader of `k` dots; none when `k` is not positive. */
  function Dots(k: int): (r: string)
    ensures |r| == if k > 0 then k else 0
    ensures forall i :: 0 <= i < |r| ==> r[i] == '.'
    decreases k
  {
    if k <= 0 then "" else Dots(k - 1) + "."
  }

  /** The length of the longest of "System" and the registered names. */
  function LeftPadding(names: seq<string>): (r: nat)
    ensures |SystemLabel| <= r
    ensures forall n :: n in names ==> |n| <= r
    ensures r == |SystemLabel| || exists n :: n in names && |n| == r
    decreases |names|
  {
    if names == [] then |SystemLabel|
    else
      var prev := LeftPadding(names[..|names| - 1]);
      var last := names[|names| - 1];
      assert forall n :: n in names <==> n in names[..|names| - 1] || n == last;
      if |last| > prev then |last| else prev
  }

  /** The system line: system-wide CPU and virtual memory, and swap only when some swap is in use. */
  function SystemLineFor(os: Os, pad: nat): (r: Line)
    ensures r.SystemLine? && r.cpu == os.cpu && r.mem == os.virtualMem
    ensures |r.dots| + |SystemLabel| == if pad > |SystemLabel| then pad else |SystemLabel|
    ensures forall i :: 0 <= i < |r.dots| ==> r.dots[i] == '.'
    ensures r.swap.Some? <==> os.swap > 0
    ensures r.swap.Some? ==> r.swap.value == os.swap
  {
    SystemLine(Dots(pad - |SystemLabel|), os.cpu, os.virtualMem, if os.swap > 0 then Some(os.swap) else None)
  }

  /**
   * What reporting one registry entry yields: the process is gone (prune it, no
   * line), reading it was denied (the error escapes the report), or a line plus
   * whether the entry is to be pruned because one of its children vanished.
   */
  datatype Entry = Vanished | Denied | Emitted(line: Line, prune: bool)

  /** The entry outcome, stated in terms of the system snapshot. */
  ghost function EntryOutcome(name: string, h: Handle, os: Os, kind: MemKind, noChildren: bool, pad: nat): Entry
  {
    if h.pid !in os.procs then Vanished
    else
      var p := os.procs[h.pid];
      if !p.accessible then Denied
      else
        var mem := MemoryPercent(p, kind);
        var dots := Dots(pad - |name|);
        if noChildren then Emitted(ProcLine(name, dots, p.cpu, mem, kind, None), false)
        else Emitted(ProcLine(name, dots, p.cpu, mem, kind, ChildInfo(os, kind, h.pid, mem, p.descendants)),
                     VanishedChild(os, h.pid, p.descendants))
  }

  /** The child summary: present when some child is counted, with the parent's memory in the sum. */
  ghost function ChildInfo(os: Os, kind: MemKind, parent: Pid, mem: nat, descendants: seq<Pid>): (r: Option<ChildSummary>)
    ensures r.Some? <==> |ContributingSet(os, parent, descendants)| > 0
    ensures r.Some? ==> r.value.count == |ContributingSet(os, parent, descendants)|
    ensures r.Some? ==> r.value.memSum == mem + MemSum(os, kind, Counted(os, NewPids(parent, descendants)))
  {
    CountIsDistinctLive(os, parent, descendants);
    var counted := Counted(os, NewPids(parent, descendants));
    if |counted| > 0 then Some(ChildSummary(mem + MemSum(os, kind, counted), |counted|)) else None
  }

  /** Query one tracked process and build its line. */
  method SampleEntry(name: string, h: Handle, os: Os, kind: MemKind, noChildren: bool, pad: nat)
    returns (e: Entry)
    ensures e == EntryOutcome(name, h, os, kind, noChildren, pad)
  {
    if h.pid !in os.procs {
      e := Vanished;
    } else if !os.procs[h.pid].accessible {
      e := Denied;
    } else {
      var p := os.procs[h.pid];
      var mem := MemoryPercent(p, kind);
      var dots := Dots(pad - |name|);
      if noChildren {
        e := Emitted(ProcLine(name, dots, p.cpu, mem, kind, None), false);
      } else {
        var info, prune := SummarizeChildren(os, kind, h.pid, mem, p.descendants);
        e := Emitted(ProcLine(name, dots, p.cpu, mem, kind, info), prune);
      }
    }
  }

  /**
   * The children part of one entry: aggregate the descendants when there are
   * any, and give a summary only when some child was counted.
   */
  method SummarizeChildren(os: Os, kind: MemKind, parent: Pid, mem: nat, children: seq<Pid>)
    returns (info: Option<ChildSummary>, prune: bool)
    ensures info == ChildInfo(os, kind, parent, mem, children)
    ensures prune <==> VanishedChild(os, parent, children)
  {
    info, prune := None, false;
    if |children| > 0 {
      var sum, count, vanished := AggregateChildren(os, kind, parent, mem, children);
      prune := vanished;
      if count > 0 {
        info := Some(ChildSummary(sum, count));
      }
    } else {
      assert NewPids(parent, children) == [];
    }
  }

  /** The lines written, the names marked for pruning, and whether an error escaped. */
  datatype PassResult = PassResult(lines: seq<Line>, prune: set<string>, denied: bool)

  /** The loop over the registry entries, in order, up to an escaping error. */
  ghost function Pass(items: seq<(string, Handle)>, os: Os, kind: MemKind, noChildren: bool, pad: nat): PassResult
    decreases |items|
  {
    if items == [] then PassResult([], {}, false)
    else
      var prev := Pass(items[..|items| - 1], os, kind, noChildren, pad);
      var (name, h) := items[|items| - 1];
      if prev.denied then prev
      else
        match EntryOutcome(name, h, os, kind, noChildren, pad)
        case Denied => PassResult(prev.lines, prev.prune, true)
        case Vanished => PassResult(prev.lines, prev.prune + {name}, false)
        case Emitted(line, p) => PassResult(prev.lines + [line], if p then prev.prune + {name} else prev.prune, false)
  }

  /** The names on the process lines, in order. */
  function LineNames(lines: seq<Line>): seq<string>
    decreases |lines|
  {
    if lines == [] then []
    else
      var l := lines[|lines| - 1];
      LineNames(lines[..|lines| - 1]) + (if l.ProcLine? then [l.name] else [])
  }

  /** The names of the entries whose process still exists, in order. */
  ghost function LiveNames(items: seq<(string, Handle)>, os: Os): seq<string>
    decreases |items|
  {
    if items == [] then []
    else
      var (name, h) := items[|items| - 1];
      LiveNames(items[..|items| - 1], os) + (if h.pid in os.procs then [name] else [])
  }

  /** The entry is pruned: its process is gone, or (children enabled) one of its children is. */
  ghost predicate Pruned(os: Os, noChildren: bool, h: Handle)
  {
    h.pid !in os.procs || (!noChildren && VanishedChild(os, h.pid, os.procs[h.pid].descendants))
  }

  /** The entry's process exists but cannot be read. */
  ghost predicate Unreadable(os: Os, h: Handle)
  {
    h.pid in os.procs && !os.procs[h.pid].accessible
  }

  /** Once an error has escaped, later entries are never looked at. */
  lemma {:induction false} PassStopsAtDenial(items: seq<(string, Handle)>, k: nat, os: Os, kind: MemKind, noChildren: bool, pad: nat)
    requires k <= |items|
    requires Pass(items[..k], os, kind, noChildren, pad).denied
    ensures Pass(items, os, kind, noChildren, pad) == Pass(items[..k], os, kind, noChildren, pad)
    decreases |items| - k
  {
    if k < |items| {
      var init := items[..|items| - 1];
      assert init[..k] == items[..k];
      PassStopsAtDenial(init, k, os, kind, noChildren, pad);
    } else {
      assert items[..k] == items;
    }
  }

  /** Every process line has a dot-leader of `pad - |name|` dots, given `pad` bounds every name. */
  lemma {:induction false} PassAligned(items: seq<(string, Handle)>, os: Os, kind: MemKind, noChildren: bool, pad: nat)
    requires forall i :: 0 <= i < |items| ==> |items[i].0| <= pad
    ensures forall l :: l in Pass(items, os, kind, noChildren, pad).lines ==>
      l.ProcLine? && |l.dots| + |l.name| == pad && forall j :: 0 <= j < |l.dots| ==> l.dots[j] == '.'
    decreases |items|
  {
    if items != [] {
      PassAligned(items[..|items| - 1], os, kind, noChildren, pad);
    }
  }

  /** With children disabled, no line carries a child summary. */
  lemma {:induction false} PassWithoutChildren(items: seq<(string, Handle)>, os: Os, kind: MemKind, pad: nat)
    ensures forall l :: l in Pass(items, os, kind, true, pad).lines ==> l.ProcLine? && l.children.None?
    decreases |items|
  {
    if items != [] {
      PassWithoutChildren(items[..|items| - 1], os, kind, pad);
    }
  }

  /**
   * A report without an escaping error writes one line per entry whose process
   * still exists, in registry order — also for an entry pruned for a vanished child.
   */
  lemma {:induction false} PassLineNames(items: seq<(string, Handle)>, os: Os, kind: MemKind, noChildren: bool, pad: nat)
    ensures !Pass(items, os, kind, noChildren, pad).denied ==>
      LineNames(Pass(items, os, kind, noChildren, pad).lines) == LiveNames(items, os)
    decreases |items|
  {
    if items != [] {
      var init := items[..|items| - 1];
      var prev := Pass(init, os, kind, noChildren, pad);
      PassLineNames(init, os, kind, noChildren, pad);
      var (name, h) := items[|items| - 1];
      if !prev.denied {
        match EntryOutcome(name, h, os, kind, noChildren, pad)
        case Denied =>
        case Vanished =>
        case Emitted(line, p) =>
          assert (prev.lines + [line])[..|prev.lines|] == prev.lines;
      }
    }
  }

  /**
   * A report without an escaping error marks for pruning exactly the entries
   * whose process is gone or, with children enabled, has a vanished child.
   */
  lemma {:induction false} PassPrune(items: seq<(string, Handle)>, os: Os, kind: MemKind, noChildren: bool, pad: nat)
    ensures !Pass(items, os, kind, noChildren, pad).denied ==>
      forall n :: n in Pass(items, os, kind, noChildren, pad).prune <==>
        exists i :: 0 <= i < |items| && items[i].0 == n && Pruned(os, noChildren, items[i].1)
    decreases |items|
  {
    if items != [] {
      var init := items[..|items| - 1];
      var prev := Pass(init, os, kind, noChildren, pad);
      PassPrune(init, os, kind, noChildren, pad);
      var last := |items| - 1;
      if !Pass(items, os, kind, noChildren, pad).denied {
        assert !prev.denied;
        forall n
          ensures n in Pass(items, os, kind, noChildren, pad).prune <==>
            exists i :: 0 <= i < |items| && items[i].0 == n && Pruned(os, noChildren, items[i].1)
        {
          if exists i :: 0 <= i < |init| && init[i].0 == n && Pruned(os, noChildren, init[i].1) {
            var i :| 0 <= i < |init| && init[i].0 == n && Pruned(os, noChildren, init[i].1);
            assert items[i] == init[i];
          }
          if exists i :: 0 <= i < |items| && items[i].0 == n && Pruned(os, noChildren, items[i].1) {
            var i :| 0 <= i < |items| && items[i].0 == n && Pruned(os, noChildren, items[i].1);
            if i < last {
              assert init[i] == items[i];
            }
          }
        }
      }
    }
  }

  /** An error escapes exactly when some entry's process exists but cannot be read. */
  lemma {:induction false} PassDenied(items: seq<(string, Handle)>, os: Os, kind: MemKind, noChildren: bool, pad: nat)
    ensures Pass(items, os, kind, noChildren, pad).denied <==>
      exists i :: 0 <= i < |items| && Unreadable(os, items[i].1)
    decreases |items|
  {
    if items != [] {
      var init := items[..|items| - 1];
      PassDenied(init, os, kind, noChildren, pad);
      if exists i :: 0 <= i < |init| && Unreadable(os, init[i].1) {
        var i :| 0 <= i < |init| && Unreadable(os, init[i].1);
        assert items[i] == init[i];
      }
      if exists i :: 0 <= i < |items| && Unreadable(os, items[i].1) {
        var i :| 0 <= i < |items| && Unreadable(os, items[i].1);
        if i < |init| {
          assert init[i] == items[i];
        }
      }
    }
  }

  /**
   * The child summary of an emitted line: present exactly when children are
   * enabled and some distinct readable live descendant other than the parent
   * exists; its count is the number of those, its sum the parent's memory
   * plus theirs; the entry is pruned exactly when a descendant vanished.
   */
  lemma EntryChildSummary(name: string, h: Handle, os: Os, kind: MemKind, noChildren: bool, pad: nat)
    requires h.pid in os.procs && os.procs[h.pid].accessible
    ensures
      var p := os.procs[h.pid];
      var e := EntryOutcome(name, h, os, kind, noChildren, pad);
      var counted := Counted(os, NewPids(h.pid, p.descendants));
      && e.Emitted? && e.line.ProcLine? && e.line.name == name
      && e.line.cpu == p.cpu && e.line.mem == MemoryPercent(p, kind) && e.line.kind == kind
      && (e.line.children.Some? <==> !noChildren && |ContributingSet(os, h.pid, p.descendants)| > 0)
      && (e.line.children.Some? ==>
            && e.line.children.value.count == |ContributingSet(os, h.pid, p.descendants)|
            && e.line.children.value.memSum == MemoryPercent(p, kind) + MemSum(os, kind, counted))
      && (e.prune <==> !noChildren && VanishedChild(os, h.pid, p.descendants))
  {
    CountIsDistinctLive(os, h.pid, os.procs[h.pid].descendants);
  }

  /**
   * The loop over the registry entries: write each emitted line, collect the
   * names to prune, and stop when an error escapes.
   */
  method ReportEntries(items: seq<(string, Handle)>, os: Os, kind: MemKind, noChildren: bool, pad: nat)
    returns (lines: seq<Line>, removeFromStats: set<string>, raised: bool)
    ensures Pass(items, os, kind, noChildren, pad) == PassResult(lines, removeFromStats, raised)
  {
    lines, removeFromStats, raised := [], {}, false;
    for i := 0 to |items|
      invariant Pass(items[..i], os, kind, noChildren, pad) == PassResult(lines, removeFromStats, false)
    {
      var (name, handle) := items[i];
      assert items[..i + 1][..i] == items[..i];
      var e := SampleEntry(name, handle, os, kind, noChildren, pad);
      match e
      case Denied =>
        PassStopsAtDenial(items, i + 1, os, kind, noChildren, pad);
        raised := true;
        return;
      case Vanished =>
        removeFromStats := removeFromStats + {name};
      case Emitted(line, prune) =>
        lines := lines + [line];
        if prune {
          removeFromStats := removeFromStats + {name};
        }
    }
    assert items[..|items|] == items;
  }

  class SystemStatsReporter {
    var stats: StatsProcesses?
    var showSysStats: bool
    var sysStatsNoChildren: bool
    var sysStatsMemType: MemKind

    /** Reporting enabled implies a registry, and the registry is well formed. */
    ghost predicate Valid()
      reads this, stats
    {
      && (showSysStats ==> stats != null)
      && (stats != null ==> stats.Valid())
    }

    /** Fix the configuration from the flags and the platform. */
    constructor (options: Options, onFreeBSD: bool, stats: StatsProcesses?)
      requires options.sysStats && !options.noSysStats ==> stats != null
      requires stats != null ==> stats.Valid()
      ensures Valid()
      ensures this.stats == stats
      ensures showSysStats <==> options.sysStats && !options.noSysStats
      ensures sysStatsNoChildren == options.sysStatsNoChildren
      ensures sysStatsMemType == USS <==> options.sysStatsUssMem && !onFreeBSD
    {
      this.stats := stats;
      showSysStats := options.sysStats && !options.noSysStats;
      sysStatsNoChildren := options.sysStatsNoChildren;
      if options.sysStatsUssMem {
        sysStatsMemType := USS;
        if onFreeBSD {
          sysStatsMemType := RSS;
        }
      } else {
        sysStatsMemType := RSS;
      }
    }

    /** The gates: verbose enough, the call phase, and reporting enabled. */
    ghost predicate Shows(verbosity: int, when: string): (r: bool)
      reads this
      ensures r <==> verbosity > 1 && when == "call" && showSysStats
    {
      verbosity > 0 && when == "call" && showSysStats && verbosity > 1
    }

    /**
     * The hook run after each test phase: unless a gate fails, write the
     * section header, the system line and one line per live entry, then
     * prune the names marked during the loop.
     */
    method LogReport(verbosity: int, when: string, os: Os) returns (lines: seq<Line>, raised: bool)
      requires Valid()
      modifies stats
      ensures Valid()
      ensures !Shows(verbosity, when) ==>
        && lines == [] && !raised
        && (stats != null ==> stats.names == old(stats.names) && stats.handles == old(stats.handles))
      ensures Shows(verbosity, when) ==>
        var pad := LeftPadding(old(stats.names));
        var pass := Pass(old(stats.Items()), os, sysStatsMemType, sysStatsNoChildren, pad);
        && lines == [Section(SectionTitle), SystemLineFor(os, pad)] + pass.lines
        && raised == pass.denied
        && stats.names == (if pass.denied then old(stats.names) else RemoveKeys(old(stats.names), pass.prune))
        && stats.handles == (if pass.denied then old(stats.handles) else old(stats.handles) - pass.prune)
      ensures Shows(verbosity, when) ==>
        var pad := LeftPadding(old(stats.names));
        && |lines[1].dots| + |SystemLabel| == pad
        && (lines[1].swap.Some? <==> os.swap > 0)
        && forall l :: l in lines[2..] ==> l.ProcLine? && |l.dots| + |l.name| == pad
      ensures Shows(verbosity, when) && sysStatsNoChildren ==>
        forall l :: l in lines[2..] ==> l.ProcLine? && l.children.None?
    {
      lines, raised := [], false;
      if verbosity <= 0 {
        return;
      }
      if when != "call" {
        return;
      }
      if !showSysStats {
        return;
      }
      if verbosity > 1 {
        var removeFromStats: set<string> := {};
        var pad := LeftPadding(stats.Keys());
        var systemLine := SystemLineFor(os, pad);
        ghost var header := [Section(SectionTitle), systemLine];
        lines := [Section(SectionTitle)];
        lines := lines + [systemLine];
        assert lines == header;
        var items := stats.Items();
        assert items == old(stats.Items()) && pad == LeftPadding(old(stats.names));
        PassAligned(items, os, sysStatsMemType, sysStatsNoChildren, pad);
        if sysStatsNoChildren {
          PassWithoutChildren(items, os, sysStatsMemType, pad);
        }
        var entryLines;
        entryLines, removeFromStats, raised := ReportEntries(items, os, sysStatsMemType, sysStatsNoChildren, pad);
        lines := lines + entryLines;
        assert lines == header + entryLines;
        if raised {
          return;
        }
        PruneStats(removeFromStats);
      }
    }
    /** Remove every marked name from the registry, after the loop over it. */
    method PruneStats(removeFromStats: set<string>)
      requires Valid() && stats != null
      modifies stats
      ensures Valid()
      ensures stats.names == RemoveKeys(old(stats.names), removeFromStats)
      ensures stats.handles == old(stats.handles) - removeFromStats
    {
      ghost var names0 := stats.names;
      RemoveKeysNone(names0);
      var pending := removeFromStats;
      assert removeFromStats - pending == {};
      while pending != {}
        invariant stats.Valid()
        invariant pending <= removeFromStats
        invariant stats.names == RemoveKeys(names0, removeFromStats - pending)
        invariant stats.handles == old(stats.handles) - (removeFromStats - pending)
        decreases pending
      {
        var name :| name in pending;
        RemoveOneMore(names0, removeFromStats - pending, name);
        stats.Remove(name);
        assert removeFromStats - pending + {name} == removeFromStats - (pending - {name});
        pending := pending - {name};
      }
      assert removeFromStats - pending == removeFromStats;
    }
  }
}
