/**
 * The operating system as the reporter sees it during one report pass: a
 * snapshot that answers every query the plugin makes of the process-inspection
 * library. Percentages are whole numbers of hundredths of a percent.
 */
module Oracle {

  /** An operating-system process id. */
  type Pid = nat

  /** A percentage, in hundredths of a percent (1234 stands for 12.34 %). */
  type Centi = nat

  /** The per-process memory metric: resident set size or unique set size. */
  datatype MemKind = RSS | USS

  /** A handle on a process, as built from a pid. */
  datatype Handle = Handle(pid: Pid)

  /**
   * What the system answers about one live process. `accessible` is false when
   * querying its memory raises an access-denied error; `descendants` is the
   * recursive list of child processes, in the order the system lists them.
   */
  datatype Proc = Proc(cpu: Centi, rss: Centi, uss: Centi, accessible: bool, descendants: seq<Pid>)

  /**
   * System-wide CPU, virtual-memory and swap percentages, and the live
   * processes: a pid exists exactly when it is a key of `procs`.
   */
  datatype Os = Os(cpu: Centi, virtualMem: Centi, swap: Centi, procs: map<Pid, Proc>)

  /** The memory percentage of a process under the given metric. */
  function MemoryPercent(p: Proc, kind: MemKind): Centi
  {
    match kind
    case RSS => p.rss
    case USS => p.uss
  }
}
