/** Session start: create and seed the registry, then create the reporter. */
module Session {
  import opened Oracle
  import opened Registry
  import opened Reporting

  /** The name under which the test run's own process is tracked. */
  const TestSuiteRun: string := "Test Suite Run"

  /**
   * With reporting enabled, a registry tracking the run's own process
   * `ownPid` under "Test Suite Run"; otherwise no registry. The reporter is
   * bound to whichever it is.
   */
  method SessionStart(options: Options, onFreeBSD: bool, ownPid: Pid, os: Os)
    returns (stats: StatsProcesses?, reporter: SystemStatsReporter)
    requires ownPid in os.procs
    ensures (stats != null) <==> options.sysStats && !options.noSysStats
    ensures stats != null ==>
      fresh(stats) && stats.names == [TestSuiteRun] && stats.handles == map[TestSuiteRun := Handle(ownPid)]
    ensures fresh(reporter) && reporter.Valid() && reporter.stats == stats
    ensures reporter.showSysStats == (stats != null)
    ensures reporter.sysStatsNoChildren == options.sysStatsNoChildren
    ensures reporter.sysStatsMemType == USS <==> options.sysStatsUssMem && !onFreeBSD
  {
    if options.sysStats && !options.noSysStats {
      var instance := new StatsProcesses();
      var res := instance.Add(TestSuiteRun, ByPid(ownPid), os);
      stats := instance;
    } else {
      stats := null;
    }
    reporter := new SystemStatsReporter(options, onFreeBSD, stats);
  }
}
