/**
 * Child-process aggregation for one tracked process: which descendants are
 * counted, how their memory is summed, and when a descendant has vanished.
 */
module Children {
  import opened Seqs
  import opened Oracle

  /**
   * The pids of `s` in first-occurrence order, each once, leaving out `parent`:
   * the pids that pass the "already seen" check when `parent` is seen first.
   */
  function NewPids(parent: Pid, s: seq<Pid>): seq<Pid>
    decreases |s|
  {
    if s == [] then []
    else
      var prev := NewPids(parent, s[..|s| - 1]);
      var c := s[|s| - 1];
      if c == parent || c in prev then prev else prev + [c]
  }

  lemma {:induction false} NewPidsMembers(parent: Pid, s: seq<Pid>)
    ensures forall p :: p in NewPids(parent, s) <==> p in s && p != parent
    ensures Distinct(NewPids(parent, s))
    decreases |s|
  {
    if s != [] {
      var init, c := s[..|s| - 1], s[|s| - 1];
      NewPidsMembers(parent, init);
      assert s == init + [c];
      assert forall p :: p in s <==> p in init || p == c;
    }
  }

  /** A child contributes when it exists and its memory can be read. */
  predicate Contributes(os: Os, p: Pid)
  {
    p in os.procs && os.procs[p].accessible
  }

  /** The pids of `ps` that contribute, in order. */
  function Counted(os: Os, ps: seq<Pid>): seq<Pid>
    decreases |ps|
  {
    if ps == [] then []
    else
      var prev := Counted(os, ps[..|ps| - 1]);
      var c := ps[|ps| - 1];
      if Contributes(os, c) then prev + [c] else prev
  }

  lemma {:induction false} CountedMembers(os: Os, ps: seq<Pid>)
    ensures forall p :: p in Counted(os, ps) <==> p in ps && Contributes(os, p)
    ensures Distinct(ps) ==> Distinct(Counted(os, ps))
    decreases |ps|
  {
    if ps != [] {
      var init, c := ps[..|ps| - 1], ps[|ps| - 1];
      CountedMembers(os, init);
      assert ps == init + [c];
      assert forall p :: p in ps <==> p in init || p == c;
      assert Distinct(ps) ==> Distinct(init) && c !in init;
    }
  }

  /** The summed memory percentage of the processes `ps` (counted pids always exist). */
  function MemSum(os: Os, kind: MemKind, ps: seq<Pid>): nat
    decreases |ps|
  {
    if ps == [] then 0
    else
      var c := ps[|ps| - 1];
      MemSum(os, kind, ps[..|ps| - 1]) + (if c in os.procs then MemoryPercent(os.procs[c], kind) else 0)
  }

  /** Some descendant other than the parent itself no longer exists. */
  ghost predicate VanishedChild(os: Os, parent: Pid, s: seq<Pid>)
  {
    exists c :: c in s && c != parent && c !in os.procs
  }

  /** The same condition, scanning the descendants in order as the loop does. */
  function AnyVanished(os: Os, parent: Pid, s: seq<Pid>): bool
    decreases |s|
  {
    if s == [] then false
    else
      var c := s[|s| - 1];
      AnyVanished(os, parent, s[..|s| - 1]) || (c != parent && c !in os.procs)
  }

  lemma {:induction false} AnyVanishedIff(os: Os, parent: Pid, s: seq<Pid>)
    ensures AnyVanished(os, parent, s) <==> VanishedChild(os, parent, s)
    decreases |s|
  {
    if s != [] {
      var init, c := s[..|s| - 1], s[|s| - 1];
      AnyVanishedIff(os, parent, init);
      assert s == init + [c];
      VanishedStep(os, parent, init, c);
    }
  }

  /** A vanished descendant anywhere in `s` is found by the scan. */
  lemma {:induction false} AnyVanishedHas(os: Os, parent: Pid, s: seq<Pid>, c: Pid)
    requires c in s && c != parent && c !in os.procs
    ensures AnyVanished(os, parent, s)
    decreases |s|
  {
    var init := s[..|s| - 1];
    if c != s[|s| - 1] {
      assert s == init + [s[|s| - 1]];
      AnyVanishedHas(os, parent, init, c);
    }
  }

  /** The distinct descendants, other than the parent, that exist and can be read. */
  ghost function ContributingSet(os: Os, parent: Pid, s: seq<Pid>): set<Pid>
  {
    set c | c in s && c != parent && Contributes(os, c)
  }

  /** The child count is the number of distinct readable live descendants other than the parent. */
  lemma CountIsDistinctLive(os: Os, parent: Pid, s: seq<Pid>)
    ensures |Counted(os, NewPids(parent, s))| == |ContributingSet(os, parent, s)|
  {
    var c := Counted(os, NewPids(parent, s));
    NewPidsMembers(parent, s);
    CountedMembers(os, NewPids(parent, s));
    DistinctCardinality(c);
    assert Elements(c) == ContributingSet(os, parent, s);
  }

  /**
   * The child loop for one process: it skips pids already seen (the parent
   * counts as seen), flags a seen-for-the-first-time pid that no longer exists,
   * skips it when its memory cannot be read, and otherwise adds its memory to
   * the sum, which starts from the parent's memory, and counts it.
   */
  method AggregateChildren(os: Os, kind: MemKind, parent: Pid, parentMem: nat, children: seq<Pid>)
    returns (sum: nat, count: nat, vanished: bool)
    ensures count == |Counted(os, NewPids(parent, children))|
    ensures sum == parentMem + MemSum(os, kind, Counted(os, NewPids(parent, children)))
    ensures vanished <==> VanishedChild(os, parent, children)
  {
    var pids := [parent];
    sum, count, vanished := parentMem, 0, false;
    for i := 0 to |children|
      invariant pids == [parent] + NewPids(parent, children[..i])
      invariant count == |Counted(os, NewPids(parent, children[..i]))|
      invariant sum == parentMem + MemSum(os, kind, Counted(os, NewPids(parent, children[..i])))
      invariant vanished == AnyVanished(os, parent, children[..i])
    {
      assert children[..i + 1] == children[..i] + [children[i]];
      pids, sum, count, vanished := VisitChild(os, kind, parent, parentMem, children[..i], children[i], pids, sum, count, vanished);
    }
    assert children[..|children|] == children;
    AnyVanishedIff(os, parent, children);
  }

  /** One iteration of the child loop, for the child `c` after the children `prefix`. */
  method VisitChild(os: Os, kind: MemKind, parent: Pid, parentMem: nat, ghost prefix: seq<Pid>, c: Pid,
                    pids: seq<Pid>, sum: nat, count: nat, vanished: bool)
    returns (pids': seq<Pid>, sum': nat, count': nat, vanished': bool)
    requires pids == [parent] + NewPids(parent, prefix)
    requires count == |Counted(os, NewPids(parent, prefix))|
    requires sum == parentMem + MemSum(os, kind, Counted(os, NewPids(parent, prefix)))
    requires vanished == AnyVanished(os, parent, prefix)
    ensures pids' == [parent] + NewPids(parent, prefix + [c])
    ensures count' == |Counted(os, NewPids(parent, prefix + [c]))|
    ensures sum' == parentMem + MemSum(os, kind, Counted(os, NewPids(parent, prefix + [c])))
    ensures vanished' == AnyVanished(os, parent, prefix + [c])
  {
    pids', sum', count', vanished' := pids, sum, count, vanished;
    NewPidsStep(parent, prefix, c);
    assert (prefix + [c])[..|prefix|] == prefix;
    ghost var seen := NewPids(parent, prefix);
    NewPidsMembers(parent, prefix);
    assert c in pids <==> c == parent || c in prefix;
    if c !in pids {
      CountedStep(os, kind, seen, c);
      pids' := pids + [c];
      if c !in os.procs {
        vanished' := true;
      } else if os.procs[c].accessible {
        sum' := sum + MemoryPercent(os.procs[c], kind);
        count' := count + 1;
      }
    } else if c != parent && c !in os.procs {
      AnyVanishedHas(os, parent, prefix, c);
    }
  }

  lemma NewPidsStep(parent: Pid, s: seq<Pid>, c: Pid)
    ensures NewPids(parent, s + [c]) ==
      if c == parent || c in s then NewPids(parent, s) else NewPids(parent, s) + [c]
  {
    NewPidsMembers(parent, s);
    assert (s + [c])[..|s|] == s;
  }

  lemma CountedStep(os: Os, kind: MemKind, ps: seq<Pid>, c: Pid)
    ensures Counted(os, ps + [c]) == if Contributes(os, c) then Counted(os, ps) + [c] else Counted(os, ps)
    ensures Contributes(os, c) ==>
      MemSum(os, kind, Counted(os, ps) + [c]) == MemSum(os, kind, Counted(os, ps)) + MemoryPercent(os.procs[c], kind)
  {
    assert (ps + [c])[..|ps|] == ps;
    var counted := Counted(os, ps);
    assert (counted + [c])[..|counted|] == counted;
  }

  lemma VanishedStep(os: Os, parent: Pid, s: seq<Pid>, c: Pid)
    ensures VanishedChild(os, parent, s + [c]) <==> VanishedChild(os, parent, s) || (c != parent && c !in os.procs)
  {
    if VanishedChild(os, parent, s) {
      var w :| w in s && w != parent && w !in os.procs;
      assert w in s + [c];
    }
    if c != parent && c !in os.procs {
      assert c in s + [c];
    }
  }
}
