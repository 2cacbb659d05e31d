/**
 * The registry of tracked processes: an insertion-ordered mapping from a
 * display name to a process handle (an ordered dictionary in the plugin).
 */
module Registry {
  import opened Seqs
  import opened Oracle

  /** The error `add` propagates when a raw pid names no live process. */
  datatype Error = NoSuchProcess(pid: Pid)

  datatype Outcome = Added | Failed(error: Error)

  /** What `add` may be given: a raw pid to resolve, or an existing handle. */
  datatype ProcessRef = ByPid(pid: Pid) | ByHandle(handle: Handle)

  /** The key order after storing under `n`: a new key goes last, an existing one keeps its place. */
  function InsertKey(ks: seq<string>, n: string): (r: seq<string>)
    ensures forall k :: k in r <==> k in ks || k == n
    ensures Distinct(ks) ==> Distinct(r)
  {
    if n in ks then ks else ks + [n]
  }

  /** The key order after deleting `n`: every other key, in its old order. */
  function RemoveKey(ks: seq<string>, n: string): (r: seq<string>)
    ensures forall k :: k in r <==> k in ks && k != n
    ensures Distinct(ks) ==> Distinct(r)
    ensures |r| <= |ks|
  {
    if ks == [] then []
    else if ks[0] == n then RemoveKey(ks[1..], n)
    else
      var rest := RemoveKey(ks[1..], n);
      assert Distinct(ks) ==> ks[0] !in ks[1..];
      [ks[0]] + rest
  }

  /** The key order after deleting every key in `gone`. */
  function RemoveKeys(ks: seq<string>, gone: set<string>): (r: seq<string>)
    ensures forall k :: k in r <==> k in ks && k !in gone
    ensures Distinct(ks) ==> Distinct(r)
  {
    if ks == [] then []
    else if ks[0] in gone then RemoveKeys(ks[1..], gone)
    else
      var rest := RemoveKeys(ks[1..], gone);
      assert Distinct(ks) ==> ks[0] !in ks[1..];
      [ks[0]] + rest
  }

  /** The key order after storing each name of `ns` in turn. */
  function InsertKeys(ks: seq<string>, ns: seq<string>): seq<string>
    decreases |ns|
  {
    if ns == [] then ks else InsertKeys(InsertKey(ks, ns[0]), ns[1..])
  }

  /** The (name, handle) pairs of `m`, in the order of `ks`. */
  function Pairs(ks: seq<string>, m: map<string, Handle>): (r: seq<(string, Handle)>)
    requires forall k :: k in ks ==> k in m
    ensures |r| == |ks|
    ensures forall i :: 0 <= i < |r| ==> r[i] == (ks[i], m[ks[i]])
  {
    if ks == [] then [] else [(ks[0], m[ks[0]])] + Pairs(ks[1..], m)
  }

  class StatsProcesses {
    /** The display names, in insertion order. */
    var names: seq<string>
    /** The handle stored under each display name. */
    var handles: map<string, Handle>

    /** Each name is stored once, and the order lists exactly the stored names. */
    ghost predicate Valid()
      reads this
    {
      && Distinct(names)
      && (forall n :: n in names <==> n in handles)
    }

    constructor ()
      ensures Valid()
      ensures names == [] && handles == map[]
    {
      names := [];
      handles := map[];
    }

    /**
     * Track `process` under `name`. A raw pid is resolved first; when it names
     * no live process the error propagates and nothing is stored.
     */
    method Add(name: string, process: ProcessRef, os: Os) returns (res: Outcome)
      requires Valid()
      modifies this
      ensures Valid()
      ensures res.Failed? <==> process.ByPid? && process.pid !in os.procs
      ensures res.Failed? ==> res.error == NoSuchProcess(process.pid)
      ensures res.Failed? ==> names == old(names) && handles == old(handles)
      ensures res.Added? ==>
        var h := if process.ByPid? then Handle(process.pid) else process.handle;
        && handles == old(handles)[name := h]
        && names == InsertKey(old(names), name)
    {
      var h: Handle;
      if process.ByPid? {
        if process.pid !in os.procs {
          return Failed(NoSuchProcess(process.pid));
        }
        h := Handle(process.pid);
      } else {
        h := process.handle;
      }
      names := InsertKey(names, name);
      handles := handles[name := h];
      res := Added;
    }

    /** Stop tracking `name`; nothing happens when it is not tracked. */
    method Remove(name: string)
      requires Valid()
      modifies this
      ensures Valid()
      ensures names == RemoveKey(old(names), name)
      ensures handles == old(handles) - {name}
    {
      names := RemoveKey(names, name);
      handles := handles - {name};
    }

    /** The tracked (name, handle) pairs, in insertion order. */
    function Items(): (r: seq<(string, Handle)>)
      reads this
      requires Valid()
      ensures |r| == |names|
      ensures forall i :: 0 <= i < |r| ==> r[i].0 == names[i] && r[i].1 == handles[names[i]]
    {
      Pairs(names, handles)
    }

    /** The tracked names, in insertion order, each exactly once. */
    function Keys(): (r: seq<string>)
      reads this
      requires Valid()
      ensures Distinct(r)
      ensures forall n :: n in r <==> n in handles
    {
      names
    }
  }

  /** Deleting a key that is not there changes nothing. */
  lemma {:induction false} RemoveAbsent(ks: seq<string>, n: string)
    requires n !in ks
    ensures RemoveKey(ks, n) == ks
  {
    if ks != [] {
      RemoveAbsent(ks[1..], n);
    }
  }

  /** Deleting the same key twice is the same as deleting it once. */
  lemma RemoveIdempotent(ks: seq<string>, n: string)
    ensures RemoveKey(RemoveKey(ks, n), n) == RemoveKey(ks, n)
  {
    RemoveAbsent(RemoveKey(ks, n), n);
  }

  /** Deleting a registered name keeps every other name, in its old order. */
  lemma {:induction false} RemoveKeepsOrder(a: seq<string>, n: string, b: seq<string>)
    requires n !in a && n !in b
    ensures RemoveKey(a + [n] + b, n) == a + b
    decreases |a|
  {
    if a == [] {
      assert (a + [n] + b)[1..] == b;
      RemoveAbsent(b, n);
    } else {
      assert (a + [n] + b)[1..] == a[1..] + [n] + b;
      RemoveKeepsOrder(a[1..], n, b);
      assert a + b == [a[0]] + (a[1..] + b);
    }
  }

  /** Storing a fresh name and then deleting it restores the old keys, order and handles. */
  lemma AddThenRemove(ks: seq<string>, m: map<string, Handle>, n: string, h: Handle)
    requires n !in ks && n !in m
    ensures RemoveKey(InsertKey(ks, n), n) == ks
    ensures m[n := h] - {n} == m
  {
    RemoveAppend(ks, n);
  }

  lemma {:induction false} RemoveAppend(ks: seq<string>, n: string)
    requires n !in ks
    ensures RemoveKey(ks + [n], n) == ks
  {
    if ks == [] {
      assert RemoveKey([n], n) == RemoveKey([], n);
    } else {
      assert (ks + [n])[1..] == ks[1..] + [n];
      RemoveAppend(ks[1..], n);
    }
  }

  /** Storing distinct new names one after another lists them after the old keys, in call order. */
  lemma {:induction false} InsertKeysInOrder(ks: seq<string>, ns: seq<string>)
    requires Distinct(ns)
    requires forall n :: n in ns ==> n !in ks
    ensures InsertKeys(ks, ns) == ks + ns
    decreases |ns|
  {
    if ns != [] {
      var x, rest := ns[0], ns[1..];
      assert ns == [x] + rest;
      assert x !in rest;
      assert InsertKey(ks, x) == ks + [x];
      assert Distinct(rest) by {
        forall i, j | 0 <= i < j < |rest| ensures rest[i] != rest[j] {
          assert rest[i] == ns[i + 1] && rest[j] == ns[j + 1];
        }
      }
      InsertKeysInOrder(ks + [x], rest);
      assert ks + [x] + rest == ks + ns;
    }
  }

  /** Deleting no keys changes nothing. */
  lemma {:induction false} RemoveKeysNone(ks: seq<string>)
    ensures RemoveKeys(ks, {}) == ks
  {
    if ks != [] {
      RemoveKeysNone(ks[1..]);
    }
  }

  /** Deleting the keys of a set one at a time, in any order, deletes them all. */
  lemma {:induction false} RemoveOneMore(ks: seq<string>, gone: set<string>, n: string)
    ensures RemoveKey(RemoveKeys(ks, gone), n) == RemoveKeys(ks, gone + {n})
  {
    if ks != [] {
      RemoveOneMore(ks[1..], gone, n);
    }
  }
}
