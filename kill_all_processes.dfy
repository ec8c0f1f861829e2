/** `KillAllProcessesUseCase` (src/application/kill_all_processes.rs): resolve
    every entry to an executable name, drop the duplicates, kill each name once,
    and report the names for which something was killed. The kill is the same
    function of the name as in `KillProcess`. */
module KillAllProcesses {
  import opened Shared
  import opened Models
  import opened Process
  import opened KillProcess

  /** What each entry resolves to, in order. */
  function Resolutions(entries: seq<StartupEntry>): (rs: seq<Option<string>>)
    ensures |rs| == |entries|
    ensures forall i :: 0 <= i < |entries| ==> rs[i] == ExtractExecutableName(entries[i].command)
  {
    seq(|entries|, i requires 0 <= i < |entries| => ExtractExecutableName(entries[i].command))
  }

  /** The names present in a list of resolutions. */
  function Present(rs: seq<Option<string>>): set<string>
    decreases |rs|
  {
    if rs == [] then {}
    else Present(rs[..|rs| - 1]) + if rs[|rs| - 1].Some? then {rs[|rs| - 1].value} else {}
  }

  /** The distinct executables the entries resolve to (the `exe_names` set). */
  function Targets(entries: seq<StartupEntry>): set<string> {
    Present(Resolutions(entries))
  }

  /** A name is present exactly when some resolution is that name. */
  lemma {:induction false} PresentIff(rs: seq<Option<string>>)
    ensures forall n :: n in Present(rs) <==> exists i :: 0 <= i < |rs| && rs[i] == Some(n)
    decreases |rs|
  {
    if rs != [] {
      var init := rs[..|rs| - 1];
      PresentIff(init);
      forall n | n in Present(init)
        ensures exists i :: 0 <= i < |rs| && rs[i] == Some(n)
      {
        var i :| 0 <= i < |init| && init[i] == Some(n);
        assert rs[i] == init[i];
      }
      forall n | exists i :: 0 <= i < |rs| && rs[i] == Some(n)
        ensures n in Present(rs)
      {
        var i :| 0 <= i < |rs| && rs[i] == Some(n);
        if i < |init| {
          assert init[i] == rs[i];
        }
      }
    }
  }

  /** A name is a target exactly when some entry resolves to it. */
  lemma TargetsAreResolvedNames(entries: seq<StartupEntry>)
    ensures forall n :: n in Targets(entries)
              <==> exists i :: 0 <= i < |entries| && ExtractExecutableName(entries[i].command) == Some(n)
  {
    var rs := Resolutions(entries);
    PresentIff(rs);
    forall n ensures (exists i :: 0 <= i < |rs| && rs[i] == Some(n))
                     <==> (exists i :: 0 <= i < |entries| && ExtractExecutableName(entries[i].command) == Some(n))
    {
    }
  }

  /** One more resolution adds its name, if any. */
  lemma PresentGrows(rs: seq<Option<string>>, i: nat)
    requires i < |rs|
    ensures Present(rs[..i + 1]) == Present(rs[..i]) + if rs[i].Some? then {rs[i].value} else {}
  {
    assert rs[..i + 1][..i] == rs[..i];
  }

  /** The names the use case reports: the targets whose kill succeeded with a
      count above zero. */
  function Killed(targets: set<string>, kill: Killer): set<string> {
    set n | n in targets && kill(n).Ok? && kill(n).value > 0
  }

  /** The names a list of results reports. */
  function Names(results: seq<(string, nat)>): set<string> {
    set k | 0 <= k < |results| :: results[k].0
  }

  predicate DistinctNames(results: seq<(string, nat)>) {
    forall j, k :: 0 <= j < k < |results| ==> results[j].0 != results[k].0
  }

  /** Every reported count is the one the kill gave for that name. */
  predicate Reported(results: seq<(string, nat)>, kill: Killer) {
    forall k :: 0 <= k < |results| ==> kill(results[k].0) == Ok(results[k].1)
  }

  /** A reported name is the resolution of some entry, and its kill stopped
      something. */
  lemma ReportedNamesResolve(entries: seq<StartupEntry>, kill: Killer, n: string)
    requires n in Killed(Targets(entries), kill)
    ensures exists i :: 0 <= i < |entries| && ExtractExecutableName(entries[i].command) == Some(n)
    ensures kill(n).Ok? && kill(n).value > 0
  {
    TargetsAreResolvedNames(entries);
  }

  /** One turn of the second loop: a name not yet tried is tried, and
      reported when its kill stopped something. */
  lemma KillStep(done: set<string>, results: seq<(string, nat)>, n: string, kill: Killer)
    requires n !in done
    requires Names(results) == Killed(done, kill)
    requires DistinctNames(results)
    requires Reported(results, kill)
    ensures var next := if kill(n).Ok? && kill(n).value > 0 then results + [(n, kill(n).value)] else results;
            Names(next) == Killed(done + {n}, kill) && DistinctNames(next) && Reported(next, kill)
  {
    if kill(n).Ok? && kill(n).value > 0 {
      var next := results + [(n, kill(n).value)];
      assert next[|results|].0 == n;
      assert forall k :: 0 <= k < |results| ==> next[k] == results[k];
      assert Names(next) == Names(results) + {n};
    } else {
      assert Killed(done + {n}, kill) == Killed(done, kill);
    }
  }

  /** The first loop of `execute`: collect the distinct executable names the
      entries resolve to. */
  method CollectTargets(entries: seq<StartupEntry>) returns (exeNames: set<string>)
    ensures exeNames == Targets(entries)
  {
    ghost var rs := Resolutions(entries);
    exeNames := {};
    var i := 0;
    assert rs[..0] == [];
    while i < |entries|
      invariant i <= |entries|
      invariant exeNames == Present(rs[..i])
    {
      var resolved := ExtractExecutableName(entries[i].command);
      PresentGrows(rs, i);
      if resolved.Some? {
        exeNames := exeNames + {resolved.value};
      }
      i := i + 1;
    }
    assert rs[..i] == rs;
  }

  /** The second loop of `execute`: kill each name once, in whatever order the
      set yields them, keep the positive counts and pass over the failures.
      `attempts` lists the names passed to the kill, in the order it was
      called. */
  method KillEach(exeNames: set<string>, kill: Killer)
    returns (results: seq<(string, nat)>, attempts: seq<string>)
    ensures |attempts| == |exeNames| && forall n :: n in attempts <==> n in exeNames
    ensures DistinctNames(results)
    ensures Names(results) == Killed(exeNames, kill)
    ensures Reported(results, kill)
  {
    results := [];
    attempts := [];
    var remaining := exeNames;
    while remaining != {}
      invariant remaining <= exeNames
      invariant |attempts| + |remaining| == |exeNames|
      invariant forall n :: n in attempts <==> n in exeNames - remaining
      invariant DistinctNames(results)
      invariant Names(results) == Killed(exeNames - remaining, kill)
      invariant Reported(results, kill)
      decreases |remaining|
    {
      var exeName :| exeName in remaining;
      ghost var done := exeNames - remaining;
      KillStep(done, results, exeName, kill);
      remaining := remaining - {exeName};
      assert exeNames - remaining == done + {exeName};
      attempts := attempts + [exeName];
      match kill(exeName)
      case Ok(count) =>
        if count > 0 {
          results := results + [(exeName, count)];
        }
      case Err(_) =>
    }
    assert exeNames - remaining == exeNames;
  }

  /** `KillAllProcessesUseCase::execute`: only a failing listing is an error;
      otherwise every target is tried exactly once and the report holds each
      target whose kill stopped something, once, with the kill's own count. */
  method KillAll(listed: Result<seq<StartupEntry>>, kill: Killer)
    returns (r: Result<seq<(string, nat)>>, attempts: seq<string>)
    ensures r.Err? <==> listed.Err?
    ensures listed.Err? ==> r == Err(listed.error) && attempts == []
    ensures listed.Ok? ==>
              var targets := Targets(listed.value);
              && |attempts| == |targets|
              && (forall n :: n in attempts <==> n in targets)
              && DistinctNames(r.value)
              && Names(r.value) == Killed(targets, kill)
              && Reported(r.value, kill)
  {
    if listed.Err? {
      return Err(listed.error), [];
    }
    var exeNames := CollectTargets(listed.value);
    var results;
    results, attempts := KillEach(exeNames, kill);
    r := Ok(results);
  }
}
