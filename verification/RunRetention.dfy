/** Which run directories the retention sweep may prune
    (src/model_forge/application/retention.py).  Ages and windows are in microseconds. */
module RunRetention {
  import opened Wrappers

  /** A launch record and the verdict of its validation report, if it has one. */
  datatype Launch = Launch(status: string, verdict: Option<string>)

  /** Everything the sweep reads about one run directory. */
  datatype RunFacts = RunFacts(sealRecorded: bool, manifestVerifies: bool, launches: seq<Launch>,
                               promoted: bool, policy: Option<string>, age: Option<int>)

  datatype Rule = Unsealed | Tampered | NoLaunch | Running | Unresolved | YoungRun | ExpiredRun

  predicate PolicyRefuses(policy: Option<string>) {
    policy == Some("ephemeral") || policy == Some("read_only")
  }

  /** A failing validation of any launch, a recorded promotion, or a passing last launch whose
      promotion the memory policy refuses. */
  ghost predicate Resolved(f: RunFacts)
    requires f.launches != []
  {
    || (exists l :: l in f.launches && l.verdict == Some("fail"))
    || f.promoted
    || (f.launches[|f.launches| - 1] == Launch("succeeded", Some("pass")) && PolicyRefuses(f.policy))
  }

  /** `_run_resolution`. */
  method RunResolution(f: RunFacts) returns (resolved: bool)
    requires f.launches != []
    ensures resolved <==> Resolved(f)
  {
    var i := 0;
    while i < |f.launches|
      invariant 0 <= i <= |f.launches|
      invariant forall k | 0 <= k < i :: f.launches[k].verdict != Some("fail")
    {
      if f.launches[i].verdict == Some("fail") { return true; }
      i := i + 1;
    }
    if f.promoted { return true; }
    var latest := f.launches[|f.launches| - 1];
    resolved := latest.status == "succeeded" && latest.verdict == Some("pass") && PolicyRefuses(f.policy);
  }

  /** The seal verifies, there are launches, none of them runs, the outcome is resolved and the
      directory is older than the window. */
  ghost predicate Prunes(f: RunFacts, window: int) {
    AtRest(f) && Resolved(f) && f.age.Some? && f.age.value > window
  }

  /** Sealed evidence of launches that have all ended. */
  ghost predicate AtRest(f: RunFacts) {
    f.sealRecorded && f.manifestVerifies && f.launches != [] && forall l | l in f.launches :: l.status != "running"
  }

  /** `_evaluate_run_dir`, the one decision that removes a directory and the ones that keep it. */
  method EvaluateRunDir(f: RunFacts, window: int) returns (rule: Rule)
    ensures rule == ExpiredRun <==> Prunes(f, window)
    ensures rule == YoungRun <==> AtRest(f) && Resolved(f) && !Prunes(f, window)
    ensures rule == Unresolved <==> AtRest(f) && !Resolved(f)
    ensures rule == Unsealed <==> !f.sealRecorded
    ensures rule == Tampered <==> f.sealRecorded && !f.manifestVerifies
    ensures rule == Running <==> f.sealRecorded && f.manifestVerifies && exists l :: l in f.launches && l.status == "running"
  {
    if !f.sealRecorded { return Unsealed; }
    if !f.manifestVerifies { return Tampered; }
    if f.launches == [] { return NoLaunch; }
    if exists l :: l in f.launches && l.status == "running" { return Running; }
    var resolved := RunResolution(f);
    if !resolved { return Unresolved; }
    if f.age.None? || f.age.value <= window { return YoungRun; }
    rule := ExpiredRun;
  }

  /** The documentation promises that an unvalidated run is never pruned.  The code keeps a run
      whose last launch has no report exactly when it would keep it anyway, or no earlier launch
      failed validation and no promotion is recorded. */
  lemma UnvalidatedIsResolvedIff(f: RunFacts, window: int)
    requires f.launches != [] && f.launches[|f.launches| - 1].verdict.None?
    ensures Resolved(f) <==>
      f.promoted || exists i :: 0 <= i < |f.launches| - 1 && f.launches[i].verdict == Some("fail")
    ensures Prunes(f, window) <==>
      && AtRest(f) && f.age.Some? && f.age.value > window
      && (f.promoted || exists i :: 0 <= i < |f.launches| - 1 && f.launches[i].verdict == Some("fail"))
  {
  }

  /** What still waits for its promotion is kept: a run whose last launch passed and which has no
      promotion is pruned at no age, unless an earlier launch of it failed validation or its memory
      policy refuses a promotion. */
  lemma UnpromotedIsPrunedIff(f: RunFacts, window: int)
    requires f.launches != [] && f.launches[|f.launches| - 1] == Launch("succeeded", Some("pass"))
    requires !f.promoted
    ensures Prunes(f, window) <==>
      && AtRest(f) && f.age.Some? && f.age.value > window
      && (f.policy in {Some("ephemeral"), Some("read_only")}
          || exists i :: 0 <= i < |f.launches| - 1 && f.launches[i].verdict == Some("fail"))
  {
    var last := |f.launches| - 1;
    assert forall l | l in f.launches && l.verdict == Some("fail") :: exists i :: 0 <= i < last && f.launches[i] == l;
  }

  /** A failed launch followed by one nobody validated, sealed `age` ago. */
  function FailedThenUnvalidated(age: int): RunFacts {
    RunFacts(true, true, [Launch("succeeded", Some("fail")), Launch("succeeded", None)], false, None, Some(age))
  }

  /** The input that breaks the promise: its last launch has no report, and it is pruned at every
      age beyond the window. */
  method UnvalidatedRunIsPruned(age: int, window: int) returns (rule: Rule)
    ensures FailedThenUnvalidated(age).launches[1].verdict == None
    ensures rule == if age > window then ExpiredRun else YoungRun
  {
    var f := FailedThenUnvalidated(age);
    assert f.launches[0] in f.launches;
    rule := EvaluateRunDir(f, window);
  }
}
