/**
  What the queries of the orchestrator answer: which failover counts as active, and when the site counts
  as unhealthy.
 */
module FailoverQueries {
  import opened Common
  import opened Failover

  // ---------------------------------------------------------------- the run log

  /** Run `i` is the last successful one of its direction. */
  ghost predicate LastSuccess(runs: seq<Run>, d: Direction, i: nat) {
    && i < |runs| && runs[i].direction == d && runs[i].status == Succeeded
    && forall j | i < j < |runs| :: !(runs[j].direction == d && runs[j].status == Succeeded)
  }

  /** The query for a direction finds its last successful run. */
  lemma {:induction false} LatestExactly(runs: seq<Run>, clock: nat, d: Direction)
    requires Ordered(runs, clock)
    ensures Latest(runs, d).Some? ==> exists i: nat :: LastSuccess(runs, d, i) && Latest(runs, d).value == runs[i]
    ensures Latest(runs, d).None? ==>
              forall i | 0 <= i < |runs| :: !(runs[i].direction == d && runs[i].status == Succeeded)
  {
    if runs != [] {
      var n := |runs| - 1;
      LatestExactly(runs[..n], clock, d);
      if runs[n].direction == d && runs[n].status == Succeeded {
        assert LastSuccess(runs, d, n);
      } else if Latest(runs, d).Some? {
        var i: nat :| LastSuccess(runs[..n], d, i) && Latest(runs[..n], d).value == runs[..n][i];
        assert LastSuccess(runs, d, i);
      } else {
        forall i | 0 <= i < n ensures !(runs[i].direction == d && runs[i].status == Succeeded) {
          assert runs[..n][i] == runs[i];
        }
      }
    }
  }

  /** A failover is active exactly if one succeeded and nothing has succeeded since. */
  lemma ActiveExactly(runs: seq<Run>, clock: nat)
    requires Ordered(runs, clock)
    ensures AlreadyFailedOver(runs) <==>
            exists i :: 0 <= i < |runs| && runs[i].direction == FailoverRun && runs[i].status == Succeeded
                        && forall j | i < j < |runs| :: runs[j].status != Succeeded
  {
    LatestExactly(runs, clock, FailoverRun);
    LatestExactly(runs, clock, FailbackRun);
  }

  // ---------------------------------------------------------------- the probes

  /** The probes that failed. */
  function Failing(probes: seq<bool>): set<nat> {
    set i: nat | i < |probes| && !probes[i]
  }

  lemma {:induction false} CountIsFailing(probes: seq<bool>)
    ensures CountFailed(probes) == |Failing(probes)|
  {
    if probes != [] {
      var n := |probes| - 1;
      CountIsFailing(probes[..n]);
      assert Failing(probes) == Failing(probes[..n]) + if probes[n] then {} else {n};
    }
  }

  /** Without a quorum every probe failed, and there are any; with one, that many did. */
  predicate ProbesFail(c: Config, probes: seq<bool>) {
    if c.quorum == 0 then probes != [] && (forall i | 0 <= i < |probes| :: !probes[i])
    else |Failing(probes)| >= c.quorum
  }

  /** The site is unhealthy exactly if the probes fail in that sense. */
  lemma UnhealthyExactly(c: Config, probes: seq<bool>)
    ensures !SiteHealthy(c, probes) <==> ProbesFail(c, probes)
  {
    CountIsFailing(probes);
    AllFailing(probes);
  }

  lemma {:induction false} AllFailing(probes: seq<bool>)
    ensures CountFailed(probes) <= |probes|
    ensures CountFailed(probes) == |probes| <==> forall i | 0 <= i < |probes| :: !probes[i]
  {
    if probes != [] {
      var n := |probes| - 1;
      AllFailing(probes[..n]);
      assert forall i | 0 <= i < n :: probes[..n][i] == probes[i];
    }
  }
}
