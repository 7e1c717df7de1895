/**
  From the log of calls to the traffic: what the gateways advertise while the failover protocol runs.
 */
module TrafficSafety {
  import opened Common
  import opened Failover
  import opened FailoverSafety
  import opened Gateway
  import Calls
  import OverlapSafety

  /** What one logged call does to a site's gateway, with the replies its script got. */
  ghost predicate Moves(site: Site, e: Event, s: seq<Link>, s': seq<Link>, replies: seq<Replies>) {
    match e.step
    case Activate(at) =>
      if at == site then AnnounceEffect(s, s', if e.outcome == Done then Active else Raising, replies) else s' == s
    case Deactivate(at, tolerant) =>
      if at != site then s' == s
      else if e.outcome == Done then WithdrawEffect(s, s', tolerant, Inactive, replies, true)
      else WithdrawEffect(s, s', tolerant, if e.outcome == Tolerated then Unreachable else Raising, replies, false)
    case _ => s' == s
  }

  /** The gateway states of a site along a log; at first only the primary may advertise. */
  ghost predicate Along(site: Site, log: Log, links: seq<seq<Link>>, replies: seq<seq<Replies>>) {
    && |links| == |log| + 1 && |replies| == |log|
    && (site == Dr ==> !Routed(links[0]))
    && forall i | 0 <= i < |log| :: Moves(site, log[i], links[i], links[i + 1], replies[i])
  }

  /** Each withdrawal that reported success dropped every advertised route. */
  ghost predicate WithdrawalsWork(site: Site, log: Log, links: seq<seq<Link>>, replies: seq<seq<Replies>>, k: nat)
    requires k <= |log| && |links| == |log| + 1 && |replies| == |log|
  {
    forall i | 0 <= i < k && log[i].step.Deactivate? && log[i].step.site == site && log[i].outcome == Done ::
      RoutesDropped(links[i], replies[i])
  }

  /** Only an activation can make a gateway advertise. */
  lemma OnlyActivationAdvertises(site: Site, e: Event, s: seq<Link>, s': seq<Link>, replies: seq<Replies>)
    requires Moves(site, e, s, s', replies) && e.step != Activate(site) && Routed(s')
    ensures Routed(s)
  {
  }

  /** A site advertises only while the log counts its route as up. */
  lemma {:induction false} TrafficFollowsLog(
    site: Site, log: Log, links: seq<seq<Link>>, replies: seq<seq<Replies>>, k: nat)
    requires Along(site, log, links, replies) && k <= |log|
    requires WithdrawalsWork(site, log, links, replies, k)
    requires Routed(links[k])
    ensures Up(log, k, site)
  {
    if k > 0 {
      var e := log[k - 1];
      assert Moves(site, e, links[k - 1], links[k], replies[k - 1]);
      if e.step != Activate(site) {
        OnlyActivationAdvertises(site, e, links[k - 1], links[k], replies[k - 1]);
        TrafficFollowsLog(site, log, links, replies, k - 1);
        if e.step.Deactivate? && e.step.site == site && e.outcome == Done {
          InactiveMeansDownExactly(links[k - 1], links[k], e.step.tolerant, replies[k - 1], true);
          assert false;
        }
      }
    }
  }

  /** The gateways of both sites along a log, every withdrawal up to entry `k` that reported success working. */
  datatype Gateways = Gateways(
    primary: seq<seq<Link>>, dr: seq<seq<Link>>, atPrimary: seq<seq<Replies>>, atDr: seq<seq<Replies>>)

  ghost predicate Follow(log: Log, k: nat, g: Gateways) {
    && k <= |log|
    && Along(Primary, log, g.primary, g.atPrimary) && Along(Dr, log, g.dr, g.atDr)
    && WithdrawalsWork(Primary, log, g.primary, g.atPrimary, k) && WithdrawalsWork(Dr, log, g.dr, g.atDr, k)
  }

  /** Where the log shows no split brain, both sites advertise only while the primary is fenced. */
  lemma BothAdvertiseOnlyWhileFenced(log: Log, k: nat, g: Gateways)
    requires Follow(log, k, g) && !SplitBrain(log, k)
    requires Routed(g.primary[k]) && Routed(g.dr[k])
    ensures Fenced(log, k)
  {
    TrafficFollowsLog(Primary, log, g.primary, g.atPrimary, k);
    TrafficFollowsLog(Dr, log, g.dr, g.atDr, k);
  }

  /**
    Over every run of calls, one at a time, and at every moment within them: if every withdrawal that
    reported success really dropped its routes, both sites advertise only while the primary is fenced.
   */
  lemma CallsInTurnKeepTrafficFenced(
    c: Config, states: seq<DrState>, actions: seq<Action>, i: nat, k: nat, g: Gateways)
    requires IsRun(c, states, actions) && i < |states| && Follow(states[i].log, k, g)
    requires Routed(g.primary[k]) && Routed(g.dr[k])
    ensures Fenced(states[i].log, k)
  {
    NoSplitBrainEver(c, states, actions, i, k);
    BothAdvertiseOnlyWhileFenced(states[i].log, k, g);
  }

  /** The same however calls overlap and wherever they stop, while the windows of promotions and failbacks are quiet. */
  lemma OverlappingCallsKeepTrafficFenced(
    c: Config, states: seq<Calls.World>, actions: seq<Calls.Action>, i: nat, k: nat, g: Gateways)
    requires Calls.IsRun(c, states, actions) && i < |states| && Follow(states[i].log, k, g)
    requires forall m | 0 <= m < i :: OverlapSafety.QuietAt(c, states[m], actions[m])
    requires Routed(g.primary[k]) && Routed(g.dr[k])
    ensures Fenced(states[i].log, k)
  {
    OverlapSafety.NoSplitBrainWhileQuiet(c, states, actions, i, k);
    BothAdvertiseOnlyWhileFenced(states[i].log, k, g);
  }

  // ---------------------------------------------------------------- why withdrawals must work

  /** Every step of the script returned. */
  function Happy(script: seq<Step>): Log {
    seq(|script|, i requires 0 <= i < |script| => Event(script[i], Done))
  }

  /** A promotion, its failback, and the fence lifted. */
  function FailedBack(c: Config): Log {
    Happy(PromoteScript(c)) + Happy(FailbackScript(c, c.workloads)) + [Event(LiftFence, Done)]
  }

  function Promoted(c: Config): DrState {
    DrState(2, [Run(0, FailoverRun, Succeeded, c.workloads)], None, Happy(PromoteScript(c)), [])
  }

  function TakenBack(c: Config): DrState {
    DrState(
      4, [Run(0, FailoverRun, Succeeded, c.workloads), Run(2, FailbackRun, Succeeded, c.workloads)], None,
      Happy(PromoteScript(c)) + Happy(FailbackScript(c, c.workloads)), [])
  }

  // Positions in that log of the steps that touch a route.

  function DownAt(c: Config): nat {
    |Gate(c)| + 2
  }

  function UpAt(c: Config): nat {
    |Gate(c)| + 3 + |c.workloads|
  }

  function AgainDownAt(c: Config): nat {
    |PromoteScript(c)| + 2
  }

  function WithdrawnAt(c: Config): nat {
    |PromoteScript(c)| + 3 + 2 * |c.workloads|
  }

  function BackAt(c: Config): nat {
    |PromoteScript(c)| + 4 + 3 * |c.workloads|
  }

  lemma PromotionReturns(c: Config)
    ensures PromoteEffect(c, true, true, false, DrState(0, [], None, [], []), Promoted(c), Returned)
  {
  }

  lemma FailbackReturns(c: Config)
    ensures FailbackEffect(c, true, true, Promoted(c), TakenBack(c), Returned)
  {
    var s := Promoted(c);
    assert s.runs[..0] == [];
    assert Latest(s.runs, FailoverRun) == Some(s.runs[0]) && Latest(s.runs, FailbackRun) == None;
    FailbackRuns(c);
  }

  lemma FailbackRuns(c: Config)
    ensures FailbackRan(c, c.workloads, Promoted(c), TakenBack(c), true)
  {
    var s, s' := Promoted(c), TakenBack(c);
    assert RanAll(FailbackScript(c, c.workloads), s'.log, |s.log|, |s'.log|);
    HappyRestores(c);
  }

  lemma HappyRestores(c: Config)
    ensures forall e | e in Happy(FailbackScript(c, c.workloads)) :: SavedFirst(c.workloads, e)
  {
    forall k | 0 <= k < |FailbackScript(c, c.workloads)|
      ensures SavedFirst(c.workloads, Happy(FailbackScript(c, c.workloads))[k])
    {
      assert FailbackScript(c, c.workloads)[k] == FailbackStep(c, c.workloads, k);
    }
  }

  lemma StepsAlong(c: Config, i: nat)
    requires i < |FailedBack(c)|
    ensures var e := FailedBack(c)[i];
            && e.outcome == Done
            && (e.step == Activate(Dr) <==> i == UpAt(c))
            && (e.step == Activate(Primary) <==> i == BackAt(c))
            && (e.step.Deactivate? && e.step.site == Dr <==> i == WithdrawnAt(c))
            && (e.step.Deactivate? && e.step.site == Primary <==> i == DownAt(c) || i == AgainDownAt(c))
            && (e.step == Deactivate(Dr, false) <==> i == WithdrawnAt(c))
            && (e.step == LiftFence <==> i == |FailedBack(c)| - 1)
  {
    var n := |PromoteScript(c)|;
    if i < n {
      assert FailedBack(c)[i].step == PromoteStep(c, i);
    } else if i < |FailedBack(c)| - 1 {
      assert FailedBack(c)[i].step == FailbackStep(c, c.workloads, i - n);
    }
  }

  lemma FenceMayBeLifted(c: Config)
    ensures LiftEffect(TakenBack(c), TakenBack(c).(log := FailedBack(c)))
    ensures !Fenced(FailedBack(c), |FailedBack(c)|)
  {
    var log, j := TakenBack(c).log, WithdrawnAt(c);
    forall m | 0 <= m < |log| ensures log[m] == FailedBack(c)[m] {
    }
    StepsAlong(c, j);
    forall m | j < m < |log| ensures log[m].step != Activate(Dr) {
      StepsAlong(c, m);
    }
    assert DrDownSince(log, j, |log|);
    WithdrawnDrIsDown(log, j, |log|);
  }

  // One network per site. The primary's withdrawals work; the one at the DR site has no effect.

  const UP: seq<Link> := [Link(true, true)]
  const DOWN: seq<Link> := [Link(false, false)]
  const GOOD: seq<Replies> := [Replies(Reply(true, true), Reply(true, true))]
  const LOST: seq<Replies> := [Replies(SILENT, SILENT)]

  function PrimaryLinks(c: Config): seq<seq<Link>> {
    seq(|FailedBack(c)| + 1, k => if DownAt(c) < k <= BackAt(c) then DOWN else UP)
  }

  function DrLinks(c: Config): seq<seq<Link>> {
    seq(|FailedBack(c)| + 1, k => if k <= UpAt(c) then DOWN else UP)
  }

  function PrimaryReplies(c: Config): seq<seq<Replies>> {
    seq(|FailedBack(c)|, k => if k in {DownAt(c), AgainDownAt(c), BackAt(c)} then GOOD else [])
  }

  function DrReplies(c: Config): seq<seq<Replies>> {
    seq(|FailedBack(c)|, k => if k == UpAt(c) then GOOD else if k == WithdrawnAt(c) then LOST else [])
  }

  lemma Scripts()
    ensures WithdrawEffect(UP, DOWN, true, Inactive, GOOD, true)
            && WithdrawEffect(DOWN, DOWN, false, Inactive, GOOD, true)
    ensures WithdrawEffect(UP, UP, false, Inactive, LOST, true)
    ensures AnnounceEffect(DOWN, UP, Active, GOOD)
    ensures RoutesDropped(UP, GOOD) && RoutesDropped(DOWN, GOOD)
    ensures Routed(UP) && !Routed(DOWN)
  {
    assert UP[0].routed;
  }

  lemma PrimaryAlong(c: Config, i: nat)
    requires i < |FailedBack(c)|
    ensures Moves(Primary, FailedBack(c)[i], PrimaryLinks(c)[i], PrimaryLinks(c)[i + 1], PrimaryReplies(c)[i])
    ensures FailedBack(c)[i].step.Deactivate? && FailedBack(c)[i].step.site == Primary ==>
              RoutesDropped(PrimaryLinks(c)[i], PrimaryReplies(c)[i])
  {
    StepsAlong(c, i);
    Scripts();
    if i == DownAt(c) {
      assert FailedBack(c)[i].step == PromoteStep(c, i);
    } else if i == AgainDownAt(c) {
      assert FailedBack(c)[i].step == FailbackStep(c, c.workloads, 2);
    }
  }

  lemma DrAlong(c: Config, i: nat)
    requires i < |FailedBack(c)|
    ensures Moves(Dr, FailedBack(c)[i], DrLinks(c)[i], DrLinks(c)[i + 1], DrReplies(c)[i])
  {
    StepsAlong(c, i);
    Scripts();
  }

  lemma TrafficOfFailback(c: Config)
    ensures Along(Primary, FailedBack(c), PrimaryLinks(c), PrimaryReplies(c))
    ensures Along(Dr, FailedBack(c), DrLinks(c), DrReplies(c))
    ensures WithdrawalsWork(Primary, FailedBack(c), PrimaryLinks(c), PrimaryReplies(c), |FailedBack(c)|)
  {
    var log := FailedBack(c);
    Scripts();
    forall i | 0 <= i < |log|
      ensures Moves(Primary, log[i], PrimaryLinks(c)[i], PrimaryLinks(c)[i + 1], PrimaryReplies(c)[i])
      ensures log[i].step.Deactivate? && log[i].step.site == Primary ==>
                RoutesDropped(PrimaryLinks(c)[i], PrimaryReplies(c)[i])
    {
      PrimaryAlong(c, i);
    }
    forall i | 0 <= i < |log| ensures Moves(Dr, log[i], DrLinks(c)[i], DrLinks(c)[i + 1], DrReplies(c)[i]) {
      DrAlong(c, i);
    }
  }

  /** Along the log the primary's withdrawals work, and at its end both sites advertise, unfenced. */
  ghost predicate EndsSplit(
    log: Log, primary: seq<seq<Link>>, dr: seq<seq<Link>>, atPrimary: seq<seq<Replies>>, atDr: seq<seq<Replies>>)
  {
    && Along(Primary, log, primary, atPrimary) && Along(Dr, log, dr, atDr)
    && WithdrawalsWork(Primary, log, primary, atPrimary, |log|)
    && Routed(primary[|log|]) && Routed(dr[|log|]) && !Fenced(log, |log|)
  }

  /**
    In every configuration there is such a run: a promotion and a failback that both return, the DR
    withdrawal of the failback reporting success without effect, and the fence lifted after it. Every
    other withdrawal works, and still both sites end up advertising, unfenced.
   */
  lemma LostWithdrawalSplitsTraffic(c: Config)
    ensures exists s1, s2, s3, primary, dr, atPrimary, atDr ::
              && IsRun(c, [DrState(0, [], None, [], []), s1, s2, s3],
                       [DoPromote(true, true, Returned), DoFailback(true, true, Returned), DoLift])
              && EndsSplit(s3.log, primary, dr, atPrimary, atDr)
  {
    var log, s3 := FailedBack(c), TakenBack(c).(log := FailedBack(c));
    PromotionReturns(c);
    FailbackReturns(c);
    FenceMayBeLifted(c);
    RunOfThree(c, Promoted(c), TakenBack(c), s3);
    Scripts();
    TrafficOfFailback(c);
    assert EndsSplit(s3.log, PrimaryLinks(c), DrLinks(c), PrimaryReplies(c), DrReplies(c));
  }

  lemma RunOfThree(c: Config, s1: DrState, s2: DrState, s3: DrState)
    requires PromoteEffect(c, true, true, false, DrState(0, [], None, [], []), s1, Returned)
    requires FailbackEffect(c, true, true, s1, s2, Returned)
    requires LiftEffect(s2, s3)
    ensures IsRun(c, [DrState(0, [], None, [], []), s1, s2, s3],
                  [DoPromote(true, true, Returned), DoFailback(true, true, Returned), DoLift])
  {
  }
}
