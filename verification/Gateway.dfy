/**
  The gateway scripts behind a route activation or withdrawal. An activation stops at the first
  command that fails; a withdrawal runs on, and its exit status says nothing about its commands.
 */
module Gateway {

  /** One stretched network on a gateway: advertised into OSPF, and holding the gateway address. */
  datatype Link = Link(routed: bool, addressed: bool)

  /** How a command went: what it is for took effect, and it exited with zero, which only then it may. */
  datatype Reply = Reply(applied: bool, ok: bool)

  ghost predicate Honest(r: Reply) {
    r.ok ==> r.applied
  }

  datatype Replies = Replies(route: Reply, address: Reply)

  const SILENT := Reply(false, false)

  function Withdrawn(link: Link, r: Replies): Link {
    Link(link.routed && !r.route.applied, link.addressed && !r.address.applied)
  }

  function Announced(link: Link, r: Replies): Link {
    Link(link.routed || r.route.applied, link.addressed || r.address.applied)
  }

  /** An address already present needs no command. */
  predicate AnnouncedWell(link: Link, r: Replies) {
    (link.addressed || r.address.ok) && r.route.ok
  }

  datatype Status = Inactive | Unreachable | Active | Raising

  /** The networks named in `replies` were worked through, in order; the others were not reached. */
  ghost predicate WithdrawEffect(
    s: seq<Link>, s': seq<Link>, tolerant: bool, status: Status, replies: seq<Replies>, completed: bool)
  {
    && |s'| == |s| && |replies| <= |s|
    && (forall i | 0 <= i < |replies| :: s'[i] == Withdrawn(s[i], replies[i]))
    && (forall i | |replies| <= i < |s| :: s'[i] == s[i])
    && (completed ==> |replies| == |s|)
    && (if completed then status == Inactive else status == Raising || (tolerant && status == Unreachable))
  }

  ghost predicate AnnounceEffect(s: seq<Link>, s': seq<Link>, status: Status, replies: seq<Replies>) {
    && |s'| == |s| && |replies| <= |s|
    && (forall i | 0 <= i < |replies| ::
          s'[i] == Announced(s[i], replies[i]) && Honest(replies[i].route) && Honest(replies[i].address))
    && (forall i | |replies| <= i < |s| :: s'[i] == s[i])
    && status in {Active, Raising}
    && (status == Active ==> |replies| == |s| && forall i | 0 <= i < |s| :: AnnouncedWell(s[i], replies[i]))
    && (status == Raising && replies != [] ==> !AnnouncedWell(s[|replies| - 1], replies[|replies| - 1]))
    && forall i | 0 <= i < |replies| - 1 :: AnnouncedWell(s[i], replies[i])
  }

  class GatewayHost {
    var links: seq<Link>

    constructor (networks: nat)
      ensures links == seq(networks, i => Link(false, false))
    {
      links := seq(networks, i => Link(false, false));
    }

    /** One command of a script: its effect may be lost, and then it does not exit with zero. */
    method Command() returns (r: Reply)
      ensures Honest(r)
    {
      var applied: bool, zero: bool := *, *;
      r := Reply(applied, applied && zero);
    }

    /** Withdraws every network; the connection may be lost before any command, the call may time out. */
    method Deactivate(tolerant: bool) returns (status: Status, ghost replies: seq<Replies>, ghost completed: bool)
      modifies this
      ensures WithdrawEffect(old(links), links, tolerant, status, replies, completed)
      ensures status == Inactive <==> completed
      ensures !tolerant ==> status in {Inactive, Raising}
    {
      replies, completed := [], false;
      var i := 0;
      while i < |links|
        invariant i <= |links| == |old(links)| && |replies| == i
        invariant forall k | 0 <= k < i :: links[k] == Withdrawn(old(links)[k], replies[k])
        invariant forall k | i <= k < |links| :: links[k] == old(links)[k]
      {
        var connected: bool, answered: bool := *, *;
        if !connected {
          status := if tolerant && answered then Unreachable else Raising;
          return;
        }
        var route := Command();
        var address := Command();
        var r := Replies(route, address);
        links := links[i := Withdrawn(links[i], r)];
        replies := replies + [r];
        i := i + 1;
      }
      // Every address removal ends in `|| true`, so the last command, and the script, exits with zero.
      status, completed := Inactive, true;
    }

    /** Announces every network, stopping at the first failure. */
    method Activate() returns (status: Status, ghost replies: seq<Replies>)
      modifies this
      ensures AnnounceEffect(old(links), links, status, replies)
    {
      replies := [];
      var i, connected: bool := 0, *;
      if !connected { return Raising, replies; }
      while i < |links|
        invariant i <= |links| == |old(links)| && |replies| == i
        invariant forall k | 0 <= k < i ::
                    links[k] == Announced(old(links)[k], replies[k]) && AnnouncedWell(old(links)[k], replies[k])
        invariant forall k | 0 <= k < i :: Honest(replies[k].route) && Honest(replies[k].address)
        invariant forall k | i <= k < |links| :: links[k] == old(links)[k]
      {
        var address, route := SILENT, SILENT;
        if !links[i].addressed {
          address := Command();
        }
        if links[i].addressed || address.ok {
          route := Command();
        }
        var r := Replies(route, address);
        var well := AnnouncedWell(links[i], r);
        links := links[i := Announced(links[i], r)];
        replies := replies + [r];
        i := i + 1;
        if !well { return Raising, replies; }
      }
      status := Active;
    }
  }

  // ---------------------------------------------------------------- what a status is worth

  ghost predicate Routed(s: seq<Link>) {
    exists i :: 0 <= i < |s| && s[i].routed
  }

  /** An activation that raises has left every network ahead of the failing one up, and those after it alone. */
  lemma RaisingStopsAtFirst(s: seq<Link>, s': seq<Link>, replies: seq<Replies>, i: nat)
    requires AnnounceEffect(s, s', Raising, replies) && i < |s|
    ensures i < |replies| - 1 ==> s'[i] == Link(true, true)
    ensures i >= |replies| ==> s'[i] == s[i]
    ensures i == |replies| - 1 ==>
              !replies[i].route.ok || (!s[i].addressed && !replies[i].address.ok)
  {
  }

  /** An activation that reports success has every network addressed and advertised. */
  lemma ActiveMeansUp(s: seq<Link>, s': seq<Link>, replies: seq<Replies>)
    requires AnnounceEffect(s, s', Active, replies)
    ensures forall i | 0 <= i < |s'| :: s'[i] == Link(true, true)
  {
  }

  /** Every advertised network's withdrawal command took effect. */
  ghost predicate RoutesDropped(s: seq<Link>, replies: seq<Replies>) {
    |replies| == |s| && forall i | 0 <= i < |s| && s[i].routed :: replies[i].route.applied
  }

  /** A withdrawal that reports success leaves nothing advertised exactly when every such command took effect. */
  lemma InactiveMeansDownExactly(s: seq<Link>, s': seq<Link>, tolerant: bool, replies: seq<Replies>, completed: bool)
    requires WithdrawEffect(s, s', tolerant, Inactive, replies, completed)
    ensures !Routed(s') <==> RoutesDropped(s, replies)
  {
  }

  /** A withdrawal all of whose commands took effect leaves no route and no gateway address, and never adds one. */
  lemma WithdrawalTakesAll(
    s: seq<Link>, s': seq<Link>, tolerant: bool, status: Status, replies: seq<Replies>, completed: bool, i: nat)
    requires WithdrawEffect(s, s', tolerant, status, replies, completed) && i < |s|
    ensures s'[i].routed ==> s[i].routed
    ensures s'[i].addressed ==> s[i].addressed
    ensures completed && replies[i].route.applied && replies[i].address.applied ==> s'[i] == Link(false, false)
    ensures !completed && |replies| <= i ==> s'[i] == s[i]
  {
  }

  /** From any state, a strict withdrawal may report success having withdrawn nothing. */
  lemma SilentWithdrawalFailure(s: seq<Link>)
    ensures exists replies :: WithdrawEffect(s, s, false, Inactive, replies, true)
  {
    var replies := seq(|s|, i => Replies(SILENT, SILENT));
    assert WithdrawEffect(s, s, false, Inactive, replies, true);
  }

  /**
    What success is worth before the call: whatever its commands do, a withdrawal that reports success
    leaves nothing advertised, if and only if nothing was advertised to begin with.
   */
  lemma SuccessGuaranteesDownExactly(s: seq<Link>, tolerant: bool)
    ensures (forall s', replies :: WithdrawEffect(s, s', tolerant, Inactive, replies, true) ==> !Routed(s')) <==>
            !Routed(s)
  {
    if Routed(s) {
      var replies := seq(|s|, i => Replies(SILENT, SILENT));
      assert WithdrawEffect(s, s, tolerant, Inactive, replies, true);
    }
  }
}
