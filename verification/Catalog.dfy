/**
  The recovery-point catalog and retention, step by step: a backup stores its snapshot and later
  catalogues it, a hold extends a deadline, and a retention reads what is protected, forgets what
  restic proposes beyond that, and then marks the points. Only the steps are atomic; holds take no
  lock and fall between them. Instants are microseconds; module Timestamps justifies reading the
  stored strings that way.
 */
module Catalog {
  import opened Common

  type SnapshotId = string

  datatype Point = Point(createdAt: nat, immutableUntil: nat, suspicious: bool, expired: bool)

  datatype Config = Config(preserveSuspiciousDays: nat)

  /** Where the retention is that holds the lock file, if one does, and what it has in hand. */
  datatype Sweep = Idle | HasRead(at: nat, keep: set<SnapshotId>) | HasForgotten(removed: set<SnapshotId>)

  /**
    The catalog and the snapshots present in the repository. `stored` is every id restic has given
    out. `window` and `holds` record, for each point, the immutability it was created with and
    every hold deadline ever granted.
   */
  datatype VaultState = VaultState(
    clock: nat, points: map<SnapshotId, Point>, repo: set<SnapshotId>, stored: set<SnapshotId>,
    window: map<SnapshotId, nat>, holds: map<SnapshotId, set<nat>>, sweep: Sweep)

  const EMPTY := VaultState(0, map[], {}, {}, map[], map[], Idle)

  predicate Live(points: map<SnapshotId, Point>, id: SnapshotId) {
    id in points && !points[id].expired
  }

  /** Points under protection at an instant. */
  predicate ProtectedAt(points: map<SnapshotId, Point>, id: SnapshotId, at: nat) {
    Live(points, id) && points[id].immutableUntil > at
  }

  /** What restic proposes to remove, minus what was read as protected. */
  ghost predicate Removable(keep: set<SnapshotId>, proposal: seq<seq<SnapshotId>>, id: SnapshotId) {
    id != "" && id !in keep && exists g :: 0 <= g < |proposal| && id in proposal[g]
  }

  /** Proposed for removal, and not under protection in the catalog: unknown, expired, or past its deadline. */
  ghost predicate Expendable(
    points: map<SnapshotId, Point>, proposal: seq<seq<SnapshotId>>, at: nat, id: SnapshotId)
  {
    && id != "" && (exists g :: 0 <= g < |proposal| && id in proposal[g])
    && (id in points && !points[id].expired ==> points[id].immutableUntil <= at)
  }

  function MarkExpired(points: map<SnapshotId, Point>, ids: set<SnapshotId>): map<SnapshotId, Point> {
    map id | id in points :: if id in ids then points[id].(expired := true) else points[id]
  }

  /** The immutability a backup asks for. */
  function Window(c: Config, suspicious: bool, keepDays: nat): nat {
    DAY * if suspicious then Max(keepDays, c.preserveSuspiciousDays) else keepDays
  }

  // ---------------------------------------------------------------- the atomic steps

  /** Restic stores a snapshot under an id nobody has seen. */
  ghost predicate StoreEffect(s: VaultState, s': VaultState, id: SnapshotId) {
    && id !in s.stored && (s.sweep.HasForgotten? ==> id !in s.sweep.removed)
    && s' == s.(repo := s.repo + {id}, stored := s.stored + {id})
  }

  /** A stored snapshot enters the catalog; `now` was read when its backup started. */
  ghost predicate CatalogueEffect(
    c: Config, s: VaultState, s': VaultState, id: SnapshotId, suspicious: bool, keepDays: nat, now: nat)
  {
    var window := Window(c, suspicious, keepDays);
    && id in s.stored && id !in s.points && now < s.clock
    && s' == s.(points := s.points[id := Point(now, now + window, suspicious, false)],
                window := s.window[id := window], holds := s.holds[id := {}])
  }

  /** A hold is granted on a live point and refused on any other. */
  ghost predicate ExtendEffect(s: VaultState, s': VaultState, id: SnapshotId, until: nat, ok: bool) {
    && ok == Live(s.points, id)
    && if !ok then s' == s
       else
         && id in s.holds
         && s' == s.(
              points := s.points[id := s.points[id].(immutableUntil := Max(s.points[id].immutableUntil, until))],
              holds := s.holds[id := s.holds[id] + {until}])
  }

  /** A retention reads which points are protected at an instant. */
  ghost predicate ReadEffect(s: VaultState, s': VaultState, at: nat) {
    && s.sweep.Idle? && s.clock <= at < s'.clock
    && s' == s.(clock := s'.clock, sweep := HasRead(at, set id | id in s.points && ProtectedAt(s.points, id, at)))
  }

  /** It forgets and prunes; when that raises, some of the snapshots may be gone already. */
  ghost predicate ForgetEffect(
    s: VaultState, s': VaultState, proposal: seq<seq<SnapshotId>>, gone: set<SnapshotId>, completed: bool)
  {
    && s.sweep.HasRead?
    && (forall id | id in gone :: Removable(s.sweep.keep, proposal, id))
    && (completed ==> forall id | Removable(s.sweep.keep, proposal, id) :: id in gone)
    && s' == s.(repo := s.repo - gone, sweep := if completed then HasForgotten(gone) else Idle)
  }

  /** It marks what it removed as expired. */
  ghost predicate MarkEffect(s: VaultState, s': VaultState) {
    && s.sweep.HasForgotten?
    && s' == s.(points := MarkExpired(s.points, s.sweep.removed), sweep := Idle)
  }

  // ---------------------------------------------------------------- the engine

  class Vault {
    const c: Config
    var clock: nat
    var points: map<SnapshotId, Point>
    var repo: set<SnapshotId>
    ghost var stored: set<SnapshotId>
    ghost var window: map<SnapshotId, nat>
    ghost var holds: map<SnapshotId, set<nat>>
    ghost var sweep: Sweep

    ghost function View(): VaultState
      reads this
    {
      VaultState(clock, points, repo, stored, window, holds, sweep)
    }

    ghost predicate Valid()
      reads this
    {
      points.Keys == window.Keys == holds.Keys && points.Keys <= stored
    }

    constructor (c: Config)
      ensures this.c == c && View() == EMPTY && Valid()
    {
      this.c := c;
      clock, points, repo, stored, window, holds, sweep := 0, map[], {}, {}, map[], map[], Idle;
    }

    /** A clock reading; readings strictly increase. */
    method Now() returns (t: nat)
      modifies this`clock
      ensures old(clock) <= t < clock
    {
      var pause: int := *;
      t := clock + if pause > 0 then pause else 0;
      clock := t + 1;
    }

    /**
      Backs one VM up; restic picks the fresh snapshot id, the anomaly check the suspicion, and the
      last four parameters say which of its external steps succeed. A backup that reached the catalog
      still fails when the verification after it raises.
     */
    method BackupVm(
      id: SnapshotId, suspicious: bool, keepDays: nat, exported: bool, saved: bool, summarized: bool, verified: bool)
      returns (ok: bool, ghost now: nat, ghost begun: VaultState, ghost kept: VaultState, ghost catalogued: bool)
      requires Valid() && id !in stored && (sweep.HasForgotten? ==> id !in sweep.removed)
      modifies this
      ensures Valid()
      ensures old(clock) <= now < begun.clock && begun == old(View()).(clock := begun.clock)
      ensures kept == begun || StoreEffect(begun, kept, id)
      ensures if catalogued then CatalogueEffect(c, kept, View(), id, suspicious, keepDays, now)
              else !ok && View() == kept
      ensures catalogued ==> id in points && LastsAsked(points[id], now, suspicious, keepDays)
      ensures kept != begun <==> exported && saved
      ensures catalogued <==> exported && saved && summarized
      ensures ok <==> catalogued && verified
    {
      var started := Now();
      now, begun, catalogued := started, View(), false;
      kept := begun;
      if !exported || !saved { return false, now, begun, kept, false; }
      repo, stored := repo + {id}, stored + {id};
      kept := View();
      if !summarized { return false, now, begun, kept, false; }
      AddPoint(id, suspicious, keepDays, started);
      catalogued, ok := true, verified;
    }

    /** The point is new, and lasts for the days asked for, or for the longer preserve window if suspicious. */
    ghost predicate LastsAsked(point: Point, now: nat, suspicious: bool, keepDays: nat) {
      && point.createdAt == now && point.suspicious == suspicious && !point.expired
      && point.immutableUntil == now + DAY * (
           if suspicious && keepDays < c.preserveSuspiciousDays then c.preserveSuspiciousDays else keepDays)
    }

    /** Catalogues a stored snapshot with the instant its backup started. */
    method AddPoint(id: SnapshotId, suspicious: bool, keepDays: nat, started: nat)
      requires Valid() && id in stored && id !in points && started < clock
      modifies this`points, this`window, this`holds
      ensures Valid()
      ensures CatalogueEffect(c, old(View()), View(), id, suspicious, keepDays, started)
      ensures id in points && LastsAsked(points[id], started, suspicious, keepDays)
    {
      var immutableDays := keepDays;
      if suspicious {
        immutableDays := Max(immutableDays, c.preserveSuspiciousDays);
      }
      points := points[id := Point(started, started + DAY * immutableDays, suspicious, false)];
      window, holds := window[id := DAY * immutableDays], holds[id := {}];
    }

    method HoldRecoveryPoint(id: SnapshotId, days: int) returns (ok: bool, ghost until: nat)
      requires Valid()
      modifies this
      ensures Valid()
      ensures ok <==> 1 <= days <= 36500 && Live(old(points), id)
      ensures !ok ==> View() == old(View())
      ensures ok ==>
                && old(clock) < clock && old(clock) + days * DAY <= until < clock + days * DAY
                && ExtendEffect(old(View()).(clock := clock), View(), id, until, true)
    {
      until := 0;
      if days < 1 || days > 36500 { return false, 0; }
      if id !in points || points[id].expired { return false, 0; }
      var now := Now();
      until := now + days * DAY;
      ok := ExtendImmutability(id, now + days * DAY);
    }

    /** The later of the stored and the requested deadline wins. */
    method ExtendImmutability(id: SnapshotId, until: nat) returns (ok: bool)
      requires Valid()
      modifies this`points, this`holds
      ensures Valid()
      ensures ExtendEffect(old(View()), View(), id, until, ok)
      ensures ok <==> id in old(points) && !old(points)[id].expired
      ensures ok ==> id in points && old(points)[id].immutableUntil <= points[id].immutableUntil
                     && until <= points[id].immutableUntil
                     && points[id].immutableUntil in {old(points)[id].immutableUntil, until}
    {
      if id !in points || points[id].expired { return false; }
      var current := points[id].immutableUntil;
      points := points[id := points[id].(immutableUntil := Max(current, until))];
      holds := holds[id := holds[id] + {until}];
      ok := true;
    }

    method ProtectedSnapshotIds() returns (ids: set<SnapshotId>, ghost at: nat)
      requires sweep.Idle?
      modifies this`clock, this`sweep
      ensures ReadEffect(old(View()), View(), at) && ids == sweep.keep
      ensures ids == set id | id in points && !points[id].expired && at < points[id].immutableUntil
    {
      var t := Now();
      ids := set id | id in points && points[id].immutableUntil > t && !points[id].expired;
      at := t;
      sweep := HasRead(t, ids);
      assert ids == set id | id in points && ProtectedAt(points, id, t);
    }

    /** Collects what restic proposes and the catalog does not protect. */
    method CollectRemovals(proposal: seq<seq<SnapshotId>>, keep: set<SnapshotId>) returns (remove: set<SnapshotId>)
      ensures forall id :: id in remove <==> Removable(keep, proposal, id)
    {
      remove := {};
      var g := 0;
      while g < |proposal|
        invariant g <= |proposal|
        invariant forall id :: id in remove <==>
          id != "" && id !in keep && exists k :: 0 <= k < g && id in proposal[k]
      {
        var n := 0;
        while n < |proposal[g]|
          invariant n <= |proposal[g]|
          invariant forall id :: id in remove <==>
            id != "" && id !in keep && (id in proposal[g][..n] || exists k :: 0 <= k < g && id in proposal[k])
        {
          var id := proposal[g][n];
          if id != "" && id !in keep {
            remove := remove + {id};
          }
          n := n + 1;
        }
        g := g + 1;
      }
    }

    /** Restic's side of a retention: the dry run, then forget and prune, each of which may raise. */
    method ForgetAndPrune(
      proposal: seq<seq<SnapshotId>>, keep: set<SnapshotId>, previewed: bool, forgotten: bool, pruned: bool)
      returns (ok: bool, remove: set<SnapshotId>, ghost gone: set<SnapshotId>)
      requires sweep.HasRead? && keep == sweep.keep
      modifies this`repo, this`sweep
      ensures ForgetEffect(old(View()), View(), proposal, gone, ok)
      ensures ok ==> remove == gone == sweep.removed
      ensures ok <==> previewed && ((forall id :: !Removable(keep, proposal, id)) || (forgotten && pruned))
    {
      gone, remove := {}, {};
      if !previewed {
        sweep := Idle;
        return false, remove, gone;
      }
      remove := CollectRemovals(proposal, keep);
      gone := remove;
      if remove != {} && !forgotten {
        var some: set<SnapshotId> := *;
        gone := remove * some;
        repo := repo - (remove * some);
      } else {
        repo := repo - remove;
      }
      assert remove == {} <==> forall id :: !Removable(keep, proposal, id);
      ok := remove == {} || (forgotten && pruned);
      sweep := if ok then HasForgotten(remove) else Idle;
    }

    method MarkPointsExpired(ids: set<SnapshotId>)
      requires sweep == HasForgotten(ids)
      modifies this`points, this`sweep
      ensures MarkEffect(old(View()), View())
    {
      points := MarkExpired(points, ids);
      sweep := Idle;
    }

    /** A whole retention, under the lock file; between its three steps other calls may come. */
    method Retention(proposal: seq<seq<SnapshotId>>, previewed: bool, forgotten: bool, pruned: bool)
      returns (completed: bool, ghost at: nat, ghost gone: set<SnapshotId>, ghost read: VaultState,
        ghost swept: VaultState)
      requires Valid() && sweep.Idle?
      modifies this
      ensures Valid() && sweep.Idle?
      ensures ReadEffect(old(View()), read, at)
      ensures ForgetEffect(read, swept, proposal, gone, completed)
      ensures if completed then MarkEffect(swept, View()) else View() == swept
      ensures completed <==>
                previewed && ((forall id :: !Expendable(old(points), proposal, at, id)) || (forgotten && pruned))
      ensures repo <= old(repo)
      ensures forall id | id in old(repo) && id !in repo :: Expendable(old(points), proposal, at, id)
      ensures completed ==> forall id | id in repo :: !Expendable(old(points), proposal, at, id)
      ensures points.Keys == old(points).Keys
      ensures forall id | id in points ::
                points[id] == old(points)[id].(
                  expired := old(points)[id].expired || (completed && Expendable(old(points), proposal, at, id)))
    {
      var keep;
      keep, at := ProtectedSnapshotIds();
      read := View();
      var remove;
      completed, remove, gone := ForgetAndPrune(proposal, keep, previewed, forgotten, pruned);
      swept := View();
      assert forall id :: Removable(keep, proposal, id) <==> Expendable(old(points), proposal, at, id);
      if completed {
        MarkPointsExpired(remove);
      }
    }
  }
}
