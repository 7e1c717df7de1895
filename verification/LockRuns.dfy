/**
  Copies and holds locking one bucket at the same time. Each API call is one step, so that a lock
  that another call placed after this one read can be written over. Proved here: which step loses a
  promised lock, that only an overlap or a failed read can, and that otherwise no lock is lost.
 */
module LockRuns {
  import opened Common
  import opened ProviderLocks
  import opened ProviderSafety

  type CallId = nat

  /** A lock call between two of its API calls, with what it has read so far. */
  datatype Call =
    | Editing(seen: seq<Rule>, until: nat)
    | Passing(until: nat, listed: set<Key>, todo: set<Key>)
    | Placing(until: nat, listed: set<Key>, todo: set<Key>, key: Key, readable: bool)

  datatype Server = Server(bucket: Bucket, calls: map<CallId, Call>)

  /** `Write` is restic storing objects; the others are the API calls of numbered lock calls. */
  datatype Action =
    | Write(keys: set<Key>)
    | Get(call: CallId, now: nat, days: nat)
    | Put(call: CallId, landed: bool)
    | List(call: CallId, now: nat, days: nat)
    | Look(call: CallId, key: Key, readable: bool)
    | Place(call: CallId, landed: bool)
    | GiveUp(call: CallId)

  /** How far a copy or hold at `now` for at least `days` locks. */
  function Horizon(c: Config, now: nat, days: nat): nat {
    now + DAY * Max(c.lockDays, days)
  }

  /** R2: the list is read; unless something must change, the call is done. */
  ghost predicate GetEffect(c: Config, s: Server, s': Server, call: CallId, until: nat) {
    && c.isR2 && call !in s.calls
    && s' == if Changed(c, Kept(c, s.bucket.rules), until, 5)
             then s.(calls := s.calls[call := Editing(s.bucket.rules, until)]) else s
  }

  /** R2: the edited list replaces whatever the server has by now. */
  ghost predicate PutEffect(c: Config, s: Server, s': Server, call: CallId, landed: bool) {
    && call in s.calls && s.calls[call].Editing?
    && var Editing(seen, until) := s.calls[call];
    && s'.calls == s.calls - {call}
    && s'.bucket == if landed then s.bucket.(rules := Applied(c, Kept(c, seen), until, 5)) else s.bucket
  }

  /** S3: the persistent objects are listed. */
  ghost predicate ListEffect(c: Config, s: Server, s': Server, call: CallId, until: nat) {
    var keys := set key | key in s.bucket.objects && Persistent(c, key);
    !c.isR2 && call !in s.calls && s' == s.(calls := s.calls[call := Passing(until, keys, keys)])
  }

  /** S3: an object's retention is read, and the object skipped if it already lasts long enough. */
  ghost predicate LookEffect(s: Server, s': Server, call: CallId, key: Key, readable: bool) {
    && call in s.calls && s.calls[call].Passing? && key in s.bucket.objects
    && var Passing(until, listed, todo) := s.calls[call];
    && key in todo
    && var now := s.bucket.objects[key];
    && s' == s.(calls := s.calls[call :=
               if readable && now.Some? && until <= now.value then Passing(until, listed, todo - {key})
               else Placing(until, listed, todo, key, readable)])
  }

  /**
    S3: the object's retention is replaced, whatever it is by now, unless the provider enforces it; a
    refusal ends the pass.
   */
  ghost predicate PlaceEffect(c: Config, s: Server, s': Server, call: CallId, landed: bool) {
    && call in s.calls && s.calls[call].Placing?
    && var Placing(until, listed, todo, key, readable) := s.calls[call];
    && (landed && key in s.bucket.objects ==> Accepts(c, s.bucket.objects[key], Some(until)))
    && if landed then
         s' == Server(s.bucket.(objects := s.bucket.objects[key := Some(until)]),
                      s.calls[call := Passing(until, listed, todo - {key})])
       else s' == s.(calls := s.calls - {call})
  }

  ghost predicate Next(c: Config, s: Server, a: Action, s': Server) {
    match a
    case Write(keys) => s' == s.(bucket := s'.bucket) && WriteEffect(s.bucket, s'.bucket, keys)
    case Get(call, now, days) => GetEffect(c, s, s', call, Horizon(c, now, days))
    case Put(call, landed) => PutEffect(c, s, s', call, landed)
    case List(call, now, days) => ListEffect(c, s, s', call, Horizon(c, now, days))
    case Look(call, key, readable) => LookEffect(s, s', call, key, readable)
    case Place(call, landed) => PlaceEffect(c, s, s', call, landed)
    case GiveUp(call) => s' == s.(calls := s.calls - {call})
  }

  ghost predicate IsRun(c: Config, states: seq<Server>, actions: seq<Action>) {
    && |states| == |actions| + 1
    && states[0].calls == map[]
    && forall i | 0 <= i < |actions| :: Next(c, states[i], actions[i], states[i + 1])
  }

  lemma RunStep(c: Config, states: seq<Server>, actions: seq<Action>, i: nat)
    requires IsRun(c, states, actions) && i < |actions|
    ensures Next(c, states[i], actions[i], states[i + 1])
  {
  }

  // ---------------------------------------------------------------- promises

  /** What is locked as one: a namespace by its R2 rule, an object by its S3 retention. */
  datatype Unit = Namespace(k: nat) | Object(key: Key)

  predicate IsUnit(u: Unit) {
    u.Namespace? ==> u.k < 5
  }

  predicate Promised(c: Config, b: Bucket, u: Unit, t: nat)
    requires IsUnit(u)
  {
    match u
    case Namespace(k) => !NeedsWork(c, b.rules, t, k)
    case Object(key) => key in b.objects && b.objects[key].Some? && t <= b.objects[key].value
  }

  ghost predicate LockedUntil(c: Config, b: Bucket, key: Key, t: nat) {
    if c.isR2 then Protected(b.rules, key, t) else Promised(c, b, Object(key), t)
  }

  /** The call has a shorter horizon, and read the unit while it was short of the instant, or failed to read it. */
  predicate Threatens(c: Config, call: Call, u: Unit, t: nat)
    requires IsUnit(u)
  {
    match call
    case Editing(seen, until) => u.Namespace? && until < t && NeedsWork(c, seen, t, u.k)
    case Placing(until, listed, todo, key, readable) => u == Object(key) && until < t
    case Passing(_, _, _) => false
  }

  /** The step writes for a call that threatens the promise. */
  predicate Loses(c: Config, s: Server, a: Action, u: Unit, t: nat)
    requires IsUnit(u)
  {
    (a.Put? || a.Place?) && a.landed && a.call in s.calls && Threatens(c, s.calls[a.call], u, t)
  }

  /** A call that goes on to write has something to change. */
  ghost predicate Inv(c: Config, s: Server) {
    forall call | call in s.calls && s.calls[call].Editing? ::
      Changed(c, Kept(c, s.calls[call].seen), s.calls[call].until, 5)
  }

  lemma {:induction false} RunKeepsInv(c: Config, states: seq<Server>, actions: seq<Action>, i: nat)
    requires IsRun(c, states, actions) && i < |states|
    ensures Inv(c, states[i])
  {
    if i > 0 {
      RunKeepsInv(c, states, actions, i - 1);
      RunStep(c, states, actions, i - 1);
    }
  }

  /** One step loses a promise exactly when it writes for a call that threatens it. */
  lemma StepLosesExactly(c: Config, s: Server, a: Action, s': Server, u: Unit, t: nat)
    requires Inv(c, s) && Next(c, s, a, s') && IsUnit(u) && Promised(c, s.bucket, u, t)
    ensures Promised(c, s'.bucket, u, t) <==> !Loses(c, s, a, u, t)
  {
    if a.Put? && a.landed && u.Namespace? {
      var Editing(seen, until) := s.calls[a.call];
      ShortExactlyWhenBothAre(c, seen, until, u.k, t);
    }
  }

  /** Step `m` loses the promise exactly when it writes for a call that threatens it. */
  ghost predicate ExactAt(c: Config, states: seq<Server>, actions: seq<Action>, m: nat, u: Unit, t: nat)
    requires m < |actions| && |states| == |actions| + 1 && IsUnit(u)
  {
    Promised(c, states[m].bucket, u, t) ==>
      (Promised(c, states[m + 1].bucket, u, t) <==> !Loses(c, states[m], actions[m], u, t))
  }

  lemma StepIsExact(c: Config, states: seq<Server>, actions: seq<Action>, m: nat, u: Unit, t: nat)
    requires IsRun(c, states, actions) && m < |actions| && IsUnit(u)
    ensures ExactAt(c, states, actions, m, u, t)
  {
    RunKeepsInv(c, states, actions, m);
    RunStep(c, states, actions, m);
    if Promised(c, states[m].bucket, u, t) {
      StepLosesExactly(c, states[m], actions[m], states[m + 1], u, t);
    }
  }

  lemma {:induction false} KeptStepByStep(
    c: Config, states: seq<Server>, actions: seq<Action>, i: nat, j: nat, u: Unit, t: nat)
    requires i <= j < |states| == |actions| + 1 && IsUnit(u) && Promised(c, states[i].bucket, u, t)
    requires forall m | i <= m < j :: ExactAt(c, states, actions, m, u, t)
    ensures KeptFrom(c, states, i, j, u, t) <==> forall m | i <= m < j :: !Loses(c, states[m], actions[m], u, t)
  {
    if i < j {
      KeptStepByStep(c, states, actions, i, j - 1, u, t);
      assert ExactAt(c, states, actions, j - 1, u, t);
      assert KeptFrom(c, states, i, j, u, t) <==>
             KeptFrom(c, states, i, j - 1, u, t) && Promised(c, states[j].bucket, u, t);
    }
  }

  /** A promise lasts up to a moment exactly when no step on the way writes for a call that threatens it. */
  lemma PromiseKeptExactly(
    c: Config, states: seq<Server>, actions: seq<Action>, i: nat, j: nat, u: Unit, t: nat)
    requires IsRun(c, states, actions) && i <= j < |states| && IsUnit(u) && Promised(c, states[i].bucket, u, t)
    ensures KeptFrom(c, states, i, j, u, t) <==> forall m | i <= m < j :: !Loses(c, states[m], actions[m], u, t)
  {
    forall m | i <= m < j ensures ExactAt(c, states, actions, m, u, t) {
      StepIsExact(c, states, actions, m, u, t);
    }
    KeptStepByStep(c, states, actions, i, j, u, t);
  }

  ghost predicate KeptFrom(c: Config, states: seq<Server>, i: nat, j: nat, u: Unit, t: nat)
    requires i <= j < |states| && IsUnit(u)
  {
    forall m | i <= m <= j :: Promised(c, states[m].bucket, u, t)
  }

  // ---------------------------------------------------------------- only overlaps lose promises

  /** The read of the object's retention failed. */
  predicate Blind(call: Call) {
    call.Placing? && !call.readable
  }

  /** A call reads a promised unit in good order, unless its read fails. */
  lemma FreshReadIsNoThreat(c: Config, s: Server, a: Action, s': Server, call: CallId, u: Unit, t: nat)
    requires Next(c, s, a, s') && IsUnit(u) && Promised(c, s.bucket, u, t)
    requires call in s'.calls && Threatens(c, s'.calls[call], u, t) && !Blind(s'.calls[call])
    ensures call in s.calls && s.calls[call] == s'.calls[call]
  {
  }

  ghost predicate InFlight(s: Server, id: CallId, call: Call) {
    id in s.calls && s.calls[id] == call
  }

  lemma {:induction false} InFlightSince(states: seq<Server>, i: nat, m: nat, id: CallId, call: Call)
    requires i <= m < |states| && InFlight(states[m], id, call)
    requires forall x | i <= x < m && InFlight(states[x + 1], id, call) :: InFlight(states[x], id, call)
    ensures InFlight(states[i], id, call)
  {
    if i < m {
      InFlightSince(states, i, m - 1, id, call);
    }
  }

  /**
    Whatever threatens a promise, unless its read failed, read before the promise was made and has
    been in flight ever since.
   */
  lemma ThreatIsOlder(
    c: Config, states: seq<Server>, actions: seq<Action>, i: nat, m: nat, id: CallId, u: Unit, t: nat)
    requires IsRun(c, states, actions) && i <= m < |states| && IsUnit(u) && KeptFrom(c, states, i, m, u, t)
    requires id in states[m].calls && Threatens(c, states[m].calls[id], u, t) && !Blind(states[m].calls[id])
    ensures InFlight(states[i], id, states[m].calls[id])
  {
    var call := states[m].calls[id];
    forall x | i <= x < m && InFlight(states[x + 1], id, call) ensures InFlight(states[x], id, call) {
      RunStep(c, states, actions, x);
      FreshReadIsNoThreat(c, states[x], actions[x], states[x + 1], id, u, t);
    }
    InFlightSince(states, i, m, id, call);
  }

  /** No call in flight threatens the promise. */
  ghost predicate Safe(c: Config, s: Server, u: Unit, t: nat)
    requires IsUnit(u)
  {
    forall call | call in s.calls :: !Threatens(c, s.calls[call], u, t)
  }

  /** Objects' retentions can be read. */
  ghost predicate ReadsWork(actions: seq<Action>) {
    forall i | 0 <= i < |actions| && actions[i].Look? :: actions[i].readable
  }

  lemma {:induction false} NoBlindCalls(c: Config, states: seq<Server>, actions: seq<Action>, i: nat)
    requires IsRun(c, states, actions) && i < |states| && ReadsWork(actions)
    ensures forall call | call in states[i].calls :: !Blind(states[i].calls[call])
  {
    if i > 0 {
      NoBlindCalls(c, states, actions, i - 1);
      RunStep(c, states, actions, i - 1);
    }
  }

  lemma SafePromiseSurvives(
    c: Config, states: seq<Server>, actions: seq<Action>, i: nat, m: nat, u: Unit, t: nat)
    requires IsRun(c, states, actions) && i <= m < |actions| && ReadsWork(actions)
    requires IsUnit(u) && Safe(c, states[i], u, t) && KeptFrom(c, states, i, m, u, t)
    ensures Promised(c, states[m + 1].bucket, u, t)
  {
    NoBlindCalls(c, states, actions, m);
    if Loses(c, states[m], actions[m], u, t) {
      ThreatIsOlder(c, states, actions, i, m, actions[m].call, u, t);
    }
    StepIsExact(c, states, actions, m, u, t);
  }

  /** With readable retentions, a promise that no call in flight threatens is never lost, whatever comes later. */
  lemma {:induction false} SafePromiseIsKept(
    c: Config, states: seq<Server>, actions: seq<Action>, i: nat, j: nat, u: Unit, t: nat)
    requires IsRun(c, states, actions) && i <= j < |states| && ReadsWork(actions)
    requires IsUnit(u) && Promised(c, states[i].bucket, u, t) && Safe(c, states[i], u, t)
    ensures KeptFrom(c, states, i, j, u, t)
  {
    if i < j {
      SafePromiseIsKept(c, states, actions, i, j - 1, u, t);
      SafePromiseSurvives(c, states, actions, i, j - 1, u, t);
    }
  }

  // ---------------------------------------------------------------- what a call promises

  /** Step `m` completes an R2 lock call with this horizon: nothing had to change, or the write landed. */
  ghost predicate Completes(c: Config, s: Server, a: Action, until: nat) {
    || (a.Get? && until == Horizon(c, a.now, a.days) && !Changed(c, Kept(c, s.bucket.rules), until, 5))
    || (a.Put? && a.landed && a.call in s.calls && s.calls[a.call].Editing? && s.calls[a.call].until == until)
  }

  lemma CompletedCallPromises(c: Config, s: Server, a: Action, s': Server, until: nat, k: nat)
    requires Inv(c, s) && Next(c, s, a, s') && Completes(c, s, a, until) && k < 5
    ensures Promised(c, s'.bucket, Namespace(k), until)
  {
    if a.Get? {
      EnsuredIsGood(c, s.bucket.rules, until, k);
      assert Ensured(c, s.bucket.rules, until) == s.bucket.rules;
    } else {
      EnsuredIsGood(c, s.calls[a.call].seen, until, k);
    }
  }

  /**
    R2: every persistent object is locked up to the horizon of a completed call at a later moment,
    if no step in between writes for a call that threatens its namespace; and such a step loses it.
   */
  lemma RuleLockOutlives(
    c: Config, states: seq<Server>, actions: seq<Action>, m: nat, j: nat, until: nat, key: Key, k: nat)
    requires IsRun(c, states, actions) && c.isR2 && m < j < |states| && Completes(c, states[m], actions[m], until)
    requires k < 5 && InNamespace(c, key, k)
    ensures KeptFrom(c, states, m + 1, j, Namespace(k), until) <==>
            forall x | m + 1 <= x < j :: !Loses(c, states[x], actions[x], Namespace(k), until)
    ensures KeptFrom(c, states, m + 1, j, Namespace(k), until) ==> LockedUntil(c, states[j].bucket, key, until)
    ensures ReadsWork(actions) && Safe(c, states[m + 1], Namespace(k), until) ==>
              LockedUntil(c, states[j].bucket, key, until)
  {
    RunKeepsInv(c, states, actions, m);
    RunStep(c, states, actions, m);
    CompletedCallPromises(c, states[m], actions[m], states[m + 1], until, k);
    PromiseKeptExactly(c, states, actions, m + 1, j, Namespace(k), until);
    if ReadsWork(actions) && Safe(c, states[m + 1], Namespace(k), until) {
      SafePromiseIsKept(c, states, actions, m + 1, j, Namespace(k), until);
    }
    if KeptFrom(c, states, m + 1, j, Namespace(k), until) {
      GoodRuleProtects(c, states[j].bucket.rules, until, k, key, until);
    }
  }

  /** The pass has dealt with the object. */
  predicate Handled(call: Call, key: Key) {
    !call.Editing? && key in call.listed && key !in call.todo
  }

  /** The call lists the objects at step `l`, and its pass is still in flight at state `m`. */
  ghost predicate PassRuns(
    c: Config, states: seq<Server>, actions: seq<Action>, l: nat, m: nat, call: CallId)
  {
    && IsRun(c, states, actions) && l < m < |states| && actions[l].List? && actions[l].call == call
    && forall x | l < x <= m :: call in states[x].calls
  }

  /** While a pass is in flight, its horizon and its listing stay what they were. */
  lemma {:induction false} PassKeepsListing(
    c: Config, states: seq<Server>, actions: seq<Action>, l: nat, m: nat, call: CallId)
    requires PassRuns(c, states, actions, l, m, call)
    ensures !states[m].calls[call].Editing?
    ensures states[m].calls[call].until == Horizon(c, actions[l].now, actions[l].days)
    ensures forall key | key in states[l].bucket.objects && Persistent(c, key) :: key in states[m].calls[call].listed
  {
    RunStep(c, states, actions, m - 1);
    if l + 1 < m {
      PassKeepsListing(c, states, actions, l, m - 1, call);
    }
  }

  /** S3: an object a pass has dealt with was locked up to the pass's horizon at some moment within the pass. */
  lemma {:induction false} PassPromises(
    c: Config, states: seq<Server>, actions: seq<Action>, l: nat, m: nat, call: CallId, key: Key)
    requires PassRuns(c, states, actions, l, m, call) && Handled(states[m].calls[call], key)
    ensures exists x :: l < x <= m && Promised(c, states[x].bucket, Object(key), states[m].calls[call].until)
  {
    var s, s' := states[m - 1], states[m];
    RunStep(c, states, actions, m - 1);
    PassKeepsListing(c, states, actions, l, m, call);
    if m - 1 > l && Handled(s.calls[call], key) {
      PassKeepsListing(c, states, actions, l, m - 1, call);
      PassPromises(c, states, actions, l, m - 1, call, key);
    } else {
      assert Promised(c, s'.bucket, Object(key), s'.calls[call].until);
    }
  }

  /**
    S3: a pass that has nothing left to do has locked, at some moment within the pass, every persistent
    object that existed when it listed them, up to its horizon.
   */
  lemma FinishedPassPromises(
    c: Config, states: seq<Server>, actions: seq<Action>, l: nat, m: nat, call: CallId, key: Key)
    requires PassRuns(c, states, actions, l, m, call) && Finished(states[m].calls[call])
    requires key in states[l].bucket.objects && Persistent(c, key)
    ensures exists x :: l < x <= m &&
              Promised(c, states[x].bucket, Object(key), Horizon(c, actions[l].now, actions[l].days))
  {
    PassKeepsListing(c, states, actions, l, m, call);
    PassPromises(c, states, actions, l, m, call, key);
  }

  predicate Finished(call: Call) {
    call.Passing? && call.todo == {}
  }

  /**
    S3: when a pass finishes, every persistent object that existed when it listed them is locked up to
    its horizon, if no write of a call that threatens that has landed during the pass.
   */
  lemma FinishedPassLocks(
    c: Config, states: seq<Server>, actions: seq<Action>, l: nat, m: nat, call: CallId, key: Key)
    requires PassRuns(c, states, actions, l, m, call) && Finished(states[m].calls[call])
    requires key in states[l].bucket.objects && Persistent(c, key)
    requires var until := Horizon(c, actions[l].now, actions[l].days);
             c.enforces || forall x | l < x < m :: !Loses(c, states[x], actions[x], Object(key), until)
    ensures LockedUntil(c, states[m].bucket, key, Horizon(c, actions[l].now, actions[l].days))
  {
    var until := Horizon(c, actions[l].now, actions[l].days);
    FinishedPassPromises(c, states, actions, l, m, call, key);
    var x :| l < x <= m && Promised(c, states[x].bucket, Object(key), until);
    if c.enforces {
      EnforcedLockIsKept(c, states, actions, x, m, key, until);
    } else {
      PromiseKeptExactly(c, states, actions, x, m, Object(key), until);
    }
    RunStep(c, states, actions, l);
  }

  /** S3: where the provider enforces its locks, no write loses one, whatever overlaps and whatever cannot be read. */
  lemma {:induction false} EnforcedLockIsKept(
    c: Config, states: seq<Server>, actions: seq<Action>, i: nat, j: nat, key: Key, t: nat)
    requires IsRun(c, states, actions) && c.enforces && i <= j < |states|
    requires Promised(c, states[i].bucket, Object(key), t)
    ensures KeptFrom(c, states, i, j, Object(key), t)
  {
    if i < j {
      EnforcedLockIsKept(c, states, actions, i, j - 1, key, t);
      RunStep(c, states, actions, j - 1);
      assert Promised(c, states[j - 1].bucket, Object(key), t);
    }
  }

  /**
    S3: from such a moment on, the object stays locked up to the horizon exactly as long as no
    threatening write lands.
   */
  lemma ObjectLockOutlives(c: Config, states: seq<Server>, actions: seq<Action>, x: nat, j: nat, until: nat, key: Key)
    requires IsRun(c, states, actions) && !c.isR2 && x <= j < |states|
    requires Promised(c, states[x].bucket, Object(key), until)
    ensures KeptFrom(c, states, x, j, Object(key), until) <==>
            forall m | x <= m < j :: !Loses(c, states[m], actions[m], Object(key), until)
    ensures KeptFrom(c, states, x, j, Object(key), until) ==> LockedUntil(c, states[j].bucket, key, until)
    ensures ReadsWork(actions) && Safe(c, states[x], Object(key), until) ==>
              LockedUntil(c, states[j].bucket, key, until)
  {
    PromiseKeptExactly(c, states, actions, x, j, Object(key), until);
    if ReadsWork(actions) && Safe(c, states[x], Object(key), until) {
      SafePromiseIsKept(c, states, actions, x, j, Object(key), until);
    }
  }

  // ---------------------------------------------------------------- the smallest overlap

  /** The rules two R2 calls on an empty bucket leave, one after the other. */
  function Fresh(c: Config, until: nat): seq<Rule> {
    Applied(c, [], until, 5)
  }

  lemma EmptyNeedsWork(c: Config, until: nat)
    ensures Kept(c, []) == [] && Changed(c, [], until, 5)
    ensures forall k | 0 <= k < 5 :: NeedsWork(c, [], until, k)
  {
    assert NeedsWork(c, [], until, 0);
  }

  /**
    A hold and a copy with fewer days both read the empty rule list, and the copy writes last: the
    hold's horizon, already on the server, is gone, for every configuration, instant and object.
   */
  lemma OverlappingWriteLosesHorizon(c: Config, now: nat, hold: nat, copy: nat, key: Key)
    requires c.isR2 && c.lockDays <= copy < hold && InNamespace(c, key, 0)
    ensures exists states: seq<Server>, actions: seq<Action> ::
              && IsRun(c, states, actions)
              && actions == [Get(0, now, hold), Get(1, now, copy), Put(0, true), Put(1, true)]
              && LockedUntil(c, states[3].bucket, key, Horizon(c, now, hold))
              && !LockedUntil(c, states[4].bucket, key, Horizon(c, now, hold))
  {
    var long, short := Horizon(c, now, hold), Horizon(c, now, copy);
    var b := Bucket([], map[]);
    var first, second := Editing([], long), Editing([], short);
    var states := [
      Server(b, map[]), Server(b, map[0 := first]), Server(b, map[0 := first, 1 := second]),
      Server(b.(rules := Fresh(c, long)), map[1 := second]), Server(b.(rules := Fresh(c, short)), map[])];
    var actions := [Get(0, now, hold), Get(1, now, copy), Put(0, true), Put(1, true)];
    EmptyNeedsWork(c, long);
    EmptyNeedsWork(c, short);
    assert states[3].calls == states[2].calls - {0} && states[4].calls == states[3].calls - {1};
    forall i | 0 <= i < 4 ensures Next(c, states[i], actions[i], states[i + 1]) {
    }
    assert Ensured(c, [], long) == Fresh(c, long) && Ensured(c, [], short) == Fresh(c, short);
    ProtectionAfterWrite(c, [], long, 0, key, long);
    ProtectionAfterWrite(c, [], short, 0, key, long);
    assert IsRun(c, states, actions);
  }

  // ---------------------------------------------------------------- any object, any rule

  /** No write that lands replaces a rule list other than the one its call read. */
  ghost predicate WritesAreFresh(states: seq<Server>, actions: seq<Action>, i: nat, j: nat)
    requires i <= j <= |actions| && |states| == |actions| + 1
  {
    forall m | i <= m < j && actions[m].Put? && actions[m].landed && actions[m].call in states[m].calls
               && states[m].calls[actions[m].call].Editing? ::
      states[m].calls[actions[m].call].seen == states[m].bucket.rules
  }

  ghost predicate AllTidy(c: Config, s: Server) {
    Tidy(c, s.bucket.rules) && forall call | call in s.calls && s.calls[call].Editing? :: Tidy(c, s.calls[call].seen)
  }

  lemma StepKeepsTidy(c: Config, s: Server, a: Action, s': Server)
    requires Inv(c, s) && AllTidy(c, s) && Next(c, s, a, s')
    ensures AllTidy(c, s')
  {
    if a.Put? && a.landed {
      var Editing(seen, until) := s.calls[a.call];
      EnsureKeepsTidy(c, seen, until);
      assert Ensured(c, seen, until) == s'.bucket.rules;
    }
  }

  lemma {:induction false} RunStaysTidy(c: Config, states: seq<Server>, actions: seq<Action>, i: nat)
    requires IsRun(c, states, actions) && i < |states| && Tidy(c, states[0].bucket.rules)
    ensures AllTidy(c, states[i])
  {
    if i > 0 {
      RunStaysTidy(c, states, actions, i - 1);
      RunKeepsInv(c, states, actions, i - 1);
      RunStep(c, states, actions, i - 1);
      StepKeepsTidy(c, states[i - 1], actions[i - 1], states[i]);
    }
  }

  lemma FreshStepNeverWeakens(c: Config, s: Server, a: Action, s': Server, key: Key, t: nat)
    requires Inv(c, s) && AllTidy(c, s) && Next(c, s, a, s') && Protected(s.bucket.rules, key, t)
    requires a.Put? && a.landed && a.call in s.calls && s.calls[a.call].Editing? ==>
               s.calls[a.call].seen == s.bucket.rules
    ensures Protected(s'.bucket.rules, key, t)
  {
    if a.Put? && a.landed {
      var Editing(seen, until) := s.calls[a.call];
      TidyEnsureNeverWeakens(c, seen, until, key, t);
      assert Ensured(c, seen, until) == s'.bucket.rules;
    }
  }

  /**
    R2, from tidy rules: while every write replaces the list its call read, no rule's protection of
    any object is lost.
   */
  lemma {:induction false} ProtectionNeverMovesEarlier(
    c: Config, states: seq<Server>, actions: seq<Action>, i: nat, j: nat, key: Key, t: nat)
    requires IsRun(c, states, actions) && i <= j < |states| && Tidy(c, states[0].bucket.rules)
    requires WritesAreFresh(states, actions, i, j) && Protected(states[i].bucket.rules, key, t)
    ensures Protected(states[j].bucket.rules, key, t)
  {
    if i < j {
      ProtectionNeverMovesEarlier(c, states, actions, i, j - 1, key, t);
      RunStaysTidy(c, states, actions, j - 1);
      RunKeepsInv(c, states, actions, j - 1);
      RunStep(c, states, actions, j - 1);
      FreshStepNeverWeakens(c, states[j - 1], actions[j - 1], states[j], key, t);
    }
  }
}
