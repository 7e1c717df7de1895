/**
  Provider-side retention on replica buckets: rolling Cloudflare R2 bucket-lock rules and S3
  object-lock dates. Instants are microseconds. The bucket's rules and objects are the state;
  every API call may fail.
 */
module ProviderLocks {
  import opened Common

  /** A Date rule whose date does not parse has none; an Age rule never counts. */
  datatype Condition = Age | Date(until: Option<nat>) | Indefinite | Unknown

  datatype Rule = Rule(id: string, enabled: bool, prefix: string, condition: Condition)

  /**
    `root` is the repository prefix with its trailing slash, or empty. `enforces` says that the
    provider refuses to move an object's retention earlier, as S3 does unless a call bypasses it.
   */
  datatype Config = Config(ruleId: string, root: string, lockDays: nat, isR2: bool, enforces: bool)

  const NAMESPACES: seq<string> := ["data/", "index/", "snapshots/", "keys/", "config"]
  const SUFFIXES: seq<string> := ["data", "index", "snapshots", "keys", "config"]

  /** The rule that must protect namespace `k` until the given instant. */
  function Wanted(c: Config, k: nat, until: nat): Rule
    requires k < 5
  {
    Rule(c.ruleId + "-" + SUFFIXES[k], true, c.root + NAMESPACES[k], Date(Some(until)))
  }

  /** The code's test of a rule. */
  predicate Covers(rule: Rule, until: nat) {
    && rule.enabled
    && match rule.condition
       case Indefinite => true
       case Date(Some(date)) => until <= date
       case _ => false
  }

  /** What the provider makes of a rule: it is in force at least until the instant. */
  ghost predicate InForce(rule: Rule, t: nat) {
    && rule.enabled
    && (|| rule.condition.Indefinite?
        || (rule.condition.Date? && rule.condition.until.Some? && t <= rule.condition.until.value))
  }

  predicate Legacy(c: Config, rule: Rule) {
    rule.id == c.ruleId && rule.prefix == c.root
  }

  /** Everything but the legacy broad rule. */
  function Kept(c: Config, rules: seq<Rule>): (kept: seq<Rule>) {
    if rules == [] then []
    else
      var n := |rules| - 1;
      if Legacy(c, rules[n]) then Kept(c, rules[..n]) else Kept(c, rules[..n]) + [rules[n]]
  }

  lemma {:induction false} KeptHasNoLegacy(c: Config, rules: seq<Rule>)
    ensures forall i | 0 <= i < |Kept(c, rules)| :: !Legacy(c, Kept(c, rules)[i])
  {
    if rules != [] {
      KeptHasNoLegacy(c, rules[..|rules| - 1]);
    }
  }

  /** Only rules with the broad rule's id and prefix, both, are dropped. */
  lemma {:induction false} KeptExactly(c: Config, rules: seq<Rule>)
    ensures forall r :: r in Kept(c, rules) <==> r in rules && !(r.id == c.ruleId && r.prefix == c.root)
  {
    if rules != [] {
      var n := |rules| - 1;
      KeptExactly(c, rules[..n]);
      assert rules == rules[..n] + [rules[n]];
    }
  }

  lemma {:induction false} KeptWithoutLegacy(c: Config, rules: seq<Rule>)
    requires forall i | 0 <= i < |rules| :: !Legacy(c, rules[i])
    ensures Kept(c, rules) == rules
  {
    if rules != [] {
      var n := |rules| - 1;
      KeptWithoutLegacy(c, rules[..n]);
      assert rules == rules[..n] + [rules[n]];
    }
  }

  /** The position a rule id has in a dictionary built from the list: the last one; |rules| if absent. */
  function Slot(rules: seq<Rule>, id: string): (k: nat)
    ensures k <= |rules|
    ensures k < |rules| ==> rules[k].id == id
    ensures forall i | k < i < |rules| :: rules[i].id != id
    ensures k == |rules| ==> forall i | 0 <= i < |rules| :: rules[i].id != id
  {
    if rules == [] then 0
    else
      var n := |rules| - 1;
      if rules[n].id == id then n
      else
        var k := Slot(rules[..n], id);
        if k == n then n + 1 else k
  }

  predicate Good(rule: Rule, wanted: Rule, until: nat) {
    Covers(rule, until) && rule.prefix == wanted.prefix
  }

  /** The kept rules after strengthening the first `n` namespaces. */
  function Applied(c: Config, kept: seq<Rule>, until: nat, n: nat): (rules: seq<Rule>)
    requires n <= 5
    ensures |kept| <= |rules|
  {
    if n == 0 then kept
    else
      var before, wanted := Applied(c, kept, until, n - 1), Wanted(c, n - 1, until);
      var slot := Slot(kept, wanted.id);
      if slot == |kept| then before + [wanted]
      else if Good(kept[slot], wanted, until) then before
      else before[slot := wanted]
  }

  /** What a dictionary from id to rule, built from the list, holds for an id. */
  function LastOf(rules: seq<Rule>, id: string): Option<Rule> {
    var slot := Slot(rules, id);
    if slot < |rules| then Some(rules[slot]) else None
  }

  /** Namespace `k` has no rule yet, or one that is not good until the given instant. */
  predicate NeedsWork(c: Config, rules: seq<Rule>, until: nat, k: nat)
    requires k < 5
  {
    var wanted := Wanted(c, k, until);
    var found := LastOf(rules, wanted.id);
    found.None? || !Good(found.value, wanted, until)
  }

  predicate Changed(c: Config, kept: seq<Rule>, until: nat, n: nat)
    requires n <= 5
  {
    exists k :: 0 <= k < n && NeedsWork(c, kept, until, k)
  }

  /** The rules on the server after a successful call; dropping a legacy rule alone is not written back. */
  function Ensured(c: Config, rules: seq<Rule>, until: nat): seq<Rule> {
    var kept := Kept(c, rules);
    if Changed(c, kept, until, 5) then Applied(c, kept, until, 5) else rules
  }

  /** Every namespace has, as the last rule of its id, one on its own prefix that covers the instant. */
  predicate StatusEnabled(c: Config, rules: seq<Rule>, now: nat) {
    forall k | 0 <= k < 5 :: !NeedsWork(c, rules, StatusHorizon(c, now), k)
  }

  /** Status checks allow one day of the lock period to have elapsed. */
  function StatusHorizon(c: Config, now: nat): nat {
    now + DAY * if c.lockDays > 0 then c.lockDays - 1 else 0
  }

  // ---------------------------------------------------------------- what a lock is, rule by rule

  /** The rule has this id, is on this prefix, and is in force until the instant. */
  ghost predicate RuleLocks(rule: Rule, id: string, prefix: string, t: nat) {
    rule.id == id && rule.prefix == prefix && InForce(rule, t)
  }

  /** The last rule of an id. */
  ghost predicate LastRule(rules: seq<Rule>, i: nat, id: string) {
    i < |rules| && rules[i].id == id && forall j | i < j < |rules| :: rules[j].id != id
  }

  /** The last rule of the id is on this prefix, and is in force until the instant. */
  ghost predicate LastRuleLocks(rules: seq<Rule>, id: string, prefix: string, t: nat) {
    exists i: nat :: LastRule(rules, i, id) && RuleLocks(rules[i], id, prefix, t)
  }

  /** The five namespaces of a repository are locked by rules until the instant. */
  ghost predicate RulesLock(c: Config, rules: seq<Rule>, t: nat) {
    && LastRuleLocks(rules, c.ruleId + "-data", c.root + "data/", t)
    && LastRuleLocks(rules, c.ruleId + "-index", c.root + "index/", t)
    && LastRuleLocks(rules, c.ruleId + "-snapshots", c.root + "snapshots/", t)
    && LastRuleLocks(rules, c.ruleId + "-keys", c.root + "keys/", t)
    && LastRuleLocks(rules, c.ruleId + "-config", c.root + "config", t)
  }

  lemma NeedsNoWorkExactly(c: Config, rules: seq<Rule>, t: nat, k: nat)
    requires k < 5
    ensures !NeedsWork(c, rules, t, k) <==> LastRuleLocks(rules, Wanted(c, k, t).id, Wanted(c, k, t).prefix, t)
  {
    var slot := Slot(rules, Wanted(c, k, t).id);
    if slot < |rules| {
      assert LastRule(rules, slot, Wanted(c, k, t).id);
    }
  }

  lemma WantedInFull(c: Config)
    ensures forall t :: Wanted(c, 0, t).id == c.ruleId + "-data" && Wanted(c, 0, t).prefix == c.root + "data/"
    ensures forall t :: Wanted(c, 1, t).id == c.ruleId + "-index" && Wanted(c, 1, t).prefix == c.root + "index/"
    ensures forall t :: Wanted(c, 2, t).id == c.ruleId + "-snapshots" && Wanted(c, 2, t).prefix == c.root + "snapshots/"
    ensures forall t :: Wanted(c, 3, t).id == c.ruleId + "-keys" && Wanted(c, 3, t).prefix == c.root + "keys/"
    ensures forall t :: Wanted(c, 4, t).id == c.ruleId + "-config" && Wanted(c, 4, t).prefix == c.root + "config"
  {
    assert forall k | 0 <= k < 5 :: c.ruleId + "-" + SUFFIXES[k] == c.ruleId + ("-" + SUFFIXES[k]);
  }

  /** No namespace needs work exactly when all five are locked. */
  lemma NothingNeedsWorkExactly(c: Config, rules: seq<Rule>, t: nat)
    ensures (forall k | 0 <= k < 5 :: !NeedsWork(c, rules, t, k)) <==> RulesLock(c, rules, t)
  {
    WantedInFull(c);
    NeedsNoWorkExactly(c, rules, t, 0);
    NeedsNoWorkExactly(c, rules, t, 1);
    NeedsNoWorkExactly(c, rules, t, 2);
    NeedsNoWorkExactly(c, rules, t, 3);
    NeedsNoWorkExactly(c, rules, t, 4);
  }

  // ---------------------------------------------------------------- S3 object lock

  type Key = string
  type Objects = map<Key, Option<nat>>

  /** Persistent repository objects; restic's own `locks/` stay deletable. */
  predicate Persistent(c: Config, key: Key) {
    key != "" && c.root <= key && !(c.root + "locks/" <= key)
  }

  /** Every persistent object has a retention that lasts at least until the instant. */
  ghost predicate ObjectsLock(c: Config, objects: Objects, t: nat) {
    forall key | key in objects && key != "" && c.root <= key && !(c.root + "locks/" <= key) ::
      objects[key].Some? && t <= objects[key].value
  }

  /** The object is untouched, or is a persistent one whose retention was short, absent or unreadable. */
  ghost predicate OnlyExtended(c: Config, key: Key, was: Option<nat>, now: Option<nat>, until: nat, unreadable: bool) {
    || now == was
    || (&& key != "" && c.root <= key && !(c.root + "locks/" <= key) && now == Some(until)
      && (unreadable || was.None? || was.value < until))
  }

  /** One object after a lock pass; a retention date that could not be read counts as absent. */
  function Relocked(until: nat, readable: bool, current: Option<nat>): Option<nat> {
    if readable && current.Some? && until <= current.value then current else Some(until)
  }

  /** The provider takes this retention in place of the one the object has. */
  predicate Accepts(c: Config, current: Option<nat>, wanted: Option<nat>) {
    c.enforces && current.Some? ==> wanted.Some? && current.value <= wanted.value
  }

  ghost predicate ObjectLockEffect(c: Config, s: Objects, s': Objects, until: nat, unreadable: set<Key>, ok: bool) {
    && s'.Keys == s.Keys
    && forall key | key in s ::
         || (s'[key] == LockedForm(c, key, until, unreadable, s[key]) && Accepts(c, s[key], s'[key]))
         || (!ok && s'[key] == s[key])
  }

  /** The first `n` listed objects have been locked, the others not touched. */
  ghost predicate LockedUpTo(
    c: Config, s: Objects, s': Objects, until: nat, unreadable: set<Key>, listing: seq<Key>, n: nat)
    requires n <= |listing| && forall m | 0 <= m < |listing| :: listing[m] in s
  {
    && s'.Keys == s.Keys
    && (forall key | key in s && key !in listing :: s'[key] == s[key])
    && (forall m | n <= m < |listing| :: listing[m] !in unreadable && s'[listing[m]] == s[listing[m]])
    && forall m | 0 <= m < n ::
         && s'[listing[m]] == LockedForm(c, listing[m], until, unreadable, s[listing[m]])
         && Accepts(c, s[listing[m]], s'[listing[m]])
  }

  function LockedForm(c: Config, key: Key, until: nat, unreadable: set<Key>, current: Option<nat>): Option<nat> {
    if Persistent(c, key) then Relocked(until, key !in unreadable, current) else current
  }

  lemma LockedOneMore(
    c: Config, s: Objects, mid: Objects, s': Objects, until: nat, unread: set<Key>, unread': set<Key>,
    listing: seq<Key>, n: nat)
    requires n < |listing| && forall m | 0 <= m < |listing| :: listing[m] in s
    requires forall i, j | 0 <= i < j < |listing| :: listing[i] != listing[j]
    requires LockedUpTo(c, s, mid, until, unread, listing, n)
    requires unread' == unread || unread' == unread + {listing[n]}
    requires s' == mid[listing[n] := LockedForm(c, listing[n], until, unread', s[listing[n]])]
    requires Accepts(c, s[listing[n]], s'[listing[n]])
    ensures LockedUpTo(c, s, s', until, unread', listing, n + 1)
  {
  }

  lemma StoppedPass(
    c: Config, s: Objects, s': Objects, until: nat, unread: set<Key>, unread': set<Key>, listing: seq<Key>, n: nat)
    requires n < |listing| && forall m | 0 <= m < |listing| :: listing[m] in s
    requires forall i, j | 0 <= i < j < |listing| :: listing[i] != listing[j]
    requires forall key | key in s && c.root <= key :: key in listing
    requires LockedUpTo(c, s, s', until, unread, listing, n)
    requires unread' == unread || unread' == unread + {listing[n]}
    ensures ObjectLockEffect(c, s, s', until, unread', false)
  {
  }

  // ---------------------------------------------------------------- buckets

  datatype Bucket = Bucket(rules: seq<Rule>, objects: Objects)

  /** New objects start without retention; existing ones are not rewritten. */
  function AddObjects(objects: Objects, keys: set<Key>): Objects {
    map key | key in objects.Keys + keys :: if key in objects then objects[key] else None
  }

  ghost predicate WriteEffect(b: Bucket, b': Bucket, keys: set<Key>) {
    b' == b.(objects := AddObjects(b.objects, keys))
  }

  /** Locking the bucket at `now` for at least `days`, by whichever control the provider has. */
  ghost predicate LockEffect(c: Config, b: Bucket, b': Bucket, now: nat, days: nat, unreadable: set<Key>, ok: bool) {
    var until := now + DAY * Max(c.lockDays, days);
    if c.isR2 then
      && b'.objects == b.objects
      && (b'.rules == Ensured(c, b.rules, until) || (!ok && b'.rules == b.rules))
    else
      b'.rules == b.rules && ObjectLockEffect(c, b.objects, b'.objects, until, unreadable, ok)
  }

  // ---------------------------------------------------------------- the replica

  class Replica {
    const c: Config
    var clock: nat
    var rules: seq<Rule>
    var objects: Objects

    constructor (c: Config, rules: seq<Rule>, objects: Objects)
      ensures this.c == c && this.rules == rules && this.objects == objects
    {
      this.c, this.clock, this.rules, this.objects := c, 0, rules, objects;
    }

    method Now() returns (t: nat)
      modifies this`clock
      ensures old(clock) <= t < clock
    {
      var pause: int := *;
      t := clock + if pause > 0 then pause else 0;
      clock := t + 1;
    }

    /** The dictionary lookup of a rule id over the kept rules. */
    method Lookup(kept: seq<Rule>, id: string) returns (slot: nat)
      ensures slot == Slot(kept, id)
    {
      slot := |kept|;
      var i := 0;
      while i < |kept|
        invariant i <= |kept|
        invariant slot == if Slot(kept[..i], id) == i then |kept| else Slot(kept[..i], id)
      {
        assert kept[..i + 1][..i] == kept[..i];
        if kept[i].id == id {
          slot := i;
        }
        i := i + 1;
      }
      assert kept[..i] == kept;
    }

    method DropLegacy(current: seq<Rule>) returns (kept: seq<Rule>)
      ensures kept == Kept(c, current)
    {
      kept := [];
      var i := 0;
      while i < |current|
        invariant i <= |current| && kept == Kept(c, current[..i])
      {
        assert current[..i + 1][..i] == current[..i];
        if !Legacy(c, current[i]) {
          kept := kept + [current[i]];
        }
        i := i + 1;
      }
      assert current[..i] == current;
    }

    /** One round of the strengthening loop, for namespace `k`. */
    method Strengthen(kept: seq<Rule>, updated: seq<Rule>, until: nat, k: nat) returns (next: seq<Rule>, touched: bool)
      requires k < 5 && updated == Applied(c, kept, until, k)
      ensures next == Applied(c, kept, until, k + 1)
      ensures touched == NeedsWork(c, kept, until, k)
    {
      var wanted := Wanted(c, k, until);
      var slot := Lookup(kept, wanted.id);
      if slot == |kept| {
        return updated + [wanted], true;
      }
      if Good(kept[slot], wanted, until) {
        return updated, false;
      }
      return updated[slot := wanted], true;
    }

    method StrengthenAll(kept: seq<Rule>, until: nat) returns (updated: seq<Rule>, changed: bool)
      ensures updated == Applied(c, kept, until, 5)
      ensures changed == Changed(c, kept, until, 5)
    {
      updated, changed := kept, false;
      var k := 0;
      while k < 5
        invariant k <= 5
        invariant updated == Applied(c, kept, until, k)
        invariant changed == Changed(c, kept, until, k)
      {
        var touched: bool;
        updated, touched := Strengthen(kept, updated, until, k);
        changed := changed || touched;
        k := k + 1;
      }
    }

    /** Edits the rule list that was read, in memory. */
    method EditRules(seen: seq<Rule>, until: nat) returns (updated: seq<Rule>, changed: bool)
      ensures updated == Applied(c, Kept(c, seen), until, 5)
      ensures changed == Changed(c, Kept(c, seen), until, 5)
    {
      var kept := DropLegacy(seen);
      updated, changed := StrengthenAll(kept, until);
    }

    /** Writes the whole list back, the second API call; when it fails it may still have been applied. */
    method PutRules(updated: seq<Rule>, written: bool)
      modifies this`rules
      ensures rules == updated || (!written && rules == old(rules))
    {
      var applied: bool := *;
      if written || applied {
        rules := updated;
      }
    }

    /** Edits the list that has been read and, where something must change, writes it back. */
    method EditAndPut(until: nat, written: bool) returns (ok: bool)
      modifies this`rules
      ensures ok <==> written || !Changed(c, Kept(c, old(rules)), until, 5)
      ensures rules == Ensured(c, old(rules), until) || (!ok && rules == old(rules))
    {
      var updated, changed := EditRules(rules, until);
      if changed {
        PutRules(updated, written);
      }
      ok := written || !changed;
    }

    /**
      Creates or strengthens the five rolling rules; `now` is the instant the horizon counts from.
      `answered` and `written` say which of the two API calls return.
     */
    method EnsureR2BucketLock(minimumDays: nat, answered: bool, written: bool) returns (ok: bool, now: nat)
      modifies this`clock, this`rules
      ensures ok ==> old(clock) <= now < clock
      ensures var until := now + DAY * Max(c.lockDays, minimumDays);
              rules == Ensured(c, old(rules), until) || (!ok && rules == old(rules))
      ensures var until := now + DAY * if c.lockDays < minimumDays then minimumDays else c.lockDays;
              && (ok ==> RulesLock(c, rules, until))
              && (ok <==> answered && (written || RulesLock(c, old(rules), until)))
    {
      ok, now := false, 0;
      if !answered { return; }
      now := Now();
      ok := EditAndPut(now + DAY * Max(c.lockDays, minimumDays), written);
      EnsuredLocks(c, old(rules), now + DAY * Max(c.lockDays, minimumDays));
      ChangedExactly(c, old(rules), now + DAY * Max(c.lockDays, minimumDays));
    }

    method R2BucketLockStatus() returns (enabled: bool, now: nat)
      modifies this`clock
      ensures old(clock) <= now < clock
      ensures enabled == StatusEnabled(c, rules, now)
      ensures enabled <==> RulesLock(c, rules, now + DAY * if c.lockDays == 0 then 0 else c.lockDays - 1)
    {
      now := Now();
      var desired := StatusHorizon(c, now);
      enabled := true;
      var k := 0;
      while k < 5
        invariant k <= 5
        invariant enabled <==> forall j | 0 <= j < k :: !NeedsWork(c, rules, desired, j)
        invariant old(clock) <= now < clock && rules == old(rules)
      {
        var wanted := Wanted(c, k, desired);
        var slot := Lookup(rules, wanted.id);
        var fine := slot < |rules| && Good(rules[slot], wanted, desired);
        assert fine == !NeedsWork(c, rules, desired, k);
        enabled := enabled && fine;
        k := k + 1;
      }
      NothingNeedsWorkExactly(c, rules, desired);
    }

    /** Reads one object's retention and extends it unless it already lasts long enough. */
    method LockObject(key: Key, until: nat) returns (ok: bool, readable: bool)
      requires key in objects
      modifies this`objects
      ensures objects == if ok then old(objects)[key := Relocked(until, readable, old(objects)[key])] else old(objects)
      ensures Accepts(c, old(objects)[key], objects[key])
    {
      readable := *;
      var accepted: bool := *;
      if readable && objects[key].Some? && until <= objects[key].value {
        return true, readable;
      }
      accepted := accepted && Accepts(c, objects[key], Some(until));
      if accepted {
        objects := objects[key := Some(until)];
      }
      ok := accepted;
    }

    /** Takes the next key of the listing, which may fail to arrive; lock files and the empty key are skipped. */
    method LockIfPersistent(key: Key, until: nat) returns (ok: bool, readable: bool)
      requires key in objects && c.root <= key
      modifies this`objects
      ensures ok ==>
                var was := old(objects)[key];
                objects == old(objects)[key := if Persistent(c, key) then Relocked(until, readable, was) else was]
      ensures !ok ==> objects == old(objects)
      ensures Accepts(c, old(objects)[key], objects[key])
    {
      var listed: bool := *;
      if !listed { return false, true; }
      if key == "" || c.root + "locks/" <= key { return true, true; }
      ok, readable := LockObject(key, until);
    }

    /** Locks every persistent object; `listing` is the paginated listing end to end. A refused write ends the pass. */
    method ApplyObjectLock(minimumDays: nat, listing: seq<Key>) returns (ok: bool, now: nat, ghost unreadable: set<Key>)
      requires forall n | 0 <= n < |listing| :: listing[n] in objects && c.root <= listing[n]
      requires forall key | key in objects && c.root <= key :: key in listing
      requires forall m, n | 0 <= m < n < |listing| :: listing[m] != listing[n]
      modifies this`clock, this`objects
      ensures old(clock) <= now < clock
      ensures ObjectLockEffect(c, old(objects), objects, now + DAY * Max(c.lockDays, minimumDays), unreadable, ok)
      ensures var until := now + DAY * if c.lockDays < minimumDays then minimumDays else c.lockDays;
              && (ok ==> ObjectsLock(c, objects, until)) && objects.Keys == old(objects).Keys
              && forall key | key in objects ::
                   OnlyExtended(c, key, old(objects)[key], objects[key], until, key in unreadable)
    {
      now := Now();
      unreadable := {};
      var until := now + DAY * Max(c.lockDays, minimumDays);
      var n := 0;
      while n < |listing|
        invariant n <= |listing| && old(clock) <= now < clock
        invariant LockedUpTo(c, old(objects), objects, until, unreadable, listing, n)
      {
        var key := listing[n];
        ghost var before, unread := objects, unreadable;
        var readable: bool;
        ok, readable := LockIfPersistent(key, until);
        if !readable {
          unreadable := unreadable + {key};
        }
        if !ok {
          StoppedPass(c, old(objects), objects, until, unread, unreadable, listing, n);
          return;
        }
        LockedOneMore(c, old(objects), before, objects, until, unread, unreadable, listing, n);
        n := n + 1;
      }
      ok := true;
    }

    ghost function View(): Bucket
      reads this
    {
      Bucket(rules, objects)
    }

    /**
      Copies a snapshot, confirms it arrived, and then locks the bucket. `newKeys` are the
      objects restic writes; `listing` is the bucket listing afterwards. `copied` says whether restic
      succeeds, `visible` whether the replica then shows the snapshot.
     */
    method CopySnapshot(newKeys: set<Key>, listing: seq<Key>, minimumDays: nat, copied: bool, visible: bool)
      returns (ok: bool, now: nat, ghost written: set<Key>, ghost unreadable: set<Key>, ghost mid: Bucket)
      requires forall n | 0 <= n < |listing| :: listing[n] in objects.Keys + newKeys && c.root <= listing[n]
      requires forall key | key in objects.Keys + newKeys && c.root <= key :: key in listing
      requires forall m, n | 0 <= m < n < |listing| :: listing[m] != listing[n]
      modifies this`clock, this`rules, this`objects
      ensures WriteEffect(old(View()), mid, written)
      ensures ok ==>
                && written == newKeys && old(clock) <= now < clock
                && LockEffect(c, mid, View(), now, minimumDays, unreadable, true)
      ensures ok ==>
                var until := now + DAY * if c.lockDays < minimumDays then minimumDays else c.lockDays;
                && copied && visible && newKeys <= objects.Keys
                && if c.isR2 then RulesLock(c, rules, until) else ObjectsLock(c, objects, until)
      ensures !ok ==> View() == mid || LockEffect(c, mid, View(), now, minimumDays, unreadable, false)
    {
      unreadable, now, ok := {}, 0, false;
      if !copied {
        var partial: set<Key> := *;
        written := partial;
        objects := AddObjects(objects, partial);
        mid := View();
        return;
      }
      written := newKeys;
      objects := AddObjects(objects, newKeys);
      mid := View();
      if !visible { return; }
      if c.isR2 {
        var answered: bool, written: bool := *, *;
        ok, now := EnsureR2BucketLock(minimumDays, answered, written);
      } else {
        ok, now, unreadable := ApplyObjectLock(minimumDays, listing);
      }
    }
  }

  // ---------------------------------------------------------------- what the rules protect

  /** A rule of the bucket forbids deleting the object until the instant. */
  ghost predicate Protected(rules: seq<Rule>, key: Key, t: nat) {
    exists i :: 0 <= i < |rules| && rules[i].prefix <= key && InForce(rules[i], t)
  }

  predicate InNamespace(c: Config, key: Key, k: nat)
    requires k < 5
  {
    c.root + NAMESPACES[k] <= key
  }

  lemma DistinctIds(c: Config, j: nat, k: nat, until: nat)
    requires j < k < 5
    ensures Wanted(c, j, until).id != Wanted(c, k, until).id
  {
    var n := |c.ruleId| + 1;
    assert Wanted(c, j, until).id[n..] == SUFFIXES[j] && Wanted(c, k, until).id[n..] == SUFFIXES[k];
    assert SUFFIXES[j][0] != SUFFIXES[k][0];
  }

  lemma ManagedIdIsNotLegacy(c: Config, k: nat, until: nat)
    requires k < 5
    ensures Wanted(c, k, until).id != c.ruleId
  {
  }

  // ---------------------------------------------------------------- strengthening, rule by rule

  /** Strengthening namespace `k` put the wanted rule at position `i`: in place of an old one, or appended. */
  ghost predicate Placed(c: Config, kept: seq<Rule>, until: nat, k: nat, i: nat, rule: Rule)
    requires k < 5
  {
    var slot := Slot(kept, Wanted(c, k, until).id);
    && rule == Wanted(c, k, until)
    && NeedsWork(c, kept, until, k)
    && (if slot < |kept| then i == slot else |kept| <= i)
  }

  /** Every rule of the strengthened list is the kept one at its position, or was placed there. */
  lemma {:induction false} AppliedOrigins(c: Config, kept: seq<Rule>, until: nat, n: nat, i: nat)
    requires n <= 5 && i < |Applied(c, kept, until, n)|
    ensures var rule := Applied(c, kept, until, n)[i];
            (i < |kept| && rule == kept[i]) || exists k :: 0 <= k < n && Placed(c, kept, until, k, i, rule)
  {
    if n > 0 {
      var before, rule := Applied(c, kept, until, n - 1), Applied(c, kept, until, n)[i];
      if i < |before| && rule == before[i] {
        AppliedOrigins(c, kept, until, n - 1, i);
      } else {
        assert Placed(c, kept, until, n - 1, i, rule);
      }
    }
  }

  /** Until its turn comes, the rules of namespace `k` are as they were, and so is where the last of them is. */
  lemma NotYetTouched(c: Config, kept: seq<Rule>, until: nat, n: nat, k: nat)
    requires n <= k < 5
    ensures var rules, id := Applied(c, kept, until, n), Wanted(c, k, until).id;
            && (Slot(kept, id) < |kept| ==>
                  Slot(rules, id) == Slot(kept, id) && rules[Slot(kept, id)] == kept[Slot(kept, id)])
            && (Slot(kept, id) == |kept| ==> Slot(rules, id) == |rules|)
  {
    var rules, id := Applied(c, kept, until, n), Wanted(c, k, until).id;
    forall i | 0 <= i < |rules|
      ensures i < |kept| && kept[i].id == id ==> rules[i] == kept[i]
      ensures rules[i].id == id ==> i < |kept| && rules[i] == kept[i]
    {
      AppliedOrigins(c, kept, until, n, i);
      if !(i < |kept| && rules[i] == kept[i]) {
        var j :| 0 <= j < n && Placed(c, kept, until, j, i, rules[i]);
        DistinctIds(c, j, k, until);
      }
    }
  }

  lemma LastOfOthers(rules: seq<Rule>, rule: Rule, id: string, slot: nat)
    requires rule.id != id
    ensures LastOf(rules + [rule], id) == LastOf(rules, id)
    ensures slot < |rules| && rules[slot].id != id ==> LastOf(rules[slot := rule], id) == LastOf(rules, id)
  {
    assert (rules + [rule])[..|rules|] == rules;
    if slot < |rules| && rules[slot].id != id {
      var updated, k := rules[slot := rule], Slot(rules, id);
      assert forall i | 0 <= i < |rules| :: (updated[i].id == id) == (rules[i].id == id);
      assert Slot(updated, id) == k;
    }
  }

  /** The turn of namespace `n` leaves it good. */
  lemma TurnMakesGood(c: Config, kept: seq<Rule>, until: nat, n: nat)
    requires n < 5
    ensures !NeedsWork(c, Applied(c, kept, until, n + 1), until, n)
  {
    NotYetTouched(c, kept, until, n, n);
    var before, after, wanted := Applied(c, kept, until, n), Applied(c, kept, until, n + 1), Wanted(c, n, until);
    var slot := Slot(kept, wanted.id);
    var at := if slot == |kept| then |before| else slot;
    assert after[at].id == wanted.id && Good(after[at], wanted, until);
    assert forall i | at < i < |after| :: after[i].id != wanted.id;
    assert Slot(after, wanted.id) == at;
  }

  /** ... and leaves the last rules of the other namespaces alone. */
  lemma TurnKeepsOthers(c: Config, kept: seq<Rule>, until: nat, n: nat, k: nat)
    requires k < n < 5
    ensures var id := Wanted(c, k, until).id;
            LastOf(Applied(c, kept, until, n + 1), id) == LastOf(Applied(c, kept, until, n), id)
  {
    NotYetTouched(c, kept, until, n, n);
    DistinctIds(c, k, n, until);
    LastOfOthers(Applied(c, kept, until, n), Wanted(c, n, until), Wanted(c, k, until).id,
      Slot(kept, Wanted(c, n, until).id));
  }

  /** Each strengthened namespace has its good rule, as the last one of its id. */
  lemma {:induction false} AppliedIsGood(c: Config, kept: seq<Rule>, until: nat, n: nat, k: nat)
    requires k < n <= 5
    ensures !NeedsWork(c, Applied(c, kept, until, n), until, k)
  {
    if k == n - 1 {
      TurnMakesGood(c, kept, until, k);
    } else {
      AppliedIsGood(c, kept, until, n - 1, k);
      TurnKeepsOthers(c, kept, until, n - 1, k);
    }
  }

  // ---------------------------------------------------------------- one call

  /** Dropping legacy rules does not change which rule of a namespace comes last. */
  lemma {:induction false} KeptLast(c: Config, rules: seq<Rule>, id: string)
    requires id != c.ruleId
    ensures LastOf(Kept(c, rules), id) == LastOf(rules, id)
  {
    if rules != [] {
      var n := |rules| - 1;
      KeptLast(c, rules[..n], id);
      var kept := Kept(c, rules[..n]);
      assert (kept + [rules[n]])[..|kept|] == kept;
    }
  }

  lemma KeptNeedsSameWork(c: Config, rules: seq<Rule>, until: nat, k: nat)
    requires k < 5
    ensures NeedsWork(c, Kept(c, rules), until, k) == NeedsWork(c, rules, until, k)
  {
  }

  /** After a successful call every namespace of the server's rules is covered until the horizon. */
  lemma EnsuredIsGood(c: Config, rules: seq<Rule>, until: nat, k: nat)
    requires k < 5
    ensures !NeedsWork(c, Ensured(c, rules, until), until, k)
  {
    var kept := Kept(c, rules);
    if Changed(c, kept, until, 5) {
      AppliedIsGood(c, kept, until, 5, k);
      assert Ensured(c, rules, until) == Applied(c, kept, until, 5);
    } else {
      assert !NeedsWork(c, kept, until, k);
      KeptNeedsSameWork(c, rules, until, k);
      assert Ensured(c, rules, until) == rules;
    }
  }

  /** After a successful call each of the five namespaces has an enabled rule that lasts until the horizon. */
  lemma EnsuredLocks(c: Config, rules: seq<Rule>, until: nat)
    ensures RulesLock(c, Ensured(c, rules, until), until)
  {
    forall k | 0 <= k < 5 ensures !NeedsWork(c, Ensured(c, rules, until), until, k) {
      EnsuredIsGood(c, rules, until, k);
    }
    NothingNeedsWorkExactly(c, Ensured(c, rules, until), until);
  }

  /** There is something to write exactly when some namespace is not locked until the horizon yet. */
  lemma ChangedExactly(c: Config, rules: seq<Rule>, until: nat)
    ensures Changed(c, Kept(c, rules), until, 5) <==> !RulesLock(c, rules, until)
  {
    forall k | 0 <= k < 5 ensures NeedsWork(c, Kept(c, rules), until, k) == NeedsWork(c, rules, until, k) {
      KeptNeedsSameWork(c, rules, until, k);
    }
    NothingNeedsWorkExactly(c, rules, until);
  }
}
