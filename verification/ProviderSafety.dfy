/**
  What provider locks guarantee: one call covers every namespace, disturbs nothing else and is
  idempotent; over every run of copies and holds no promised lock is lost.
 */
module ProviderSafety {
  import opened Common
  import opened ProviderLocks

  // ---------------------------------------------------------------- one R2 call

  predicate Managed(c: Config, id: string) {
    id in {c.ruleId + "-data", c.ruleId + "-index", c.ruleId + "-snapshots", c.ruleId + "-keys", c.ruleId + "-config"}
  }

  lemma WantedIsManaged(c: Config, k: nat, until: nat)
    requires k < 5
    ensures Managed(c, Wanted(c, k, until).id)
  {
    WantedInFull(c);
  }

  /** Everybody else's rules, in order. */
  function Others(c: Config, rules: seq<Rule>): seq<Rule> {
    if rules == [] then []
    else
      var last := rules[|rules| - 1];
      Others(c, rules[..|rules| - 1]) + if Other(c, last) then [last] else []
  }

  predicate Other(c: Config, rule: Rule) {
    !Managed(c, rule.id) && !(rule.id == c.ruleId && rule.prefix == c.root)
  }

  lemma OthersOfAppended(c: Config, rules: seq<Rule>, last: Rule)
    ensures Others(c, rules + [last]) == Others(c, rules) + if Other(c, last) then [last] else []
  {
  }

  lemma {:induction false} KeptKeepsOthers(c: Config, rules: seq<Rule>)
    ensures Others(c, Kept(c, rules)) == Others(c, rules)
  {
    if rules != [] {
      var n := |rules| - 1;
      KeptKeepsOthers(c, rules[..n]);
      if !Legacy(c, rules[n]) {
        OthersOfAppended(c, Kept(c, rules[..n]), rules[n]);
      }
    }
  }

  lemma {:induction false} ReplacingManagedKeepsOthers(c: Config, rules: seq<Rule>, slot: nat, rule: Rule)
    requires slot < |rules| && Managed(c, rules[slot].id) && Managed(c, rule.id)
    ensures Others(c, rules[slot := rule]) == Others(c, rules)
  {
    var n := |rules| - 1;
    if slot == n {
      assert rules[slot := rule][..n] == rules[..n];
    } else {
      ReplacingManagedKeepsOthers(c, rules[..n], slot, rule);
      assert rules[slot := rule][..n] == rules[..n][slot := rule];
    }
  }

  lemma {:induction false} AppliedKeepsOthers(c: Config, kept: seq<Rule>, until: nat, n: nat)
    requires n <= 5
    ensures Others(c, Applied(c, kept, until, n)) == Others(c, kept)
  {
    if n > 0 {
      AppliedKeepsOthers(c, kept, until, n - 1);
      var before, wanted := Applied(c, kept, until, n - 1), Wanted(c, n - 1, until);
      WantedIsManaged(c, n - 1, until);
      var slot := Slot(kept, wanted.id);
      if slot == |kept| {
        assert (before + [wanted])[..|before|] == before;
      } else {
        NotYetTouched(c, kept, until, n - 1, n - 1);
        ReplacingManagedKeepsOthers(c, before, slot, wanted);
      }
    }
  }

  /** Unmanaged rules stay, in their order; only the legacy broad rule may go. */
  lemma EnsureKeepsOthers(c: Config, rules: seq<Rule>, until: nat)
    ensures Others(c, Ensured(c, rules, until)) == Others(c, rules)
  {
    KeptKeepsOthers(c, rules);
    AppliedKeepsOthers(c, Kept(c, rules), until, 5);
  }

  /** A managed rule already on its own prefix never loses coverage. */
  lemma ManagedRuleNeverWeakened(c: Config, kept: seq<Rule>, until: nat, i: nat, k: nat, t: nat)
    requires i < |kept| && k < 5 && kept[i].id == Wanted(c, k, until).id && kept[i].prefix == Wanted(c, k, until).prefix
    requires InForce(kept[i], t)
    ensures InForce(Applied(c, kept, until, 5)[i], t) && Applied(c, kept, until, 5)[i].prefix == kept[i].prefix
  {
    var rule := Applied(c, kept, until, 5)[i];
    AppliedOrigins(c, kept, until, 5, i);
    if rule != kept[i] {
      var j :| 0 <= j < 5 && Placed(c, kept, until, j, i, rule);
      if j < k { DistinctIds(c, j, k, until); }
      if k < j { DistinctIds(c, k, j, until); }
    }
  }

  /** Running again for the same or an earlier horizon changes nothing. */
  lemma EnsureIsIdempotent(c: Config, rules: seq<Rule>, until: nat, earlier: nat)
    requires earlier <= until
    ensures var server := Ensured(c, rules, until);
            !Changed(c, Kept(c, server), earlier, 5) && Ensured(c, server, earlier) == server
  {
    var server := Ensured(c, rules, until);
    forall k | 0 <= k < 5 ensures !NeedsWork(c, Kept(c, server), earlier, k) {
      EnsuredIsGood(c, rules, until, k);
      KeptNeedsSameWork(c, server, earlier, k);
      assert Wanted(c, k, until).id == Wanted(c, k, earlier).id;
    }
  }

  /** The legacy broad rule leaves the server exactly when the call had something else to write. */
  lemma LegacyLeavesOnlyWithAWrite(c: Config, rules: seq<Rule>, until: nat)
    ensures (exists r :: r in Ensured(c, rules, until) && Legacy(c, r)) <==>
            !Changed(c, Kept(c, rules), until, 5) && exists r :: r in rules && Legacy(c, r)
  {
    var kept := Kept(c, rules);
    var server := Applied(c, kept, until, 5);
    KeptHasNoLegacy(c, rules);
    forall i | 0 <= i < |server| ensures !Legacy(c, server[i]) {
      AppliedOrigins(c, kept, until, 5, i);
      if !(i < |kept| && server[i] == kept[i]) {
        var j :| 0 <= j < 5 && Placed(c, kept, until, j, i, server[i]);
        ManagedIdIsNotLegacy(c, j, until);
      }
    }
  }

  /** The rule of namespace `k` protects up to the instant and no further. */
  ghost predicate EndsAt(c: Config, rules: seq<Rule>, k: nat, until: nat)
    requires k < 5
  {
    var rule := LastOf(rules, Wanted(c, k, until).id);
    rule.Some? && rule.value.condition == Date(Some(until))
  }

  /**
    Status stays enabled while the elapsed time is within the slack of the horizon; if some
    namespace's rule ends at the horizon, it reports disabled from then on.
   */
  lemma StatusAfterEnsure(c: Config, rules: seq<Rule>, now: nat, minimumDays: nat, later: nat, k: nat)
    requires now <= later && c.lockDays >= 1 && k < 5
    ensures var m := Max(c.lockDays, minimumDays); var server := Ensured(c, rules, now + DAY * m);
            && (later - now <= DAY * (m - (c.lockDays - 1)) ==> StatusEnabled(c, server, later))
            && (EndsAt(c, server, k, now + DAY * m) && later - now > DAY * (m - (c.lockDays - 1)) ==>
              !StatusEnabled(c, server, later))
  {
    var m := Max(c.lockDays, minimumDays);
    var until, server := now + DAY * m, Ensured(c, rules, now + DAY * m);
    var desired := StatusHorizon(c, later);
    assert DAY * (m - (c.lockDays - 1)) == DAY * m - DAY * (c.lockDays - 1);
    if desired <= until {
      forall j | 0 <= j < 5 ensures !NeedsWork(c, server, desired, j) {
        EnsuredIsGood(c, rules, until, j);
        assert Wanted(c, j, until).id == Wanted(c, j, desired).id;
      }
    } else if EndsAt(c, server, k, until) {
      assert Wanted(c, k, until).id == Wanted(c, k, desired).id;
      assert NeedsWork(c, server, desired, k);
    }
  }

  // ---------------------------------------------------------------- what a write changes

  lemma GoodRuleProtects(c: Config, rules: seq<Rule>, until: nat, k: nat, key: Key, t: nat)
    requires k < 5 && InNamespace(c, key, k) && !NeedsWork(c, rules, until, k) && t <= until
    ensures Protected(rules, key, t)
  {
  }

  /** Namespace `k` needs work, and its rule is at this position. */
  predicate TakesSlot(c: Config, kept: seq<Rule>, until: nat, k: nat, i: nat)
    requires k < 5
  {
    NeedsWork(c, kept, until, k) && Slot(kept, Wanted(c, k, until).id) == i
  }

  /** No namespace in need of work has its rule here, so the call leaves the rule here alone. */
  ghost predicate Spared(c: Config, kept: seq<Rule>, until: nat, i: nat) {
    forall k | 0 <= k < 5 :: !TakesSlot(c, kept, until, k, i)
  }

  lemma {:induction false} UntouchedAt(c: Config, kept: seq<Rule>, until: nat, n: nat, i: nat)
    requires n <= 5 && i < |kept|
    requires forall k | 0 <= k < n :: !TakesSlot(c, kept, until, k, i)
    ensures Applied(c, kept, until, n)[i] == kept[i]
  {
    if n > 0 {
      UntouchedAt(c, kept, until, n - 1, i);
      assert !TakesSlot(c, kept, until, n - 1, i);
    }
  }

  lemma {:induction false} RewrittenAt(c: Config, kept: seq<Rule>, until: nat, n: nat, i: nat, k: nat)
    requires k < n <= 5 && i < |kept| && TakesSlot(c, kept, until, k, i)
    ensures Applied(c, kept, until, n)[i] == Wanted(c, k, until)
  {
    if k < n - 1 {
      RewrittenAt(c, kept, until, n - 1, i, k);
      DistinctIds(c, k, n - 1, until);
    }
  }

  /** A spared rule reaches this object and this instant. */
  ghost predicate SparedRuleProtects(c: Config, kept: seq<Rule>, until: nat, key: Key, t: nat) {
    exists i :: 0 <= i < |kept| && Spared(c, kept, until, i) && kept[i].prefix <= key && InForce(kept[i], t)
  }

  lemma SparedStillProtects(c: Config, kept: seq<Rule>, until: nat, key: Key, t: nat)
    requires until < t
    ensures Protected(Applied(c, kept, until, 5), key, t) <==> SparedRuleProtects(c, kept, until, key, t)
  {
    var server := Applied(c, kept, until, 5);
    if Protected(server, key, t) {
      var i :| 0 <= i < |server| && server[i].prefix <= key && InForce(server[i], t);
      AppliedOrigins(c, kept, until, 5, i);
      assert i < |kept|;
      if !Spared(c, kept, until, i) {
        var k :| 0 <= k < 5 && TakesSlot(c, kept, until, k, i);
        RewrittenAt(c, kept, until, 5, i, k);
      }
    }
    if SparedRuleProtects(c, kept, until, key, t) {
      var i :| 0 <= i < |kept| && Spared(c, kept, until, i) && kept[i].prefix <= key && InForce(kept[i], t);
      UntouchedAt(c, kept, until, 5, i);
      assert server[i].prefix <= key && InForce(server[i], t);
    }
  }

  /**
    After a call that wrote, a persistent object is protected exactly up to the horizon, or further
    by a rule that no namespace in need of work had to give up.
   */
  lemma ProtectionAfterWrite(c: Config, rules: seq<Rule>, until: nat, k: nat, key: Key, t: nat)
    requires k < 5 && InNamespace(c, key, k) && Changed(c, Kept(c, rules), until, 5)
    ensures Protected(Ensured(c, rules, until), key, t) <==>
            t <= until || SparedRuleProtects(c, Kept(c, rules), until, key, t)
  {
    if t <= until {
      EnsuredIsGood(c, rules, until, k);
      GoodRuleProtects(c, Ensured(c, rules, until), until, k, key, t);
    } else {
      SparedStillProtects(c, Kept(c, rules), until, key, t);
    }
  }

  /** A rule this code may leave: not the legacy broad rule, and a managed id only on its own prefix. */
  ghost predicate TidyRule(c: Config, rule: Rule) {
    !Legacy(c, rule) && forall k | 0 <= k < 5 && rule.id == Wanted(c, k, 0).id :: rule.prefix == Wanted(c, k, 0).prefix
  }

  ghost predicate Tidy(c: Config, rules: seq<Rule>) {
    forall i | 0 <= i < |rules| :: TidyRule(c, rules[i])
  }

  lemma WantedIsTidy(c: Config, j: nat, until: nat)
    requires j < 5
    ensures TidyRule(c, Wanted(c, j, until))
  {
    ManagedIdIsNotLegacy(c, j, until);
    forall k | 0 <= k < 5 && Wanted(c, j, until).id == Wanted(c, k, 0).id ensures k == j {
      if j < k { DistinctIds(c, j, k, 0); }
      if k < j { DistinctIds(c, k, j, 0); }
    }
  }

  lemma TidyHasNoLegacy(c: Config, rules: seq<Rule>)
    requires Tidy(c, rules)
    ensures Kept(c, rules) == rules
  {
  }

  lemma EnsureKeepsTidy(c: Config, rules: seq<Rule>, until: nat)
    requires Tidy(c, rules)
    ensures Tidy(c, Ensured(c, rules, until))
  {
    TidyHasNoLegacy(c, rules);
    var server := Applied(c, rules, until, 5);
    forall i | 0 <= i < |server| ensures TidyRule(c, server[i]) {
      AppliedOrigins(c, rules, until, 5, i);
      if !(i < |rules| && server[i] == rules[i]) {
        var j :| 0 <= j < 5 && Placed(c, rules, until, j, i, server[i]);
        WantedIsTidy(c, j, until);
      }
    }
  }

  /** From tidy rules, no object anywhere loses protection. */
  lemma TidyEnsureNeverWeakens(c: Config, rules: seq<Rule>, until: nat, key: Key, t: nat)
    requires Tidy(c, rules) && Protected(rules, key, t)
    ensures Protected(Ensured(c, rules, until), key, t)
  {
    TidyHasNoLegacy(c, rules);
    if Changed(c, rules, until, 5) {
      var i :| 0 <= i < |rules| && rules[i].prefix <= key && InForce(rules[i], t);
      var server := Applied(c, rules, until, 5);
      AppliedOrigins(c, rules, until, 5, i);
      if server[i] != rules[i] {
        var j :| 0 <= j < 5 && Placed(c, rules, until, j, i, server[i]);
        assert TidyRule(c, rules[i]) && rules[i].id == Wanted(c, j, 0).id;
        ManagedRuleNeverWeakened(c, rules, until, i, j, t);
      }
      assert server[i].prefix <= key && InForce(server[i], t);
    }
  }

  /** Why tidiness is needed: an indefinite legacy rule gives way to a dated one. */
  lemma LegacyRuleCanOutlastItsReplacement()
    ensures exists c, rules, until, key, t ::
              InNamespace(c, key, 0) && Protected(rules, key, t) && !Protected(Ensured(c, rules, until), key, t)
  {
    var c := Config("lock", "", 30, true, false);
    var legacy := Rule("lock", true, "", Indefinite);
    var rules, until, t := [legacy], 30 * DAY, 31 * DAY;
    var key := "data/0";
    assert rules[..0] == [];
    assert Kept(c, rules) == [];
    assert NeedsWork(c, [], until, 0);
    assert Protected(rules, key, t) by { assert rules[0].prefix <= key && InForce(rules[0], t); }
    ProtectionAfterWrite(c, rules, until, 0, key, t);
  }

  // ---------------------------------------------------------------- one S3 pass

  /**
    A pass that returned has moved an object's retention earlier exactly when it could not read it and
    its own horizon is earlier. No pass does, finished or not, where the provider enforces its locks.
   */
  lemma ShortenedExactlyWhenUnreadable(
    c: Config, s: Objects, s': Objects, until: nat, unreadable: set<Key>, ok: bool, key: Key)
    requires ObjectLockEffect(c, s, s', until, unreadable, ok) && key in s && s[key].Some?
    ensures s'[key].Some?
    ensures ok ==> (s'[key].value < s[key].value <==> Persistent(c, key) && key in unreadable && until < s[key].value)
    ensures c.enforces ==> s[key].value <= s'[key].value
  {
  }

  // ---------------------------------------------------------------- one namespace, one call

  /** The locked namespaces are persistent objects; `locks/` is in none of them. */
  lemma NamespacesArePersistent(c: Config, key: Key, k: nat)
    requires k < 5 && InNamespace(c, key, k)
    ensures Persistent(c, key)
  {
    var n := |c.root|;
    assert key[n] == (c.root + NAMESPACES[k])[n] == NAMESPACES[k][0];
    assert (c.root + "locks/")[n] == 'l';
  }

  /** A namespace that needs no work keeps the rule that comes last. */
  lemma {:induction false} SpareNamespaceUntouched(c: Config, kept: seq<Rule>, until: nat, n: nat, k: nat)
    requires n <= 5 && k < 5 && !NeedsWork(c, kept, until, k)
    ensures LastOf(Applied(c, kept, until, n), Wanted(c, k, until).id) == LastOf(kept, Wanted(c, k, until).id)
  {
    if n > 0 {
      SpareNamespaceUntouched(c, kept, until, n - 1, k);
      if k < n - 1 {
        TurnKeepsOthers(c, kept, until, n - 1, k);
      } else if n - 1 < k {
        NotYetTouched(c, kept, until, n, k);
      }
    }
  }

  /** A namespace that needed work ends up with the wanted rule as its last. */
  lemma {:induction false} WorkedNamespaceHoldsWanted(c: Config, kept: seq<Rule>, until: nat, n: nat, k: nat)
    requires k < n <= 5 && NeedsWork(c, kept, until, k)
    ensures LastOf(Applied(c, kept, until, n), Wanted(c, k, until).id) == Some(Wanted(c, k, until))
  {
    var before, after, wanted := Applied(c, kept, until, n - 1), Applied(c, kept, until, n), Wanted(c, k, until);
    if k < n - 1 {
      WorkedNamespaceHoldsWanted(c, kept, until, n - 1, k);
      TurnKeepsOthers(c, kept, until, n - 1, k);
    } else {
      NotYetTouched(c, kept, until, k, k);
      var slot := Slot(kept, wanted.id);
      var at := if slot == |kept| then |before| else slot;
      assert after[at] == wanted;
      assert forall i | at < i < |after| :: after[i].id != wanted.id;
      assert Slot(after, wanted.id) == at;
    }
  }

  /**
    Writing back an edited list leaves a namespace short of an instant exactly when the horizon and
    the list that was read both are.
   */
  lemma ShortExactlyWhenBothAre(c: Config, seen: seq<Rule>, until: nat, k: nat, t: nat)
    requires k < 5 && Changed(c, Kept(c, seen), until, 5)
    ensures NeedsWork(c, Applied(c, Kept(c, seen), until, 5), t, k) <==> until < t && NeedsWork(c, seen, t, k)
  {
    var kept := Kept(c, seen);
    assert Ensured(c, seen, until) == Applied(c, kept, until, 5);
    assert Wanted(c, k, until).id == Wanted(c, k, t).id;
    KeptNeedsSameWork(c, seen, t, k);
    if t <= until {
      EnsuredIsGood(c, seen, until, k);
    } else if NeedsWork(c, kept, until, k) {
      WorkedNamespaceHoldsWanted(c, kept, until, 5, k);
      NeedsWorkLater(c, kept, until, t, k);
    } else {
      SpareNamespaceUntouched(c, kept, until, 5, k);
    }
  }

  lemma NeedsWorkLater(c: Config, rules: seq<Rule>, until: nat, t: nat, k: nat)
    requires k < 5 && until <= t && NeedsWork(c, rules, until, k)
    ensures NeedsWork(c, rules, t, k)
  {
  }
}
