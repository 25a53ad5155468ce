// What users of transactions rely on, as consequences of the commit refinement.
module CommitTheorems {
  import opened Prelude
  import opened Ffi
  import opened CStrings
  import opened Rules
  import opened Encoding
  import opened Decoding
  import opened PfKernel
  import opened CommitSpec
  import opened CommitProofs
  import opened Changes

  // ---- Override of the active rulesets ----

  /** The rulesets after are those before, overridden by the change map. */
  ghost predicate Overridden(c: ChangeMap, w: World, w': World) {
    forall key ::
      match Wanted(c, key)
      case Some(rules) => Holds(w'.ActiveOf(key), rules)
      case None => Steady(key, w.plan) ==> w'.ActiveOf(key) == w.ActiveOf(key)
  }

  lemma ReplacedIsOverride(jobs: seq<Job>, c: ChangeMap, w: World, w': World)
    requires Covers(jobs, c) && Replaced(jobs, w, w')
    ensures Overridden(c, w, w')
  {
    forall key
      ensures match Wanted(c, key)
              case Some(rules) => Holds(w'.ActiveOf(key), rules)
              case None => Steady(key, w.plan) ==> w'.ActiveOf(key) == w.ActiveOf(key)
    {
      if Wanted(c, key).Some? {
        var m :| 0 <= m < |jobs| && jobs[m].Key() == key;
        assert Holds(w'.ActiveOf(jobs[m].Key()), jobs[m].rules);
      } else {
        assert Untouched(key, jobs);
      }
    }
  }

  /** A commit is a map override when it succeeds and changes no ruleset when it fails. */
  lemma CommitOverrides(p: Partition, c: ChangeMap, w: World)
    requires Partitions(p, c)
    ensures var (r, w') := Commit(JobsOf(p), w);
            && (r.Ok? ==> Overridden(c, w, w'))
            && (r.Err? ==> Unchanged(w, w'))
  {
    PartitionCovers(p, c);
    CommitRefinesVerdict(JobsOf(p), w);
    if Commit(JobsOf(p), w).0.Ok? {
      ReplacedIsOverride(JobsOf(p), c, w, Commit(JobsOf(p), w).1);
    }
  }

  /** The rules a successful commit leaves active read back as the rules that were asked for. */
  lemma CommittedRulesReadBack(p: Partition, c: ChangeMap, w: World, key: Key, k: nat)
    requires Partitions(p, c) && Wanted(c, key).Some? && k < |Wanted(c, key).value|
    ensures var (r, w') := Commit(JobsOf(p), w);
            var rules, active := Wanted(c, key).value, w'.ActiveOf(key);
            r.Ok? ==>
              && |active| == |rules|
              && Acceptable(rules[k]) && Decode(active[k]) == Some(ViewOf(rules[k]))
  {
    hide Commit, Wanted, InstalledForm, Acceptable, Decode, ViewOf;
    CommitOverrides(p, c, w);
    var (r, w') := Commit(JobsOf(p), w);
    if r.Ok? {
      assert Holds(w'.ActiveOf(key), Wanted(c, key).value);
      AcceptanceIsExact(Wanted(c, key).value[k]);
      RuleRoundTrip(Wanted(c, key).value[k]);
    }
  }

  // ---- The element array ----

  /** How many fields of the changes are set. */
  function SetFields(c: ChangeMap): nat {
    |FilterChanges(c)| + |NatChanges(c)| + |RedirectChanges(c)| + |ScrubChanges(c)|
  }

  /** The kinds come in this order. */
  function Rank(ruleset: int): int {
    if ruleset == PF_RULESET_FILTER then 0
    else if ruleset == PF_RULESET_NAT then 1
    else if ruleset == PF_RULESET_RDR then 2
    else 3
  }

  lemma JobsByRank(p: Partition)
    ensures var jobs := JobsOf(p);
            && |jobs| == |p.filters| + |p.nats| + |p.redirects| + |p.scrubs|
            && forall m, n :: 0 <= m < n < |jobs| ==> Rank(jobs[m].Key().ruleset) <= Rank(jobs[n].Key().ruleset)
  {
  }

  /** The array has one element per set field, grouped by kind, and no two name the same ruleset. */
  lemma OneElementPerField(p: Partition, c: ChangeMap)
    requires Partitions(p, c) && Elements(JobsOf(p)).Ok?
    ensures var elements := Elements(JobsOf(p)).value;
            && |elements| == SetFields(c)
            && (forall m, n :: 0 <= m < n < |elements| ==>
                  && Rank(elements[m].rsNum) <= Rank(elements[n].rsNum)
                  && (elements[m].anchor, elements[m].rsNum) != (elements[n].anchor, elements[n].rsNum))
  {
    hide Elements, NewElement, JobsOf, Lists, NameOf, Rank;
    var jobs, elements := JobsOf(p), Elements(JobsOf(p)).value;
    PartitionCovers(p, c);
    ElementsAreOf(jobs);
    JobsByRank(p);
    ListsCount(p.filters, FilterChanges(c));
    ListsCount(p.nats, NatChanges(c));
    ListsCount(p.redirects, RedirectChanges(c));
    ListsCount(p.scrubs, ScrubChanges(c));
    forall m, n | 0 <= m < n < |elements|
      ensures Rank(elements[m].rsNum) <= Rank(elements[n].rsNum)
      ensures (elements[m].anchor, elements[m].rsNum) != (elements[n].anchor, elements[n].rsNum)
    {
      assert ElementKey(elements[m]) == jobs[m].Key() && ElementKey(elements[n]) == jobs[n].Key();
    }
  }

  // ---- Exact acceptance ----

  /** The ioctls that adding a rule takes. */
  function RuleCalls(rule: Rule): nat {
    if WantsPool(rule) then 3 else 2
  }

  function RulesCalls(rules: seq<Rule>, j: nat): nat
    requires j <= |rules|
    decreases |rules| - j
  {
    if j == |rules| then 0 else RuleCalls(rules[j]) + RulesCalls(rules, j + 1)
  }

  function JobsCalls(jobs: seq<Job>, i: nat): nat
    requires i <= |jobs|
    decreases |jobs| - i
  {
    if i == |jobs| then 0 else RulesCalls(jobs[i].rules, 0) + JobsCalls(jobs, i + 1)
  }

  /** None of the next `n` calls is refused. */
  predicate Served(plan: seq<Turn>, n: nat) {
    forall i :: 0 <= i < n && i < |plan| ==> plan[i].Serve?
  }

  function RestOf(plan: seq<Turn>, n: nat): seq<Turn> {
    if n <= |plan| then plan[n..] else []
  }

  lemma ServedSplit(plan: seq<Turn>, m: nat, n: nat)
    ensures Served(plan, m + n) <==> Served(plan, m) && Served(RestOf(plan, m), n)
    ensures RestOf(RestOf(plan, m), n) == RestOf(plan, m + n)
  {
  }

  lemma DropNothing(plan: seq<Turn>)
    ensures Served(plan, 0) && RestOf(plan, 0) == plan
  {
  }

  lemma PopServes(plan: seq<Turn>)
    ensures Pop(plan).0.Ok? <==> Served(plan, 1)
    ensures Pop(plan).1 == RestOf(plan, 1)
  {
  }

  lemma NoPoolNoObjection(rule: Rule)
    ensures !WantsPool(rule) ==> PoolObjection(rule).None?
  {
  }

  lemma RuleVerdictExact(rule: Rule, plan: seq<Turn>)
    ensures var (r, rest) := RuleVerdict(rule, plan);
            && (r.Ok? <==> Acceptable(rule) && Served(plan, RuleCalls(rule)))
            && (r.Ok? ==> rest == RestOf(plan, RuleCalls(rule)))
  {
    hide RuleObjection, PoolObjection, PoolPortObjection, WantsPool, Acceptable, Served, RestOf, Pop;
    ObjectionsAreExact(rule);
    NoPoolNoObjection(rule);
    PopServes(plan);
    var p1 := RestOf(plan, 1);
    PopServes(p1);
    PopServes(RestOf(p1, 1));
    ServedSplit(plan, 1, 1);
    ServedSplit(plan, 2, 1);
    ServedSplit(plan, 1, 2);
  }

  predicate AllAcceptable(rules: seq<Rule>, j: nat)
    requires j <= |rules|
    decreases |rules| - j
  {
    j == |rules| || (Acceptable(rules[j]) && AllAcceptable(rules, j + 1))
  }

  lemma {:induction false} RulesVerdictExact(rules: seq<Rule>, j: nat, plan: seq<Turn>)
    requires j <= |rules|
    ensures var (r, rest) := RulesVerdict(rules, j, plan);
            && (r.Ok? <==> AllAcceptable(rules, j) && Served(plan, RulesCalls(rules, j)))
            && (r.Ok? ==> rest == RestOf(plan, RulesCalls(rules, j)))
    decreases |rules| - j
  {
    DropNothing(plan);
    hide RuleVerdict, Acceptable, RuleCalls, Served, RestOf;
    if j < |rules| {
      var n := RuleCalls(rules[j]);
      var (r, rest) := RuleVerdict(rules[j], plan);
      RuleVerdictExact(rules[j], plan);
      RulesVerdictExact(rules, j + 1, RestOf(plan, n));
      ServedSplit(plan, n, RulesCalls(rules, j + 1));
    }
  }

  predicate AllJobsAcceptable(jobs: seq<Job>, i: nat)
    requires i <= |jobs|
    decreases |jobs| - i
  {
    i == |jobs| || (AllAcceptable(jobs[i].rules, 0) && AllJobsAcceptable(jobs, i + 1))
  }

  lemma {:induction false} JobsVerdictExact(jobs: seq<Job>, i: nat, plan: seq<Turn>)
    requires i <= |jobs|
    ensures var (r, rest) := JobsVerdict(jobs, i, plan);
            && (r.Ok? <==> AllJobsAcceptable(jobs, i) && Served(plan, JobsCalls(jobs, i)))
            && (r.Ok? ==> rest == RestOf(plan, JobsCalls(jobs, i)))
    decreases |jobs| - i
  {
    if i < |jobs| {
      var n := RulesCalls(jobs[i].rules, 0);
      var (r, rest) := RulesVerdict(jobs[i].rules, 0, plan);
      RulesVerdictExact(jobs[i].rules, 0, plan);
      ServedSplit(plan, n, JobsCalls(jobs, i + 1));
      if r.Ok? {
        JobsVerdictExact(jobs, i + 1, rest);
      }
    }
  }

  lemma {:induction false} AllAcceptableMeans(rules: seq<Rule>, j: nat)
    requires j <= |rules|
    ensures AllAcceptable(rules, j) <==> forall k :: j <= k < |rules| ==> Acceptable(rules[k])
    decreases |rules| - j
  {
    if j < |rules| {
      AllAcceptableMeans(rules, j + 1);
    }
  }

  lemma {:induction false} AllJobsAcceptableMeans(jobs: seq<Job>, i: nat)
    requires i <= |jobs|
    ensures AllJobsAcceptable(jobs, i) <==>
            forall m :: i <= m < |jobs| ==> forall k :: 0 <= k < |jobs[m].rules| ==> Acceptable(jobs[m].rules[k])
    decreases |jobs| - i
  {
    if i < |jobs| {
      AllAcceptableMeans(jobs[i].rules, 0);
      AllJobsAcceptableMeans(jobs, i + 1);
    }
  }

  /** Every anchor name fits its buffer and every rule is acceptable. */
  predicate Sound(jobs: seq<Job>) {
    forall m :: 0 <= m < |jobs| ==>
      && Fits(jobs[m].anchor, ANCHOR_SIZE)
      && forall k :: 0 <= k < |jobs[m].rules| ==> Acceptable(jobs[m].rules[k])
  }

  /** The ioctls of a commit: begin, those of the rules, and commit. */
  function CommitCalls(jobs: seq<Job>): nat {
    1 + JobsCalls(jobs, 0) + 1
  }

  lemma VerdictExact(jobs: seq<Job>, plan: seq<Turn>)
    ensures Verdict(jobs, plan).Ok? <==>
            Elements(jobs).Ok? && AllJobsAcceptable(jobs, 0) && Served(plan, CommitCalls(jobs))
  {
    var n := JobsCalls(jobs, 0);
    NamesErrors(jobs);
    PopServes(plan);
    ServedSplit(plan, 1, n);
    ServedSplit(plan, 1 + n, 1);
    var (r, rest) := JobsVerdict(jobs, 0, RestOf(plan, 1));
    JobsVerdictExact(jobs, 0, RestOf(plan, 1));
    PopServes(rest);
    assert Pop(plan).1 == RestOf(plan, 1);
  }

  /** A commit succeeds if and only if its names and rules are sound and no ioctl is refused. */
  lemma CommitSucceedsExactly(jobs: seq<Job>, w: World)
    requires Proper(jobs)
    ensures Commit(jobs, w).0.Ok? <==> Sound(jobs) && Served(w.plan, CommitCalls(jobs))
  {
    hide Commit, Verdict, Elements, Acceptable, Served, CommitCalls, Replaced, Unchanged, Later;
    CommitRefinesVerdict(jobs, w);
    VerdictExact(jobs, w.plan);
    ElementsMeans(jobs);
    AllJobsAcceptableMeans(jobs, 0);
  }

  /** What acceptance means for the change map: the order of the walk does not appear. */
  ghost predicate SoundChanges(c: ChangeMap) {
    forall key :: Wanted(c, key).Some? ==>
      && Fits(key.anchor, ANCHOR_SIZE)
      && forall k :: 0 <= k < |Wanted(c, key).value| ==> Acceptable(Wanted(c, key).value[k])
  }

  lemma SoundJobs(jobs: seq<Job>, c: ChangeMap)
    requires Covers(jobs, c)
    ensures Sound(jobs) <==> SoundChanges(c)
  {
    if Sound(jobs) {
      forall key | Wanted(c, key).Some?
        ensures Fits(key.anchor, ANCHOR_SIZE)
        ensures forall k :: 0 <= k < |Wanted(c, key).value| ==> Acceptable(Wanted(c, key).value[k])
      {
        var m :| 0 <= m < |jobs| && jobs[m].Key() == key;
      }
    }
    if SoundChanges(c) {
      forall m | 0 <= m < |jobs|
        ensures Fits(jobs[m].anchor, ANCHOR_SIZE)
        ensures forall k :: 0 <= k < |jobs[m].rules| ==> Acceptable(jobs[m].rules[k])
      {
        assert Wanted(c, jobs[m].Key()) == Some(jobs[m].rules);
      }
    }
  }

  // ---- The number of calls, without the order ----

  /** The calls for the rules of one map, summed over its keys in no particular order. */
  ghost function MapCalls<R>(wrap: R -> Rule, m: map<Text, seq<R>>): nat
    decreases |m|
  {
    if m == map[] then 0
    else
      var a :| a in m;
      OneKeyLess(m, a);
      RulesCalls(RulesFrom(wrap, m[a]), 0) + MapCalls(wrap, m - {a})
  }

  /** Any key may be counted first. */
  lemma {:induction false} CountedFirst<R>(wrap: R -> Rule, m: map<Text, seq<R>>, b: Text)
    requires b in m
    ensures MapCalls(wrap, m) == RulesCalls(RulesFrom(wrap, m[b]), 0) + MapCalls(wrap, m - {b})
    decreases |m|
  {
    hide RulesCalls, RulesFrom;
    var a :| a in m && MapCalls(wrap, m) == RulesCalls(RulesFrom(wrap, m[a]), 0) + MapCalls(wrap, m - {a});
    if a != b {
      OneKeyLess(m, a);
      OneKeyLess(m, b);
      CountedFirst(wrap, m - {a}, b);
      CountedFirst(wrap, m - {b}, a);
      assert m - {a} - {b} == m - {b} - {a};
    }
  }

  lemma {:induction false} JobsCallsConcat(a: seq<Job>, b: seq<Job>, i: nat)
    requires i <= |a|
    ensures JobsCalls(a + b, i) == JobsCalls(a, i) + JobsCalls(b, 0)
    decreases |a| - i
  {
    if i < |a| {
      JobsCallsConcat(a, b, i + 1);
    } else {
      JobsCallsShifted(a, b, 0);
    }
  }

  lemma {:induction false} JobsCallsShifted(a: seq<Job>, b: seq<Job>, i: nat)
    requires i <= |b|
    ensures JobsCalls(a + b, |a| + i) == JobsCalls(b, i)
    decreases |b| - i
  {
    if i < |b| {
      JobsCallsShifted(a, b, i + 1);
    }
  }

  /** However a map is walked, its rules take the same number of calls. */
  lemma {:induction false} WalkCalls<R>(
    kind: RulesetKind, wrap: R -> Rule, entries: seq<Entry<R>>, m: map<Text, seq<R>>)
    requires Lists(entries, m)
    ensures JobsCalls(JobsFrom(kind, wrap, entries), 0) == MapCalls(wrap, m)
    decreases |entries|
  {
    hide RulesCalls, RulesFrom;
    if entries == [] {
      assert m.Keys == {};
    } else {
      var front, last := entries[..|entries| - 1], entries[|entries| - 1];
      var job := Job(last.anchor, kind, RulesFrom(wrap, last.rules));
      assert JobsFrom(kind, wrap, entries) == JobsFrom(kind, wrap, front) + [job];
      JobsCallsConcat(JobsFrom(kind, wrap, front), [job], 0);
      ListsFront(entries, m);
      WalkCalls(kind, wrap, front, m - {last.anchor});
      CountedFirst(wrap, m, last.anchor);
      assert JobsCalls([job], 1) == 0;
    }
  }

  /** The ioctls of a commit of these changes. */
  ghost function ChangeCalls(c: ChangeMap): nat {
    1 + MapCalls(AsFilter, FilterChanges(c)) + MapCalls(AsNat, NatChanges(c))
    + MapCalls(AsRedirect, RedirectChanges(c)) + MapCalls(AsScrub, ScrubChanges(c)) + 1
  }

  lemma CallsOfChanges(p: Partition, c: ChangeMap)
    requires Partitions(p, c)
    ensures CommitCalls(JobsOf(p)) == ChangeCalls(c)
  {
    hide JobsFrom, Lists, JobsCalls, MapCalls;
    var f := JobsFrom(RulesetKind.Filter, AsFilter, p.filters);
    var n := JobsFrom(RulesetKind.Nat, AsNat, p.nats);
    var r := JobsFrom(RulesetKind.Redirect, AsRedirect, p.redirects);
    var s := JobsFrom(RulesetKind.Scrub, AsScrub, p.scrubs);
    JobsCallsConcat(f + n + r, s, 0);
    JobsCallsConcat(f + n, r, 0);
    JobsCallsConcat(f, n, 0);
    WalkCalls(RulesetKind.Filter, AsFilter, p.filters, FilterChanges(c));
    WalkCalls(RulesetKind.Nat, AsNat, p.nats, NatChanges(c));
    WalkCalls(RulesetKind.Redirect, AsRedirect, p.redirects, RedirectChanges(c));
    WalkCalls(RulesetKind.Scrub, AsScrub, p.scrubs, ScrubChanges(c));
  }

  /** A commit succeeds if and only if the changes are sound and none of its calls is refused: the
      order of the walk appears nowhere. */
  lemma AcceptanceOfChanges(p: Partition, c: ChangeMap, w: World)
    requires Partitions(p, c)
    ensures Commit(JobsOf(p), w).0.Ok? <==> SoundChanges(c) && Served(w.plan, ChangeCalls(c))
  {
    hide Commit, JobsOf, CommitCalls, ChangeCalls, Sound, SoundChanges, Served;
    PartitionCovers(p, c);
    CommitSucceedsExactly(JobsOf(p), w);
    SoundJobs(JobsOf(p), c);
    CallsOfChanges(p, c);
  }

  // ---- Runs that differ in what the firewall remembers ----

  lemma HoldsUnique(a: seq<Installed>, b: seq<Installed>, rules: seq<Rule>)
    requires Holds(a, rules) && Holds(b, rules)
    ensures a == b
  {
  }

  lemma OverridesAgree(c: ChangeMap, w: World, v: World, v': World, key: Key)
    requires Overridden(c, w, v) && Overridden(c, w, v')
    requires Wanted(c, key).Some? || Steady(key, w.plan)
    ensures v.ActiveOf(key) == v'.ActiveOf(key)
  {
    hide Steady;
    if Wanted(c, key).Some? {
      HoldsUnique(v.ActiveOf(key), v'.ActiveOf(key), Wanted(c, key).value);
    }
  }

  /**
   * Queues, tickets and pools left by anything earlier do not change the result of a commit, and
   * a ruleset that was the same before is the same after, as is every ruleset that was set.
   */
  lemma CommitIgnoresScratch(p: Partition, c: ChangeMap, v: World, w: World, key: Key)
    requires Partitions(p, c) && v.plan == w.plan
    ensures var (rv, v') := Commit(JobsOf(p), v);
            var (rw, w') := Commit(JobsOf(p), w);
            && rv == rw
            && ((rv.Ok? && Wanted(c, key).Some?) || (Steady(key, w.plan) && v.ActiveOf(key) == w.ActiveOf(key)) ==>
                  v'.ActiveOf(key) == w'.ActiveOf(key))
  {
    hide Commit, Verdict, Wanted, Holds, JobsOf, Steady, Replaced;
    PartitionCovers(p, c);
    CommitRefinesVerdict(JobsOf(p), v);
    CommitRefinesVerdict(JobsOf(p), w);
    CommitOverrides(p, c, v);
    CommitOverrides(p, c, w);
    if Commit(JobsOf(p), v).0.Ok? && Wanted(c, key).Some? {
      HoldsUnique(Commit(JobsOf(p), v).1.ActiveOf(key), Commit(JobsOf(p), w).1.ActiveOf(key), Wanted(c, key).value);
    }
  }

  /** After a failed commit, wherever it failed, a later one goes as if the first had never run. */
  lemma FailedCommitLeavesNothing(
    failed: Partition, fc: ChangeMap, p: Partition, c: ChangeMap, w: World, plan: seq<Turn>, key: Key)
    requires Partitions(failed, fc) && Partitions(p, c)
    ensures var (r, left) := Commit(JobsOf(failed), w);
            var again := Commit(JobsOf(p), left.(plan := plan));
            var untouched := Commit(JobsOf(p), w.(plan := plan));
            r.Err? ==>
              && again.0 == untouched.0
              && (Steady(key, w.plan) && Steady(key, plan) ==> again.1.ActiveOf(key) == untouched.1.ActiveOf(key))
  {
    hide Commit, JobsOf, Steady;
    CommitOverrides(failed, fc, w);
    CommitIgnoresScratch(p, c, Commit(JobsOf(failed), w).1.(plan := plan), w.(plan := plan), key);
  }

  /** Two walks over the same hash map end alike and leave the same rulesets, for any plan. */
  lemma WalkOrderIsIrrelevant(p: Partition, q: Partition, c: ChangeMap, w: World, key: Key)
    requires Partitions(p, c) && Partitions(q, c)
    ensures var (rp, wp) := Commit(JobsOf(p), w);
            var (rq, wq) := Commit(JobsOf(q), w);
            && rp.Ok? == rq.Ok?
            && (Steady(key, w.plan) || (rp.Ok? && Wanted(c, key).Some?) ==> wp.ActiveOf(key) == wq.ActiveOf(key))
  {
    hide Commit, JobsOf, Asks, Holds, Steady, Overridden, SoundChanges, Served, ChangeCalls;
    var ((rp, wp), (rq, wq)) := (Commit(JobsOf(p), w), Commit(JobsOf(q), w));
    AcceptanceOfChanges(p, c, w);
    AcceptanceOfChanges(q, c, w);
    CommitOverrides(p, c, w);
    CommitOverrides(q, c, w);
    if rp.Ok? && (Wanted(c, key).Some? || Steady(key, w.plan)) {
      OverridesAgree(c, w, wp, wq, key);
    }
  }
}
