// The two descriptions of a commit agree, for every start of the firewall and every plan.
module CommitProofs {
  import opened Prelude
  import opened Ffi
  import opened CStrings
  import opened Rules
  import opened Encoding
  import opened PfKernel
  import opened CommitSpec

  // ---- The invariant of a transaction under way ----

  /** The elements of these jobs, in their order. */
  predicate ElementsOf(elements: seq<TransElement>, jobs: seq<Job>) {
    && |elements| == |jobs|
    && forall m :: 0 <= m < |jobs| ==>
         Fits(jobs[m].anchor, ANCHOR_SIZE) && ElementKey(elements[m]) == jobs[m].Key()
  }

  /** How many rules of job `m` are in their queue when rule `j` of job `i` is next. */
  function Progress(jobs: seq<Job>, m: nat, i: nat, j: nat): nat
    requires m < |jobs|
  {
    if m < i then |jobs[m].rules| else if m == i then j else 0
  }

  /** Every queue of the transaction is open under its element's ticket and holds what was added. */
  predicate Staged(w: World, jobs: seq<Job>, elements: seq<TransElement>, i: nat, j: nat)
    requires ElementsOf(elements, jobs)
    requires i < |jobs| ==> j <= |jobs[i].rules|
  {
    forall m :: 0 <= m < |jobs| ==>
      var q := w.scratch.QueueOf(jobs[m].Key());
      q.open && q.ticket == elements[m].ticket && Holds(q.rules, jobs[m].rules[..Progress(jobs, m, i, j)])
  }

  /** No commit was issued between two worlds, and nothing changed but through others. */
  ghost predicate Quiet(w: World, w': World) {
    && Later(w.plan, w'.plan)
    && Unchanged(w, w')
    && w.trace <= w'.trace
    && forall i :: |w.trace| <= i < |w'.trace| ==> !w'.trace[i].call.CommitTrans?
  }

  // ---- One rule ----

  lemma AnchorNameReadBack(anchor: Text)
    requires Fits(anchor, ANCHOR_SIZE)
    ensures 0 in AnchorOver(anchor, Zeros(ANCHOR_SIZE)).value
    ensures NameOf(AnchorOver(anchor, Zeros(ANCHOR_SIZE)).value) == anchor
    ensures AnchorOver(anchor, Zeros(ANCHOR_SIZE)) == Ok(Padded(anchor, ANCHOR_SIZE))
  {
    StringRoundTrip(anchor, Zeros(ANCHOR_SIZE), anchor);
    CopiedPads(anchor, ANCHOR_SIZE);
  }

  lemma QuietTransitive(u: World, v: World, w: World)
    requires Quiet(u, v) && Quiet(v, w)
    ensures Quiet(u, w)
  {
    LaterTransitive(u.plan, v.plan, w.plan);
    LaterKeeps(u.plan, v.plan);
  }

  lemma QuietReflexive(w: World)
    ensures Quiet(w, w) && Later(w.plan, w.plan) && Unchanged(w, w)
  {
  }

  lemma QuietKeepsRulesets(w: World, w': World)
    requires Quiet(w, w')
    ensures Unchanged(w, w') && Later(w.plan, w'.plan)
  {
  }

  /** A pool just begun is empty, whatever earlier calls left in it. */
  lemma PoolBegun(w: World)
    ensures var (t, v) := DiocBeginAddrs(w);
            && (if t.Ok? then Pop(w.plan).0.Ok? else Pop(w.plan).0 == Err(t.error))
            && v.plan == Pop(w.plan).1 && Quiet(w, v)
            && (t.Ok? ==> v.scratch == w.scratch.(pool := [], poolTicket := t.value))
  {
  }

  function ErrorOf<T>(r: Result<T, Error>): Option<Error> {
    if r.Err? then Some(r.error) else None
  }

  /** A fresh pool ends up with the rule's own address, or stays empty. */
  lemma PoolFilled(pool: Option<PoolAddr>, w: World)
    requires w.scratch.pool == []
    ensures var (a, v) := RegisterPool(pool, w.scratch.poolTicket, w);
            && (a, v.plan) == PoolVerdict(pool.Some?, ErrorOf(PoolEncoded(pool)), w.plan)
            && Quiet(w, v)
            && (a.Ok? ==> PoolEncoded(pool).Ok? && v.scratch == w.scratch.(pool := PoolEncoded(pool).value))
  {
    hide WrapOver, InterfaceOver;
    assert forall addr: RawPoolAddr :: w.scratch.pool + [addr] == [addr];
  }

  lemma RuleQueued(name: AnchorName, raw: RawRule, w: World)
    ensures var key := RuleKey(name, raw);
            var q := w.scratch.QueueOf(key);
            var (r, v) := DiocAddRule(name, q.ticket, w.scratch.poolTicket, raw, w);
            && (r, v.plan) == Pop(w.plan)
            && Quiet(w, v)
            && (r.Ok? ==> v.scratch.inactive ==
                          w.scratch.inactive[key := q.(rules := q.rules + [Installed(raw, w.scratch.pool)])])
  {
  }

  lemma FormOfPieces(rule: Rule, raw: RawRule, pool: seq<RawPoolAddr>, ported: RawRule)
    requires RuleOver(rule, ZERO_RULE) == Ok(raw) && PoolEncoded(PoolAddrOf(rule)) == Ok(pool)
    requires PoolPortOver(PoolPortOf(rule), raw) == Ok(ported)
    ensures InstalledForm(rule) == Ok(Installed(ported, pool))
    ensures RulesetOfAction(ported.codes.action) == RulesetOf(rule.Kind())
  {
    hide RuleOver, PoolEncoded, PoolAddrOf, PoolPortOf, PoolPortEncoded;
    EncodedKind(rule);
  }

  /** Adding a rule under the right ticket puts exactly its installed form at the end of its queue. */
  lemma RuleStaged(anchor: Text, rule: Rule, ticket: u32, w: World)
    requires Fits(anchor, ANCHOR_SIZE)
    requires w.scratch.QueueOf(Key(anchor, RulesetOf(rule.Kind()))).ticket == ticket
    ensures var (r, w') := AddToTransaction(anchor, rule, ticket, w);
            var key := Key(anchor, RulesetOf(rule.Kind()));
            var q := w.scratch.QueueOf(key);
            && (r, w'.plan) == RuleVerdict(rule, w.plan)
            && Quiet(w, w')
            && (r.Ok? ==>
                  && InstalledForm(rule).Ok?
                  && w'.scratch.inactive ==
                     w.scratch.inactive[key := q.(rules := q.rules + [InstalledForm(rule).value])])
  {
    hide RuleOver, PoolAddrOf, PoolPortOf, PoolEncoded, PoolPortOver, InstalledForm;
    hide DiocBeginAddrs, RegisterPool, DiocAddRule, PoolVerdict, Quiet, RulesetOf, RulesetOfAction;
    hide RuleObjection, PoolObjection, PoolPortObjection, WantsPool;
    var name := AnchorOver(anchor, Zeros(ANCHOR_SIZE)).value;
    AnchorNameReadBack(anchor);
    QuietReflexive(w);
    RuleErrors(rule, ZERO_RULE);
    PoolErrors(rule);
    match RuleOver(rule, ZERO_RULE)
    case Err(_) =>
    case Ok(raw) =>
      PoolPortErrors(rule, raw);
      var (t, w1) := DiocBeginAddrs(w);
      PoolBegun(w);
      if t.Ok? {
        var (a, w2) := RegisterPool(PoolAddrOf(rule), t.value, w1);
        PoolFilled(PoolAddrOf(rule), w1);
        QuietTransitive(w, w1, w2);
        var ported := PoolPortOver(PoolPortOf(rule), raw);
        if a.Ok? && ported.Ok? {
          FormOfPieces(rule, raw, w2.scratch.pool, ported.value);
          assert RuleKey(name, ported.value) == Key(anchor, RulesetOf(rule.Kind()));
          RuleQueued(name, ported.value, w2);
          var w3 := DiocAddRule(name, ticket, t.value, ported.value, w2).1;
          QuietTransitive(w, w2, w3);
        }
      }
  }

  // ---- All the rules ----

  lemma HoldsOneMore(ruleset: seq<Installed>, rules: seq<Rule>, j: nat, form: Installed)
    requires j < |rules| && Holds(ruleset, rules[..j]) && InstalledForm(rules[j]) == Ok(form)
    ensures Holds(ruleset + [form], rules[..j + 1])
  {
  }

  /** Adding rule `j` of job `i` keeps the invariant: its queue grows, the others are untouched. */
  lemma StagedOneMore(
    w: World, w': World, jobs: seq<Job>, elements: seq<TransElement>, i: nat, j: nat, form: Installed)
    requires Proper(jobs) && ElementsOf(elements, jobs)
    requires i < |jobs| && j < |jobs[i].rules| && InstalledForm(jobs[i].rules[j]) == Ok(form)
    requires Staged(w, jobs, elements, i, j)
    requires var q := w.scratch.QueueOf(jobs[i].Key());
             w'.scratch.inactive == w.scratch.inactive[jobs[i].Key() := q.(rules := q.rules + [form])]
    ensures Staged(w', jobs, elements, i, j + 1)
  {
    forall m | 0 <= m < |jobs|
      ensures var q := w'.scratch.QueueOf(jobs[m].Key());
              q.open && q.ticket == elements[m].ticket
              && Holds(q.rules, jobs[m].rules[..Progress(jobs, m, i, j + 1)])
    {
      if m == i {
        HoldsOneMore(w.scratch.QueueOf(jobs[i].Key()).rules, jobs[i].rules, j, form);
      } else {
        assert jobs[m].Key() != jobs[i].Key();
        assert w'.scratch.QueueOf(jobs[m].Key()) == w.scratch.QueueOf(jobs[m].Key());
        assert Progress(jobs, m, i, j + 1) == Progress(jobs, m, i, j);
      }
    }
  }

  lemma StagedNextJob(w: World, jobs: seq<Job>, elements: seq<TransElement>, i: nat)
    requires ElementsOf(elements, jobs)
    requires i < |jobs| && Staged(w, jobs, elements, i, |jobs[i].rules|)
    ensures Staged(w, jobs, elements, i + 1, 0)
  {
  }

  lemma {:induction false} RulesStaged(w: World, jobs: seq<Job>, elements: seq<TransElement>, i: nat, j: nat)
    requires Proper(jobs) && ElementsOf(elements, jobs)
    requires i < |jobs| && j <= |jobs[i].rules| && Staged(w, jobs, elements, i, j)
    ensures var (r, w') := AddRules(jobs[i], elements[i].ticket, j, w);
            && (r, w'.plan) == RulesVerdict(jobs[i].rules, j, w.plan)
            && Quiet(w, w')
            && (r.Ok? ==> Staged(w', jobs, elements, i + 1, 0))
    decreases |jobs[i].rules| - j
  {
    hide AddToTransaction, RuleVerdict, InstalledForm;
    if j == |jobs[i].rules| {
      StagedNextJob(w, jobs, elements, i);
    } else {
      var rule, ticket := jobs[i].rules[j], elements[i].ticket;
      var (r, v) := AddToTransaction(jobs[i].anchor, rule, ticket, w);
      RuleStaged(jobs[i].anchor, rule, ticket, w);
      if r.Ok? {
        StagedOneMore(w, v, jobs, elements, i, j, InstalledForm(rule).value);
        RulesStaged(v, jobs, elements, i, j + 1);
        QuietTransitive(w, v, AddRules(jobs[i], ticket, j + 1, v).1);
      }
    }
  }

  lemma {:induction false} JobsStaged(w: World, jobs: seq<Job>, elements: seq<TransElement>, i: nat)
    requires Proper(jobs) && ElementsOf(elements, jobs)
    requires i <= |jobs| && Staged(w, jobs, elements, i, 0)
    ensures var (r, w') := AddJobs(jobs, elements, i, w);
            && (r, w'.plan) == JobsVerdict(jobs, i, w.plan)
            && Quiet(w, w')
            && (r.Ok? ==> Staged(w', jobs, elements, |jobs|, 0))
    decreases |jobs| - i
  {
    hide AddRules, RulesVerdict, Staged, Proper;
    if i < |jobs| {
      var (r, v) := AddRules(jobs[i], elements[i].ticket, 0, w);
      RulesStaged(w, jobs, elements, i, 0);
      if r.Ok? {
        JobsStaged(v, jobs, elements, i + 1);
        QuietTransitive(w, v, AddJobs(jobs, elements, i + 1, v).1);
      }
    }
  }

  // ---- Begin and commit ----

  predicate DistinctKeys(elements: seq<TransElement>) {
    forall m, n :: 0 <= m < n < |elements| ==> ElementKey(elements[m]) != ElementKey(elements[n])
  }

  /** Opening distinct queues leaves each of them empty, open and under its element's new ticket. */
  lemma {:induction false} OpenedMeans(elements: seq<TransElement>, s: Scratch)
    requires DistinctKeys(elements)
    ensures var (ticketed, s') := Opened(elements, s);
            && |ticketed| == |elements|
            && forall m :: 0 <= m < |elements| ==>
                 && ticketed[m] == elements[m].(ticket := ticketed[m].ticket)
                 && s'.QueueOf(ElementKey(elements[m])) == Queue([], ticketed[m].ticket, true)
  {
    hide NameOf, Next;
    if elements != [] {
      OpenedMeans(elements[..|elements| - 1], s);
    }
  }

  predicate Elsewhere(key: Key, elements: seq<TransElement>) {
    forall m :: 0 <= m < |elements| ==> ElementKey(elements[m]) != key
  }

  /** Swapping one queue in changes that ruleset and no other. */
  lemma SwapOneMore(elements: seq<TransElement>, w: World, key: Key)
    requires elements != []
    ensures var u, v := Swapped(elements[..|elements| - 1], w), Swapped(elements, w);
            var last := ElementKey(elements[|elements| - 1]);
            && v.plan == u.plan
            && v.ActiveOf(key) == (if key == last then u.scratch.QueueOf(key).rules else u.ActiveOf(key))
            && (key != last ==> v.scratch.QueueOf(key) == u.scratch.QueueOf(key))
  {
    hide NameOf;
  }

  /** Committing distinct queues installs each of them and touches no other ruleset. */
  lemma {:induction false} SwappedMeans(elements: seq<TransElement>, w: World)
    requires DistinctKeys(elements)
    ensures var v := Swapped(elements, w);
            && (forall m :: 0 <= m < |elements| ==>
                  v.ActiveOf(ElementKey(elements[m])) == w.scratch.QueueOf(ElementKey(elements[m])).rules)
            && (forall key :: Elsewhere(key, elements) ==>
                  v.ActiveOf(key) == w.ActiveOf(key) && v.scratch.QueueOf(key) == w.scratch.QueueOf(key))
            && v.plan == w.plan
  {
    hide NameOf, ElementKey;
    if elements != [] {
      hide Swapped;
      var front, last := elements[..|elements| - 1], ElementKey(elements[|elements| - 1]);
      var v := Swapped(elements, w);
      SwappedMeans(front, w);
      SwapOneMore(elements, w, last);
      assert Elsewhere(last, front);
      forall m | 0 <= m < |front|
        ensures v.ActiveOf(ElementKey(elements[m])) == w.scratch.QueueOf(ElementKey(elements[m])).rules
      {
        assert front[m] == elements[m] && ElementKey(elements[m]) != last;
        SwapOneMore(elements, w, ElementKey(elements[m]));
      }
      forall key | Elsewhere(key, elements)
        ensures v.ActiveOf(key) == w.ActiveOf(key) && v.scratch.QueueOf(key) == w.scratch.QueueOf(key)
      {
        assert Elsewhere(key, front);
        SwapOneMore(elements, w, key);
      }
    }
  }

  lemma ElementsAreOf(jobs: seq<Job>)
    requires Proper(jobs) && Elements(jobs).Ok?
    ensures ElementsOf(Elements(jobs).value, jobs) && DistinctKeys(Elements(jobs).value)
  {
    hide AnchorOver, NameOf, Padded;
    ElementsMeans(jobs);
    forall m | 0 <= m < |jobs|
      ensures Fits(jobs[m].anchor, ANCHOR_SIZE) && ElementKey(Elements(jobs).value[m]) == jobs[m].Key()
    {
      AnchorNameReadBack(jobs[m].anchor);
    }
  }

  /** After a begin that succeeds the transaction is at its start. */
  lemma BeginStages(jobs: seq<Job>, w: World)
    requires Proper(jobs) && Elements(jobs).Ok?
    ensures var (b, v) := DiocXBegin(Elements(jobs).value, w);
            && (if b.Ok? then Pop(w.plan).0.Ok? else Pop(w.plan).0 == Err(b.error))
            && v.plan == Pop(w.plan).1 && Quiet(w, v)
            && (b.Ok? ==> ElementsOf(b.value, jobs) && DistinctKeys(b.value) && Staged(v, jobs, b.value, 0, 0))
  {
    hide Elements, NewElement, Opened, NameOf;
    ElementsAreOf(jobs);
    OpenedMeans(Elements(jobs).value, w.Turned().scratch);
  }

  predicate Untouched(key: Key, jobs: seq<Job>) {
    forall m :: 0 <= m < |jobs| ==> jobs[m].Key() != key
  }

  /** Every ruleset of the transaction holds its rules, and every other ruleset is as it was. */
  ghost predicate Replaced(jobs: seq<Job>, w: World, w': World) {
    && (forall m :: 0 <= m < |jobs| ==> Holds(w'.ActiveOf(jobs[m].Key()), jobs[m].rules))
    && (forall key :: Untouched(key, jobs) && Steady(key, w.plan) ==> w'.ActiveOf(key) == w.ActiveOf(key))
  }

  /** The commit of a completely staged transaction can only fail by being refused. */
  lemma CommitInstalls(jobs: seq<Job>, elements: seq<TransElement>, w: World)
    requires ElementsOf(elements, jobs) && DistinctKeys(elements)
    requires Staged(w, jobs, elements, |jobs|, 0)
    ensures var (r, v) := DiocXCommit(elements, w);
            && r == Pop(w.plan).0
            && Later(w.plan, v.plan)
            && (r.Err? ==> Unchanged(w, v))
            && (r.Ok? ==> Replaced(jobs, w, v))
  {
    hide Holds, Swapped;
    var v := DiocXCommit(elements, w).1;
    forall m | 0 <= m < |jobs|
      ensures Committable(elements[m], w.Turned().scratch) || w.Turn().Refuse?
      ensures Holds(w.scratch.QueueOf(jobs[m].Key()).rules, jobs[m].rules)
      ensures ElementKey(elements[m]) == jobs[m].Key()
    {
      assert jobs[m].rules[..Progress(jobs, m, |jobs|, 0)] == jobs[m].rules;
    }
    if w.Turn().Serve? {
      SwappedMeans(elements, w.Turned());
      forall key | Untouched(key, jobs) && Steady(key, w.plan)
        ensures v.ActiveOf(key) == w.ActiveOf(key)
      {
        assert Elsewhere(key, elements);
      }
    }
  }

  // ---- The main result ----

  /** What a call does to the rulesets is the same seen from before a quiet stretch. */
  lemma AfterQuiet(jobs: seq<Job>, w: World, u: World, v: World)
    requires Quiet(w, u) && Later(u.plan, v.plan)
    ensures Later(w.plan, v.plan)
    ensures Unchanged(u, v) ==> Unchanged(w, v)
    ensures Replaced(jobs, u, v) ==> Replaced(jobs, w, v)
  {
    hide Holds;
    LaterTransitive(w.plan, u.plan, v.plan);
    LaterKeeps(w.plan, u.plan);
    QuietKeepsRulesets(w, u);
  }

  /**
   * For every start of the firewall and every plan, a commit returns the verdict, which depends
   * on the rules and the refusals alone; if it succeeds the rulesets are replaced, and if it
   * fails no ruleset has changed. Only the main ruleset may differ by what others did to it.
   */
  lemma CommitRefinesVerdict(jobs: seq<Job>, w: World)
    requires Proper(jobs)
    ensures var (r, w') := Commit(jobs, w);
            && r == Verdict(jobs, w.plan)
            && Later(w.plan, w'.plan)
            && (r.Err? ==> Unchanged(w, w'))
            && (r.Ok? ==> Replaced(jobs, w, w'))
  {
    hide Elements, AddJobs, JobsVerdict, DiocXBegin, DiocXCommit, Staged, Quiet, Later, Unchanged, Replaced;
    hide NamesObjection;
    QuietReflexive(w);
    NamesErrors(jobs);
    if Elements(jobs).Ok? {
      var (b, w1) := DiocXBegin(Elements(jobs).value, w);
      BeginStages(jobs, w);
      QuietKeepsRulesets(w, w1);
      if b.Ok? {
        var (r, w2) := AddJobs(jobs, b.value, 0, w1);
        JobsStaged(w1, jobs, b.value, 0);
        QuietTransitive(w, w1, w2);
        QuietKeepsRulesets(w, w2);
        if r.Ok? {
          CommitInstalls(jobs, b.value, w2);
          AfterQuiet(jobs, w, w2, DiocXCommit(b.value, w2).1);
        }
      }
    }
  }
}
