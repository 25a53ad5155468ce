// Whole runs: transactions, single adds and anchor operations in any order, each of them served
// or refused at any step.
module Runs {
  import opened Prelude
  import opened Ffi
  import opened Rules
  import opened Encoding
  import opened PfKernel
  import opened CommitSpec
  import opened CommitProofs
  import opened CommitTheorems
  import opened Changes
  import opened SingleRules
  import opened Anchors

  /** One call of the library that can change rules or anchors. */
  datatype Action =
    | Commits(partition: Partition, changes: ChangeMap)
    | Adds(anchor: Text, rule: Rule)
    | OnAnchor(operation: Operation)

  /** A commit walks its own changes, and no anchor of this ruleset is added or removed under the empty name. */
  ghost predicate PossibleOne(a: Action, key: Key) {
    && (a.Commits? ==> Partitions(a.partition, a.changes))
    && (a.OnAnchor? && key == MainOf(a.operation.kind) ==> a.operation.name != [])
  }

  ghost predicate Possible(actions: seq<Action>, key: Key) {
    forall i :: 0 <= i < |actions| ==> PossibleOne(actions[i], key)
  }

  /** The result is that of the plain operation; what is returned is its report. */
  function Act(a: Action, w: World): (Result<(), Error>, World) {
    match a
    case Commits(p, _) => Commit(JobsOf(p), w)
    case Adds(anchor, rule) => AddSingle(anchor, rule, w)
    case OnAnchor(op) => Plainly(op, w)
  }

  function Returned(a: Action, r: Result<(), Error>): Result<(), Error> {
    if a.OnAnchor? then Report(a.operation, r) else r
  }

  function ActAll(actions: seq<Action>, w: World): (seq<Result<(), Error>>, World) {
    if actions == [] then ([], w)
    else
      var (r, v) := Act(actions[0], w);
      var (rest, u) := ActAll(actions[1..], v);
      ([r] + rest, u)
  }

  function ReturnedAll(actions: seq<Action>, results: seq<Result<(), Error>>): seq<Result<(), Error>>
    requires |actions| == |results|
  {
    seq(|actions|, i requires 0 <= i < |actions| => Returned(actions[i], results[i]))
  }

  // ---- A ruleset as a list of rules and a set of anchors ----

  /** What a ruleset is to the library's users. */
  datatype Ruleset = Ruleset(rules: seq<Installed>, anchors: set<Text>)

  function RulesetIn(list: seq<Installed>): Ruleset {
    Ruleset(Others(list), Names(list))
  }

  /** The installed form of a rule that encodes. */
  function FormOf(form: Result<Installed, Error>): Installed {
    if form.Ok? then form.value else Installed(ZERO_RULE, [])
  }

  function FormsOf(rules: seq<Rule>): seq<Installed> {
    seq(|rules|, k requires 0 <= k < |rules| => FormOf(InstalledForm(rules[k])))
  }

  /**
   * What one action that ended with `r` does to one ruleset: a commit replaces it, anchors and all,
   * an add appends to its rules, an anchor operation changes its anchors.
   */
  function Effect(a: Action, r: Result<(), Error>, key: Key, s: Ruleset): Ruleset {
    if r.Err? then s
    else match a
      case Commits(_, c) => if Wanted(c, key).Some? then Ruleset(FormsOf(Wanted(c, key).value), {}) else s
      case Adds(anchor, rule) =>
        if key == Key(anchor, RulesetOf(rule.Kind())) then s.(rules := s.rules + [FormOf(SingleForm(rule))]) else s
      case OnAnchor(op) => if key == MainOf(op.kind) then s.(anchors := NamesAfter(op, r, s.anchors)) else s
  }

  function Effects(actions: seq<Action>, results: seq<Result<(), Error>>, key: Key, s: Ruleset): Ruleset
    requires |actions| == |results|
  {
    if actions == [] then s
    else Effects(actions[1..], results[1..], key, Effect(actions[0], results[0], key, s))
  }

  // ---- Rules that call no anchor ----

  lemma {:induction false} OrdinaryList(list: seq<Installed>)
    requires forall i :: 0 <= i < |list| ==> list[i].Installed?
    ensures RulesetIn(list) == Ruleset(list, {}) && NoDuplicates(list)
  {
    hide Called;
    forall i | 0 <= i < |list|
      ensures Called(list[i]) == []
    {
      OrdinaryCalls(list[i]);
    }
    if list != [] {
      OrdinaryList(list[1..]);
    }
  }

  lemma AppendedRuleset(list: seq<Installed>, form: Installed)
    requires form.Installed? && NoDuplicates(list)
    ensures RulesetIn(list + [form]) == Ruleset(Others(list) + [form], Names(list)) && NoDuplicates(list + [form])
  {
    hide Called, Others;
    OrdinaryCalls(form);
    OthersAround(list, form, []);
    assert list + [form] + [] == list + [form];
    assert Others(list) + Kept(form) + Others([]) == Others(list) + [form] by {
      NoOthers();
    }
    forall name | name in Names(list)
      ensures name in Names(list + [form])
    {
      var i :| 0 <= i < |list| && Called(list[i]) == name;
      assert (list + [form])[i] == list[i];
    }
  }

  lemma NoOthers()
    ensures Others([]) == []
  {
  }

  lemma HeldRuleset(list: seq<Installed>, rules: seq<Rule>)
    requires Holds(list, rules)
    ensures RulesetIn(list) == Ruleset(FormsOf(rules), {}) && NoDuplicates(list)
  {
    hide InstalledForm, RulesetIn, NoDuplicates;
    forall k | 0 <= k < |rules|
      ensures list[k] == FormsOf(rules)[k] && list[k].Installed?
    {
      assert InstalledForm(rules[k]) == Ok(list[k]);
      FormIsOrdinary(rules[k]);
    }
    assert list == FormsOf(rules);
    OrdinaryList(list);
  }

  lemma FormIsOrdinary(rule: Rule)
    ensures InstalledForm(rule).Ok? ==> InstalledForm(rule).value.Installed?
    ensures SingleForm(rule).Ok? ==> SingleForm(rule).value.Installed?
  {
    hide RuleOver, PoolEncoded, PoolPortOver;
  }

  // ---- One action ----

  /** One ruleset before and after one action. */
  ghost predicate HasEffect(a: Action, r: Result<(), Error>, key: Key, w: World, w': World) {
    && Later(w.plan, w'.plan)
    && RulesetIn(w'.ActiveOf(key)) == Effect(a, r, key, RulesetIn(w.ActiveOf(key)))
    && NoDuplicates(w'.ActiveOf(key))
    && (Candid(w.plan) ==>
          Effect(a, r, key, RulesetIn(w.ActiveOf(key))) == Effect(a, Returned(a, r), key, RulesetIn(w.ActiveOf(key))))
  }

  lemma CommitHasEffect(p: Partition, c: ChangeMap, w: World, key: Key)
    requires Partitions(p, c) && Steady(key, w.plan) && NoDuplicates(w.ActiveOf(key))
    ensures var (r, v) := Commit(JobsOf(p), w); HasEffect(Commits(p, c), r, key, w, v)
  {
    hide Commit, JobsOf, Holds, NoDuplicates, RulesetIn, FormsOf, Steady, Asks, Later;
    var (r, v) := Commit(JobsOf(p), w);
    PartitionCovers(p, c);
    CommitRefinesVerdict(JobsOf(p), w);
    CommitOverrides(p, c, w);
    if r.Ok? && Wanted(c, key).Some? {
      HeldRuleset(v.ActiveOf(key), Wanted(c, key).value);
    }
  }

  lemma AddHasEffect(anchor: Text, rule: Rule, w: World, key: Key)
    requires Steady(key, w.plan) && NoDuplicates(w.ActiveOf(key))
    ensures var (r, v) := AddSingle(anchor, rule, w); HasEffect(Adds(anchor, rule), r, key, w, v)
  {
    hide AddSingle, SingleForm, NoDuplicates, RulesetOf, Steady, Others, Names, Later, Served, Took, SingleCalls;
    var (r, v) := AddSingle(anchor, rule, w);
    SingleAppends(anchor, rule, w);
    if r.Ok? && key == Key(anchor, RulesetOf(rule.Kind())) {
      FormIsOrdinary(rule);
      AppendedRuleset(w.ActiveOf(key), SingleForm(rule).value);
    }
  }

  lemma OperationHasEffect(op: Operation, w: World, key: Key)
    requires Steady(key, w.plan) && NoDuplicates(w.ActiveOf(key)) && (key == MainOf(op.kind) ==> op.name != [])
    ensures var (r, v) := Plainly(op, w); HasEffect(OnAnchor(op), r, key, w, v)
  {
    hide Plainly, Report, NoDuplicates, Others, Names, RulesetOf, Steady, Later, Candid;
    StepRefines(op, w, key);
  }

  /**
   * After any run from any start, a ruleset that nobody else edits is what the successful actions
   * alone make of a list of rules and a set of anchors. Failed actions, and whatever they left in
   * tickets, queues and pools, have no part in it. No anchor is ever there twice. Where EEXIST is
   * kept for names that exist, the results that are returned say which actions succeeded.
   */
  lemma {:induction false} RunsRefineRulesets(actions: seq<Action>, w: World, key: Key)
    requires Possible(actions, key) && Steady(key, w.plan) && NoDuplicates(w.ActiveOf(key))
    ensures var (results, v) := ActAll(actions, w);
            && |results| == |actions|
            && RulesetIn(v.ActiveOf(key)) == Effects(actions, results, key, RulesetIn(w.ActiveOf(key)))
            && NoDuplicates(v.ActiveOf(key))
            && (Candid(w.plan) ==>
                  RulesetIn(v.ActiveOf(key))
                  == Effects(actions, ReturnedAll(actions, results), key, RulesetIn(w.ActiveOf(key))))
  {
    hide Commit, AddSingle, Plainly, Effect, RulesetIn, NoDuplicates, Returned, Steady, Candid, Later;
    if actions != [] {
      var (r, v) := Act(actions[0], w);
      var rest := ActAll(actions[1..], v).0;
      assert PossibleOne(actions[0], key);
      match actions[0] {
        case Commits(p, c) => CommitHasEffect(p, c, w, key);
        case Adds(anchor, rule) => AddHasEffect(anchor, rule, w, key);
        case OnAnchor(op) => OperationHasEffect(op, w, key);
      }
      LaterKeeps(w.plan, v.plan);
      if Candid(w.plan) {
        CandidLater(w.plan, v.plan);
      }
      RunsRefineRulesets(actions[1..], v, key);
      assert ([r] + rest)[1..] == rest;
      assert ReturnedAll(actions, [r] + rest)[1..] == ReturnedAll(actions[1..], rest);
    }
  }
}
