// Transactions as the library runs them: changes collected in a map, partitioned by kind, and
// committed through one element array and one ticket iterator shared by four loops.
module Transactions {
  import opened Prelude
  import opened Ffi
  import opened Rules
  import opened Encoding
  import opened Structs
  import opened Writers
  import opened PfKernel
  import opened CommitSpec
  import opened CommitTheorems
  import opened Changes
  import opened Device

  // ---- One rule ----

  /** The end of every helper: a pool, its address and port if the rule has them, the tickets, the rule. */
  method FinishRule(
    dev: PfDevice, request: PfiocRule, pool: Option<PoolAddr>, port: Option<Port>, ticket: u32)
    returns (r: Result<(), Error>)
    requires request.Valid()
    modifies dev`world, request, request.rule`rpool
    ensures (r, dev.world) ==
            AddEncoded(old(request.anchor[..]), old(request.rule.Value()), pool, port, ticket, old(dev.world))
  {
    var poolTicket := dev.GetPoolTicket();
    if poolTicket.Err? {
      return Err(poolTicket.error);
    }
    if pool.Some? {
      r := dev.AddPoolAddress(pool.value, poolTicket.value);
      if r.Err? {
        return;
      }
      // The list kept beside the rule encodes the very address that was just registered.
      var list := InitPool(dev.host, [pool.value]);
      assert list.Ok?;
    }
    if port.Some? {
      r := CopyPoolPort(port.value, request.rule);
      if r.Err? {
        return;
      }
    }
    request.poolTicket := poolTicket.value;
    request.ticket := ticket;
    r := dev.AddRule(request);
  }

  method AddFilterRule(dev: PfDevice, anchor: Text, rule: FilterRule, ticket: u32) returns (r: Result<(), Error>)
    modifies dev`world
    ensures (r, dev.world) == AddToTransaction(anchor, FilterOf(rule), ticket, old(dev.world))
  {
    hide AddEncoded, FilterOver;
    var request := new PfiocRule();
    request.change := PF_CHANGE_NONE;
    r := CopyAnchorName(anchor, request.anchor);
    if r.Err? {
      return;
    }
    r := CopyFilterRule(dev.host, rule, request.rule);
    if r.Err? {
      return;
    }
    r := FinishRule(dev, request, rule.route.GetPoolAddr(), None, ticket);
  }

  method AddNatRule(dev: PfDevice, anchor: Text, rule: NatRule, ticket: u32) returns (r: Result<(), Error>)
    modifies dev`world
    ensures (r, dev.world) == AddToTransaction(anchor, NatOf(rule), ticket, old(dev.world))
  {
    hide AddEncoded, NatOver;
    var request := new PfiocRule();
    r := CopyAnchorName(anchor, request.anchor);
    if r.Err? {
      return;
    }
    r := CopyNatRule(dev.host, rule, request.rule);
    if r.Err? {
      return;
    }
    match rule.GetNatTo()
    case Some(natTo) =>
      r := FinishRule(dev, request, Some(PoolAddr(Interface.Any, natTo.ip)), Some(natTo.port), ticket);
    case None =>
      r := FinishRule(dev, request, None, None, ticket);
  }

  method AddRedirectRule(dev: PfDevice, anchor: Text, rule: RedirectRule, ticket: u32) returns (r: Result<(), Error>)
    modifies dev`world
    ensures (r, dev.world) == AddToTransaction(anchor, RedirectOf(rule), ticket, old(dev.world))
  {
    hide AddEncoded, RedirectOver;
    var request := new PfiocRule();
    r := CopyAnchorName(anchor, request.anchor);
    if r.Err? {
      return;
    }
    r := CopyRedirectRule(dev.host, rule, request.rule);
    if r.Err? {
      return;
    }
    var redirectTo := rule.redirectTo;
    r := FinishRule(dev, request, Some(PoolAddr(Interface.Any, redirectTo.ip)), Some(redirectTo.port), ticket);
  }

  method AddScrubRule(dev: PfDevice, anchor: Text, rule: ScrubRule, ticket: u32) returns (r: Result<(), Error>)
    modifies dev`world
    ensures (r, dev.world) == AddToTransaction(anchor, ScrubOf(rule), ticket, old(dev.world))
  {
    hide AddEncoded, ScrubOver;
    var request := new PfiocRule();
    r := CopyAnchorName(anchor, request.anchor);
    if r.Err? {
      return;
    }
    CopyScrubRule(rule, request.rule);
    r := FinishRule(dev, request, None, None, ticket);
  }

  method AddOfKind(dev: PfDevice, anchor: Text, rule: Rule, ticket: u32) returns (r: Result<(), Error>)
    modifies dev`world
    ensures (r, dev.world) == AddToTransaction(anchor, rule, ticket, old(dev.world))
  {
    hide AddToTransaction;
    match rule
    case FilterOf(f) => r := AddFilterRule(dev, anchor, f, ticket);
    case NatOf(n) => r := AddNatRule(dev, anchor, n, ticket);
    case RedirectOf(d) => r := AddRedirectRule(dev, anchor, d, ticket);
    case ScrubOf(s) => r := AddScrubRule(dev, anchor, s, ticket);
  }

  // ---- The shared ticket iterator ----

  /** An iterator over the tickets of the element array, advanced by whoever holds it. */
  class TicketIterator {
    const elements: seq<TransElement>
    var position: nat

    constructor (elements: seq<TransElement>)
      ensures this.elements == elements && position == 0
    {
      this.elements := elements;
      position := 0;
    }

    method Next() returns (ticket: Option<u32>)
      requires position <= |elements|
      modifies this`position
      ensures if old(position) < |elements|
              then ticket == Some(elements[old(position)].ticket) && position == old(position) + 1
              else ticket == None && position == old(position)
    {
      if position == |elements| {
        return None;
      }
      ticket := Some(elements[position].ticket);
      position := position + 1;
    }
  }

  /** The rules of one pair, all under one ticket. */
  method AddEntry<R>(dev: PfDevice, anchor: Text, wrap: R -> Rule, rules: seq<R>, ticket: u32, ghost job: Job)
    returns (r: Result<(), Error>)
    requires job.anchor == anchor && job.rules == RulesFrom(wrap, rules)
    modifies dev`world
    ensures (r, dev.world) == AddRules(job, ticket, 0, old(dev.world))
  {
    hide AddToTransaction;
    for k := 0 to |rules|
      invariant AddRules(job, ticket, 0, old(dev.world)) == AddRules(job, ticket, k, dev.world)
    {
      assert job.rules[k] == wrap(rules[k]);
      r := AddOfKind(dev, anchor, wrap(rules[k]), ticket);
      if r.Err? {
        return;
      }
    }
    r := Ok(());
  }

  /**
   * One of the four loops: the pairs of a partition zipped with the shared iterator. The pair is
   * taken first, so the loop that runs out of pairs leaves the next ticket to the next loop.
   */
  method AddChanges<R>(
    dev: PfDevice, kind: RulesetKind, wrap: R -> Rule, entries: seq<Entry<R>>, tickets: TicketIterator,
    ghost jobs: seq<Job>)
    returns (r: Result<(), Error>)
    requires |jobs| == |tickets.elements| && tickets.position + |entries| <= |jobs|
    requires jobs[tickets.position..tickets.position + |entries|] == JobsFrom(kind, wrap, entries)
    modifies dev`world, tickets`position
    ensures match r
            case Ok(_) =>
              && r == Ok(())
              && tickets.position == old(tickets.position) + |entries|
              && AddJobs(jobs, tickets.elements, old(tickets.position), old(dev.world))
                 == AddJobs(jobs, tickets.elements, tickets.position, dev.world)
            case Err(_) => AddJobs(jobs, tickets.elements, old(tickets.position), old(dev.world)) == (r, dev.world)
  {
    ghost var start := tickets.position;
    var i := 0;
    while i < |entries|
      invariant 0 <= i <= |entries| && tickets.position == start + i
      invariant AddJobs(jobs, tickets.elements, start, old(dev.world))
                == AddJobs(jobs, tickets.elements, start + i, dev.world)
    {
      var entry := entries[i];
      i := i + 1;
      var ticket := tickets.Next();
      if ticket.None? {
        break;
      }
      assert jobs[start + i - 1] == JobsFrom(kind, wrap, entries)[i - 1];
      r := AddEntry(dev, entry.anchor, wrap, entry.rules, ticket.value, jobs[start + i - 1]);
      if r.Err? {
        return;
      }
    }
    r := Ok(());
  }

  // ---- Elements ----

  method NewTransElement(anchor: Text, kind: RulesetKind) returns (r: Result<TransElement, Error>)
    ensures forall rules :: r == NewElement(Job(anchor, kind, rules))
  {
    var buffer := new byte[ANCHOR_SIZE](i => 0);
    assert buffer[..] == Zeros(ANCHOR_SIZE);
    var copied := CopyAnchorName(anchor, buffer);
    if copied.Err? {
      return Err(copied.error);
    }
    r := Ok(TransElement(RulesetOf(kind), buffer[..], 0));
  }

  /** The elements of one partition, after those of the partitions before it. */
  method AppendElements<R>(
    kind: RulesetKind, wrap: R -> Rule, entries: seq<Entry<R>>, elements: seq<TransElement>, ghost before: seq<Job>)
    returns (r: Result<seq<TransElement>, Error>)
    requires Elements(before) == Ok(elements)
    ensures r == Elements(before + JobsFrom(kind, wrap, entries))
  {
    ghost var part := JobsFrom(kind, wrap, entries);
    var appended := elements;
    assert before + part[..0] == before;
    for k := 0 to |entries|
      invariant Elements(before + part[..k]) == Ok(appended)
    {
      ElementsOneMore(before, part, k);
      var e := NewTransElement(entries[k].anchor, kind);
      assert e == NewElement(part[k]);
      if e.Err? {
        return Err(e.error);
      }
      appended := appended + [e.value];
    }
    assert part[..|entries|] == part;
    r := Ok(appended);
  }

  /** The next element extends the array, or its error is the error of the whole. */
  lemma ElementsOneMore(before: seq<Job>, part: seq<Job>, k: nat)
    requires k < |part| && Elements(before + part[..k]).Ok?
    ensures match NewElement(part[k])
            case Ok(e) => Elements(before + part[..k + 1]) == Ok(Elements(before + part[..k]).value + [e])
            case Err(e) => Elements(before + part) == Err(e)
  {
    hide AnchorOver, RulesetOf;
    var next := before + part[..k + 1];
    assert next[..|next| - 1] == before + part[..k];
    if NewElement(part[k]).Err? {
      assert (before + part)[..|before| + k + 1] == next;
      FirstErrorStays(before + part, |before| + k + 1);
    }
  }

  lemma {:induction false} FirstErrorStays(jobs: seq<Job>, n: nat)
    requires n <= |jobs| && Elements(jobs[..n]).Err?
    ensures Elements(jobs) == Elements(jobs[..n])
    decreases |jobs|
  {
    if n == |jobs| {
      assert jobs[..n] == jobs;
    } else {
      var front := jobs[..|jobs| - 1];
      assert front[..n] == jobs[..n];
      FirstErrorStays(front, n);
    }
  }

  // ---- Changes and transactions ----

  /** AnchorChange: a builder whose setters fill one field each. */
  class AnchorChange {
    var filterRules: Option<seq<FilterRule>>
    var natRules: Option<seq<NatRule>>
    var redirectRules: Option<seq<RedirectRule>>
    var scrubRules: Option<seq<ScrubRule>>

    constructor ()
      ensures Value() == Change(None, None, None, None)
    {
      filterRules, natRules, redirectRules, scrubRules := None, None, None, None;
    }

    function Value(): Change
      reads this
    {
      Change(filterRules, natRules, redirectRules, scrubRules)
    }

    method SetFilterRules(rules: seq<FilterRule>)
      modifies this
      ensures Value() == old(Value()).(filterRules := Some(rules))
    {
      filterRules := Some(rules);
    }

    method SetNatRules(rules: seq<NatRule>)
      modifies this
      ensures Value() == old(Value()).(natRules := Some(rules))
    {
      natRules := Some(rules);
    }

    method SetRedirectRules(rules: seq<RedirectRule>)
      modifies this
      ensures Value() == old(Value()).(redirectRules := Some(rules))
    {
      redirectRules := Some(rules);
    }

    method SetScrubRules(rules: seq<ScrubRule>)
      modifies this
      ensures Value() == old(Value()).(scrubRules := Some(rules))
    {
      scrubRules := Some(rules);
    }
  }

  /** A walk over a hash map, in an order nobody chooses. */
  method Collect<R>(m: map<Text, seq<R>>) returns (entries: seq<Entry<R>>)
    ensures Lists(entries, m)
  {
    entries := [];
    var rest := m.Keys;
    while rest != {}
      invariant rest <= m.Keys
      invariant forall i :: 0 <= i < |entries| ==> entries[i].anchor in m.Keys - rest
      invariant forall i, j :: 0 <= i < j < |entries| ==> entries[i].anchor != entries[j].anchor
      invariant forall i :: 0 <= i < |entries| ==> m[entries[i].anchor] == entries[i].rules
      invariant forall a :: a in m && a !in rest ==> exists i :: 0 <= i < |entries| && entries[i].anchor == a
      decreases rest
    {
      var anchor :| anchor in rest;
      ghost var walked := entries;
      rest := rest - {anchor};
      entries := entries + [Entry(anchor, m[anchor])];
      assert entries[|walked|].anchor == anchor;
      forall a | a in m && a !in rest
        ensures exists i :: 0 <= i < |entries| && entries[i].anchor == a
      {
        if a != anchor {
          var i :| 0 <= i < |walked| && walked[i].anchor == a;
          assert entries[i].anchor == a;
        }
      }
    }
  }

  class Transaction {
    var changes: ChangeMap

    constructor ()
      ensures changes == map[]
    {
      changes := map[];
    }

    /** Registers a change, replacing an earlier one for the same anchor. */
    method AddChange(anchor: Text, change: AnchorChange)
      modifies this
      ensures changes == old(changes)[anchor := change.Value()]
    {
      changes := changes[anchor := change.Value()];
    }

    /** Takes the four rule lists out of every change, one kind after the other. */
    method TakePartition() returns (p: Partition)
      modifies this
      ensures Partitions(p, old(changes))
      ensures changes.Keys == old(changes).Keys
      ensures forall a :: a in changes ==> changes[a] == Change(None, None, None, None)
    {
      hide FilterChanges, NatChanges, RedirectChanges, ScrubChanges, Lists;
      hide WithoutFilters, WithoutNats, WithoutRedirects, WithoutScrubs;
      TakingKeepsTheRest(changes);
      TakingEmpties(changes);
      var filters := Collect(FilterChanges(changes));
      changes := WithoutFilters(changes);
      var nats := Collect(NatChanges(changes));
      changes := WithoutNats(changes);
      var redirects := Collect(RedirectChanges(changes));
      changes := WithoutRedirects(changes);
      var scrubs := Collect(ScrubChanges(changes));
      changes := WithoutScrubs(changes);
      p := Partition(filters, nats, redirects, scrubs);
    }

    /**
     * Commits the transaction: on success the rulesets are overridden by the changes, on failure,
     * wherever it happens, none of them has changed.
     */
    method Commit(dev: PfDevice) returns (r: Result<(), Error>, ghost p: Partition)
      modifies this, dev`world
      ensures Partitions(p, old(changes))
      ensures (r, dev.world) == CommitSpec.Commit(JobsOf(p), old(dev.world))
      ensures r.Ok? ==> Overridden(old(changes), old(dev.world), dev.world)
      ensures r.Err? ==> Unchanged(old(dev.world), dev.world)
    {
      var taken := TakePartition();
      p := taken;
      CommitOverrides(p, old(changes), dev.world);
      r := CommitPartition(dev, taken);
    }
  }

  /** All elements of a partition, filter rules first. */
  method BuildElements(p: Partition) returns (r: Result<seq<TransElement>, Error>)
    ensures r == Elements(JobsOf(p))
  {
    ghost var f := JobsFrom(RulesetKind.Filter, AsFilter, p.filters);
    ghost var n := JobsFrom(RulesetKind.Nat, AsNat, p.nats);
    ghost var d := JobsFrom(RulesetKind.Redirect, AsRedirect, p.redirects);
    ghost var jobs := JobsOf(p);
    assert [] + f == f == jobs[..|f|] && f + n == jobs[..|f + n|] && f + n + d == jobs[..|f + n + d|];
    r := AppendElements(RulesetKind.Filter, AsFilter, p.filters, [], []);
    if r.Err? {
      FirstErrorStays(jobs, |f|);
      return;
    }
    r := AppendElements(RulesetKind.Nat, AsNat, p.nats, r.value, f);
    if r.Err? {
      FirstErrorStays(jobs, |f + n|);
      return;
    }
    r := AppendElements(RulesetKind.Redirect, AsRedirect, p.redirects, r.value, f + n);
    if r.Err? {
      FirstErrorStays(jobs, |f + n + d|);
      return;
    }
    r := AppendElements(RulesetKind.Scrub, AsScrub, p.scrubs, r.value, f + n + d);
  }

  lemma JobsByPosition(p: Partition)
    ensures var jobs, f, n, d, s := JobsOf(p), |p.filters|, |p.nats|, |p.redirects|, |p.scrubs|;
            && |jobs| == f + n + d + s
            && jobs[0..f] == JobsFrom(RulesetKind.Filter, AsFilter, p.filters)
            && jobs[f..f + n] == JobsFrom(RulesetKind.Nat, AsNat, p.nats)
            && jobs[f + n..f + n + d] == JobsFrom(RulesetKind.Redirect, AsRedirect, p.redirects)
            && jobs[f + n + d..f + n + d + s] == JobsFrom(RulesetKind.Scrub, AsScrub, p.scrubs)
  {
  }

  /** The four loops, one after the other, over one iterator. */
  method AddPartition(dev: PfDevice, p: Partition, elements: seq<TransElement>) returns (r: Result<(), Error>)
    requires |elements| == |JobsOf(p)|
    modifies dev`world
    ensures (r, dev.world) == AddJobs(JobsOf(p), elements, 0, old(dev.world))
  {
    hide JobsOf, JobsFrom, AddRules;
    ghost var jobs := JobsOf(p);
    JobsByPosition(p);
    var tickets := new TicketIterator(elements);
    r := AddChanges(dev, RulesetKind.Filter, AsFilter, p.filters, tickets, jobs);
    if r.Err? {
      return;
    }
    r := AddChanges(dev, RulesetKind.Nat, AsNat, p.nats, tickets, jobs);
    if r.Err? {
      return;
    }
    r := AddChanges(dev, RulesetKind.Redirect, AsRedirect, p.redirects, tickets, jobs);
    if r.Err? {
      return;
    }
    r := AddChanges(dev, RulesetKind.Scrub, AsScrub, p.scrubs, tickets, jobs);
  }

  method CommitPartition(dev: PfDevice, p: Partition) returns (r: Result<(), Error>)
    modifies dev`world
    ensures (r, dev.world) == CommitSpec.Commit(JobsOf(p), old(dev.world))
  {
    hide Elements, JobsOf, Opened, DiocXCommit, AddJobs;
    var built := BuildElements(p);
    if built.Err? {
      return Err(built.error);
    }
    ElementsMeans(JobsOf(p));
    var elements := new TransElement[|built.value|](i requires 0 <= i < |built.value| => built.value[i]);
    assert elements[..] == built.value;
    r := dev.XBegin(elements);
    if r.Err? {
      return;
    }
    r := AddPartition(dev, p, elements[..]);
    if r.Err? {
      return;
    }
    r := dev.XCommit(elements);
  }
}
