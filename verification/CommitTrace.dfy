// The calls a commit makes, whatever the firewall answers: which rules are added under which
// ticket, and when the commit itself is issued.
module CommitTrace {
  import opened Prelude
  import opened Ffi
  import opened CStrings
  import opened Rules
  import opened Encoding
  import opened PfKernel
  import opened CommitSpec
  import opened CommitProofs

  /** A rule to add, with the anchor and the ticket that belong to it. */
  datatype Item = Item(anchor: Text, ticket: u32, rule: Rule)

  function RuleItems(job: Job, ticket: u32, j: nat): seq<Item>
    requires j <= |job.rules|
    decreases |job.rules| - j
  {
    if j == |job.rules| then [] else [Item(job.anchor, ticket, job.rules[j])] + RuleItems(job, ticket, j + 1)
  }

  /** Every rule of every job once, in order, each with the ticket of its own job's element. */
  function JobItems(jobs: seq<Job>, elements: seq<TransElement>, i: nat): seq<Item>
    requires |jobs| == |elements| && i <= |jobs|
    decreases |jobs| - i
  {
    if i == |jobs| then []
    else RuleItems(jobs[i], elements[i].ticket, 0) + JobItems(jobs, elements, i + 1)
  }

  /** The pool that a stretch of calls has begun and filled, as the replies tell. */
  datatype Pool = Pool(ticket: Option<u32>, addrs: seq<RawPoolAddr>)

  const NO_POOL := Pool(None, [])

  /** A new pool is empty, an address goes into the pool of its ticket, a rule takes the pool with it. */
  function PoolAfter(e: Event, s: Pool): Pool {
    if e.call.BeginAddrs? && e.reply.Ticket? then Pool(Some(e.reply.ticket), [])
    else if e.call.AddAddr? && e.reply.Done? && s.ticket == Some(e.call.ticket) then
      s.(addrs := s.addrs + [e.call.addr])
    else if e.call.AddRule? then NO_POOL
    else s
  }

  function PoolAfterAll(events: seq<Event>, s: Pool): Pool {
    if events == [] then s else PoolAfterAll(events[1..], PoolAfter(events[0], s))
  }

  /** A call that adds a rule, with the pool filled for it. */
  datatype Added = Added(call: Call, pool: Pool)

  function AddOf(call: Call, s: Pool): seq<Added> {
    if call.AddRule? then [Added(call, s)] else []
  }

  /** The calls that add a rule to a transaction. */
  function Adds(events: seq<Event>, s: Pool): seq<Added> {
    if events == [] then []
    else AddOf(events[0].call, s) + Adds(events[1..], PoolAfter(events[0], s))
  }

  function NewEvents(w: World, w': World): seq<Event>
    requires w.trace <= w'.trace
  {
    w'.trace[|w.trace|..]
  }

  /** The call adds this rule, under this ticket, with exactly its own pool, whose ticket it bears. */
  predicate Carries(added: Added, item: Item) {
    var call := added.call;
    && call.AddRule? && call.ticket == item.ticket
    && Fits(item.anchor, ANCHOR_SIZE) && call.anchor == Padded(item.anchor, ANCHOR_SIZE)
    && InstalledForm(item.rule) == Ok(Installed(call.rule, added.pool.addrs))
    && added.pool.ticket == Some(call.poolTicket)
  }

  /** The calls carry the first items, in order. */
  predicate Follows(calls: seq<Added>, items: seq<Item>) {
    |calls| <= |items| && forall i :: 0 <= i < |calls| ==> Carries(calls[i], items[i])
  }

  lemma AddsFirst(first: Event, rest: seq<Event>, s: Pool)
    ensures Adds([first] + rest, s) == AddOf(first.call, s) + Adds(rest, PoolAfter(first, s))
    ensures PoolAfterAll([first] + rest, s) == PoolAfterAll(rest, PoolAfter(first, s))
  {
    hide AddOf, PoolAfter;
    assert ([first] + rest)[1..] == rest;
  }

  lemma {:induction false} AddsConcat(a: seq<Event>, b: seq<Event>, s: Pool)
    ensures Adds(a + b, s) == Adds(a, s) + Adds(b, PoolAfterAll(a, s))
    ensures PoolAfterAll(a + b, s) == PoolAfterAll(b, PoolAfterAll(a, s))
    decreases |a|
  {
    if a == [] {
      assert a + b == b;
    } else {
      hide Adds, AddOf, PoolAfter, PoolAfterAll;
      var first, rest := a[0], a[1..];
      var s' := PoolAfter(first, s);
      assert a == [first] + rest;
      Regroup([first], rest, b);
      AddsFirst(first, rest + b, s);
      AddsConcat(rest, b, s');
      AddsFirst(first, rest, s);
      Regroup(AddOf(first.call, s), Adds(rest, s'), Adds(b, PoolAfterAll(rest, s')));
    }
  }

  lemma EventsOfSteps(u: World, v: World, w: World)
    requires u.trace <= v.trace && v.trace <= w.trace
    ensures u.trace <= w.trace && NewEvents(u, w) == NewEvents(u, v) + NewEvents(v, w)
  {
  }

  lemma AddsOfSteps(u: World, v: World, w: World, s: Pool)
    requires u.trace <= v.trace && v.trace <= w.trace
    ensures var s' := PoolAfterAll(NewEvents(u, v), s);
            && Adds(NewEvents(u, w), s) == Adds(NewEvents(u, v), s) + Adds(NewEvents(v, w), s')
            && PoolAfterAll(NewEvents(u, w), s) == PoolAfterAll(NewEvents(v, w), s')
  {
    EventsOfSteps(u, v, w);
    AddsConcat(NewEvents(u, v), NewEvents(v, w), s);
  }

  lemma FollowsConcat(c: seq<Added>, d: seq<Added>, a: seq<Item>, b: seq<Item>)
    requires Follows(c, a) && |c| == |a| && Follows(d, b)
    ensures Follows(c + d, a + b)
  {
    forall i | 0 <= i < |c + d|
      ensures Carries((c + d)[i], (a + b)[i])
    {
      if i < |c| {
        assert Carries(c[i], a[i]);
      } else {
        assert Carries(d[i - |c|], b[i - |c|]);
      }
    }
  }

  lemma FollowsPrefix(c: seq<Added>, a: seq<Item>, b: seq<Item>)
    requires Follows(c, a)
    ensures Follows(c, a + b)
  {
  }

  /** What one call adds to what was seen. */
  lemma OneCallTraced(e: Event, w: World, v: World, s: Pool)
    requires v.trace == w.trace + [e]
    ensures NewEvents(w, v) == [e]
    ensures Adds(NewEvents(w, v), s) == AddOf(e.call, s) && PoolAfterAll(NewEvents(w, v), s) == PoolAfter(e, s)
  {
    hide AddOf, PoolAfter;
    AddsFirst(e, [], s);
    assert [e] + [] == [e] && AddOf(e.call, s) + [] == AddOf(e.call, s);
  }

  lemma BeginTraced(w: World, s: Pool)
    ensures var (t, v) := DiocBeginAddrs(w);
            && w.trace <= v.trace && Adds(NewEvents(w, v), s) == []
            && (t.Ok? ==> PoolAfterAll(NewEvents(w, v), s) == Pool(Some(t.value), []))
  {
    hide Adds, PoolAfterAll;
    var v := DiocBeginAddrs(w).1;
    OneCallTraced(v.trace[|w.trace|], w, v, s);
  }

  lemma RegisterTraced(pool: Option<PoolAddr>, ticket: u32, w: World)
    ensures var (a, v) := RegisterPool(pool, ticket, w);
            var s := Pool(Some(ticket), []);
            && w.trace <= v.trace && Adds(NewEvents(w, v), s) == []
            && (a.Ok? ==> PoolEncoded(pool).Ok?
                          && PoolAfterAll(NewEvents(w, v), s) == Pool(Some(ticket), PoolEncoded(pool).value))
  {
    hide WrapOver, InterfaceOver;
    var v := RegisterPool(pool, ticket, w).1;
    if v.trace == w.trace {
      NothingTraced(w, Pool(Some(ticket), []));
    } else {
      hide Adds, PoolAfterAll;
      OneCallTraced(v.trace[|w.trace|], w, v, Pool(Some(ticket), []));
      assert forall addr: RawPoolAddr :: [] + [addr] == [addr];
    }
  }

  lemma RuleCallTraced(name: AnchorName, ticket: u32, poolTicket: u32, raw: RawRule, w: World, s: Pool)
    ensures var v := DiocAddRule(name, ticket, poolTicket, raw, w).1;
            w.trace <= v.trace && Adds(NewEvents(w, v), s) == [Added(AddRule(name, ticket, poolTicket, raw), s)]
  {
    hide Adds, PoolAfterAll;
    var v := DiocAddRule(name, ticket, poolTicket, raw, w).1;
    OneCallTraced(v.trace[|w.trace|], w, v, s);
  }

  lemma NothingTraced(w: World, s: Pool)
    ensures Adds(NewEvents(w, w), s) == [] && PoolAfterAll(NewEvents(w, w), s) == s
  {
  }

  lemma CallCarries(ticket: u32, poolTicket: u32, raw: RawRule, pool: seq<RawPoolAddr>, anchor: Text, rule: Rule)
    requires Fits(anchor, ANCHOR_SIZE) && InstalledForm(rule) == Ok(Installed(raw, pool))
    ensures var call := AddRule(Padded(anchor, ANCHOR_SIZE), ticket, poolTicket, raw);
            Carries(Added(call, Pool(Some(poolTicket), pool)), Item(anchor, ticket, rule))
  {
    hide InstalledForm, Padded;
  }

  /** At most one call adds the rule, the right one with its own pool, and exactly one if all goes well. */
  lemma RuleTraced(anchor: Text, rule: Rule, ticket: u32, w: World, s: Pool)
    requires Fits(anchor, ANCHOR_SIZE)
    ensures var (r, v) := AddToTransaction(anchor, rule, ticket, w);
            && w.trace <= v.trace
            && Follows(Adds(NewEvents(w, v), s), [Item(anchor, ticket, rule)])
            && (r.Ok? ==> |Adds(NewEvents(w, v), s)| == 1)
  {
    hide RuleOver, PoolAddrOf, PoolPortOf, InstalledForm, DiocBeginAddrs, RegisterPool, DiocAddRule, PoolPortOver;
    hide PoolEncoded, Adds, PoolAfterAll, NewEvents, NameOf, Carries, Padded;
    var name := AnchorOver(anchor, Zeros(ANCHOR_SIZE)).value;
    AnchorNameReadBack(anchor);
    NothingTraced(w, s);
    match RuleOver(rule, ZERO_RULE)
    case Err(_) =>
    case Ok(raw) =>
      var (t, w1) := DiocBeginAddrs(w);
      BeginTraced(w, s);
      if t.Ok? {
        var (a, w2) := RegisterPool(PoolAddrOf(rule), t.value, w1);
        RegisterTraced(PoolAddrOf(rule), t.value, w1);
        AddsOfSteps(w, w1, w2, s);
        var ported := PoolPortOver(PoolPortOf(rule), raw);
        if a.Ok? && ported.Ok? {
          var pool := PoolEncoded(PoolAddrOf(rule)).value;
          FormOfPieces(rule, raw, pool, ported.value);
          CallCarries(ticket, t.value, ported.value, pool, anchor, rule);
          RuleCallTraced(name, ticket, t.value, ported.value, w2, Pool(Some(t.value), pool));
          AddsOfSteps(w, w2, DiocAddRule(name, ticket, t.value, ported.value, w2).1, s);
        }
      }
  }

  lemma {:induction false} RulesTraced(job: Job, ticket: u32, j: nat, w: World, s: Pool)
    requires Fits(job.anchor, ANCHOR_SIZE) && j <= |job.rules|
    ensures var (r, v) := AddRules(job, ticket, j, w);
            && w.trace <= v.trace
            && Follows(Adds(NewEvents(w, v), s), RuleItems(job, ticket, j))
            && (r.Ok? ==> |Adds(NewEvents(w, v), s)| == |RuleItems(job, ticket, j)|)
    decreases |job.rules| - j
  {
    hide AddToTransaction;
    if j < |job.rules| {
      hide Follows, Adds, PoolAfterAll, NewEvents;
      var (r, v) := AddToTransaction(job.anchor, job.rules[j], ticket, w);
      var first, rest := [Item(job.anchor, ticket, job.rules[j])], RuleItems(job, ticket, j + 1);
      RuleTraced(job.anchor, job.rules[j], ticket, w, s);
      if r.Err? {
        FollowsPrefix(Adds(NewEvents(w, v), s), first, rest);
      } else {
        var u, s' := AddRules(job, ticket, j + 1, v).1, PoolAfterAll(NewEvents(w, v), s);
        RulesTraced(job, ticket, j + 1, v, s');
        AddsOfSteps(w, v, u, s);
        FollowsConcat(Adds(NewEvents(w, v), s), Adds(NewEvents(v, u), s'), first, rest);
      }
    }
  }

  lemma {:induction false} JobsTraced(jobs: seq<Job>, elements: seq<TransElement>, i: nat, w: World, s: Pool)
    requires |jobs| == |elements| && i <= |jobs|
    requires forall m :: 0 <= m < |jobs| ==> Fits(jobs[m].anchor, ANCHOR_SIZE)
    ensures var (r, v) := AddJobs(jobs, elements, i, w);
            && w.trace <= v.trace
            && Follows(Adds(NewEvents(w, v), s), JobItems(jobs, elements, i))
            && (r.Ok? ==> |Adds(NewEvents(w, v), s)| == |JobItems(jobs, elements, i)|)
    decreases |jobs| - i
  {
    hide AddRules, RuleItems;
    if i < |jobs| {
      hide Follows, Adds, PoolAfterAll, NewEvents;
      var (r, v) := AddRules(jobs[i], elements[i].ticket, 0, w);
      var first, rest := RuleItems(jobs[i], elements[i].ticket, 0), JobItems(jobs, elements, i + 1);
      RulesTraced(jobs[i], elements[i].ticket, 0, w, s);
      if r.Err? {
        FollowsPrefix(Adds(NewEvents(w, v), s), first, rest);
      } else {
        var u, s' := AddJobs(jobs, elements, i + 1, v).1, PoolAfterAll(NewEvents(w, v), s);
        JobsTraced(jobs, elements, i + 1, v, s');
        AddsOfSteps(w, v, u, s);
        FollowsConcat(Adds(NewEvents(w, v), s), Adds(NewEvents(v, u), s'), first, rest);
      }
    }
  }

  /** The calls of a run that got its tickets. */
  predicate Aligned(jobs: seq<Job>, elements: seq<TransElement>, events: seq<Event>, success: bool)
    requires |jobs| == |elements|
  {
    && Follows(Adds(events, NO_POOL), JobItems(jobs, elements, 0))
    && (success ==> events != [] && events[|events| - 1] == Event(CommitTrans(elements), Done))
    && (forall i :: 0 <= i < |events| && events[i].call.CommitTrans? ==>
          && i == |events| - 1 && events[i].call.elements == elements
          && |Adds(events, NO_POOL)| == |JobItems(jobs, elements, 0)|)
  }

  /**
   * Every rule is added under the ticket of the element that carries its own anchor and kind, with
   * exactly its own pool, begun and filled for it, in order, with none skipped: in a failing run
   * up to the failing call, and completely once the commit is issued. The commit is issued at most
   * once, last, with the same elements.
   */
  lemma TicketsAlign(jobs: seq<Job>, w: World)
    requires Proper(jobs) && Elements(jobs).Ok?
    ensures var (b, w1) := DiocXBegin(Elements(jobs).value, w);
            var (r, v) := Commit(jobs, w);
            && w.trace <= v.trace && NewEvents(w, v) != []
            && NewEvents(w, v)[0].call == BeginTrans(Elements(jobs).value)
            && (b.Err? ==> v == w1 && |NewEvents(w, v)| == 1 && r == Err(b.error))
            && (b.Ok? ==> ElementsOf(b.value, jobs) && Aligned(jobs, b.value, NewEvents(w, v), r.Ok?))
  {
    hide Elements, DiocXBegin, DiocXCommit, AddJobs, Quiet, Staged, Aligned, Adds;
    var (b, w1) := DiocXBegin(Elements(jobs).value, w);
    BeginStages(jobs, w);
    BeginTransTraced(Elements(jobs).value, w);
    if b.Ok? {
      AlignedFromBegin(jobs, b.value, w, w1);
      FirstStays(w, w1, Commit(jobs, w).1);
    }
  }

  lemma BeginTransTraced(elements: seq<TransElement>, w: World)
    ensures var (b, v) := DiocXBegin(elements, w);
            && w.trace <= v.trace && |NewEvents(w, v)| == 1
            && NewEvents(w, v)[0].call == BeginTrans(elements)
            && Adds(NewEvents(w, v), NO_POOL) == []
  {
    hide Opened;
    var v := DiocXBegin(elements, w).1;
    assert NewEvents(w, v) == [v.trace[|w.trace|]];
  }

  lemma FirstStays(u: World, v: World, w: World)
    requires u.trace <= v.trace && v.trace <= w.trace && NewEvents(u, v) != []
    ensures u.trace <= w.trace && NewEvents(u, w) != [] && NewEvents(u, w)[0] == NewEvents(u, v)[0]
  {
  }

  lemma AlignedFromBegin(jobs: seq<Job>, elements: seq<TransElement>, w: World, w1: World)
    requires Proper(jobs) && ElementsOf(elements, jobs) && Staged(w1, jobs, elements, 0, 0)
    requires Quiet(w, w1) && Adds(NewEvents(w, w1), NO_POOL) == []
    ensures var (r, w2) := AddJobs(jobs, elements, 0, w1);
            var (c, v) := if r.Err? then (r, w2) else DiocXCommit(elements, w2);
            w.trace <= w1.trace <= v.trace && Aligned(jobs, elements, NewEvents(w, v), c.Ok?)
  {
    hide AddJobs, JobsVerdict, Staged, Follows, JobItems, Adds, PoolAfterAll, DiocXCommit, Unchanged, Later;
    var (r, w2) := AddJobs(jobs, elements, 0, w1);
    JobsStaged(w1, jobs, elements, 0);
    var s := PoolAfterAll(NewEvents(w, w1), NO_POOL);
    JobsTraced(jobs, elements, 0, w1, s);
    AddsOfSteps(w, w1, w2, NO_POOL);
    QuietTransitive(w, w1, w2);
    var events := NewEvents(w, w2);
    assert Adds(events, NO_POOL) == Adds(NewEvents(w1, w2), s);
    if r.Ok? {
      AlignedWithCommit(jobs, elements, w, w2);
    } else {
      assert forall i :: 0 <= i < |events| ==> events[i] == w2.trace[|w.trace| + i];
    }
  }

  lemma AlignedWithCommit(jobs: seq<Job>, elements: seq<TransElement>, w: World, w2: World)
    requires |jobs| == |elements| && Quiet(w, w2)
    requires Follows(Adds(NewEvents(w, w2), NO_POOL), JobItems(jobs, elements, 0))
    requires |Adds(NewEvents(w, w2), NO_POOL)| == |JobItems(jobs, elements, 0)|
    ensures var (c, v) := DiocXCommit(elements, w2);
            w.trace <= w2.trace <= v.trace && Aligned(jobs, elements, NewEvents(w, v), c.Ok?)
  {
    CommitTraced(elements, w2, PoolAfterAll(NewEvents(w, w2), NO_POOL));
    var v := DiocXCommit(elements, w2).1;
    AddsOfSteps(w, w2, v, NO_POOL);
    var events := NewEvents(w, v);
    forall i | 0 <= i < |events| - 1
      ensures !events[i].call.CommitTrans?
    {
      assert events[i] == v.trace[|w.trace| + i] == w2.trace[|w.trace| + i];
    }
  }

  lemma {:induction false} SwappedKeepsTrace(elements: seq<TransElement>, w: World)
    ensures Swapped(elements, w).trace == w.trace
  {
    if elements != [] {
      SwappedKeepsTrace(elements[..|elements| - 1], w);
    }
  }

  lemma CommitTraced(elements: seq<TransElement>, w: World, s: Pool)
    ensures var (r, v) := DiocXCommit(elements, w);
            && w.trace <= v.trace && |v.trace| == |w.trace| + 1
            && v.trace[|w.trace|].call == CommitTrans(elements)
            && (r.Ok? ==> v.trace[|w.trace|].reply == Done)
            && Adds(NewEvents(w, v), s) == []
  {
    hide Swapped, Committable;
    SwappedKeepsTrace(elements, w.Turned());
    var v := DiocXCommit(elements, w).1;
    assert NewEvents(w, v) == [v.trace[|w.trace|]];
  }
}
