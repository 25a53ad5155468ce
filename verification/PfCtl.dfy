// The library's main object. Every method is proved against the function that describes its
// ioctls: `Anchors`, `SingleRules`, `Queries` and `CommitSpec` hold those functions.
module PfCtl {
  import opened Prelude
  import opened CStrings
  import opened Ffi
  import opened Rules
  import opened Encoding
  import opened Structs
  import opened Writers
  import opened PfKernel
  import opened Device
  import opened Changes
  import opened CommitTheorems
  import CommitSpec
  import Transactions
  import Anchors
  import SingleRules
  import Queries

  class PfCtl {
    const dev: PfDevice

    constructor (dev: PfDevice)
      ensures this.dev == dev
    {
      this.dev := dev;
    }

    // ---- Anchors ----

    method AddAnchor(name: Text, kind: RulesetKind) returns (r: Result<(), Error>)
      modifies dev`world
      ensures (r, dev.world) == Anchors.AddAnchor(name, kind, old(dev.world))
    {
      hide DiocInsertRule, AnchorOver;
      var request := new PfiocRule();
      request.rule.codes := request.rule.codes.(action := AnchorAction(kind));
      r := CopyAnchorName(name, request.anchorCall);
      if r.Err? {
        return;
      }
      r := dev.InsertRule(request);
    }

    method TryAddAnchor(name: Text, kind: RulesetKind) returns (r: Result<(), Error>)
      modifies dev`world
      ensures (r, dev.world) == Anchors.Perform(Anchors.TryAdd(name, kind), old(dev.world))
      ensures var (added, _) := Anchors.AddAnchor(name, kind, old(dev.world));
              r == if added == Err(StateAlreadyActive) then Ok(()) else added
    {
      var added := AddAnchor(name, kind);
      r := Anchors.Ignore(added, StateAlreadyActive);
    }

    /**
     * Finds the anchor rule of a name. The request is overwritten by every read, its number too;
     * the bound of the loop is the count of before.
     */
    method WithAnchorRule(name: Text, kind: RulesetKind) returns (r: Result<(), Error>, request: PfiocRule)
      modifies dev`world
      ensures fresh(request) && request.Valid() && fresh(request.rule)
      ensures var (found, w) := Anchors.FindAnchor(name, kind, old(dev.world));
              && dev.world == w
              && match found
                 case Ok(i) =>
                   && r == Ok(()) && request.nr == i && request.rule.codes.action == AnchorAction(kind)
                   && 0 in request.anchorCall[..] && CompareCstrSafe(name, request.anchorCall[..])
                 case Err(e) => r == Err(e)
    {
      hide AnchorAction, MainKey, CallOf, UntilNul;
      request := new PfiocRule();
      request.rule.codes := request.rule.codes.(action := AnchorAction(kind));
      r := dev.GetRules(request);
      if r.Err? {
        return;
      }
      var count := request.nr;
      ghost var start := dev.world;
      for i := 0 to count
        invariant request.Valid() && fresh(request.Parts()) && request.rule.codes.action == AnchorAction(kind)
        invariant Anchors.Search(name, AnchorAction(kind), 0, count, start)
                  == Anchors.Search(name, AnchorAction(kind), i, count, dev.world)
      {
        request.nr := i;
        r := dev.GetRule(request);
        if r.Err? {
          return;
        }
        if CompareCstrSafe(name, request.anchorCall[..]) {
          return;
        }
      }
      r := Err(AnchorDoesNotExist);
    }

    method RemoveAnchor(name: Text, kind: RulesetKind) returns (r: Result<(), Error>)
      modifies dev`world
      ensures (r, dev.world) == Anchors.RemoveAnchor(name, kind, old(dev.world))
    {
      ghost var (found, _) := Anchors.FindAnchor(name, kind, dev.world);
      var request;
      r, request := WithAnchorRule(name, kind);
      if r.Ok? {
        assert found.Ok?;
        r := dev.DeleteRule(request);
      } else {
        assert found.Err?;
      }
    }

    method TryRemoveAnchor(name: Text, kind: RulesetKind) returns (r: Result<(), Error>)
      modifies dev`world
      ensures (r, dev.world) == Anchors.Perform(Anchors.TryRemove(name, kind), old(dev.world))
      ensures var (removed, _) := Anchors.RemoveAnchor(name, kind, old(dev.world));
              r == if removed == Err(AnchorDoesNotExist) then Ok(()) else removed
    {
      hide Anchors.RemoveAnchor;
      var removed := RemoveAnchor(name, kind);
      r := Anchors.Ignore(removed, AnchorDoesNotExist);
    }

    // ---- Rules, one at a time ----

    /** Asks for the tail of the active ruleset. */
    method AppendRule(request: PfiocRule) returns (r: Result<(), Error>)
      requires request.Valid()
      modifies dev`world, request
      ensures (r, dev.world) ==
              SingleRules.Append(request.anchor[..], old(request.ticket), old(request.poolTicket),
                                 request.rule.Value(), old(dev.world))
    {
      request.change := PF_CHANGE_ADD_TAIL;
      r := dev.ChangeRule(request);
    }

    /** The tickets of a plain add, and its anchor. */
    method PreparePlain(anchor: Text, kind: RulesetKind, request: PfiocRule) returns (r: Result<(), Error>)
      requires request.Valid() && request.anchor[..] == Zeros(ANCHOR_SIZE)
      modifies dev`world, request, request.anchor
      ensures var (p, w1) := DiocBeginAddrs(old(dev.world));
              if p.Err? then r == Err(p.error) && dev.world == w1
              else
                var (t, w2) := TicketOf(anchor, kind, w1);
                && dev.world == w2
                && if t.Err? then r == Err(t.error)
                   else
                     && request.ticket == t.value && request.poolTicket == p.value
                     && match AnchorOver(anchor, Zeros(ANCHOR_SIZE))
                        case Ok(name) => r == Ok(()) && request.anchor[..] == name
                        case Err(e) => r == Err(e)
    {
      hide DiocBeginAddrs, TicketOf;
      var poolTicket := dev.GetPoolTicket();
      if poolTicket.Err? {
        return Err(poolTicket.error);
      }
      request.poolTicket := poolTicket.value;
      var ticket := dev.GetTicket(anchor, kind);
      if ticket.Err? {
        return Err(ticket.error);
      }
      request.ticket := ticket.value;
      r := CopyAnchorName(anchor, request.anchor);
    }

    method AddRule(anchor: Text, rule: FilterRule) returns (r: Result<(), Error>)
      modifies dev`world
      ensures (r, dev.world) == SingleRules.AddSingle(anchor, FilterOf(rule), old(dev.world))
    {
      hide DiocBeginAddrs, TicketOf, AnchorOver, FilterOver, SingleRules.Append;
      var request := new PfiocRule();
      r := PreparePlain(anchor, RulesetKind.Filter, request);
      if r.Err? {
        return;
      }
      r := CopyFilterRule(dev.host, rule, request.rule);
      if r.Err? {
        return;
      }
      r := AppendRule(request);
    }

    method AddScrubRule(anchor: Text, rule: ScrubRule) returns (r: Result<(), Error>)
      modifies dev`world
      ensures (r, dev.world) == SingleRules.AddSingle(anchor, ScrubOf(rule), old(dev.world))
    {
      hide DiocBeginAddrs, TicketOf, AnchorOver, ScrubOver, SingleRules.Append;
      var request := new PfiocRule();
      r := PreparePlain(anchor, RulesetKind.Scrub, request);
      if r.Err? {
        return;
      }
      CopyScrubRule(rule, request.rule);
      r := AppendRule(request);
    }

    /** The pool of an encoded rule, then the ticket, then the tail. */
    method FinishPooled(
      anchor: Text, kind: RulesetKind, request: PfiocRule, pool: Option<PoolAddr>, port: Option<Port>)
      returns (r: Result<(), Error>)
      requires request.Valid()
      modifies dev`world, request, request.rule`rpool
      ensures (r, dev.world) ==
              SingleRules.AppendPooled(anchor, kind, old(request.anchor[..]), old(request.rule.Value()), pool, port,
                                       old(dev.world))
    {
      hide DiocBeginAddrs, TicketOf, PoolAddrOver, PoolPortEncoded, SingleRules.Append;
      var poolTicket := dev.GetPoolTicket();
      if poolTicket.Err? {
        return Err(poolTicket.error);
      }
      if pool.Some? {
        r := dev.AddPoolAddress(pool.value, poolTicket.value);
        if r.Err? {
          return;
        }
        // The list kept beside the rule encodes the very address that was just registered.
        var list := InitPool(dev.host, [pool.value]);
        assert list.Ok?;
      }
      if port.Some? {
        r := CopyPoolPort(port.value, request.rule);
        if r.Err? {
          return;
        }
      }
      request.poolTicket := poolTicket.value;
      var ticket := dev.GetTicket(anchor, kind);
      if ticket.Err? {
        return Err(ticket.error);
      }
      request.ticket := ticket.value;
      r := AppendRule(request);
    }

    method AddNatRule(anchor: Text, rule: NatRule) returns (r: Result<(), Error>)
      modifies dev`world
      ensures (r, dev.world) == SingleRules.AddSingle(anchor, NatOf(rule), old(dev.world))
    {
      hide NatOver, AnchorOver, SingleRules.AppendPooled;
      var request := new PfiocRule();
      r := CopyAnchorName(anchor, request.anchor);
      if r.Err? {
        return;
      }
      r := CopyNatRule(dev.host, rule, request.rule);
      if r.Err? {
        return;
      }
      match rule.GetNatTo()
      case Some(natTo) =>
        r := FinishPooled(anchor, RulesetKind.Nat, request, Some(PoolAddr(Interface.Any, natTo.ip)), Some(natTo.port));
      case None =>
        r := FinishPooled(anchor, RulesetKind.Nat, request, None, None);
    }

    method AddRedirectRule(anchor: Text, rule: RedirectRule) returns (r: Result<(), Error>)
      modifies dev`world
      ensures (r, dev.world) == SingleRules.AddSingle(anchor, RedirectOf(rule), old(dev.world))
    {
      hide RedirectOver, AnchorOver, SingleRules.AppendPooled;
      var request := new PfiocRule();
      r := CopyAnchorName(anchor, request.anchor);
      if r.Err? {
        return;
      }
      r := CopyRedirectRule(dev.host, rule, request.rule);
      if r.Err? {
        return;
      }
      var to := rule.redirectTo;
      r := FinishPooled(anchor, RulesetKind.Redirect, request, Some(PoolAddr(Interface.Any, to.ip)), Some(to.port));
    }

    // ---- Rules, a ruleset at a time ----

    /** With one field set this is a commit of one job, the batch that single adds are compared with. */
    method SetRules(anchor: Text, change: Transactions.AnchorChange) returns (r: Result<(), Error>, ghost p: Partition)
      modifies dev`world
      ensures Partitions(p, map[anchor := change.Value()])
      ensures (r, dev.world) == CommitSpec.Commit(JobsOf(p), old(dev.world))
      ensures forall kind, rules :: OnlySets(change.Value(), kind, rules) ==>
                (r, dev.world) == CommitSpec.Commit([CommitSpec.Job(anchor, kind, rules)], old(dev.world))
      ensures r.Ok? ==> Overridden(map[anchor := change.Value()], old(dev.world), dev.world)
      ensures r.Err? ==> Unchanged(old(dev.world), dev.world)
    {
      var trans := new Transactions.Transaction();
      trans.AddChange(anchor, change);
      r, p := trans.Commit(dev);
      forall kind, rules | OnlySets(change.Value(), kind, rules)
        ensures JobsOf(p) == [CommitSpec.Job(anchor, kind, rules)]
      {
        OneFieldIsOneJob(p, anchor, change.Value(), kind, rules);
      }
    }

    method FlushRules(anchor: Text, kind: RulesetKind) returns (r: Result<(), Error>)
      modifies dev`world
      ensures (r, dev.world) == SingleRules.Flush(anchor, kind, old(dev.world))
    {
      hide CommitSpec.Commit;
      var change := new Transactions.AnchorChange();
      match kind {
        case Filter => change.SetFilterRules([]);
        case Nat => change.SetNatRules([]);
        case Redirect => change.SetRedirectRules([]);
        case Scrub => change.SetScrubRules([]);
      }
      var trans := new Transactions.Transaction();
      trans.AddChange(anchor, change);
      ghost var p;
      r, p := trans.Commit(dev);
      FlushIsOneJob(p, anchor, kind);
    }

    // ---- Queries ----

    /** The interface buffer is replaced at most once, by one of the reported size. */
    method GetInterfaces(interface: Interface) returns (r: Result<seq<Queries.InterfaceDescription>, Error>)
      modifies dev`world
      ensures (r, dev.world) == Queries.GetInterfaces(interface, old(dev.world))
    {
      hide InterfaceOver;
      var name := new byte[IFNAME_SIZE](i => 0);
      assert name[..] == Zeros(IFNAME_SIZE);
      var copied := CopyInterface(interface, name);
      if copied.Err? {
        return Err(copied.error);
      }
      var asked: IfName := name[..];
      var buffer := new Kif[Queries.INITIAL_CAPACITY](i => Queries.ZERO_KIF);
      var retry := 0;
      var kifs: seq<Kif>;
      while true
        invariant fresh(buffer) && 0 <= retry < Queries.MAX_RETRIES
        invariant Queries.FetchIfaces(asked, 0, Queries.INITIAL_CAPACITY, old(dev.world))
                  == Queries.FetchIfaces(asked, retry, buffer.Length, dev.world)
        decreases Queries.MAX_RETRIES - retry
      {
        var reported := dev.GetIfaces(asked, buffer);
        if reported.Err? {
          return Err(reported.error);
        }
        var count := Max(reported.value, 0);
        retry := retry + 1;
        if retry < Queries.MAX_RETRIES && count > buffer.Length {
          buffer := new Kif[count](i => Queries.ZERO_KIF);
        } else {
          kifs := buffer[..Min(count, buffer.Length)];
          break;
        }
      }
      r := Queries.Describe(kifs);
    }

    method GetStatesInner() returns (r: Result<seq<SyncState>, Error>)
      modifies dev`world
      ensures (r, dev.world) == Queries.GetStatesInner(old(dev.world))
    {
      var none := new SyncState[0];
      var reported := dev.GetStates(0, none);
      if reported.Err? {
        return Err(reported.error);
      }
      var num := Queries.NumStates(reported.value);
      if num == 0 {
        return Ok([]);
      }
      var states := new SyncState[num](i => ZERO_STATE);
      ghost var before := dev.world;
      var filled := dev.GetStates(Queries.AsI32(Queries.RequestLength(num)), states);
      if filled.Err? {
        return Err(filled.error);
      }
      ghost var known := DiocGetStates(Queries.AsI32(Queries.RequestLength(num)), before).0.value.1;
      assert states[..] == Queries.Snapshot(known, num);
      r := Ok(states[..]);
    }

    /** Kills the states of one anchor rule; the 32-bit sum cannot overflow. */
    method ClearStates(name: Text, kind: RulesetKind) returns (r: Result<u32, Error>)
      modifies dev`world
      ensures var (sum, w) := Queries.ClearStates(name, kind, old(dev.world));
              && dev.world == w
              && match sum
                 case Ok(n) => r.Ok? && r.value == n
                 case Err(e) => r == Err(e)
    {
      hide Anchors.Search, Queries.KillAll, Queries.OfAnchor;
      ghost var begin := dev.world;
      var states := GetStatesInner();
      if states.Err? {
        return Err(states.error);
      }
      Queries.SnapshotIsBounded(begin);
      if states.value == [] {
        return Ok(0);
      }
      ghost var (i, _) := Anchors.FindAnchor(name, kind, dev.world);
      var found, request := WithAnchorRule(name, kind);
      if found.Err? {
        assert i.Err?;
        return Err(found.error);
      }
      assert i.Ok?;
      r := KillStatesOf(states.value, request.nr);
    }

    /** The filter and the sum over the kill requests of one anchor rule. */
    method KillStatesOf(states: seq<SyncState>, nr: nat) returns (r: Result<u32, Error>)
      requires 0xFF * |states| < 0x1_0000_0000
      modifies dev`world
      ensures var (sum, w) := Queries.KillAll(Queries.OfAnchor(states, nr, 0), old(dev.world));
              && dev.world == w
              && match sum
                 case Ok(n) => r.Ok? && r.value == n
                 case Err(e) => r == Err(e)
    {
      hide Queries.KillOf, DiocKillStates;
      ghost var start, all := dev.world, Queries.OfAnchor(states, nr, 0);
      var sum: nat := 0;
      for i := 0 to |states|
        invariant sum <= 0xFF * i
        invariant Total(Queries.KillAll(all, start), sum,
                        Queries.KillAll(Queries.OfAnchor(states, nr, i), dev.world))
      {
        if states[i].anchor == nr {
          assert Queries.OfAnchor(states, nr, i)[1..] == Queries.OfAnchor(states, nr, i + 1);
          var killed := dev.KillStates(Queries.KillOf(states[i]));
          if killed.Err? {
            return Err(killed.error);
          }
          sum := sum + killed.value;
        } else {
          assert Queries.OfAnchor(states, nr, i) == Queries.OfAnchor(states, nr, i + 1);
        }
      }
      r := Ok(sum);
    }
  }

  /** What is still to come, added to what has been counted, is the whole. */
  ghost predicate Total(whole: (Result<nat, Error>, World), sum: nat, rest: (Result<nat, Error>, World)) {
    && whole.1 == rest.1
    && whole.0 == if rest.0.Ok? then Ok(sum + rest.0.value) else rest.0
  }

  function FlushChange(kind: RulesetKind): Change {
    var none := Change(None, None, None, None);
    match kind
    case Filter => none.(filterRules := Some([]))
    case Nat => none.(natRules := Some([]))
    case Redirect => none.(redirectRules := Some([]))
    case Scrub => none.(scrubRules := Some([]))
  }

  lemma OneEntry<R>(kind: RulesetKind, wrap: R -> Rule, entries: seq<Entry<R>>, m: map<Text, seq<R>>, anchor: Text)
    requires Lists(entries, m) && m.Keys <= {anchor}
    ensures JobsFrom(kind, wrap, entries)
            == if anchor in m then [CommitSpec.Job(anchor, kind, RulesFrom(wrap, m[anchor]))] else []
  {
    ListsCount(entries, m);
    if anchor in m {
      assert m == map[anchor := m[anchor]];
      assert entries[0] == Entry(anchor, m[anchor]);
      assert JobsFrom(kind, wrap, entries)[0] == CommitSpec.Job(anchor, kind, RulesFrom(wrap, m[anchor]));
    } else {
      assert m == map[];
    }
  }

  ghost predicate OnlySets(change: Change, kind: RulesetKind, rules: seq<Rule>) {
    forall k: RulesetKind :: Asks(change, RulesetOf(k)) == if k == kind then Some(rules) else None
  }

  /** A change map of one anchor with one field set partitions into one job. */
  lemma OneFieldIsOneJob(p: Partition, anchor: Text, change: Change, kind: RulesetKind, rules: seq<Rule>)
    requires Partitions(p, map[anchor := change]) && OnlySets(change, kind, rules)
    ensures JobsOf(p) == [CommitSpec.Job(anchor, kind, rules)]
  {
    hide JobsFrom, Lists, RulesFrom, Asks;
    var c := map[anchor := change];
    OneEntry(RulesetKind.Filter, AsFilter, p.filters, FilterChanges(c), anchor);
    OneEntry(RulesetKind.Nat, AsNat, p.nats, NatChanges(c), anchor);
    OneEntry(RulesetKind.Redirect, AsRedirect, p.redirects, RedirectChanges(c), anchor);
    OneEntry(RulesetKind.Scrub, AsScrub, p.scrubs, ScrubChanges(c), anchor);
    PartsOfKinds(c, anchor);
    assert forall k: RulesetKind :: Wanted(c, Key(anchor, RulesetOf(k))) == if k == kind then Some(rules) else None;
  }

  /** The change map of a flush partitions into one job without rules. */
  lemma FlushIsOneJob(p: Partition, anchor: Text, kind: RulesetKind)
    requires Partitions(p, map[anchor := FlushChange(kind)])
    ensures JobsOf(p) == [CommitSpec.Job(anchor, kind, [])]
  {
    forall k: RulesetKind
      ensures Asks(FlushChange(kind), RulesetOf(k)) == if k == kind then Some([]) else None
    {
      if k == kind {
        assert Asks(FlushChange(kind), RulesetOf(k)).value == [];
      }
    }
    OneFieldIsOneJob(p, anchor, FlushChange(kind), kind, []);
  }
}
