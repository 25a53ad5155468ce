// The open firewall device: one world, moved by one ioctl at a time, and the helpers around it.
module Device {
  import opened Prelude
  import opened ByteOrder
  import opened Ffi
  import opened Rules
  import opened Encoding
  import opened Structs
  import opened Writers
  import opened PfKernel
  import opened CommitSpec

  class PfDevice {
    var world: World
    const host: Endian

    constructor (host: Endian, world: World)
      ensures this.host == host && this.world == world
    {
      this.host := host;
      this.world := world;
    }

    /** DIOCXBEGIN writes the tickets back into the element array. */
    method XBegin(elements: array<TransElement>) returns (r: Result<(), Error>)
      modifies this`world, elements
      ensures var (b, w) := DiocXBegin(old(elements[..]), old(world));
              && world == w
              && match b
                 case Ok(ticketed) => r == Ok(()) && elements[..] == ticketed
                 case Err(e) => r == Err(e) && elements[..] == old(elements[..])
    {
      var (b, w) := DiocXBegin(elements[..], world);
      world := w;
      if b.Err? {
        return Err(b.error);
      }
      BeginKeepsLength(elements[..], old(world));
      forall i | 0 <= i < elements.Length {
        elements[i] := b.value[i];
      }
      assert elements[..] == b.value;
      r := Ok(());
    }

    method XCommit(elements: array<TransElement>) returns (r: Result<(), Error>)
      modifies this`world
      ensures (r, world) == DiocXCommit(elements[..], old(world))
    {
      var (c, w) := DiocXCommit(elements[..], world);
      r, world := c, w;
    }

    method BeginAddrs() returns (r: Result<u32, Error>)
      modifies this`world
      ensures (r, world) == DiocBeginAddrs(old(world))
    {
      var (t, w) := DiocBeginAddrs(world);
      r, world := t, w;
    }

    method AddAddr(ticket: u32, addr: RawPoolAddr) returns (r: Result<(), Error>)
      modifies this`world
      ensures (r, world) == DiocAddAddr(ticket, addr, old(world))
    {
      var (a, w) := DiocAddAddr(ticket, addr, world);
      r, world := a, w;
    }

    method AddRule(request: PfiocRule) returns (r: Result<(), Error>)
      requires request.Valid()
      modifies this`world
      ensures (r, world) ==
              DiocAddRule(request.anchor[..], request.ticket, request.poolTicket, request.rule.Value(), old(world))
    {
      var (a, w) := DiocAddRule(request.anchor[..], request.ticket, request.poolTicket, request.rule.Value(), world);
      r, world := a, w;
    }

    /** DIOCCHANGERULE writes a ticket back into the request. */
    method ChangeRule(request: PfiocRule) returns (r: Result<(), Error>)
      requires request.Valid()
      modifies this`world, request`ticket
      ensures var (t, w) := DiocChangeRule(
                request.change, request.anchor[..], old(request.ticket), request.poolTicket, request.rule.Value(),
                old(world));
              && world == w
              && match t
                 case Ok(ticket) => r == Ok(()) && request.ticket == ticket
                 case Err(e) => r == Err(e) && request.ticket == old(request.ticket)
    {
      var (t, w) := DiocChangeRule(
        request.change, request.anchor[..], request.ticket, request.poolTicket, request.rule.Value(), world);
      world := w;
      if t.Err? {
        return Err(t.error);
      }
      request.ticket := t.value;
      r := Ok(());
    }

    method InsertRule(request: PfiocRule) returns (r: Result<(), Error>)
      requires request.Valid()
      modifies this`world
      ensures (r, world) == DiocInsertRule(request.rule.Value(), request.anchorCall[..], old(world))
    {
      var (i, w) := DiocInsertRule(request.rule.Value(), request.anchorCall[..], world);
      r, world := i, w;
    }

    method DeleteRule(request: PfiocRule) returns (r: Result<(), Error>)
      modifies this`world
      ensures (r, world) == DiocDeleteRule(request.rule.codes.action, request.nr, old(world))
    {
      var (d, w) := DiocDeleteRule(request.rule.codes.action, request.nr, world);
      r, world := d, w;
    }

    /** DIOCGETRULES writes the number of rules into the request. */
    method GetRules(request: PfiocRule) returns (r: Result<(), Error>)
      modifies this`world, request`nr
      ensures var (c, w) := DiocGetRules(request.rule.codes.action, old(world));
              && world == w
              && match c
                 case Ok(count) => r == Ok(()) && request.nr == count
                 case Err(e) => r == Err(e)
    {
      var (c, w) := DiocGetRules(request.rule.codes.action, world);
      world := w;
      if c.Err? {
        return Err(c.error);
      }
      request.nr := c.value;
      r := Ok(());
    }

    /** DIOCGETRULE reads rule number `nr` into the request. */
    method GetRule(request: PfiocRule) returns (r: Result<(), Error>)
      requires request.Valid()
      modifies this`world, request.anchorCall
      ensures var (b, w) := DiocGetRule(request.rule.codes.action, request.nr, old(world));
              && world == w
              && match b
                 case Ok(call) => r == Ok(()) && request.anchorCall[..] == call
                 case Err(e) => r == Err(e)
    {
      var (b, w) := DiocGetRule(request.rule.codes.action, request.nr, world);
      world := w;
      if b.Err? {
        return Err(b.error);
      }
      forall i | 0 <= i < ANCHOR_SIZE {
        request.anchorCall[i] := b.value[i];
      }
      assert request.anchorCall[..] == b.value;
      r := Ok(());
    }

    /** DIOCIGETIFACES fills the buffer from the front and reports the count. */
    method GetIfaces(name: IfName, buffer: array<Kif>) returns (r: Result<i32, Error>)
      modifies this`world, buffer
      ensures var (g, w) := DiocGetIfaces(name, buffer.Length, old(world));
              && world == w
              && match g
                 case Ok((count, filled)) =>
                   r == Ok(count) && |filled| == Min(buffer.Length, Max(count, 0)) && buffer[..|filled|] == filled
                 case Err(e) => r == Err(e)
    {
      var (g, w) := DiocGetIfaces(name, buffer.Length, world);
      world := w;
      if g.Err? {
        return Err(g.error);
      }
      var filled := g.value.1;
      forall i | 0 <= i < |filled| {
        buffer[i] := filled[i];
      }
      assert buffer[..|filled|] == filled;
      r := Ok(g.value.0);
    }

    /** DIOCGETSTATES reports the length of all states and fills the buffer from the front. */
    method GetStates(length: i32, buffer: array<SyncState>) returns (r: Result<i32, Error>)
      modifies this`world, buffer
      ensures var (g, w) := DiocGetStates(length, old(world));
              && world == w
              && match g
                 case Ok((reported, states)) =>
                   && r == Ok(reported)
                   && forall i :: 0 <= i < buffer.Length ==>
                        buffer[i] == if i < |states| then states[i] else old(buffer[i])
                 case Err(e) => r == Err(e)
    {
      var (g, w) := DiocGetStates(length, world);
      world := w;
      if g.Err? {
        return Err(g.error);
      }
      var states := g.value.1;
      forall i | 0 <= i < buffer.Length && i < |states| {
        buffer[i] := states[i];
      }
      r := Ok(g.value.0);
    }

    method KillStates(request: StateKill) returns (r: Result<byte, Error>)
      modifies this`world
      ensures (r, world) == DiocKillStates(request, old(world))
    {
      var (k, w) := DiocKillStates(request, world);
      r, world := k, w;
    }

    // ---- utils.rs ----

    method GetPoolTicket() returns (r: Result<u32, Error>)
      modifies this`world
      ensures (r, world) == DiocBeginAddrs(old(world))
    {
      r := BeginAddrs();
    }

    /** Encodes an address and registers it in the pool of a ticket. */
    method AddPoolAddress(p: PoolAddr, ticket: u32) returns (r: Result<(), Error>)
      modifies this`world
      ensures (r, world) == RegisterPool(Some(p), ticket, old(world))
    {
      var raw := CopyPoolAddr(host, p, ZERO_POOL_ADDR);
      if raw.Err? {
        return Err(raw.error);
      }
      r := AddAddr(ticket, raw.value);
    }

    method GetTicket(anchor: Text, kind: RulesetKind) returns (r: Result<u32, Error>)
      modifies this`world
      ensures (r, world) == TicketOf(anchor, kind, old(world))
    {
      var request := new PfiocRule();
      request.change := PF_CHANGE_GET_TICKET;
      request.rule.codes := request.rule.codes.(action := AnchorAction(kind));
      var copied := CopyAnchorName(anchor, request.anchor);
      if copied.Err? {
        return Err(copied.error);
      }
      var changed := ChangeRule(request);
      if changed.Err? {
        return Err(changed.error);
      }
      r := Ok(request.ticket);
    }
  }

  /** The ticket an active ruleset is changed under. */
  function TicketOf(anchor: Text, kind: RulesetKind, w: World): (Result<u32, Error>, World) {
    match AnchorOver(anchor, Zeros(ANCHOR_SIZE))
    case Err(e) => (Err(e), w)
    case Ok(name) =>
      DiocChangeRule(
        PF_CHANGE_GET_TICKET, name, 0, 0, ZERO_RULE.(codes := ZERO_CODES.(action := AnchorAction(kind))), w)
  }
}
