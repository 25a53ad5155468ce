// The rules of the library as its users build them.
module Rules {
  import opened Prelude
  import opened Ffi
  import opened Flags

  type Text = seq<byte>

  datatype AddrFamily = Any | Ipv4 | Ipv6

  datatype IpNetwork = V4(addr4: Octets4, prefix4: Prefix4) | V6(addr6: Octets16, prefix6: Prefix6)
  type Prefix4 = n: nat | n <= 32
  type Prefix6 = n: nat | n <= 128

  datatype Ip = Any | Net(net: IpNetwork) {
    function GetAf(): AddrFamily {
      match this
      case Any => AddrFamily.Any
      case Net(V4(_, _)) => AddrFamily.Ipv4
      case Net(V6(_, _)) => AddrFamily.Ipv6
    }
  }

  datatype UnaryModifier = Equal | NotEqual | Greater | Less | GreaterOrEqual | LessOrEqual
  datatype RangeModifier = Exclusive | Inclusive | Except

  datatype Port = Any | One(port: u16, unary: UnaryModifier) | Range(first: u16, last: u16, range: RangeModifier)

  datatype Endpoint = Endpoint(ip: Ip, port: Port)

  datatype Id = Any | One(id: u32, unary: UnaryModifier) | Range(first: u32, last: u32, range: RangeModifier)

  datatype Interface = Any | Name(name: Text)

  datatype PoolAddr = PoolAddr(interface: Interface, ip: Ip)

  datatype Route = NoRoute | RouteTo(pool: PoolAddr) | ReplyTo(pool: PoolAddr) | DupTo(pool: PoolAddr) {
    function GetPoolAddr(): Option<PoolAddr> {
      if NoRoute? then None else Some(pool)
    }
  }

  datatype Direction = Any | In | Out
  datatype Proto = Any | Tcp | Udp | Icmp | IcmpV6
  datatype StatePolicy = NoState | Keep | Modulate | SynProxy
  datatype DropAction = Drop | Return | ReturnRst | ReturnIcmp
  datatype FilterAction = Pass | Block(how: DropAction)
  datatype RedirectAction = Redirect | NoRedirect
  datatype ScrubAction = Scrub | NoScrub
  datatype NatAction = Nat(natTo: Endpoint) | NoNat

  type UnreachCode = n: nat | n <= 4
  type TimexCode = n: nat | n <= 1
  type Icmp6Type = n: nat | 133 <= n <= 137 witness 133
  datatype IcmpType =
    | EchoRep | Unreach(unreach: UnreachCode) | EchoReq | Timex(timex: TimexCode) | Trace | Icmp6(icmp6: Icmp6Type)

  datatype FilterRule = FilterRule(
    action: FilterAction, direction: Direction, quick: bool, log: seq<RuleLog>, route: Route,
    keepState: StatePolicy, interface: Interface, proto: Proto, af: AddrFamily,
    from: Endpoint, to: Endpoint, check: seq<TcpFlag>, mask: seq<TcpFlag>, ruleLabel: Text,
    user: Id, group: Id, icmpType: Option<IcmpType>)
  {
    function GetAf(): Result<AddrFamily, Error> {
      var endpoints :- CompatibleAf(from.ip.GetAf(), to.ip.GetAf());
      CompatibleAf(af, endpoints)
    }

    function ValidateStatePolicy(): Result<StatePolicy, Error> {
      match keepState
      case NoState => Ok(keepState)
      case Keep => Ok(keepState)
      case Modulate => if proto.Tcp? then Ok(keepState) else Err(InvalidRuleCombination)
      case SynProxy => if proto.Tcp? then Ok(keepState) else Err(InvalidRuleCombination)
    }
  }

  datatype NatRule = NatRule(action: NatAction, interface: Interface, af: AddrFamily, from: Endpoint, to: Endpoint) {
    function GetNatTo(): Option<Endpoint> {
      match action
      case Nat(natTo) => Some(natTo)
      case NoNat => None
    }

    function GetAf(): Result<AddrFamily, Error> {
      var endpoints :- CompatibleAf(from.ip.GetAf(), to.ip.GetAf());
      match GetNatTo()
      case Some(natTo) =>
        var pool :- CompatibleAf(endpoints, natTo.ip.GetAf());
        CompatibleAf(af, pool)
      case None => CompatibleAf(af, endpoints)
    }
  }

  datatype RedirectRule = RedirectRule(
    action: RedirectAction, direction: Direction, quick: bool, log: seq<RuleLog>,
    interface: Interface, proto: Proto, af: AddrFamily, from: Endpoint, to: Endpoint,
    ruleLabel: Text, user: Id, group: Id, redirectTo: Endpoint)
  {
    function GetAf(): Result<AddrFamily, Error> {
      var endpoints :- CompatibleAf(from.ip.GetAf(), to.ip.GetAf());
      var pool :- CompatibleAf(endpoints, redirectTo.ip.GetAf());
      CompatibleAf(af, pool)
    }
  }

  datatype ScrubRule = ScrubRule(action: ScrubAction, direction: Direction)

  function CompatibleAf(a: AddrFamily, b: AddrFamily): Result<AddrFamily, Error> {
    if a == b then Ok(a)
    else if b.Any? then Ok(a)
    else if a.Any? then Ok(b)
    else Err(InvalidRuleCombination)
  }

  /** The one family a set of families agrees on, the wildcard agreeing with every family. */
  function Joined(families: set<AddrFamily>): Result<AddrFamily, Error> {
    if AddrFamily.Ipv4 in families && AddrFamily.Ipv6 in families then Err(InvalidRuleCombination)
    else if AddrFamily.Ipv4 in families then Ok(AddrFamily.Ipv4)
    else if AddrFamily.Ipv6 in families then Ok(AddrFamily.Ipv6)
    else Ok(AddrFamily.Any)
  }

  lemma JoinPair(a: AddrFamily, b: AddrFamily)
    ensures CompatibleAf(a, b) == Joined({a, b})
  {
  }

  /** Joining one more family: an earlier disagreement stays, an agreement is checked once more. */
  lemma JoinOneMore(families: set<AddrFamily>, a: AddrFamily)
    ensures Joined(families).Err? ==> Joined(families + {a}).Err?
    ensures Joined(families).Ok? ==>
              && CompatibleAf(a, Joined(families).value) == Joined(families + {a})
              && CompatibleAf(Joined(families).value, a) == Joined(families + {a})
  {
  }

  /** However the pairwise checks are nested, they decide whether all the families agree. */
  lemma FilterFamilies(f: FilterRule)
    ensures f.GetAf() == Joined({f.from.ip.GetAf(), f.to.ip.GetAf(), f.af})
  {
    var s, d := f.from.ip.GetAf(), f.to.ip.GetAf();
    JoinPair(s, d);
    JoinOneMore({s, d}, f.af);
    assert {s, d} + {f.af} == {s, d, f.af};
  }

  lemma NatFamilies(n: NatRule)
    ensures n.action.NoNat? ==> n.GetAf() == Joined({n.from.ip.GetAf(), n.to.ip.GetAf(), n.af})
    ensures n.action.Nat? ==>
              n.GetAf() == Joined({n.from.ip.GetAf(), n.to.ip.GetAf(), n.action.natTo.ip.GetAf(), n.af})
  {
    var s, d := n.from.ip.GetAf(), n.to.ip.GetAf();
    JoinPair(s, d);
    if n.action.Nat? {
      var p := n.action.natTo.ip.GetAf();
      JoinOneMore({s, d}, p);
      assert {s, d} + {p} == {s, d, p};
      JoinOneMore({s, d, p}, n.af);
      assert {s, d, p} + {n.af} == {s, d, p, n.af};
    } else {
      JoinOneMore({s, d}, n.af);
      assert {s, d} + {n.af} == {s, d, n.af};
    }
  }

  lemma RedirectFamilies(r: RedirectRule)
    ensures r.GetAf() == Joined({r.from.ip.GetAf(), r.to.ip.GetAf(), r.redirectTo.ip.GetAf(), r.af})
  {
    var s, d, p := r.from.ip.GetAf(), r.to.ip.GetAf(), r.redirectTo.ip.GetAf();
    JoinPair(s, d);
    JoinOneMore({s, d}, p);
    assert {s, d} + {p} == {s, d, p};
    JoinOneMore({s, d, p}, r.af);
    assert {s, d, p} + {r.af} == {s, d, p, r.af};
  }

  // ---- The four kinds of rules and of rulesets ----

  datatype RulesetKind = Filter | Nat | Redirect | Scrub

  datatype Rule = FilterOf(f: FilterRule) | NatOf(n: NatRule) | RedirectOf(r: RedirectRule) | ScrubOf(s: ScrubRule) {
    function Kind(): RulesetKind {
      match this
      case FilterOf(_) => RulesetKind.Filter
      case NatOf(_) => RulesetKind.Nat
      case RedirectOf(_) => RulesetKind.Redirect
      case ScrubOf(_) => RulesetKind.Scrub
    }
  }

  /** RulesetKind as a ruleset number. */
  function RulesetOf(kind: RulesetKind): int {
    match kind
    case Filter => PF_RULESET_FILTER
    case Nat => PF_RULESET_NAT
    case Redirect => PF_RULESET_RDR
    case Scrub => PF_RULESET_SCRUB
  }

  /** AnchorKind as a rule action. */
  function AnchorAction(kind: RulesetKind): byte {
    match kind
    case Filter => PF_PASS
    case Nat => PF_NAT
    case Redirect => PF_RDR
    case Scrub => PF_SCRUB
  }
}
