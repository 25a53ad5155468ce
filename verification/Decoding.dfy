// Reading an encoded rule back. The decoder knows only the C structures: it is written from the
// meaning of their fields, independently of the encoder, and it is strict: it refuses every value
// without a meaning, and everything but zeros in the members a kind of rule does not use. So no two
// structures decode alike, and the encoding is the only one that decodes to its rule.
module Decoding {
  import opened Prelude
  import opened Ffi
  import opened Flags
  import opened ByteOrder
  import opened CStrings
  import opened Rules
  import opened Encoding

  // ---- What survives encoding ----

  /** An address whose family is not told: sixteen octets, an IPv4 address in the first four. */
  datatype Target = Target(octets: Octets16, prefix: nat)

  datatype RouteView =
    | NoRoute
    | RouteTo(via: Interface, target: Target)
    | ReplyTo(via: Interface, target: Target)
    | DupTo(via: Interface, target: Target)

  /** What filter, NAT and redirect rules share. */
  datatype Traffic = Traffic(interface: Interface, af: AddrFamily, from: Endpoint, to: Endpoint)

  /** What filter and redirect rules share. */
  datatype Details = Details(
    direction: Direction, quick: bool, log: set<RuleLog>, proto: Proto, ruleLabel: Text, user: Id, group: Id)

  /** What only filter rules have. */
  datatype Policy = Policy(
    action: FilterAction, route: RouteView, keepState: StatePolicy, check: set<TcpFlag>, mask: set<TcpFlag>,
    icmpType: Option<IcmpType>)

  /** A rule up to what its encoding cannot tell apart: flag lists are sets, an address that says
      nothing is the wildcard, a nameless interface is any interface, a route's target has no family. */
  datatype RuleView =
    | FilterView(traffic: Traffic, details: Details, policy: Policy)
    | NatView(traffic: Traffic, natTo: Option<Endpoint>)
    | RedirectView(traffic: Traffic, details: Details, redirect: RedirectAction, redirectTo: Endpoint)
    | ScrubView(scrub: ScrubAction, direction: Direction)

  function PlainIp(ip: Ip): Ip {
    match ip
    case Any => Ip.Any
    case Net(V4(a, p)) => if AllZero(a) && p == 0 then Ip.Any else ip
    case Net(V6(a, p)) => if AllZero(a) && p == 0 then Ip.Any else ip
  }

  function PlainEndpoint(e: Endpoint): Endpoint {
    Endpoint(PlainIp(e.ip), e.port)
  }

  function PlainInterface(i: Interface): Interface {
    if i == Name([]) then Interface.Any else i
  }

  function TargetOf(ip: Ip): Target {
    match ip
    case Any => Target(Zeros(16), 0)
    case Net(V4(a, p)) => Target(a + Zeros(12), p)
    case Net(V6(a, p)) => Target(a, p)
  }

  function RouteViewOf(r: Route): RouteView {
    match r
    case NoRoute => RouteView.NoRoute
    case RouteTo(p) => RouteView.RouteTo(PlainInterface(p.interface), TargetOf(p.ip))
    case ReplyTo(p) => RouteView.ReplyTo(PlainInterface(p.interface), TargetOf(p.ip))
    case DupTo(p) => RouteView.DupTo(PlainInterface(p.interface), TargetOf(p.ip))
  }

  function TcpSet(list: seq<TcpFlag>): set<TcpFlag> {
    set f | f in list && f != AnyFlag
  }

  function LogSet(list: seq<RuleLog>): set<RuleLog> {
    set l | l in list
  }

  /** The traffic a rule matches, its families joined. */
  function TrafficOf(i: Interface, families: set<AddrFamily>, from: Endpoint, to: Endpoint): Traffic
    requires Agree(families)
  {
    Traffic(PlainInterface(i), Joined(families).value, PlainEndpoint(from), PlainEndpoint(to))
  }

  function ViewOf(rule: Rule): RuleView
    requires Acceptable(rule)
  {
    match rule
    case FilterOf(f) =>
      FilterView(
        TrafficOf(f.interface, {f.from.ip.GetAf(), f.to.ip.GetAf(), f.af}, f.from, f.to),
        Details(f.direction, f.quick, LogSet(f.log), f.proto, f.ruleLabel, f.user, f.group),
        Policy(f.action, RouteViewOf(f.route), f.keepState, TcpSet(f.check), TcpSet(f.mask), f.icmpType))
    case NatOf(n) =>
      if n.action.Nat? then
        NatView(
          TrafficOf(n.interface, {n.from.ip.GetAf(), n.to.ip.GetAf(), n.action.natTo.ip.GetAf(), n.af}, n.from, n.to),
          Some(PlainEndpoint(n.action.natTo)))
      else
        NatView(TrafficOf(n.interface, {n.from.ip.GetAf(), n.to.ip.GetAf(), n.af}, n.from, n.to), None)
    case RedirectOf(r) =>
      RedirectView(
        TrafficOf(r.interface, {r.from.ip.GetAf(), r.to.ip.GetAf(), r.redirectTo.ip.GetAf(), r.af}, r.from, r.to),
        Details(r.direction, r.quick, LogSet(r.log), r.proto, r.ruleLabel, r.user, r.group),
        r.action, PlainEndpoint(r.redirectTo))
    case ScrubOf(s) => ScrubView(s.action, s.direction)
  }

  // ---- The decoder ----

  /** How many ones a byte of a mask has, all of them on the left. */
  function Ones(b: byte): Option<nat> {
    if b == 0 then Some(0)
    else if b == 0x80 then Some(1)
    else if b == 0xC0 then Some(2)
    else if b == 0xE0 then Some(3)
    else if b == 0xF0 then Some(4)
    else if b == 0xF8 then Some(5)
    else if b == 0xFC then Some(6)
    else if b == 0xFE then Some(7)
    else if b == 0xFF then Some(8)
    else None
  }

  /** The length of the prefix a mask stands for: ones, and nothing after the first zero. */
  function PrefixLength(mask: seq<byte>): (n: Option<nat>)
    ensures n.Some? ==> n.value <= 8 * |mask|
  {
    if mask == [] then Some(0)
    else
      var first :- Ones(mask[0]);
      if first < 8 then if AllZero(mask[1..]) then Some(first) else None
      else
        var rest :- PrefixLength(mask[1..]);
        Some(8 + rest)
  }

  function DecodeIp(af: AddrFamily, w: AddrWrap): Option<Ip> {
    if w.kind != PF_ADDR_ADDRMASK then None
    else if AllZero(w.addr) && AllZero(w.mask) then Some(Ip.Any)
    else match af
      case Any => None
      case Ipv4 =>
        var prefix :- PrefixLength(w.mask[..4]);
        if AllZero(w.addr[4..]) && AllZero(w.mask[4..]) then Some(Net(V4(w.addr[..4], prefix))) else None
      case Ipv6 =>
        var prefix :- PrefixLength(w.mask);
        Some(Net(V6(w.addr, prefix)))
  }

  function DecodeTarget(w: AddrWrap): Option<Target> {
    if w.kind != PF_ADDR_ADDRMASK then None
    else
      var prefix :- PrefixLength(w.mask);
      Some(Target(w.addr, prefix))
  }

  function DecodeUnary(op: byte): Option<UnaryModifier> {
    if op == PF_OP_EQ then Some(Equal)
    else if op == PF_OP_NE then Some(NotEqual)
    else if op == PF_OP_GT then Some(Greater)
    else if op == PF_OP_LT then Some(Less)
    else if op == PF_OP_GE then Some(GreaterOrEqual)
    else if op == PF_OP_LE then Some(LessOrEqual)
    else None
  }

  function DecodeRangeOp(op: byte): Option<RangeModifier> {
    if op == PF_OP_IRG then Some(Exclusive)
    else if op == PF_OP_RRG then Some(Inclusive)
    else if op == PF_OP_XRG then Some(Except)
    else None
  }

  function DecodePort(op: byte, port0: u16, port1: u16): Option<Port> {
    if op == PF_OP_NONE then if port0 == 0 && port1 == 0 then Some(Port.Any) else None
    else if DecodeUnary(op).Some? then if port1 == 0 then Some(Port.One(port0, DecodeUnary(op).value)) else None
    else
      var m :- DecodeRangeOp(op);
      if port0 <= port1 then Some(Port.Range(port0, port1, m)) else None
  }

  function DecodeId(r: RuleId): Option<Id> {
    if r.op == PF_OP_NONE then if r.id0 == 0 && r.id1 == 0 then Some(Id.Any) else None
    else if DecodeUnary(r.op).Some? then if r.id1 == 0 then Some(Id.One(r.id0, DecodeUnary(r.op).value)) else None
    else
      var m :- DecodeRangeOp(r.op);
      Some(Id.Range(r.id0, r.id1, m))
  }

  function DecodeEndpoint(af: AddrFamily, a: RuleAddr): Option<Endpoint> {
    var ip :- DecodeIp(af, a.addr);
    var port :- DecodePort(a.range.op, FromNet16(a.range.port0), FromNet16(a.range.port1));
    Some(Endpoint(ip, port))
  }

  /** A terminated text with nothing but zeros after it. */
  function DecodeText(b: seq<byte>): (r: Option<Text>)
    ensures r.Some? ==> |r.value| < |b|
  {
    var text :- UntilNul(b);
    if AllZero(b[|text|..]) then Some(text) else None
  }

  function DecodeInterface(b: IfName): Option<Interface> {
    var name :- DecodeText(b);
    Some(if name == [] then Interface.Any else Name(name))
  }

  function DecodeFamily(c: byte): Option<AddrFamily> {
    if c == PF_UNSPEC then Some(AddrFamily.Any)
    else if c == PF_INET then Some(AddrFamily.Ipv4)
    else if c == PF_INET6 then Some(AddrFamily.Ipv6)
    else None
  }

  function DecodeBool(c: byte): Option<bool> {
    if c == 0 then Some(false) else if c == 1 then Some(true) else None
  }

  function DecodeDirection(c: byte): Option<Direction> {
    if c == 0 then Some(Direction.Any)
    else if c == 1 then Some(In)
    else if c == 2 then Some(Out)
    else None
  }

  function DecodeProto(c: byte): Option<Proto> {
    if c == 0 then Some(Proto.Any)
    else if c == 6 then Some(Tcp)
    else if c == 17 then Some(Udp)
    else if c == 1 then Some(Icmp)
    else if c == 58 then Some(IcmpV6)
    else None
  }

  function DecodeState(c: byte): Option<StatePolicy> {
    if c == 0 then Some(NoState)
    else if c == 1 then Some(Keep)
    else if c == 2 then Some(Modulate)
    else if c == 3 then Some(SynProxy)
    else None
  }

  /** The route of a code, and where it goes: the one address of the pool. */
  function DecodeRoute(c: byte, pool: seq<RawPoolAddr>): Option<RouteView> {
    if c == 0 then if pool == [] then Some(RouteView.NoRoute) else None
    else if |pool| != 1 then None
    else
      var via :- DecodeInterface(pool[0].ifname);
      var target :- DecodeTarget(pool[0].addr);
      if c == 2 then Some(RouteView.RouteTo(via, target))
      else if c == 3 then Some(RouteView.DupTo(via, target))
      else if c == 4 then Some(RouteView.ReplyTo(via, target))
      else None
  }

  function DecodeFilterAction(action: byte, flags: u32): Option<FilterAction> {
    if action == PF_PASS then if flags == 0 then Some(Pass) else None
    else if action != PF_DROP then None
    else if flags == 0 then Some(Block(Drop))
    else if flags == 1 then Some(Block(ReturnRst))
    else if flags == 4 then Some(Block(ReturnIcmp))
    else if flags == 8 then Some(Block(Return))
    else None
  }

  /** Both ICMP fields are one higher than the packet's; zero means any. */
  function DecodeIcmp(icmpType: byte, icmpCode: byte): Option<Option<IcmpType>> {
    if icmpType == 4 && 1 <= icmpCode <= 5 then Some(Some(Unreach(icmpCode - 1)))
    else if icmpType == 12 && 1 <= icmpCode <= 2 then Some(Some(Timex(icmpCode - 1)))
    else if icmpCode != 0 then None
    else if icmpType == 0 then Some(None)
    else if icmpType == 1 then Some(Some(EchoRep))
    else if icmpType == 9 then Some(Some(EchoReq))
    else if icmpType == 31 then Some(Some(Trace))
    else if 134 <= icmpType <= 138 then Some(Some(Icmp6(icmpType - 1)))
    else None
  }

  /** The endpoint of a one-address pool without an interface. */
  function DecodePool(af: AddrFamily, i: Installed): Option<Endpoint> {
    if |i.pool| != 1 || DecodeInterface(i.pool[0].ifname) != Some(Interface.Any) then None
    else
      var ip :- DecodeIp(af, i.pool[0].addr);
      var port :- DecodePort(i.rule.rpool.op, i.rule.rpool.port0, i.rule.rpool.port1);
      Some(Endpoint(ip, port))
  }

  function DecodeTraffic(r: RawRule): Option<Traffic> {
    var interface :- DecodeInterface(r.ifname);
    var af :- DecodeFamily(r.codes.af);
    var from :- DecodeEndpoint(af, r.src);
    var to :- DecodeEndpoint(af, r.dst);
    Some(Traffic(interface, af, from, to))
  }

  function DecodeDetails(r: RawRule): Option<Details> {
    var direction :- DecodeDirection(r.codes.direction);
    var quick :- DecodeBool(r.codes.quick);
    var log :- LogsOf(r.codes.log);
    var proto :- DecodeProto(r.codes.proto);
    var text :- DecodeText(r.ruleLabel);
    var user :- DecodeId(r.uid);
    var group :- DecodeId(r.gid);
    Some(Details(direction, quick, log, proto, text, user, group))
  }

  function DecodePolicy(i: Installed): Option<Policy> {
    var codes := i.rule.codes;
    var action :- DecodeFilterAction(codes.action, codes.ruleFlag);
    var route :- DecodeRoute(codes.rt, i.pool);
    var keepState :- DecodeState(codes.keepState);
    var icmp :- DecodeIcmp(codes.icmpType, codes.icmpCode);
    Some(Policy(action, route, keepState, TcpFlagsOf(codes.flags), TcpFlagsOf(codes.flagset), icmp))
  }

  // The members each kind of rule uses; all others must be zero. A filter rule uses all but `rpool`.

  predicate NatMembers(r: RawRule) {
    var codes := ZERO_CODES.(action := r.codes.action, af := r.codes.af);
    r == ZERO_RULE.(src := r.src, dst := r.dst, ifname := r.ifname, rpool := r.rpool, codes := codes)
  }

  predicate RedirectMembers(r: RawRule) {
    r.codes == ZERO_CODES.(
                 action := r.codes.action, direction := r.codes.direction, quick := r.codes.quick,
                 log := r.codes.log, af := r.codes.af, proto := r.codes.proto)
  }

  predicate ScrubMembers(r: RawRule) {
    r == ZERO_RULE.(codes := ZERO_CODES.(action := r.codes.action, direction := r.codes.direction))
  }

  function DecodeFilter(i: Installed): Option<RuleView> {
    var traffic :- DecodeTraffic(i.rule);
    var details :- DecodeDetails(i.rule);
    var policy :- DecodePolicy(i);
    if i.rule.rpool == ZERO_PORTS then Some(FilterView(traffic, details, policy)) else None
  }

  function DecodeNat(i: Installed): Option<RuleView> {
    var traffic :- DecodeTraffic(i.rule);
    if !NatMembers(i.rule) then None
    else if i.rule.codes.action == PF_NONAT then
      if i.pool == [] && i.rule.rpool == ZERO_PORTS then Some(NatView(traffic, None)) else None
    else
      var natTo :- DecodePool(traffic.af, i);
      Some(NatView(traffic, Some(natTo)))
  }

  function DecodeRedirect(i: Installed): Option<RuleView> {
    var traffic :- DecodeTraffic(i.rule);
    var details :- DecodeDetails(i.rule);
    var redirectTo :- DecodePool(traffic.af, i);
    var action := if i.rule.codes.action == PF_RDR then RedirectAction.Redirect else NoRedirect;
    if RedirectMembers(i.rule) then Some(RedirectView(traffic, details, action, redirectTo)) else None
  }

  function DecodeScrub(i: Installed): Option<RuleView> {
    var direction :- DecodeDirection(i.rule.codes.direction);
    var action := if i.rule.codes.action == PF_SCRUB then ScrubAction.Scrub else NoScrub;
    if ScrubMembers(i.rule) && i.pool == [] then Some(ScrubView(action, direction)) else None
  }

  function Decode(i: Installed): Option<RuleView> {
    var action := i.rule.codes.action;
    if i.AnchorRule? then None
    else if action == PF_PASS || action == PF_DROP then DecodeFilter(i)
    else if action == PF_NAT || action == PF_NONAT then DecodeNat(i)
    else if action == PF_RDR || action == PF_NORDR then DecodeRedirect(i)
    else if action == PF_SCRUB || action == PF_NOSCRUB then DecodeScrub(i)
    else None
  }

  // ---- Round trips of the parts ----

  lemma {:induction false} MaskRoundTrip(prefix: nat, size: nat)
    requires prefix <= 8 * size
    ensures PrefixLength(Mask(prefix, size)) == Some(prefix)
    ensures AllZero(Mask(prefix, size)) <==> prefix == 0
  {
    if size > 0 {
      var m := Mask(prefix, size);
      var rest := if prefix < 8 then 0 else prefix - 8;
      assert m[1..] == Mask(rest, size - 1);
      MaskRoundTrip(rest, size - 1);
      assert m[0] == MaskByte(prefix);
      assert prefix > 0 ==> m[0] != 0;
    }
  }

  lemma IpRoundTrip(af: AddrFamily, ip: Ip)
    requires ip.Any? || ip.GetAf() == af
    ensures DecodeIp(af, WrapOver(ip, ZERO_WRAP)) == Some(PlainIp(ip))
  {
    var w := WrapOver(ip, ZERO_WRAP);
    match ip
    case Any =>
      MaskRoundTrip(0, 16);
    case Net(V4(a, p)) =>
      MaskRoundTrip(p, 4);
      var rest := Zeros(16)[4..];
      assert w.addr[..4] == a && w.addr[4..] == rest;
      assert w.mask[..4] == Mask(p, 4) && w.mask[4..] == rest;
      ZeroHead(w.addr);
      ZeroHead(w.mask);
    case Net(V6(a, p)) =>
      MaskRoundTrip(p, 16);
  }

  lemma ZeroHead(s: Octets16)
    requires AllZero(s[4..])
    ensures AllZero(s) <==> AllZero(s[..4])
  {
  }

  lemma PortFields(p: Port)
    requires Ordered(p)
    ensures PortEncoded(p).Ok? && PoolPortEncoded(p).Ok?
    ensures var r := PoolPortEncoded(p).value; DecodePort(r.op, r.port0, r.port1) == Some(p)
  {
    hide Net16;
  }

  /** The two encodings differ in the byte order alone. */
  lemma PortOrders(p: Port)
    requires Ordered(p)
    ensures var (r, q) := (PortEncoded(p).value, PoolPortEncoded(p).value);
            r.op == q.op && FromNet16(r.port0) == q.port0 && FromNet16(r.port1) == q.port1
  {
    hide UnaryOp, RangeOp;
    match p
    case Any =>
    case One(port, _) =>
      NetworkOrder16(Little, port);
    case Range(first, last, _) =>
      NetworkOrder16(Little, first);
      NetworkOrder16(Little, last);
  }

  lemma PortRoundTrip(p: Port)
    requires Ordered(p)
    ensures PortEncoded(p).Ok?
    ensures var r := PortEncoded(p).value;
            DecodePort(r.op, FromNet16(r.port0), FromNet16(r.port1)) == Some(p)
    ensures var r := PoolPortEncoded(p).value; DecodePort(r.op, r.port0, r.port1) == Some(p)
  {
    hide DecodePort, PortEncoded, PoolPortEncoded, FromNet16;
    PortFields(p);
    PortOrders(p);
  }

  lemma TargetRoundTrip(ip: Ip)
    ensures DecodeTarget(WrapOver(ip, ZERO_WRAP)) == Some(TargetOf(ip))
  {
    hide PrefixLength, Mask;
    match ip
    case Any =>
      MaskRoundTrip(0, 16);
    case Net(V4(a, p)) =>
      AddressLosesItsFamily(a, p);
      MaskRoundTrip(p, 16);
    case Net(V6(_, p)) =>
      MaskRoundTrip(p, 16);
  }

  /** Among addresses of one family the target tells which it is. */
  lemma TargetTellsAddress(a: Ip, b: Ip)
    requires a.GetAf() == b.GetAf() && TargetOf(a) == TargetOf(b)
    ensures a == b
  {
    if a.GetAf().Ipv4? {
      assert a.net.addr4 == (a.net.addr4 + Zeros(12))[..4] && b.net.addr4 == (b.net.addr4 + Zeros(12))[..4];
    }
  }

  lemma RouteRoundTrip(r: Route, pool: seq<RawPoolAddr>)
    requires PoolEncoded(r.GetPoolAddr()) == Ok(pool)
    ensures DecodeRoute(RouteCode(r), pool) == Some(RouteViewOf(r))
  {
    hide WrapOver, TargetOf, DecodeTarget, DecodeInterface, Copied;
    if !r.NoRoute? {
      TargetRoundTrip(r.pool.ip);
      InterfaceRoundTrip(r.pool.interface);
    }
  }

  lemma EndpointRoundTrip(af: AddrFamily, e: Endpoint)
    requires e.ip.Any? || e.ip.GetAf() == af
    requires Ordered(e.port)
    ensures DecodeEndpoint(af, EndpointOver(e, ZERO_ADDR).value) == Some(PlainEndpoint(e))
  {
    hide DecodeIp, DecodePort, WrapOver, PlainIp, PortEncoded, FromNet16;
    IpRoundTrip(af, e.ip);
    PortRoundTrip(e.port);
  }

  lemma IdRoundTrip(id: Id)
    ensures DecodeId(IdOver(id, ZERO_ID)) == Some(id)
  {
  }

  lemma TextRoundTrip(text: Text, size: nat)
    requires Fits(text, size)
    ensures Copied(text, Zeros(size)).Ok? && DecodeText(Copied(text, Zeros(size)).value) == Some(text)
  {
    CopiedPads(text, size);
    var b := Padded(text, size);
    assert b[..|text|] == text && b[|text|..] == Zeros(size - |text|);
    assert text + [0] <= b by {
      assert b[|text|] == 0;
    }
    UntilNulFindsTerminated(text, b);
  }

  lemma InterfaceRoundTrip(i: Interface)
    requires NameFits(i)
    ensures DecodeInterface(InterfaceOver(i, Zeros(IFNAME_SIZE)).value) == Some(PlainInterface(i))
  {
    TextRoundTrip(InterfaceText(i), IFNAME_SIZE);
  }

  lemma LabelRoundTrip(text: Text)
    requires Fits(text, LABEL_SIZE)
    ensures DecodeText(LabelOver(text, Zeros(LABEL_SIZE)).value) == Some(text)
  {
    TextRoundTrip(text, LABEL_SIZE);
  }

  lemma IcmpRoundTrip(i: IcmpType)
    ensures DecodeIcmp(IcmpRawType(i) + 1, match IcmpRawCode(i) case Some(c) => c + 1 case None => 0) == Some(Some(i))
  {
  }

  lemma PoolRoundTrip(af: AddrFamily, e: Endpoint, i: Installed)
    requires e.ip.Any? || e.ip.GetAf() == af
    requires Ordered(e.port)
    requires CarriesPool(i, e)
    ensures DecodePool(af, i) == Some(PlainEndpoint(e))
  {
    hide WrapOver, DecodeIp, DecodeInterface, Copied;
    InterfaceRoundTrip(Interface.Any);
    IpRoundTrip(af, e.ip);
    PortRoundTrip(e.port);
  }

  predicate CarriesTraffic(raw: RawRule, i: Interface, families: set<AddrFamily>, from: Endpoint, to: Endpoint)
    requires Agree(families) && NameFits(i)
  {
    && raw.ifname == InterfaceOver(i, Zeros(IFNAME_SIZE)).value
    && raw.codes.af == FamilyCode(Joined(families).value)
    && Ok(raw.src) == EndpointOver(from, ZERO_ADDR)
    && Ok(raw.dst) == EndpointOver(to, ZERO_ADDR)
  }

  predicate CarriesPool(i: Installed, e: Endpoint) {
    && PoolEncoded(Some(PoolAddr(Interface.Any, e.ip))) == Ok(i.pool)
    && PoolPortEncoded(e.port) == Ok(i.rule.rpool)
  }

  predicate CarriesDetails(
    raw: RawRule, direction: Direction, quick: bool, log: seq<RuleLog>, proto: Proto, text: Text, user: Id, group: Id)
    requires Fits(text, LABEL_SIZE)
  {
    && raw.codes.direction == DirectionCode(direction) && raw.codes.quick == BoolCode(quick)
    && raw.codes.log == LogByte(log)
    && raw.codes.proto == ProtoCode(proto) && raw.ruleLabel == LabelOver(text, Zeros(LABEL_SIZE)).value
    && raw.uid == IdOver(user, ZERO_ID) && raw.gid == IdOver(group, ZERO_ID)
  }

  lemma TrafficRoundTrip(raw: RawRule, i: Interface, families: set<AddrFamily>, from: Endpoint, to: Endpoint)
    requires Agree(families) && {from.ip.GetAf(), to.ip.GetAf()} <= families
    requires NameFits(i) && Ordered(from.port) && Ordered(to.port)
    requires CarriesTraffic(raw, i, families, from, to)
    ensures DecodeTraffic(raw) == Some(TrafficOf(i, families, from, to))
  {
    var af := Joined(families).value;
    assert from.ip.GetAf() in families && to.ip.GetAf() in families;
    EndpointRoundTrip(af, from);
    EndpointRoundTrip(af, to);
    InterfaceRoundTrip(i);
    assert DecodeFamily(raw.codes.af) == Some(af);
  }

  lemma DetailsRoundTrip(
    raw: RawRule, direction: Direction, quick: bool, log: seq<RuleLog>, proto: Proto, text: Text, user: Id, group: Id)
    requires Fits(text, LABEL_SIZE)
    requires CarriesDetails(raw, direction, quick, log, proto, text, user, group)
    ensures DecodeDetails(raw) == Some(Details(direction, quick, LogSet(log), proto, text, user, group))
  {
    LabelRoundTrip(text);
    IdRoundTrip(user);
    IdRoundTrip(group);
    LogRoundTrip(log);
  }

  predicate CarriesPolicy(i: Installed, f: FilterRule) {
    var c := i.rule.codes;
    && c.action == FilterCode(f.action) && c.ruleFlag == RuleFlags(f.action)
    && c.rt == RouteCode(f.route) && c.keepState == StateCode(f.keepState)
    && c.flags == TcpByte(f.check) && c.flagset == TcpByte(f.mask)
    && c.icmpType == (if f.icmpType.Some? then IcmpRawType(f.icmpType.value) + 1 else 0)
    && c.icmpCode == (if f.icmpType.None? || IcmpRawCode(f.icmpType.value).None? then 0
                      else IcmpRawCode(f.icmpType.value).value + 1)
    && PoolEncoded(f.route.GetPoolAddr()) == Ok(i.pool)
  }

  lemma PolicyRoundTrip(i: Installed, f: FilterRule)
    requires CarriesPolicy(i, f)
    ensures DecodePolicy(i) ==
            Some(Policy(f.action, RouteViewOf(f.route), f.keepState, TcpSet(f.check), TcpSet(f.mask), f.icmpType))
  {
    hide PoolEncoded, DecodeRoute, RouteViewOf, TcpByte, TcpFlagsOf;
    RouteRoundTrip(f.route, i.pool);
    TcpRoundTrip(f.check);
    TcpRoundTrip(f.mask);
    if f.icmpType.Some? {
      IcmpRoundTrip(f.icmpType.value);
    }
  }

  // ---- Round trips of the rules ----

  lemma FilterRoundTrip(f: FilterRule)
    requires Acceptable(FilterOf(f))
    ensures InstalledForm(FilterOf(f)).Ok?
    ensures DecodeFilter(InstalledForm(FilterOf(f)).value) == Some(ViewOf(FilterOf(f)))
  {
    hide DecodeFilter, DecodeTraffic, DecodeDetails, DecodePolicy;
    hide InstalledForm, CarriesTraffic, CarriesDetails, CarriesPolicy;
    AcceptanceIsExact(FilterOf(f));
    var i := InstalledForm(FilterOf(f)).value;
    var families := FilterEncoding(f);
    var t := TrafficOf(f.interface, families, f.from, f.to);
    var d := Details(f.direction, f.quick, LogSet(f.log), f.proto, f.ruleLabel, f.user, f.group);
    var p := Policy(f.action, RouteViewOf(f.route), f.keepState, TcpSet(f.check), TcpSet(f.mask), f.icmpType);
    TrafficRoundTrip(i.rule, f.interface, families, f.from, f.to);
    DetailsRoundTrip(i.rule, f.direction, f.quick, f.log, f.proto, f.ruleLabel, f.user, f.group);
    PolicyRoundTrip(i, f);
    FilterAssembles(i, t, d, p);
    assert ViewOf(FilterOf(f)) == FilterView(t, d, p);
  }

  lemma FilterAssembles(i: Installed, t: Traffic, d: Details, p: Policy)
    requires DecodeTraffic(i.rule) == Some(t) && DecodeDetails(i.rule) == Some(d) && DecodePolicy(i) == Some(p)
    requires i.rule.rpool == ZERO_PORTS
    ensures DecodeFilter(i) == Some(FilterView(t, d, p))
  {
    hide DecodeTraffic, DecodeDetails, DecodePolicy;
  }

  lemma FilterEncoding(f: FilterRule) returns (families: set<AddrFamily>)
    requires Acceptable(FilterOf(f)) && InstalledForm(FilterOf(f)).Ok?
    ensures families == {f.from.ip.GetAf(), f.to.ip.GetAf(), f.af}
    ensures var i := InstalledForm(FilterOf(f)).value;
            && CarriesTraffic(i.rule, f.interface, families, f.from, f.to)
            && CarriesDetails(i.rule, f.direction, f.quick, f.log, f.proto, f.ruleLabel, f.user, f.group)
            && CarriesPolicy(i, f) && i.rule.rpool == ZERO_PORTS
  {
    hide WrapOver, IdOver, Copied, PortEncoded, TcpByte, LogByte, IcmpRawType, IcmpRawCode;
    FilterFamilies(f);
    families := {f.from.ip.GetAf(), f.to.ip.GetAf(), f.af};
  }

  lemma NatRoundTrip(n: NatRule)
    requires Acceptable(NatOf(n))
    ensures InstalledForm(NatOf(n)).Ok? && DecodeNat(InstalledForm(NatOf(n)).value) == Some(ViewOf(NatOf(n)))
  {
    AcceptanceIsExact(NatOf(n));
    var i := InstalledForm(NatOf(n)).value;
    var families := NatEncoding(n);
    TrafficRoundTrip(i.rule, n.interface, families, n.from, n.to);
    if n.action.Nat? {
      PoolRoundTrip(Joined(families).value, n.action.natTo, i);
    }
  }

  lemma NatEncoding(n: NatRule) returns (families: set<AddrFamily>)
    requires Acceptable(NatOf(n)) && InstalledForm(NatOf(n)).Ok?
    ensures families == if n.action.NoNat? then {n.from.ip.GetAf(), n.to.ip.GetAf(), n.af}
                        else {n.from.ip.GetAf(), n.to.ip.GetAf(), n.action.natTo.ip.GetAf(), n.af}
    ensures var i := InstalledForm(NatOf(n)).value;
            && i.rule.codes.action == (if n.action.Nat? then PF_NAT else PF_NONAT)
            && CarriesTraffic(i.rule, n.interface, families, n.from, n.to) && NatMembers(i.rule)
            && (if n.action.Nat? then CarriesPool(i, n.action.natTo) else i.pool == [] && i.rule.rpool == ZERO_PORTS)
  {
    NatFamilies(n);
    families := if n.action.NoNat? then {n.from.ip.GetAf(), n.to.ip.GetAf(), n.af}
                else {n.from.ip.GetAf(), n.to.ip.GetAf(), n.action.natTo.ip.GetAf(), n.af};
  }

  lemma RedirectRoundTrip(r: RedirectRule)
    requires Acceptable(RedirectOf(r))
    ensures InstalledForm(RedirectOf(r)).Ok?
    ensures DecodeRedirect(InstalledForm(RedirectOf(r)).value) == Some(ViewOf(RedirectOf(r)))
  {
    hide DecodeRedirect, DecodeTraffic, DecodeDetails, DecodePool;
    hide InstalledForm, CarriesTraffic, CarriesDetails, CarriesPool;
    AcceptanceIsExact(RedirectOf(r));
    var i := InstalledForm(RedirectOf(r)).value;
    var families := RedirectEncoding(r);
    var t := TrafficOf(r.interface, families, r.from, r.to);
    var d := Details(r.direction, r.quick, LogSet(r.log), r.proto, r.ruleLabel, r.user, r.group);
    assert DecodeTraffic(i.rule) == Some(t) by {
      TrafficRoundTrip(i.rule, r.interface, families, r.from, r.to);
    }
    assert DecodeDetails(i.rule) == Some(d) by {
      DetailsRoundTrip(i.rule, r.direction, r.quick, r.log, r.proto, r.ruleLabel, r.user, r.group);
    }
    PoolRoundTrip(t.af, r.redirectTo, i);
    RedirectAssembles(i, t, d, r.action, PlainEndpoint(r.redirectTo));
    assert ViewOf(RedirectOf(r)) == RedirectView(t, d, r.action, PlainEndpoint(r.redirectTo));
  }

  lemma RedirectAssembles(i: Installed, t: Traffic, d: Details, a: RedirectAction, e: Endpoint)
    requires DecodeTraffic(i.rule) == Some(t) && DecodeDetails(i.rule) == Some(d) && DecodePool(t.af, i) == Some(e)
    requires i.rule.codes.action == (if a.Redirect? then PF_RDR else PF_NORDR) && RedirectMembers(i.rule)
    ensures DecodeRedirect(i) == Some(RedirectView(t, d, a, e))
  {
  }

  lemma RedirectEncoding(r: RedirectRule) returns (families: set<AddrFamily>)
    requires Acceptable(RedirectOf(r)) && InstalledForm(RedirectOf(r)).Ok?
    ensures families == {r.from.ip.GetAf(), r.to.ip.GetAf(), r.redirectTo.ip.GetAf(), r.af}
    ensures var i := InstalledForm(RedirectOf(r)).value;
            && i.rule.codes.action == (if r.action.Redirect? then PF_RDR else PF_NORDR)
            && CarriesTraffic(i.rule, r.interface, families, r.from, r.to) && CarriesPool(i, r.redirectTo)
            && RedirectMembers(i.rule)
            && CarriesDetails(i.rule, r.direction, r.quick, r.log, r.proto, r.ruleLabel, r.user, r.group)
  {
    RedirectFamilies(r);
    families := {r.from.ip.GetAf(), r.to.ip.GetAf(), r.redirectTo.ip.GetAf(), r.af};
  }

  /** Every accepted rule is recovered from what is installed for it, its pool included. */
  lemma RuleRoundTrip(rule: Rule)
    requires Acceptable(rule)
    ensures InstalledForm(rule).Ok? && Decode(InstalledForm(rule).value) == Some(ViewOf(rule))
  {
    hide DecodeFilter, DecodeNat, DecodeRedirect, DecodeScrub, InstalledForm;
    AcceptanceIsExact(rule);
    InstalledAction(rule);
    var i := InstalledForm(rule).value;
    match rule
    case FilterOf(f) =>
      FilterRoundTrip(f);
      assert Decode(i) == DecodeFilter(i);
    case NatOf(n) =>
      NatRoundTrip(n);
      assert Decode(i) == DecodeNat(i);
    case RedirectOf(r) =>
      RedirectRoundTrip(r);
      assert Decode(i) == DecodeRedirect(i);
    case ScrubOf(s) =>
      ScrubRoundTrip(s);
      assert Decode(i) == DecodeScrub(i);
  }

  lemma ScrubRoundTrip(s: ScrubRule)
    ensures InstalledForm(ScrubOf(s)).Ok?
    ensures DecodeScrub(InstalledForm(ScrubOf(s)).value) == Some(ViewOf(ScrubOf(s)))
  {
  }

  /** The actions of each kind, and that the rule calls no anchor. */
  lemma InstalledAction(rule: Rule)
    requires InstalledForm(rule).Ok?
    ensures var i := InstalledForm(rule).value;
            && i.Installed?
            && i.rule.codes.action in match rule
                                      case FilterOf(_) => {PF_PASS, PF_DROP}
                                      case NatOf(_) => {PF_NAT, PF_NONAT}
                                      case RedirectOf(_) => {PF_RDR, PF_NORDR}
                                      case ScrubOf(_) => {PF_SCRUB, PF_NOSCRUB}
  {
    hide WrapOver, PortEncoded, IdOver, Copied, TcpByte, LogByte, Joined, PoolEncoded;
  }

  /** Without the family of the rule an address does not tell its own: a pool address has none,
      so the target of a route is recovered without its family. */
  lemma AddressLosesItsFamily(a: Octets4, p: Prefix4)
    ensures WrapOver(Net(V4(a, p)), ZERO_WRAP) == WrapOver(Net(V6(a + Zeros(12), p)), ZERO_WRAP)
  {
    assert Zeros(16)[4..] == Zeros(12);
    assert Mask(p, 4) + Zeros(12) == Mask(p, 16);
  }

  // ---- Requests that carry a kind and nothing else ----

  /** The action that stands for a kind. */
  function ActionFor(kind: RulesetKind): byte {
    if kind.Filter? then PF_PASS else if kind.Nat? then PF_NAT else if kind.Redirect? then PF_RDR else PF_SCRUB
  }

  /** A structure with the action that stands for a kind, and zeros. */
  predicate Bare(r: RawRule, kind: RulesetKind) {
    r == ZERO_RULE.(codes := ZERO_CODES.(action := ActionFor(kind)))
  }

  /** It restricts nothing: any interface, any family, any endpoints, any protocol, any owner. */
  lemma BareMatchesAll(r: RawRule, kind: RulesetKind)
    requires Bare(r, kind)
    ensures var any := Endpoint(Ip.Any, Port.Any);
            DecodeTraffic(r) == Some(Traffic(Interface.Any, AddrFamily.Any, any, any))
    ensures DecodeDetails(r) == Some(Details(Direction.Any, false, {}, Proto.Any, [], Id.Any, Id.Any))
  {
    hide DecodeText, DecodeIp, DecodePort, LogsOf, FromNet16, Padded, Copied;
    NoLogs();
    NoAddress();
    TextRoundTrip([], IFNAME_SIZE);
    TextRoundTrip([], LABEL_SIZE);
    CopiedPads([], IFNAME_SIZE);
    CopiedPads([], LABEL_SIZE);
    NoText(IFNAME_SIZE);
    NoText(LABEL_SIZE);
  }

  lemma NoText(size: nat)
    requires size > 0
    ensures Padded([], size) == Zeros(size)
  {
  }

  lemma NoLogs()
    ensures LogsOf(0) == Some({})
  {
    LogRoundTrip([]);
    assert LogByte([]) == 0 && (set l: RuleLog | l in []) == {};
  }

  lemma NoAddress()
    ensures DecodeIp(AddrFamily.Any, ZERO_WRAP) == Some(Ip.Any)
    ensures DecodePort(PF_OP_NONE, FromNet16([0, 0]), FromNet16([0, 0])) == Some(Port.Any)
  {
  }

  /** Only the members of its kind are set in an encoded rule, and `quick` is 0 or 1. */
  lemma OwnMembersOnly(rule: Rule)
    requires Acceptable(rule)
    ensures InstalledForm(rule).Ok?
    ensures var i := InstalledForm(rule).value;
            match rule
            case FilterOf(f) => i.rule.rpool == ZERO_PORTS && i.rule.codes.quick == if f.quick then 1 else 0
            case NatOf(n) =>
              NatMembers(i.rule) && (n.action.NoNat? ==> i.rule.rpool == ZERO_PORTS && i.pool == [])
            case RedirectOf(d) => RedirectMembers(i.rule) && i.rule.codes.quick == if d.quick then 1 else 0
            case ScrubOf(_) => ScrubMembers(i.rule) && i.pool == []
  {
    hide InstalledForm, DecodeTraffic, DecodePolicy, DecodePool, NatMembers, RedirectMembers, ScrubMembers;
    RuleRoundTrip(rule);
  }

  // ---- No two structures decode alike ----

  lemma {:induction false} PrefixTells(m: seq<byte>, m': seq<byte>)
    requires |m| == |m'| && PrefixLength(m).Some? && PrefixLength(m) == PrefixLength(m')
    ensures m == m'
  {
    if m != [] {
      var first, first' := Ones(m[0]).value, Ones(m'[0]).value;
      assert first == first' && m[0] == m'[0];
      if first == 8 {
        PrefixTells(m[1..], m'[1..]);
      }
      assert m == [m[0]] + m[1..] && m' == [m'[0]] + m'[1..];
    }
  }

  lemma ZerosTell(s: seq<byte>, t: seq<byte>)
    requires |s| == |t| && AllZero(s) && AllZero(t)
    ensures s == t
  {
  }

  lemma IpTells(af: AddrFamily, w: AddrWrap, w': AddrWrap)
    requires DecodeIp(af, w).Some? && DecodeIp(af, w) == DecodeIp(af, w')
    ensures w == w'
  {
    hide PrefixLength, AllZero;
    if DecodeIp(af, w).value.Any? {
      ZerosTell(w.addr, w'.addr);
      ZerosTell(w.mask, w'.mask);
    } else if af.Ipv4? {
      PrefixTells(w.mask[..4], w'.mask[..4]);
      ZerosTell(w.addr[4..], w'.addr[4..]);
      ZerosTell(w.mask[4..], w'.mask[4..]);
      assert w.addr == w.addr[..4] + w.addr[4..] && w'.addr == w'.addr[..4] + w'.addr[4..];
      assert w.mask == w.mask[..4] + w.mask[4..] && w'.mask == w'.mask[..4] + w'.mask[4..];
    } else {
      PrefixTells(w.mask, w'.mask);
    }
  }

  lemma TargetTells(w: AddrWrap, w': AddrWrap)
    requires DecodeTarget(w).Some? && DecodeTarget(w) == DecodeTarget(w')
    ensures w == w'
  {
    hide PrefixLength;
    PrefixTells(w.mask, w'.mask);
  }

  lemma PortTells(op: byte, p: u16, q: u16, op': byte, p': u16, q': u16)
    requires DecodePort(op, p, q).Some? && DecodePort(op, p, q) == DecodePort(op', p', q')
    ensures op == op' && p == p' && q == q'
  {
  }

  lemma EndpointTells(af: AddrFamily, a: RuleAddr, a': RuleAddr)
    requires DecodeEndpoint(af, a).Some? && DecodeEndpoint(af, a) == DecodeEndpoint(af, a')
    ensures a == a'
  {
    var r, r' := a.range, a'.range;
    hide DecodeIp, DecodePort, FromNet16;
    IpTells(af, a.addr, a'.addr);
    PortTells(r.op, FromNet16(r.port0), FromNet16(r.port1), r'.op, FromNet16(r'.port0), FromNet16(r'.port1));
    LoadNet16(Little, r.port0);
    LoadNet16(Little, r'.port0);
    LoadNet16(Little, r.port1);
    LoadNet16(Little, r'.port1);
  }

  lemma TextTells(b: seq<byte>, b': seq<byte>)
    requires |b| == |b'| && DecodeText(b).Some? && DecodeText(b) == DecodeText(b')
    ensures b == b'
  {
    var n := |DecodeText(b).value|;
    ZerosTell(b[n..], b'[n..]);
    assert b == b[..n] + b[n..] && b' == b'[..n] + b'[n..];
    assert b[..n] == DecodeText(b).value == b'[..n];
  }

  lemma InterfaceTells(b: IfName, b': IfName)
    requires DecodeInterface(b).Some? && DecodeInterface(b) == DecodeInterface(b')
    ensures b == b'
  {
    hide DecodeText;
    TextTells(b, b');
  }

  lemma IdTells(r: RuleId, r': RuleId)
    requires DecodeId(r).Some? && DecodeId(r) == DecodeId(r')
    ensures r == r'
  {
  }

  lemma RouteTells(c: byte, pool: seq<RawPoolAddr>, c': byte, pool': seq<RawPoolAddr>)
    requires DecodeRoute(c, pool).Some? && DecodeRoute(c, pool) == DecodeRoute(c', pool')
    ensures c == c' && pool == pool'
  {
    hide DecodeInterface, DecodeTarget;
    if c != 0 {
      InterfaceTells(pool[0].ifname, pool'[0].ifname);
      TargetTells(pool[0].addr, pool'[0].addr);
      assert pool == [pool[0]] && pool' == [pool'[0]];
    }
  }

  lemma TrafficTells(r: RawRule, r': RawRule)
    requires DecodeTraffic(r).Some? && DecodeTraffic(r) == DecodeTraffic(r')
    ensures r.ifname == r'.ifname && r.codes.af == r'.codes.af && r.src == r'.src && r.dst == r'.dst
  {
    hide DecodeInterface, DecodeEndpoint;
    var af := DecodeFamily(r.codes.af).value;
    InterfaceTells(r.ifname, r'.ifname);
    EndpointTells(af, r.src, r'.src);
    EndpointTells(af, r.dst, r'.dst);
  }

  lemma DetailsTell(r: RawRule, r': RawRule)
    requires DecodeDetails(r).Some? && DecodeDetails(r) == DecodeDetails(r')
    ensures r.codes.direction == r'.codes.direction && r.codes.quick == r'.codes.quick && r.codes.log == r'.codes.log
    ensures r.codes.proto == r'.codes.proto && r.ruleLabel == r'.ruleLabel && r.uid == r'.uid && r.gid == r'.gid
  {
    hide LogsOf, DecodeText, DecodeId;
    LogsTell(r.codes.log, r'.codes.log);
    TextTells(r.ruleLabel, r'.ruleLabel);
    IdTells(r.uid, r'.uid);
    IdTells(r.gid, r'.gid);
  }

  lemma IcmpTells(t: byte, c: byte, t': byte, c': byte)
    requires DecodeIcmp(t, c).Some? && DecodeIcmp(t, c) == DecodeIcmp(t', c')
    ensures t == t' && c == c'
  {
  }

  lemma PolicyTells(i: Installed, j: Installed)
    requires DecodePolicy(i).Some? && DecodePolicy(i) == DecodePolicy(j)
    ensures i.pool == j.pool
    ensures var (c, d) := (i.rule.codes, j.rule.codes);
            && c.action == d.action && c.ruleFlag == d.ruleFlag && c.rt == d.rt && c.keepState == d.keepState
            && c.flags == d.flags && c.flagset == d.flagset && c.icmpType == d.icmpType && c.icmpCode == d.icmpCode
  {
    hide DecodeRoute, DecodeIcmp, TcpFlagsOf;
    var c, d := i.rule.codes, j.rule.codes;
    RouteTells(c.rt, i.pool, d.rt, j.pool);
    IcmpTells(c.icmpType, c.icmpCode, d.icmpType, d.icmpCode);
    TcpFlagsTell(c.flags, d.flags);
    TcpFlagsTell(c.flagset, d.flagset);
  }

  lemma PoolTells(af: AddrFamily, i: Installed, j: Installed)
    requires DecodePool(af, i).Some? && DecodePool(af, i) == DecodePool(af, j)
    ensures i.pool == j.pool && i.rule.rpool == j.rule.rpool
  {
    hide DecodeInterface, DecodeIp, DecodePort;
    var p, q := i.rule.rpool, j.rule.rpool;
    InterfaceTells(i.pool[0].ifname, j.pool[0].ifname);
    IpTells(af, i.pool[0].addr, j.pool[0].addr);
    PortTells(p.op, p.port0, p.port1, q.op, q.port0, q.port1);
    assert i.pool == [i.pool[0]] && j.pool == [j.pool[0]];
  }

  lemma FilterTells(i: Installed, j: Installed)
    requires DecodeFilter(i).Some? && DecodeFilter(i) == DecodeFilter(j)
    ensures i.rule == j.rule && i.pool == j.pool
  {
    hide DecodeTraffic, DecodeDetails, DecodePolicy;
    TrafficTells(i.rule, j.rule);
    DetailsTell(i.rule, j.rule);
    PolicyTells(i, j);
  }

  lemma NatTells(i: Installed, j: Installed)
    requires RulesetOfAction(i.rule.codes.action) == RulesetOfAction(j.rule.codes.action) == PF_RULESET_NAT
    requires DecodeNat(i).Some? && DecodeNat(i) == DecodeNat(j)
    ensures i.rule == j.rule && i.pool == j.pool
  {
    hide DecodeTraffic, DecodePool;
    TrafficTells(i.rule, j.rule);
    if i.rule.codes.action != PF_NONAT {
      PoolTells(DecodeTraffic(i.rule).value.af, i, j);
    }
  }

  lemma RedirectTells(i: Installed, j: Installed)
    requires RulesetOfAction(i.rule.codes.action) == RulesetOfAction(j.rule.codes.action) == PF_RULESET_RDR
    requires DecodeRedirect(i).Some? && DecodeRedirect(i) == DecodeRedirect(j)
    ensures i.rule == j.rule && i.pool == j.pool
  {
    hide DecodeTraffic, DecodeDetails, DecodePool;
    TrafficTells(i.rule, j.rule);
    DetailsTell(i.rule, j.rule);
    PoolTells(DecodeTraffic(i.rule).value.af, i, j);
  }

  lemma ScrubTells(i: Installed, j: Installed)
    requires RulesetOfAction(i.rule.codes.action) == RulesetOfAction(j.rule.codes.action) == PF_RULESET_SCRUB
    requires DecodeScrub(i).Some? && DecodeScrub(i) == DecodeScrub(j)
    ensures i.rule == j.rule && i.pool == j.pool
  {
  }

  /** Two installed rules that decode alike are the same, byte for byte. */
  lemma DecodingTells(i: Installed, j: Installed)
    requires Decode(i).Some? && Decode(i) == Decode(j)
    ensures i == j
  {
    hide DecodeTraffic, DecodeDetails, DecodePolicy, DecodePool, DecodeDirection;
    hide NatMembers, RedirectMembers, ScrubMembers;
    match Decode(i).value
    case FilterView(_, _, _) => FilterTells(i, j);
    case NatView(_, _) => NatTells(i, j);
    case RedirectView(_, _, _, _) => RedirectTells(i, j);
    case ScrubView(_, _) => ScrubTells(i, j);
  }

  /** What is installed for a rule is the only thing that decodes to it. */
  lemma EncodingIsDetermined(rule: Rule, i: Installed)
    requires Acceptable(rule)
    ensures Decode(i) == Some(ViewOf(rule)) <==> InstalledForm(rule) == Ok(i)
  {
    hide Decode, InstalledForm;
    RuleRoundTrip(rule);
    if Decode(i) == Some(ViewOf(rule)) {
      DecodingTells(i, InstalledForm(rule).value);
    }
  }

  /** Two rules have the same encoding if and only if they mean the same. */
  lemma EncodingInjective(a: Rule, b: Rule)
    requires Acceptable(a) && Acceptable(b)
    ensures InstalledForm(a) == InstalledForm(b) <==> ViewOf(a) == ViewOf(b)
  {
    hide Decode, InstalledForm;
    RuleRoundTrip(a);
    EncodingIsDetermined(b, InstalledForm(a).value);
  }
}
