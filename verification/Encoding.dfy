// What the library writes for each rule: the value of every C structure after a copy.
// A function named `XOver` takes the structure's content before the copy, since not every
// copy writes every byte.
module Encoding {
  import opened Prelude
  import opened Ffi
  import opened Flags
  import opened ByteOrder
  import opened CStrings
  import opened Rules

  // ---- Code tables ----

  function UnaryOp(m: UnaryModifier): byte {
    match m
    case Equal => PF_OP_EQ
    case NotEqual => PF_OP_NE
    case Greater => PF_OP_GT
    case Less => PF_OP_LT
    case GreaterOrEqual => PF_OP_GE
    case LessOrEqual => PF_OP_LE
  }

  function RangeOp(m: RangeModifier): byte {
    match m
    case Exclusive => PF_OP_IRG
    case Inclusive => PF_OP_RRG
    case Except => PF_OP_XRG
  }

  function FamilyCode(af: AddrFamily): byte {
    match af
    case Any => PF_UNSPEC
    case Ipv4 => PF_INET
    case Ipv6 => PF_INET6
  }

  /** PF_INOUT, PF_IN and PF_OUT. */
  function DirectionCode(d: Direction): byte {
    match d
    case Any => 0
    case In => 1
    case Out => 2
  }

  /** IPPROTO_IP, IPPROTO_TCP, IPPROTO_UDP, IPPROTO_ICMP and IPPROTO_ICMPV6. */
  function ProtoCode(p: Proto): byte {
    match p
    case Any => 0
    case Tcp => 6
    case Udp => 17
    case Icmp => 1
    case IcmpV6 => 58
  }

  /** PF_STATE_NORMAL, PF_STATE_MODULATE and PF_STATE_SYNPROXY. */
  function StateCode(s: StatePolicy): byte {
    match s
    case NoState => 0
    case Keep => 1
    case Modulate => 2
    case SynProxy => 3
  }

  /** PF_NOPFROUTE, PF_ROUTETO, PF_REPLYTO and PF_DUPTO. */
  function RouteCode(r: Route): byte {
    match r
    case NoRoute => 0
    case RouteTo(_) => 2
    case ReplyTo(_) => 4
    case DupTo(_) => 3
  }

  function FilterCode(a: FilterAction): byte {
    if a.Pass? then PF_PASS else PF_DROP
  }

  /** PFRULE_DROP, PFRULE_RETURN, PFRULE_RETURNRST and PFRULE_RETURNICMP. */
  function RuleFlags(a: FilterAction): u32 {
    match a
    case Pass => 0
    case Block(Drop) => 0
    case Block(Return) => 8
    case Block(ReturnRst) => 1
    case Block(ReturnIcmp) => 4
  }

  function IcmpRawType(i: IcmpType): byte {
    match i
    case EchoRep => 0
    case Unreach(_) => 3
    case EchoReq => 8
    case Timex(_) => 11
    case Trace => 30
    case Icmp6(t) => t
  }

  function IcmpRawCode(i: IcmpType): Option<byte> {
    match i
    case Unreach(c) => Some(c)
    case Timex(c) => Some(c)
    case _ => None
  }

  function BoolCode(b: bool): byte {
    if b then 1 else 0
  }

  // ---- Addresses ----

  datatype IpAddr = V4Addr(o4: Octets4) | V6Addr(o6: Octets16)

  /** A byte whose `n` highest bits are ones, all of them when n >= 8. */
  function MaskByte(n: int): byte {
    if n <= 0 then 0
    else if n == 1 then 0x80
    else if n == 2 then 0xC0
    else if n == 3 then 0xE0
    else if n == 4 then 0xF0
    else if n == 5 then 0xF8
    else if n == 6 then 0xFC
    else if n == 7 then 0xFE
    else 0xFF
  }

  /** The mask of a prefix: `prefix` ones from the left, section 3.1 of RFC 4632. */
  function Mask(prefix: nat, size: nat): (m: seq<byte>)
    ensures |m| == size
  {
    seq(size, i => MaskByte(prefix - 8 * i))
  }

  /** Bit `k` of a byte string, the leftmost bit first. */
  predicate BitAt(s: seq<byte>, k: nat)
    requires k < 8 * |s|
  {
    s[k / 8] / [0x80, 0x40, 0x20, 0x10, 8, 4, 2, 1][k % 8] % 2 == 1
  }

  /** The bits of a mask are those of its prefix. */
  lemma MaskBits(prefix: nat, size: nat, k: nat)
    requires k < 8 * size
    ensures BitAt(Mask(prefix, size), k) <==> k < prefix
  {
    var n, j := prefix - 8 * (k / 8), k % 8;
    assert Mask(prefix, size)[k / 8] == MaskByte(n);
    MaskByteBits(n, j);
  }

  lemma MaskByteBits(n: int, j: nat)
    requires j < 8
    ensures MaskByte(n) / [0x80, 0x40, 0x20, 0x10, 8, 4, 2, 1][j] % 2 == (if j < n then 1 else 0)
  {
    assert j == 0 || j == 1 || j == 2 || j == 3 || j == 4 || j == 5 || j == 6 || j == 7;
  }

  predicate AgreeAt(a: seq<byte>, b: seq<byte>, k: nat)
    requires |a| == |b| && k < 8 * |a|
  {
    BitAt(a, k) == BitAt(b, k)
  }

  /** Addresses agree under the mask if and only if they agree in the bits of the prefix. */
  lemma MaskSelectsPrefix(prefix: nat, a: seq<byte>, b: seq<byte>)
    requires |a| == |b| && prefix <= 8 * |a|
    ensures (forall k :: 0 <= k < 8 * |a| && BitAt(Mask(prefix, |a|), k) ==> AgreeAt(a, b, k))
            <==> (forall k :: 0 <= k < prefix ==> AgreeAt(a, b, k))
  {
    hide BitAt, AgreeAt;
    forall k | 0 <= k < 8 * |a|
      ensures BitAt(Mask(prefix, |a|), k) <==> k < prefix
    {
      MaskBits(prefix, |a|, k);
    }
  }

  function NetAddr(net: IpNetwork): IpAddr {
    match net
    case V4(a, _) => V4Addr(a)
    case V6(a, _) => V6Addr(a)
  }

  function NetMask(net: IpNetwork): IpAddr {
    match net
    case V4(_, p) => V4Addr(Mask(p, 4))
    case V6(_, p) => V6Addr(Mask(p, 16))
  }

  /** pf_addr is a union: an IPv4 address leaves the last twelve bytes alone. */
  function AddrOver(ip: IpAddr, dst: Octets16): Octets16 {
    match ip
    case V4Addr(o) => o + dst[4..]
    case V6Addr(o) => o
  }

  /** The wildcard is written as the IPv6 network ::/0. */
  const ANY_NETWORK := V6(Zeros(16), 0)

  function Network(ip: Ip): IpNetwork {
    if ip.Any? then ANY_NETWORK else ip.net
  }

  function WrapOver(ip: Ip, w: AddrWrap): AddrWrap {
    var net := Network(ip);
    AddrWrap(AddrOver(NetAddr(net), w.addr), AddrOver(NetMask(net), w.mask), PF_ADDR_ADDRMASK)
  }

  // ---- Ports, endpoints, ids and interfaces ----

  function PortEncoded(p: Port): Result<PortRange, Error> {
    match p
    case Any => Ok(PortRange([0, 0], [0, 0], PF_OP_NONE))
    case One(port, m) => Ok(PortRange(Net16(port), [0, 0], UnaryOp(m)))
    case Range(a, b, m) =>
      if a > b then Err(InvalidPortRange) else Ok(PortRange(Net16(a), Net16(b), RangeOp(m)))
  }

  function PoolPortEncoded(p: Port): Result<PoolPorts, Error> {
    match p
    case Any => Ok(PoolPorts(0, 0, PF_OP_NONE))
    case One(port, m) => Ok(PoolPorts(port, 0, UnaryOp(m)))
    case Range(a, b, m) =>
      if a > b then Err(InvalidPortRange) else Ok(PoolPorts(a, b, RangeOp(m)))
  }

  function EndpointOver(e: Endpoint, dst: RuleAddr): Result<RuleAddr, Error> {
    var range :- PortEncoded(e.port);
    Ok(RuleAddr(WrapOver(e.ip, dst.addr), range))
  }

  /** A single id leaves the second slot alone. */
  function IdOver(id: Id, dst: RuleId): RuleId {
    match id
    case Any => RuleId(0, dst.id1, PF_OP_NONE)
    case One(x, m) => RuleId(x, dst.id1, UnaryOp(m))
    case Range(a, b, m) => RuleId(a, b, RangeOp(m))
  }

  function InterfaceText(i: Interface): Text {
    if i.Any? then [] else i.name
  }

  function InterfaceOver(i: Interface, dst: IfName): (r: Result<IfName, Error>)
    ensures r.Ok? <==> Fits(InterfaceText(i), IFNAME_SIZE)
  {
    Copied(InterfaceText(i), dst).MapErr(e => InvalidInterfaceName(e))
  }

  function AnchorOver(name: Text, dst: AnchorName): (r: Result<AnchorName, Error>)
    ensures r.Ok? <==> Fits(name, ANCHOR_SIZE)
  {
    Copied(name, dst).MapErr(e => InvalidAnchorName(e))
  }

  function LabelOver(ruleLabel: Text, dst: LabelText): (r: Result<LabelText, Error>)
    ensures r.Ok? <==> Fits(ruleLabel, LABEL_SIZE)
  {
    Copied(ruleLabel, dst).MapErr(e => InvalidLabel(e))
  }

  function PoolAddrOver(p: PoolAddr, dst: RawPoolAddr): Result<RawPoolAddr, Error> {
    var ifname :- InterfaceOver(p.interface, dst.ifname);
    Ok(RawPoolAddr(WrapOver(p.ip, dst.addr), ifname))
  }

  // ---- Rules ----

  /** What filter, NAT and redirect rules write alike, in this order. */
  function TrafficOver(af: Result<AddrFamily, Error>, from: Endpoint, to: Endpoint, dst: RawRule)
    : Result<RawRule, Error>
  {
    var family :- af;
    var src' :- EndpointOver(from, dst.src);
    var dst' :- EndpointOver(to, dst.dst);
    Ok(dst.(codes := dst.codes.(af := FamilyCode(family)), src := src', dst := dst'))
  }

  /** What filter and redirect rules write before and after. */
  function PlaceOver(i: Interface, proto: Proto, dst: RawRule): Result<RawRule, Error> {
    var ifname :- InterfaceOver(i, dst.ifname);
    Ok(dst.(ifname := ifname, codes := dst.codes.(proto := ProtoCode(proto))))
  }

  function OwnersOver(text: Text, user: Id, group: Id, dst: RawRule): Result<RawRule, Error> {
    var ruleLabel :- LabelOver(text, dst.ruleLabel);
    Ok(dst.(ruleLabel := ruleLabel, uid := IdOver(user, dst.uid), gid := IdOver(group, dst.gid)))
  }

  function IcmpOver(icmp: Option<IcmpType>, c: RuleCodes): RuleCodes {
    if icmp.None? then c
    else
      c.(icmpType := IcmpRawType(icmp.value) + 1,
         icmpCode := match IcmpRawCode(icmp.value) case Some(code) => code + 1 case None => 0)
  }

  function FilterCodesOver(rule: FilterRule, c: RuleCodes): Result<RuleCodes, Error> {
    var keepState :- rule.ValidateStatePolicy();
    Ok(c.(
       action := FilterCode(rule.action), direction := DirectionCode(rule.direction),
       quick := BoolCode(rule.quick), log := LogByte(rule.log), rt := RouteCode(rule.route),
       keepState := StateCode(keepState), flags := TcpByte(rule.check), flagset := TcpByte(rule.mask),
       ruleFlag := RuleFlags(rule.action)))
  }

  function FilterOver(rule: FilterRule, dst: RawRule): Result<RawRule, Error> {
    var codes :- FilterCodesOver(rule, dst.codes);
    var placed :- PlaceOver(rule.interface, rule.proto, dst.(codes := codes));
    var matching :- TrafficOver(rule.GetAf(), rule.from, rule.to, placed);
    var owned :- OwnersOver(rule.ruleLabel, rule.user, rule.group, matching);
    Ok(owned.(codes := IcmpOver(rule.icmpType, owned.codes)))
  }

  function NatOver(rule: NatRule, dst: RawRule): Result<RawRule, Error> {
    var ifname :- InterfaceOver(rule.interface, dst.ifname);
    var codes := dst.codes.(action := if rule.action.Nat? then PF_NAT else PF_NONAT);
    TrafficOver(rule.GetAf(), rule.from, rule.to, dst.(codes := codes, ifname := ifname))
  }

  function RedirectOver(rule: RedirectRule, dst: RawRule): Result<RawRule, Error> {
    var codes := dst.codes.(
                   action := if rule.action.Redirect? then PF_RDR else PF_NORDR,
                   direction := DirectionCode(rule.direction), quick := BoolCode(rule.quick), log := LogByte(rule.log));
    var placed :- PlaceOver(rule.interface, rule.proto, dst.(codes := codes));
    var matching :- TrafficOver(rule.GetAf(), rule.from, rule.to, placed);
    OwnersOver(rule.ruleLabel, rule.user, rule.group, matching)
  }

  function ScrubOver(rule: ScrubRule, dst: RawRule): RawRule {
    dst.(codes := dst.codes.(
           action := if rule.action.Scrub? then PF_SCRUB else PF_NOSCRUB, direction := DirectionCode(rule.direction)))
  }

  function RuleOver(rule: Rule, dst: RawRule): Result<RawRule, Error> {
    match rule
    case FilterOf(f) => FilterOver(f, dst)
    case NatOf(n) => NatOver(n, dst)
    case RedirectOf(r) => RedirectOver(r, dst)
    case ScrubOf(s) => Ok(ScrubOver(s, dst))
  }

  // ---- A rule with its pool ----

  /** The address a rule wants in its pool. */
  function PoolAddrOf(rule: Rule): Option<PoolAddr> {
    match rule
    case FilterOf(f) => f.route.GetPoolAddr()
    case NatOf(n) => if n.action.Nat? then Some(PoolAddr(Interface.Any, n.action.natTo.ip)) else None
    case RedirectOf(r) => Some(PoolAddr(Interface.Any, r.redirectTo.ip))
    case ScrubOf(_) => None
  }

  /** The port a rule wants in its pool. */
  function PoolPortOf(rule: Rule): Option<Port> {
    match rule
    case FilterOf(_) => None
    case NatOf(n) => if n.action.Nat? then Some(n.action.natTo.port) else None
    case RedirectOf(r) => Some(r.redirectTo.port)
    case ScrubOf(_) => None
  }

  function PoolEncoded(pool: Option<PoolAddr>): Result<seq<RawPoolAddr>, Error> {
    match pool
    case None => Ok([])
    case Some(p) =>
      var raw :- PoolAddrOver(p, ZERO_POOL_ADDR);
      Ok([raw])
  }

  function PoolPortOver(port: Option<Port>, dst: RawRule): Result<RawRule, Error> {
    match port
    case None => Ok(dst)
    case Some(p) =>
      var ports :- PoolPortEncoded(p);
      Ok(dst.(rpool := ports))
  }

  /** The rule as it ends up in a ruleset: its zeroed structure filled in, and its own pool. */
  function InstalledForm(rule: Rule): Result<Installed, Error> {
    var raw :- RuleOver(rule, ZERO_RULE);
    var pool :- PoolEncoded(PoolAddrOf(rule));
    var raw' :- PoolPortOver(PoolPortOf(rule), raw);
    Ok(Installed(raw', pool))
  }

  // ---- Exactly which rules are accepted ----

  predicate Ordered(p: Port) {
    p.Range? ==> p.first <= p.last
  }

  predicate Agree(families: set<AddrFamily>) {
    !(AddrFamily.Ipv4 in families && AddrFamily.Ipv6 in families)
  }

  predicate NameFits(i: Interface) {
    Fits(InterfaceText(i), IFNAME_SIZE)
  }

  /** The conditions the documentation of the rule types puts on a rule. */
  predicate Acceptable(rule: Rule) {
    match rule
    case FilterOf(f) =>
      && (f.keepState.Modulate? || f.keepState.SynProxy? ==> f.proto.Tcp?)
      && Agree({f.from.ip.GetAf(), f.to.ip.GetAf(), f.af})
      && Ordered(f.from.port) && Ordered(f.to.port)
      && NameFits(f.interface) && Fits(f.ruleLabel, LABEL_SIZE)
      && (!f.route.NoRoute? ==> NameFits(f.route.pool.interface))
    case NatOf(n) =>
      && Agree(if n.action.NoNat? then {n.from.ip.GetAf(), n.to.ip.GetAf(), n.af}
               else {n.from.ip.GetAf(), n.to.ip.GetAf(), n.action.natTo.ip.GetAf(), n.af})
      && Ordered(n.from.port) && Ordered(n.to.port) && NameFits(n.interface)
      && (n.action.Nat? ==> Ordered(n.action.natTo.port))
    case RedirectOf(r) =>
      && Agree({r.from.ip.GetAf(), r.to.ip.GetAf(), r.redirectTo.ip.GetAf(), r.af})
      && Ordered(r.from.port) && Ordered(r.to.port) && Ordered(r.redirectTo.port)
      && NameFits(r.interface) && Fits(r.ruleLabel, LABEL_SIZE)
    case ScrubOf(_) => true
  }

  // ---- What is wrong with a rule, in the order in which it is found ----

  function First(a: Option<Error>, b: Option<Error>): Option<Error> {
    if a.Some? then a else b
  }

  function InterfaceObjection(i: Interface): Option<Error> {
    if i.Any? then None
    else match Objection(i.name, IFNAME_SIZE)
      case Some(reason) => Some(InvalidInterfaceName(reason))
      case None => None
  }

  function LabelObjection(ruleLabel: Text): Option<Error> {
    match Objection(ruleLabel, LABEL_SIZE)
    case Some(reason) => Some(InvalidLabel(reason))
    case None => None
  }

  function PortObjection(p: Port): Option<Error> {
    if Ordered(p) then None else Some(InvalidPortRange)
  }

  function TrafficObjection(families: set<AddrFamily>, from: Endpoint, to: Endpoint): Option<Error> {
    First(if Agree(families) then None else Some(InvalidRuleCombination),
          First(PortObjection(from.port), PortObjection(to.port)))
  }

  /** What keeps the rule itself from being encoded. */
  function RuleObjection(rule: Rule): Option<Error> {
    match rule
    case FilterOf(f) =>
      var statePolicy := if (f.keepState.Modulate? || f.keepState.SynProxy?) && !f.proto.Tcp? then
                           Some(InvalidRuleCombination)
                         else None;
      var traffic := TrafficObjection({f.from.ip.GetAf(), f.to.ip.GetAf(), f.af}, f.from, f.to);
      First(statePolicy, First(InterfaceObjection(f.interface), First(traffic, LabelObjection(f.ruleLabel))))
    case NatOf(n) =>
      var families := if n.action.NoNat? then {n.from.ip.GetAf(), n.to.ip.GetAf(), n.af}
                      else {n.from.ip.GetAf(), n.to.ip.GetAf(), n.action.natTo.ip.GetAf(), n.af};
      First(InterfaceObjection(n.interface), TrafficObjection(families, n.from, n.to))
    case RedirectOf(r) =>
      var families := {r.from.ip.GetAf(), r.to.ip.GetAf(), r.redirectTo.ip.GetAf(), r.af};
      First(InterfaceObjection(r.interface),
            First(TrafficObjection(families, r.from, r.to), LabelObjection(r.ruleLabel)))
    case ScrubOf(_) => None
  }

  /** Whether a rule wants an address in its pool, and what keeps the address from being encoded. */
  predicate WantsPool(rule: Rule) {
    match rule
    case FilterOf(f) => !f.route.NoRoute?
    case NatOf(n) => n.action.Nat?
    case RedirectOf(_) => true
    case ScrubOf(_) => false
  }

  function PoolObjection(rule: Rule): Option<Error> {
    if rule.FilterOf? && !rule.f.route.NoRoute? then InterfaceObjection(rule.f.route.pool.interface) else None
  }

  /** What keeps the ports of the pool from being encoded. */
  function PoolPortObjection(rule: Rule): Option<Error> {
    match rule
    case NatOf(n) => if n.action.Nat? then PortObjection(n.action.natTo.port) else None
    case RedirectOf(r) => PortObjection(r.redirectTo.port)
    case _ => None
  }

  /** A result fails with exactly this error, if there is one. */
  predicate Objects<T>(o: Option<Error>, r: Result<T, Error>) {
    match o
    case Some(e) => r == Err(e)
    case None => r.Ok?
  }

  lemma TrafficErrors(
    af: Result<AddrFamily, Error>, families: set<AddrFamily>, from: Endpoint, to: Endpoint, dst: RawRule)
    requires af == Joined(families)
    ensures Objects(TrafficObjection(families, from, to), TrafficOver(af, from, to, dst))
  {
    hide WrapOver;
  }

  lemma InterfaceErrors(i: Interface, dst: IfName)
    ensures Objects(InterfaceObjection(i), InterfaceOver(i, dst))
  {
  }

  lemma LabelErrors(ruleLabel: Text, dst: LabelText)
    ensures Objects(LabelObjection(ruleLabel), LabelOver(ruleLabel, dst))
  {
  }

  /** A rule fails to encode with its first objection, and with nothing else. */
  lemma RuleErrors(rule: Rule, dst: RawRule)
    ensures Objects(RuleObjection(rule), RuleOver(rule, dst))
  {
    hide TrafficOver, TrafficObjection, InterfaceOver, InterfaceObjection, LabelOver, LabelObjection;
    hide IdOver, IcmpOver, TcpByte, LogByte;
    match rule
    case FilterOf(f) =>
      FilterErrors(f, dst);
    case NatOf(n) =>
      NatFamilies(n);
      var families := if n.action.NoNat? then {n.from.ip.GetAf(), n.to.ip.GetAf(), n.af}
                      else {n.from.ip.GetAf(), n.to.ip.GetAf(), n.action.natTo.ip.GetAf(), n.af};
      InterfaceErrors(n.interface, dst.ifname);
      if InterfaceOver(n.interface, dst.ifname).Ok? {
        var codes := dst.codes.(action := if n.action.Nat? then PF_NAT else PF_NONAT);
        var placed := dst.(codes := codes, ifname := InterfaceOver(n.interface, dst.ifname).value);
        TrafficErrors(n.GetAf(), families, n.from, n.to, placed);
      }
    case RedirectOf(r) =>
      RedirectErrors(r, dst);
    case ScrubOf(_) =>
  }

  lemma FilterErrors(f: FilterRule, dst: RawRule)
    ensures Objects(RuleObjection(FilterOf(f)), FilterOver(f, dst))
  {
    hide TrafficOver, TrafficObjection, InterfaceOver, InterfaceObjection, LabelOver, LabelObjection;
    hide IdOver, IcmpOver, TcpByte, LogByte;
    FilterFamilies(f);
    var families := {f.from.ip.GetAf(), f.to.ip.GetAf(), f.af};
    if FilterCodesOver(f, dst.codes).Ok? {
      var d1 := dst.(codes := FilterCodesOver(f, dst.codes).value);
      InterfaceErrors(f.interface, d1.ifname);
      if PlaceOver(f.interface, f.proto, d1).Ok? {
        var d2 := PlaceOver(f.interface, f.proto, d1).value;
        TrafficErrors(f.GetAf(), families, f.from, f.to, d2);
        if TrafficOver(f.GetAf(), f.from, f.to, d2).Ok? {
          LabelErrors(f.ruleLabel, TrafficOver(f.GetAf(), f.from, f.to, d2).value.ruleLabel);
        }
      }
    }
  }

  lemma RedirectErrors(r: RedirectRule, dst: RawRule)
    ensures Objects(RuleObjection(RedirectOf(r)), RedirectOver(r, dst))
  {
    hide TrafficOver, TrafficObjection, InterfaceOver, InterfaceObjection, LabelOver, LabelObjection;
    hide IdOver, LogByte;
    RedirectFamilies(r);
    var families := {r.from.ip.GetAf(), r.to.ip.GetAf(), r.redirectTo.ip.GetAf(), r.af};
    var codes := dst.codes.(
                   action := if r.action.Redirect? then PF_RDR else PF_NORDR,
                   direction := DirectionCode(r.direction), quick := BoolCode(r.quick), log := LogByte(r.log));
    var d1 := dst.(codes := codes);
    InterfaceErrors(r.interface, d1.ifname);
    if PlaceOver(r.interface, r.proto, d1).Ok? {
      var d2 := PlaceOver(r.interface, r.proto, d1).value;
      TrafficErrors(r.GetAf(), families, r.from, r.to, d2);
      if TrafficOver(r.GetAf(), r.from, r.to, d2).Ok? {
        LabelErrors(r.ruleLabel, TrafficOver(r.GetAf(), r.from, r.to, d2).value.ruleLabel);
      }
    }
  }

  lemma PoolErrors(rule: Rule)
    ensures Objects(PoolObjection(rule), PoolEncoded(PoolAddrOf(rule)))
    ensures PoolAddrOf(rule).Some? <==> WantsPool(rule)
  {
    hide WrapOver, Copied;
    if PoolAddrOf(rule).Some? {
      InterfaceErrors(PoolAddrOf(rule).value.interface, ZERO_POOL_ADDR.ifname);
    }
  }

  lemma PoolPortErrors(rule: Rule, dst: RawRule)
    ensures Objects(PoolPortObjection(rule), PoolPortOver(PoolPortOf(rule), dst))
  {
  }

  /** The objections are those to rules that are not acceptable. */
  lemma ObjectionsAreExact(rule: Rule)
    ensures Acceptable(rule) <==>
            RuleObjection(rule).None? && PoolObjection(rule).None? && PoolPortObjection(rule).None?
  {
  }

  /** A rule is encoded if and only if it is acceptable. */
  lemma AcceptanceIsExact(rule: Rule)
    ensures InstalledForm(rule).Ok? <==> Acceptable(rule)
  {
    hide RuleOver, PoolEncoded, PoolPortOver, RuleObjection, PoolObjection, PoolPortObjection, Acceptable;
    ObjectionsAreExact(rule);
    RuleErrors(rule, ZERO_RULE);
    PoolErrors(rule);
    if RuleOver(rule, ZERO_RULE).Ok? {
      PoolPortErrors(rule, RuleOver(rule, ZERO_RULE).value);
    }
  }

  /** The action alone puts an encoded rule into the ruleset of its kind. */
  lemma EncodedKind(rule: Rule)
    requires RuleOver(rule, ZERO_RULE).Ok?
    ensures RulesetOfAction(RuleOver(rule, ZERO_RULE).value.codes.action) == RulesetOf(rule.Kind())
  {
    hide WrapOver, PortEncoded, IdOver, Copied, TcpByte, LogByte, Joined;
  }

  lemma InstalledKind(rule: Rule)
    requires InstalledForm(rule).Ok?
    ensures RulesetOfAction(InstalledForm(rule).value.rule.codes.action) == RulesetOf(rule.Kind())
  {
    EncodedKind(rule);
  }
}
