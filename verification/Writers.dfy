// Writing rules into C structures, member by member, as the `copy_to` and `try_copy_to`
// implementations do. Each method is proved against its function in Encoding.
module Writers {
  import opened Prelude
  import opened ByteOrder
  import opened CStrings
  import opened Ffi
  import opened Flags
  import opened Rules
  import opened Encoding
  import opened Structs

  // ---- Addresses ----

  /** An IPv4 address goes through a swapped host integer. */
  method NetworkNumber(host: Endian, o: Octets4) returns (b: seq<byte>)
    ensures b == o
  {
    b := Store32(host, Be32(host, FromNet32(o)));
    NetworkOrder32(host, o);
  }

  /** It takes the first four bytes of the union. */
  method CopyV4(host: Endian, o: Octets4, dst: array<byte>)
    requires dst.Length == 16
    modifies dst
    ensures dst[..] == AddrOver(V4Addr(o), old(dst[..]))
    ensures dst[..4] == o && dst[4..] == old(dst[4..])
  {
    var stored := NetworkNumber(host, o);
    dst[0], dst[1], dst[2], dst[3] := stored[0], stored[1], stored[2], stored[3];
    assert dst[..] == o + old(dst[..])[4..];
  }

  /** An IPv6 address is written segment by segment, each one swapped. */
  method CopyV6(host: Endian, o: Octets16, dst: array<byte>)
    requires dst.Length == 16
    modifies dst
    ensures dst[..] == AddrOver(V6Addr(o), old(dst[..])) == o
  {
    hide Number16, Be16, Store16;
    for i := 0 to 8
      invariant dst[..2 * i] == o[..2 * i]
    {
      var segment := Number16(o[2 * i], o[2 * i + 1]);
      var stored := Store16(host, Be16(host, segment));
      SegmentOctets(host, o[2 * i], o[2 * i + 1]);
      dst[2 * i], dst[2 * i + 1] := stored[0], stored[1];
      assert dst[..2 * (i + 1)] == dst[..2 * i] + stored;
      assert o[..2 * (i + 1)] == o[..2 * i] + stored;
    }
  }

  method CopyAddr(host: Endian, ip: IpAddr, dst: array<byte>)
    requires dst.Length == 16
    modifies dst
    ensures dst[..] == AddrOver(ip, old(dst[..]))
  {
    match ip
    case V4Addr(o) => CopyV4(host, o, dst);
    case V6Addr(o) => CopyV6(host, o, dst);
  }

  method CopyNetwork(host: Endian, net: IpNetwork, w: AddrWrap) returns (w': AddrWrap)
    ensures w' == WrapOver(Net(net), w)
  {
    var addr := new byte[16](i requires 0 <= i < 16 => w.addr[i]);
    var mask := new byte[16](i requires 0 <= i < 16 => w.mask[i]);
    assert addr[..] == w.addr && mask[..] == w.mask;
    w' := w.(kind := PF_ADDR_ADDRMASK);
    CopyAddr(host, NetAddr(net), addr);
    CopyAddr(host, NetMask(net), mask);
    w' := w'.(addr := addr[..], mask := mask[..]);
  }

  method CopyIp(host: Endian, ip: Ip, w: AddrWrap) returns (w': AddrWrap)
    ensures w' == WrapOver(ip, w)
    ensures ip.Any? ==> w' == ZERO_WRAP
  {
    match ip
    case Any => w' := CopyNetwork(host, ANY_NETWORK, w);
    case Net(net) => w' := CopyNetwork(host, net, w);
  }

  // ---- Ports, endpoints, ids and interfaces ----

  /** A port in network order, as it lies in the host's memory. */
  method NetworkPort(host: Endian, port: u16) returns (b: Net2)
    ensures b == Net16(port)
  {
    b := Store16(host, Be16(host, port));
    NetworkOrder16(host, port);
  }

  method CopyPort(host: Endian, p: Port, range: PortRange) returns (r: Result<(), Error>, range': PortRange)
    ensures match PortEncoded(p)
            case Ok(encoded) => r == Ok(()) && range' == encoded
            case Err(e) => r == Err(e) && range' == range
  {
    r, range' := Ok(()), range;
    match p
    case Any =>
      range' := range'.(op := PF_OP_NONE);
      range' := range'.(port0 := [0, 0]);
      range' := range'.(port1 := [0, 0]);
    case One(port, m) =>
      range' := range'.(op := UnaryOp(m));
      var port0 := NetworkPort(host, port);
      range' := range'.(port0 := port0);
      range' := range'.(port1 := [0, 0]);
    case Range(first, last, m) =>
      if first > last {
        return Err(InvalidPortRange), range;
      }
      range' := range'.(op := RangeOp(m));
      var port0 := NetworkPort(host, first);
      var port1 := NetworkPort(host, last);
      range' := range'.(port0 := port0);
      range' := range'.(port1 := port1);
  }

  /** The proxy ports of a pool stay in host order. */
  method CopyPoolPort(p: Port, rule: PfRule) returns (r: Result<(), Error>)
    requires rule.Valid()
    modifies rule`rpool
    ensures match PoolPortEncoded(p)
            case Ok(ports) => r == Ok(()) && rule.rpool == ports
            case Err(e) => r == Err(e) && rule.rpool == old(rule.rpool)
  {
    r := Ok(());
    match p
    case Any =>
      rule.rpool := rule.rpool.(op := PF_OP_NONE);
      rule.rpool := rule.rpool.(port0 := 0);
      rule.rpool := rule.rpool.(port1 := 0);
    case One(port, m) =>
      rule.rpool := rule.rpool.(op := UnaryOp(m));
      rule.rpool := rule.rpool.(port0 := port);
      rule.rpool := rule.rpool.(port1 := 0);
    case Range(first, last, m) =>
      if first > last {
        return Err(InvalidPortRange);
      }
      rule.rpool := rule.rpool.(op := RangeOp(m));
      rule.rpool := rule.rpool.(port0 := first);
      rule.rpool := rule.rpool.(port1 := last);
  }

  method CopyEndpoint(host: Endian, e: Endpoint, a: RuleAddr) returns (r: Result<(), Error>, a': RuleAddr)
    ensures match EndpointOver(e, a)
            case Ok(encoded) => r == Ok(()) && a' == encoded
            case Err(error) => r == Err(error)
  {
    var addr := CopyIp(host, e.ip, a.addr);
    var range;
    r, range := CopyPort(host, e.port, a.range);
    a' := RuleAddr(addr, range);
  }

  method CopyId(id: Id, d: RuleId) returns (d': RuleId)
    ensures d' == IdOver(id, d)
    ensures !id.Range? ==> d'.id1 == d.id1
  {
    d' := d;
    match id
    case Any =>
      d' := d'.(id0 := 0);
      d' := d'.(op := PF_OP_NONE);
    case One(x, m) =>
      d' := d'.(id0 := x);
      d' := d'.(op := UnaryOp(m));
    case Range(first, last, m) =>
      d' := d'.(id0 := first);
      d' := d'.(id1 := last);
      d' := d'.(op := RangeOp(m));
  }

  method CopyInterface(i: Interface, dst: array<byte>) returns (r: Result<(), Error>)
    requires dst.Length == IFNAME_SIZE
    modifies dst
    ensures match InterfaceOver(i, old(dst[..]))
            case Ok(b) => r == Ok(()) && dst[..] == b
            case Err(e) => r == Err(e) && dst[..] == old(dst[..])
  {
    var copied := TryCopyString(InterfaceText(i), dst);
    r := copied.MapErr(e => InvalidInterfaceName(e));
  }

  method CopyAnchorName(anchor: Text, dst: array<byte>) returns (r: Result<(), Error>)
    requires dst.Length == ANCHOR_SIZE
    modifies dst
    ensures match AnchorOver(anchor, old(dst[..]))
            case Ok(b) => r == Ok(()) && dst[..] == b
            case Err(e) => r == Err(e) && dst[..] == old(dst[..])
  {
    var copied := TryCopyString(anchor, dst);
    r := copied.MapErr(e => InvalidAnchorName(e));
  }

  method CopyLabel(text: Text, dst: array<byte>) returns (r: Result<(), Error>)
    requires dst.Length == LABEL_SIZE
    modifies dst
    ensures match LabelOver(text, old(dst[..]))
            case Ok(b) => r == Ok(()) && dst[..] == b
            case Err(e) => r == Err(e) && dst[..] == old(dst[..])
  {
    var copied := TryCopyString(text, dst);
    r := copied.MapErr(e => InvalidLabel(e));
  }

  method CopyPoolAddr(host: Endian, p: PoolAddr, raw: RawPoolAddr) returns (r: Result<RawPoolAddr, Error>)
    ensures r == PoolAddrOver(p, raw)
  {
    var ifname := new byte[IFNAME_SIZE](i requires 0 <= i < IFNAME_SIZE => raw.ifname[i]);
    assert ifname[..] == raw.ifname;
    var copied := CopyInterface(p.interface, ifname);
    if copied.Err? {
      return Err(copied.error);
    }
    var addr := CopyIp(host, p.ip, raw.addr);
    r := Ok(RawPoolAddr(addr, ifname[..]));
  }

  /** `PoolAddrList::init_pool`: one zeroed structure per address, filled in and pushed. */
  method InitPool(host: Endian, addrs: seq<PoolAddr>) returns (r: Result<seq<RawPoolAddr>, Error>)
    ensures r.Ok? ==>
              && |r.value| == |addrs|
              && forall i :: 0 <= i < |addrs| ==> PoolAddrOver(addrs[i], ZERO_POOL_ADDR) == Ok(r.value[i])
    ensures r.Err? ==>
              exists i :: 0 <= i < |addrs| && PoolAddrOver(addrs[i], ZERO_POOL_ADDR) == Err(r.error)
                          && forall j :: 0 <= j < i ==> PoolAddrOver(addrs[j], ZERO_POOL_ADDR).Ok?
  {
    var pool := [];
    for k := 0 to |addrs|
      invariant |pool| == k
      invariant forall i :: 0 <= i < k ==> PoolAddrOver(addrs[i], ZERO_POOL_ADDR) == Ok(pool[i])
    {
      var raw := CopyPoolAddr(host, addrs[k], ZERO_POOL_ADDR);
      if raw.Err? {
        return raw.PropagateFailure();
      }
      pool := pool + [raw.value];
    }
    r := Ok(pool);
  }

  // ---- Rules ----

  method CopyTraffic(host: Endian, af: Result<AddrFamily, Error>, from: Endpoint, to: Endpoint, dst: PfRule)
    returns (r: Result<(), Error>)
    requires dst.Valid()
    modifies dst`codes, dst`src, dst`dst
    ensures match TrafficOver(af, from, to, old(dst.Value()))
            case Ok(raw) => r == Ok(()) && dst.Value() == raw
            case Err(e) => r == Err(e)
  {
    if af.Err? {
      return Err(af.error);
    }
    dst.codes := dst.codes.(af := FamilyCode(af.value));
    r, dst.src := CopyEndpoint(host, from, dst.src);
    if r.Err? {
      return;
    }
    r, dst.dst := CopyEndpoint(host, to, dst.dst);
  }

  method CopyOwners(text: Text, user: Id, group: Id, dst: PfRule) returns (r: Result<(), Error>)
    requires dst.Valid()
    modifies dst`uid, dst`gid, dst.ruleLabel
    ensures match OwnersOver(text, user, group, old(dst.Value()))
            case Ok(raw) => r == Ok(()) && dst.Value() == raw
            case Err(e) => r == Err(e)
  {
    r := CopyLabel(text, dst.ruleLabel);
    if r.Err? {
      return;
    }
    dst.uid := CopyId(user, dst.uid);
    dst.gid := CopyId(group, dst.gid);
  }

  method CopyPlace(i: Interface, proto: Proto, dst: PfRule) returns (r: Result<(), Error>)
    requires dst.Valid()
    modifies dst`codes, dst.ifname
    ensures match PlaceOver(i, proto, old(dst.Value()))
            case Ok(raw) => r == Ok(()) && dst.Value() == raw
            case Err(e) => r == Err(e)
  {
    r := CopyInterface(i, dst.ifname);
    if r.Err? {
      return;
    }
    dst.codes := dst.codes.(proto := ProtoCode(proto));
  }

  method CopyFilterCodes(rule: FilterRule, dst: PfRule) returns (r: Result<(), Error>)
    modifies dst`codes
    ensures match FilterCodesOver(rule, old(dst.codes))
            case Ok(codes) => r == Ok(()) && dst.codes == codes
            case Err(e) => r == Err(e)
  {
    dst.codes := dst.codes.(action := FilterCode(rule.action));
    dst.codes := dst.codes.(direction := DirectionCode(rule.direction));
    dst.codes := dst.codes.(quick := BoolCode(rule.quick));
    dst.codes := dst.codes.(log := LogByte(rule.log));
    dst.codes := dst.codes.(rt := RouteCode(rule.route));
    var keepState := rule.ValidateStatePolicy();
    if keepState.Err? {
      return Err(keepState.error);
    }
    dst.codes := dst.codes.(keepState := StateCode(keepState.value));
    dst.codes := dst.codes.(flags := TcpByte(rule.check));
    dst.codes := dst.codes.(flagset := TcpByte(rule.mask));
    dst.codes := dst.codes.(ruleFlag := RuleFlags(rule.action));
    r := Ok(());
  }

  method CopyFilterRule(host: Endian, rule: FilterRule, dst: PfRule) returns (r: Result<(), Error>)
    requires dst.Valid()
    modifies dst.Parts()
    ensures match FilterOver(rule, old(dst.Value()))
            case Ok(raw) => r == Ok(()) && dst.Value() == raw
            case Err(e) => r == Err(e)
  {
    r := CopyFilterCodes(rule, dst);
    if r.Err? {
      return;
    }
    r := CopyPlace(rule.interface, rule.proto, dst);
    if r.Err? {
      return;
    }
    r := CopyTraffic(host, rule.GetAf(), rule.from, rule.to, dst);
    if r.Err? {
      return;
    }
    r := CopyOwners(rule.ruleLabel, rule.user, rule.group, dst);
    if r.Err? {
      return;
    }
    CopyIcmp(rule.icmpType, dst);
  }

  /** Both ICMP fields are set one higher; without a type they are left alone. */
  method CopyIcmp(icmp: Option<IcmpType>, dst: PfRule)
    modifies dst`codes
    ensures dst.codes == IcmpOver(icmp, old(dst.codes))
    ensures icmp.None? ==> dst.codes == old(dst.codes)
  {
    if icmp.Some? {
      dst.codes := dst.codes.(icmpType := IcmpRawType(icmp.value) + 1);
      match IcmpRawCode(icmp.value)
      case Some(c) => dst.codes := dst.codes.(icmpCode := c + 1);
      case None => dst.codes := dst.codes.(icmpCode := 0);
    }
  }

  method CopyNatRule(host: Endian, rule: NatRule, dst: PfRule) returns (r: Result<(), Error>)
    requires dst.Valid()
    modifies dst.Parts()
    ensures match NatOver(rule, old(dst.Value()))
            case Ok(raw) => r == Ok(()) && dst.Value() == raw
            case Err(e) => r == Err(e)
  {
    dst.codes := dst.codes.(action := if rule.action.Nat? then PF_NAT else PF_NONAT);
    r := CopyInterface(rule.interface, dst.ifname);
    if r.Err? {
      return;
    }
    r := CopyTraffic(host, rule.GetAf(), rule.from, rule.to, dst);
  }

  method CopyRedirectRule(host: Endian, rule: RedirectRule, dst: PfRule) returns (r: Result<(), Error>)
    requires dst.Valid()
    modifies dst.Parts()
    ensures match RedirectOver(rule, old(dst.Value()))
            case Ok(raw) => r == Ok(()) && dst.Value() == raw
            case Err(e) => r == Err(e)
  {
    dst.codes := dst.codes.(action := if rule.action.Redirect? then PF_RDR else PF_NORDR);
    dst.codes := dst.codes.(direction := DirectionCode(rule.direction));
    dst.codes := dst.codes.(quick := BoolCode(rule.quick));
    dst.codes := dst.codes.(log := LogByte(rule.log));
    r := CopyPlace(rule.interface, rule.proto, dst);
    if r.Err? {
      return;
    }
    r := CopyTraffic(host, rule.GetAf(), rule.from, rule.to, dst);
    if r.Err? {
      return;
    }
    r := CopyOwners(rule.ruleLabel, rule.user, rule.group, dst);
  }

  method CopyScrubRule(rule: ScrubRule, dst: PfRule)
    requires dst.Valid()
    modifies dst`codes
    ensures dst.Value() == ScrubOver(rule, old(dst.Value()))
  {
    dst.codes := dst.codes.(action := if rule.action.Scrub? then PF_SCRUB else PF_NOSCRUB);
    dst.codes := dst.codes.(direction := DirectionCode(rule.direction));
  }
}
