// The C structures and constants of pfvar.h that the library reads and writes, as values.
// A structure holds only the members the library touches; every other member stays zero.
module Ffi {
  import opened Prelude

  const ANCHOR_SIZE: nat := 1024
  const IFNAME_SIZE: nat := 16
  const LABEL_SIZE: nat := 64

  const PF_UNSPEC: byte := 0
  const PF_INET: byte := 2
  const PF_INET6: byte := 30

  const PF_OP_NONE: byte := 0
  const PF_OP_IRG: byte := 1
  const PF_OP_EQ: byte := 2
  const PF_OP_NE: byte := 3
  const PF_OP_LT: byte := 4
  const PF_OP_LE: byte := 5
  const PF_OP_GT: byte := 6
  const PF_OP_GE: byte := 7
  const PF_OP_XRG: byte := 8
  const PF_OP_RRG: byte := 9

  const PF_PASS: byte := 0
  const PF_DROP: byte := 1
  const PF_SCRUB: byte := 2
  const PF_NOSCRUB: byte := 3
  const PF_NAT: byte := 4
  const PF_NONAT: byte := 5
  const PF_RDR: byte := 8
  const PF_NORDR: byte := 9

  const PF_RULESET_SCRUB: int := 0
  const PF_RULESET_FILTER: int := 1
  const PF_RULESET_NAT: int := 2
  const PF_RULESET_RDR: int := 4

  const PF_CHANGE_NONE: u32 := 0
  const PF_CHANGE_ADD_TAIL: u32 := 2
  const PF_CHANGE_GET_TICKET: u32 := 6

  const PF_ADDR_ADDRMASK: byte := 0

  type Octets4 = s: seq<byte> | |s| == 4 witness [0, 0, 0, 0]
  type Octets16 = s: seq<byte> | |s| == 16 witness Zeros(16)
  type IfName = s: seq<byte> | |s| == IFNAME_SIZE witness Zeros(IFNAME_SIZE)
  type LabelText = s: seq<byte> | |s| == LABEL_SIZE witness Zeros(LABEL_SIZE)
  type AnchorName = s: seq<byte> | |s| == ANCHOR_SIZE witness Zeros(ANCHOR_SIZE)
  type Net2 = s: seq<byte> | |s| == 2 witness [0, 0]

  function Zeros(n: nat): (s: seq<byte>)
    ensures |s| == n && forall i :: 0 <= i < n ==> s[i] == 0
  {
    seq(n, i => 0)
  }

  predicate AllZero(s: seq<byte>) {
    forall i :: 0 <= i < |s| ==> s[i] == 0
  }

  /** pf_addr_wrap: an address and a mask, each a union of 16 bytes. */
  datatype AddrWrap = AddrWrap(addr: Octets16, mask: Octets16, kind: byte)

  /** pf_port_range: two ports in network byte order. */
  datatype PortRange = PortRange(port0: Net2, port1: Net2, op: byte)

  /** pf_rule_addr. */
  datatype RuleAddr = RuleAddr(addr: AddrWrap, range: PortRange)

  /** pf_pool without its list: the proxy ports, in host byte order. */
  datatype PoolPorts = PoolPorts(port0: u16, port1: u16, op: byte)

  /** pf_rule_uid and pf_rule_gid. */
  datatype RuleId = RuleId(id0: u32, id1: u32, op: byte)

  /** The one-word members of pf_rule. */
  datatype RuleCodes = RuleCodes(
    ruleFlag: u32, action: byte, direction: byte, log: bv8, quick: byte, keepState: byte, af: byte, proto: byte,
    icmpType: byte, icmpCode: byte, flags: bv8, flagset: bv8, rt: byte)

  /** pf_rule. */
  datatype RawRule = RawRule(
    src: RuleAddr, dst: RuleAddr, ruleLabel: LabelText, ifname: IfName, rpool: PoolPorts,
    uid: RuleId, gid: RuleId, codes: RuleCodes)

  /** pf_pooladdr. */
  datatype RawPoolAddr = RawPoolAddr(addr: AddrWrap, ifname: IfName)

  /** pfsync_state, as far as it is read here: its interface, its first and second external host. */
  datatype SyncState = SyncState(
    anchor: u32, ifname: IfName, lan: Octets16, extLan: Octets16, afLan: byte, proto: byte, protoVariant: byte)

  /** pfioc_state_kill, as far as it is filled in here. */
  datatype StateKill = StateKill(
    af: byte, proto: byte, protoVariant: byte, ifname: IfName, src: Octets16, dst: Octets16)

  /** pfioc_trans_e. */
  datatype TransElement = TransElement(rsNum: int, anchor: AnchorName, ticket: u32)

  /** The name an anchor rule calls; the firewall terminates it. */
  type AnchorCall = b: AnchorName | 0 in b witness [0] + Zeros(ANCHOR_SIZE - 1)

  /** A rule as the firewall holds it: its structure and the address pool it was given. An anchor
      rule also has the name of the anchor it calls. */
  datatype Installed =
    | Installed(rule: RawRule, pool: seq<RawPoolAddr>)
    | AnchorRule(rule: RawRule, pool: seq<RawPoolAddr>, call: AnchorCall)

  const ZERO_WRAP := AddrWrap(Zeros(16), Zeros(16), 0)
  const ZERO_RANGE := PortRange([0, 0], [0, 0], 0)
  const ZERO_ADDR := RuleAddr(ZERO_WRAP, ZERO_RANGE)
  const ZERO_PORTS := PoolPorts(0, 0, 0)
  const ZERO_ID := RuleId(0, 0, 0)
  const ZERO_CODES := RuleCodes(0, 0, 0, 0, 0, 0, 0, 0, 0, 0, 0, 0, 0)
  const ZERO_RULE := RawRule(
    ZERO_ADDR, ZERO_ADDR, Zeros(LABEL_SIZE), Zeros(IFNAME_SIZE), ZERO_PORTS, ZERO_ID, ZERO_ID, ZERO_CODES)
  const ZERO_STATE := SyncState(0, Zeros(IFNAME_SIZE), Zeros(16), Zeros(16), 0, 0, 0)
  const ZERO_KILL := StateKill(0, 0, 0, Zeros(IFNAME_SIZE), Zeros(16), Zeros(16))
  const ZERO_POOL_ADDR := RawPoolAddr(ZERO_WRAP, Zeros(IFNAME_SIZE))

  /** The ruleset a rule belongs to, which the firewall derives from the rule's action. */
  function RulesetOfAction(action: byte): int {
    if action == PF_SCRUB || action == PF_NOSCRUB then PF_RULESET_SCRUB
    else if action == PF_PASS || action == PF_DROP then PF_RULESET_FILTER
    else if action == PF_NAT || action == PF_NONAT then PF_RULESET_NAT
    else if action == PF_RDR || action == PF_NORDR then PF_RULESET_RDR
    else -1
  }
}
