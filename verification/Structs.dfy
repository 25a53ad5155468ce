// The request structures the library zeroes, fills in member by member and hands to an ioctl.
// Text buffers are arrays; embedded structures are members holding a value.
module Structs {
  import opened Prelude
  import opened Ffi

  /** pf_rule. */
  class PfRule {
    var src: RuleAddr
    var dst: RuleAddr
    const ruleLabel: array<byte>
    const ifname: array<byte>
    var rpool: PoolPorts
    var uid: RuleId
    var gid: RuleId
    var codes: RuleCodes

    constructor ()
      ensures Valid() && fresh(Parts()) && Value() == ZERO_RULE
    {
      src, dst, rpool, uid, gid, codes := ZERO_ADDR, ZERO_ADDR, ZERO_PORTS, ZERO_ID, ZERO_ID, ZERO_CODES;
      ruleLabel := new byte[LABEL_SIZE](i => 0);
      ifname := new byte[IFNAME_SIZE](i => 0);
      new;
      assert ruleLabel[..] == Zeros(LABEL_SIZE) && ifname[..] == Zeros(IFNAME_SIZE);
    }

    ghost predicate Valid() {
      ruleLabel.Length == LABEL_SIZE && ifname.Length == IFNAME_SIZE && ruleLabel != ifname
    }

    ghost function Parts(): set<object> {
      {this, ruleLabel, ifname}
    }

    function Value(): RawRule
      requires Valid()
      reads this, ruleLabel, ifname
    {
      RawRule(src, dst, ruleLabel[..], ifname[..], rpool, uid, gid, codes)
    }
  }

  /** pfioc_rule. */
  class PfiocRule {
    var change: u32
    var ticket: u32
    var poolTicket: u32
    var nr: nat
    const anchor: array<byte>
    const anchorCall: array<byte>
    const rule: PfRule

    constructor ()
      ensures Valid() && fresh(Parts())
      ensures change == 0 && ticket == 0 && poolTicket == 0 && nr == 0
      ensures anchor[..] == Zeros(ANCHOR_SIZE) && anchorCall[..] == Zeros(ANCHOR_SIZE) && rule.Value() == ZERO_RULE
    {
      change, ticket, poolTicket, nr := 0, 0, 0, 0;
      anchor := new byte[ANCHOR_SIZE](i => 0);
      anchorCall := new byte[ANCHOR_SIZE](i => 0);
      rule := new PfRule();
      new;
      assert anchor[..] == Zeros(ANCHOR_SIZE) && anchorCall[..] == Zeros(ANCHOR_SIZE);
    }

    ghost predicate Valid() {
      && rule.Valid() && anchor.Length == ANCHOR_SIZE && anchorCall.Length == ANCHOR_SIZE && anchor != anchorCall
      && anchor != rule.ruleLabel && anchor != rule.ifname
      && anchorCall != rule.ruleLabel && anchorCall != rule.ifname
    }

    ghost function Parts(): set<object> {
      {this, anchor, anchorCall, rule, rule.ruleLabel, rule.ifname}
    }
  }
}
