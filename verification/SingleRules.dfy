// Adding rules one at a time to an active ruleset, and how that compares with a transaction.
module SingleRules {
  import opened Prelude
  import opened Ffi
  import opened CStrings
  import opened Rules
  import opened Encoding
  import opened PfKernel
  import opened CommitSpec
  import opened CommitProofs
  import opened CommitTheorems
  import opened CommitTrace
  import opened Decoding
  import opened Device

  // ---- The ioctls of a single add ----

  /** The change that appends a rule. */
  function Append(name: AnchorName, ticket: u32, poolTicket: u32, raw: RawRule, w: World): (Result<(), Error>, World) {
    var (c, v) := DiocChangeRule(PF_CHANGE_ADD_TAIL, name, ticket, poolTicket, raw, w);
    (if c.Ok? then Ok(()) else Err(c.error), v)
  }

  /** Filter and scrub rules: both tickets first, then the rule; no address is ever registered. */
  function AddPlain(anchor: Text, rule: Rule, w: World): (Result<(), Error>, World) {
    var (p, w1) := DiocBeginAddrs(w);
    if p.Err? then (Err(p.error), w1)
    else
      var (t, w2) := TicketOf(anchor, rule.Kind(), w1);
      if t.Err? then (Err(t.error), w2)
      else
        match AnchorOver(anchor, Zeros(ANCHOR_SIZE))
        case Err(e) => (Err(e), w2)
        case Ok(name) =>
          match RuleOver(rule, ZERO_RULE)
          case Err(e) => (Err(e), w2)
          case Ok(raw) => Append(name, t.value, p.value, raw, w2)
  }

  /** NAT and redirect rules, once encoded: the pool, its address and port, then the ticket. */
  function AppendPooled(
    anchor: Text, kind: RulesetKind, name: AnchorName, raw: RawRule, pool: Option<PoolAddr>, port: Option<Port>,
    w: World)
    : (Result<(), Error>, World)
  {
    var (p, w1) := DiocBeginAddrs(w);
    if p.Err? then (Err(p.error), w1)
    else
      var (a, w2) := RegisterPool(pool, p.value, w1);
      if a.Err? then (a, w2)
      else
        match PoolPortOver(port, raw)
        case Err(e) => (Err(e), w2)
        case Ok(raw') =>
          var (t, w3) := TicketOf(anchor, kind, w2);
          if t.Err? then (Err(t.error), w3) else Append(name, t.value, p.value, raw', w3)
  }

  function AddPooled(anchor: Text, rule: Rule, w: World): (Result<(), Error>, World) {
    match AnchorOver(anchor, Zeros(ANCHOR_SIZE))
    case Err(e) => (Err(e), w)
    case Ok(name) =>
      match RuleOver(rule, ZERO_RULE)
      case Err(e) => (Err(e), w)
      case Ok(raw) => AppendPooled(anchor, rule.Kind(), name, raw, PoolAddrOf(rule), PoolPortOf(rule), w)
  }

  function AddSingle(anchor: Text, rule: Rule, w: World): (Result<(), Error>, World) {
    if rule.FilterOf? || rule.ScrubOf? then AddPlain(anchor, rule, w) else AddPooled(anchor, rule, w)
  }

  /** Adds the rules from number `j` on until one fails; also says how far it came. */
  function AddAll(anchor: Text, rules: seq<Rule>, j: nat, w: World): (Result<(), Error>, nat, World)
    requires j <= |rules|
    decreases |rules| - j
  {
    if j == |rules| then (Ok(()), j, w)
    else
      var (r, v) := AddSingle(anchor, rules[j], w);
      if r.Err? then (r, j, v) else AddAll(anchor, rules, j + 1, v)
  }

  // ---- What a single add installs ----

  /** A filter rule goes in without a pool, whatever its route. */
  function SingleForm(rule: Rule): Result<Installed, Error> {
    if rule.FilterOf? then
      var raw :- RuleOver(rule, ZERO_RULE);
      Ok(Installed(raw, []))
    else InstalledForm(rule)
  }

  predicate Unrouted(rule: Rule) {
    rule.FilterOf? ==> rule.f.route.NoRoute?
  }

  lemma UnroutedForm(rule: Rule)
    requires Unrouted(rule)
    ensures SingleForm(rule) == InstalledForm(rule)
  {
  }

  /** A rule that encodes is installed alike by both paths exactly if it is not routed. */
  lemma PathsDifferByRoute(rule: Rule)
    requires SingleForm(rule).Ok?
    ensures SingleForm(rule) == InstalledForm(rule) <==> Unrouted(rule)
  {
    hide RuleOver, PoolAddrOver;
    if !Unrouted(rule) {
      assert PoolEncoded(PoolAddrOf(rule)).Ok? ==> |PoolEncoded(PoolAddrOf(rule)).value| == 1;
    }
  }

  /** The same route to anywhere. */
  function Rerouted(r: Route): Route {
    var anywhere := PoolAddr(Interface.Any, Ip.Any);
    match r
    case NoRoute => Route.NoRoute
    case RouteTo(_) => Route.RouteTo(anywhere)
    case ReplyTo(_) => Route.ReplyTo(anywhere)
    case DupTo(_) => Route.DupTo(anywhere)
  }

  /** A routed rule added singly has the structure of the rule, whatever its route, and no pool. */
  lemma SingleFormIsEncoding(f: FilterRule)
    requires RuleObjection(FilterOf(f)).None?
    ensures var rerouted := FilterOf(f.(route := Rerouted(f.route)));
            && Acceptable(rerouted) && InstalledForm(rerouted).Ok?
            && SingleForm(FilterOf(f)) == Ok(Installed(InstalledForm(rerouted).value.rule, []))
  {
    var g := f.(route := Rerouted(f.route));
    RuleErrors(FilterOf(f), ZERO_RULE);
    assert RuleObjection(FilterOf(g)).None?;
    ObjectionsAreExact(FilterOf(g));
    AcceptanceIsExact(FilterOf(g));
    RouteIsItsKind(f, g, ZERO_RULE);
  }

  lemma RouteIsItsKind(f: FilterRule, g: FilterRule, dst: RawRule)
    requires g == f.(route := Rerouted(f.route))
    ensures FilterOver(f, dst) == FilterOver(g, dst)
  {
    hide TrafficOver, PlaceOver, OwnersOver, IcmpOver;
  }

  /** Only one ruleset differs, and it has got longer. */
  ghost predicate Extended(key: Key, added: seq<Installed>, w: World, w': World) {
    && (Steady(key, w.plan) ==> w'.ActiveOf(key) == w.ActiveOf(key) + added)
    && (forall other :: other != key && Steady(other, w.plan) ==> w'.ActiveOf(other) == w.ActiveOf(other))
  }

  /** The next `n` calls were served, and this is left of the plan. */
  predicate Took(plan: seq<Turn>, n: nat, rest: seq<Turn>) {
    Served(plan, n) && rest == RestOf(plan, n)
  }

  lemma TookMore(plan: seq<Turn>, m: nat, rest: seq<Turn>, n: nat)
    requires Took(plan, m, rest)
    ensures Served(plan, m + n) <==> Served(rest, n)
    ensures forall last :: Took(rest, n, last) ==> Took(plan, m + n, last)
  {
    ServedSplit(plan, m, n);
  }

  lemma ServedLess(plan: seq<Turn>, m: nat, n: nat)
    requires m <= n && Served(plan, n)
    ensures Served(plan, m)
  {
  }

  /** What a single add of `n` calls does to the rulesets and the plan. */
  ghost predicate Appended(
    key: Key, form: Result<Installed, Error>, fits: bool, n: nat, r: Result<(), Error>, w: World, w': World)
  {
    && Later(w.plan, w'.plan)
    && (r.Ok? <==> fits && form.Ok? && Served(w.plan, n))
    && (r.Ok? ==>
          && Took(w.plan, n, w'.plan) && Extended(key, [form.value], w, w')
          && w'.ActiveOf(key) != [] && w'.ActiveOf(key)[|w'.ActiveOf(key)| - 1] == form.value)
    && (r.Err? ==> Unchanged(w, w'))
  }

  function PoolCalls(pool: Option<PoolAddr>): nat {
    if pool.Some? then 1 else 0
  }

  /** A call that ended with this result and left this plan. */
  predicate PopsTo<T>(plan: seq<Turn>, r: Result<T, Error>, rest: seq<Turn>) {
    && rest == Pop(plan).1
    && if r.Ok? then Pop(plan).0.Ok? else Pop(plan).0 == Err(r.error)
  }

  lemma PoolCalm(pool: Option<PoolAddr>, w: World)
    ensures var (p, v) := DiocBeginAddrs(w);
            && Quiet(w, v) && (p.Ok? <==> Served(w.plan, 1))
            && PopsTo(w.plan, p, v.plan)
            && (p.Ok? ==>
                  && Took(w.plan, 1, v.plan) && v.scratch.pool == [] && v.scratch.poolTicket == p.value
                  && var (a, u) := RegisterPool(pool, p.value, v);
                     && Quiet(v, u)
                     && (a, u.plan) == PoolVerdict(pool.Some?, ErrorOf(PoolEncoded(pool)), v.plan)
                     && (a.Ok? <==> PoolEncoded(pool).Ok? && Served(v.plan, PoolCalls(pool)))
                     && (a.Ok? ==>
                           && Took(v.plan, PoolCalls(pool), u.plan)
                           && PoolEncoded(pool) == Ok(u.scratch.pool) && u.scratch.poolTicket == p.value))
  {
    hide DiocBeginAddrs, RegisterPool, WrapOver, InterfaceOver, Quiet, Pop, Served, RestOf;
    PoolBegun(w);
    PopServes(w.plan);
    var (p, v) := DiocBeginAddrs(w);
    if p.Ok? {
      PoolFilled(pool, v);
      PopServes(v.plan);
      DropNothing(v.plan);
    }
  }

  lemma TicketCalm(anchor: Text, kind: RulesetKind, w: World)
    ensures var (t, v) := TicketOf(anchor, kind, w);
            && Quiet(w, v)
            && (t.Ok? <==> Fits(anchor, ANCHOR_SIZE) && Served(w.plan, 1))
            && (match NameObjection(anchor)
                case Some(e) => t == Err(e) && v.plan == w.plan
                case None => PopsTo(w.plan, t, v.plan))
            && (t.Ok? ==>
                  && Took(w.plan, 1, v.plan)
                  && v.scratch.pool == w.scratch.pool && v.scratch.poolTicket == w.scratch.poolTicket
                  && v.scratch.ActiveTicket(Key(anchor, RulesetOf(kind))) == t.value)
  {
    hide AnchorOver, NameOf, Padded;
    NameErrors(anchor);
    if Fits(anchor, ANCHOR_SIZE) {
      AnchorNameReadBack(anchor);
    }
  }

  /** Under the right tickets the rule and the waiting pool are appended together. */
  lemma AppendInstalls(anchor: Text, kind: RulesetKind, name: AnchorName, raw: RawRule, ticket: u32, w: World)
    requires Fits(anchor, ANCHOR_SIZE) && Ok(name) == AnchorOver(anchor, Zeros(ANCHOR_SIZE))
    requires RulesetOfAction(raw.codes.action) == RulesetOf(kind)
    requires w.scratch.ActiveTicket(Key(anchor, RulesetOf(kind))) == ticket
    ensures var key := Key(anchor, RulesetOf(kind));
            var (r, v) := Append(name, ticket, w.scratch.poolTicket, raw, w);
            Appended(key, Ok(Installed(raw, w.scratch.pool)), true, 1, r, w, v) && (r, v.plan) == Pop(w.plan)
  {
    hide RulesetOf, RulesetOfAction, AnchorOver, NameOf;
    AnchorNameReadBack(anchor);
    assert RuleKey(name, raw) == Key(anchor, RulesetOf(kind));
  }

  /** A single add seen from `m` calls before, in which nothing happened to the rulesets. */
  lemma AppendedAfter(
    key: Key, form: Result<Installed, Error>, fits: bool, m: nat, n: nat, r: Result<(), Error>,
    w: World, u: World, v: World)
    requires Quiet(w, u) && Took(w.plan, m, u.plan) && Appended(key, form, fits, n, r, u, v)
    ensures Appended(key, form, fits, m + n, r, w, v)
  {
    hide Served, RestOf;
    LaterTransitive(w.plan, u.plan, v.plan);
    LaterKeeps(w.plan, u.plan);
    TookMore(w.plan, m, u.plan, n);
  }

  /** A single add that stopped before its rule was handed over. */
  lemma StoppedBefore(
    key: Key, form: Result<Installed, Error>, fits: bool, n: nat, r: Result<(), Error>, w: World, v: World)
    requires Quiet(w, v) && r.Err? && (!fits || form.Err? || !Served(w.plan, n))
    ensures Appended(key, form, fits, n, r, w, v)
  {
    hide Served, RestOf;
    QuietKeepsRulesets(w, v);
  }

  /** The ioctls that a single add takes. */
  function SingleCalls(rule: Rule): nat {
    if rule.FilterOf? || rule.ScrubOf? then 3 else 3 + PoolCalls(PoolAddrOf(rule))
  }

  /** What a single add that returned `r` has done. */
  ghost predicate Singly(anchor: Text, rule: Rule, r: Result<(), Error>, w: World, w': World) {
    Appended(
      Key(anchor, RulesetOf(rule.Kind())), SingleForm(rule), Fits(anchor, ANCHOR_SIZE), SingleCalls(rule), r, w, w')
  }

  lemma PlainAppends(anchor: Text, rule: Rule, w: World)
    requires rule.FilterOf? || rule.ScrubOf?
    ensures var (r, v) := AddPlain(anchor, rule, w); Singly(anchor, rule, r, w, v)
  {
    hide RuleOver, DiocBeginAddrs, TicketOf, Append, RegisterPool, RulesetOf, RulesetOfAction, SingleForm;
    hide Quiet, Appended, Served, Took;
    var key, fits, form := Key(anchor, RulesetOf(rule.Kind())), Fits(anchor, ANCHOR_SIZE), SingleForm(rule);
    var (r, v) := AddPlain(anchor, rule, w);
    var (p, w1) := DiocBeginAddrs(w);
    PoolCalm(None, w);
    SingleFormPlain(rule);
    if Served(w.plan, 3) {
      ServedLess(w.plan, 1, 3);
      ServedLess(w.plan, 2, 3);
    }
    if p.Err? {
      StoppedBefore(key, form, fits, 3, r, w, v);
    } else {
      var (t, w2) := TicketOf(anchor, rule.Kind(), w1);
      TicketCalm(anchor, rule.Kind(), w1);
      QuietTransitive(w, w1, w2);
      TookMore(w.plan, 1, w1.plan, 1);
      if t.Err? || RuleOver(rule, ZERO_RULE).Err? {
        StoppedBefore(key, form, fits, 3, r, w, v);
      } else {
        var raw := RuleOver(rule, ZERO_RULE).value;
        EncodedKind(rule);
        AppendInstalls(anchor, rule.Kind(), AnchorOver(anchor, Zeros(ANCHOR_SIZE)).value, raw, t.value, w2);
        AppendedAfter(key, form, fits, 2, 1, r, w, w2, v);
      }
    }
  }

  lemma SingleFormPlain(rule: Rule)
    requires rule.FilterOf? || rule.ScrubOf?
    ensures match RuleOver(rule, ZERO_RULE)
            case Ok(raw) => SingleForm(rule) == Ok(Installed(raw, []))
            case Err(e) => SingleForm(rule) == Err(e)
  {
    hide FilterOver, ScrubOver;
  }

  lemma PooledAppends(anchor: Text, rule: Rule, w: World)
    requires rule.NatOf? || rule.RedirectOf?
    ensures var (r, v) := AddPooled(anchor, rule, w); Singly(anchor, rule, r, w, v)
  {
    hide AppendPooled, Appended, SingleForm, Quiet;
    var key, fits := Key(anchor, RulesetOf(rule.Kind())), Fits(anchor, ANCHOR_SIZE);
    var (r, v) := AddPooled(anchor, rule, w);
    SingleFormPooled(rule);
    if fits && RuleOver(rule, ZERO_RULE).Ok? {
      EncodedKind(rule);
      EncodedAppends(
        anchor, rule.Kind(), AnchorOver(anchor, Zeros(ANCHOR_SIZE)).value, RuleOver(rule, ZERO_RULE).value,
        PoolAddrOf(rule), PoolPortOf(rule), w);
    } else {
      QuietReflexive(w);
      StoppedBefore(key, SingleForm(rule), fits, SingleCalls(rule), r, w, v);
    }
  }

  /** What an encoded rule becomes with its pool. */
  function FormWith(raw: RawRule, pool: Option<PoolAddr>, port: Option<Port>): Result<Installed, Error> {
    var addrs :- PoolEncoded(pool);
    var raw' :- PoolPortOver(port, raw);
    Ok(Installed(raw', addrs))
  }

  lemma SingleFormPooled(rule: Rule)
    requires rule.NatOf? || rule.RedirectOf?
    ensures match RuleOver(rule, ZERO_RULE)
            case Ok(raw) => SingleForm(rule) == FormWith(raw, PoolAddrOf(rule), PoolPortOf(rule))
            case Err(e) => SingleForm(rule) == Err(e)
  {
    hide NatOver, RedirectOver, PoolEncoded, PoolPortOver;
  }

  lemma EncodedAppends(
    anchor: Text, kind: RulesetKind, name: AnchorName, raw: RawRule, pool: Option<PoolAddr>, port: Option<Port>,
    w: World)
    requires Fits(anchor, ANCHOR_SIZE) && Ok(name) == AnchorOver(anchor, Zeros(ANCHOR_SIZE))
    requires RulesetOfAction(raw.codes.action) == RulesetOf(kind)
    ensures var (r, v) := AppendPooled(anchor, kind, name, raw, pool, port, w);
            Appended(Key(anchor, RulesetOf(kind)), FormWith(raw, pool, port), true, 3 + PoolCalls(pool), r, w, v)
  {
    hide DiocBeginAddrs, RegisterPool, PoolEncoded, PoolPortOver, TicketOf, Append, RulesetOf, RulesetOfAction;
    hide Quiet, Appended, Served, Took, PoolCalls;
    var key, form, k := Key(anchor, RulesetOf(kind)), FormWith(raw, pool, port), PoolCalls(pool);
    var (r, v) := AppendPooled(anchor, kind, name, raw, pool, port, w);
    var (p, w1) := DiocBeginAddrs(w);
    PoolCalm(pool, w);
    if Served(w.plan, 3 + k) {
      ServedLess(w.plan, 1, 3 + k);
      ServedLess(w.plan, 1 + k, 3 + k);
      ServedLess(w.plan, 1 + k + 1, 3 + k);
    }
    if p.Err? {
      StoppedBefore(key, form, true, 3 + k, r, w, v);
    } else {
      var (a, w2) := RegisterPool(pool, p.value, w1);
      QuietTransitive(w, w1, w2);
      TookMore(w.plan, 1, w1.plan, k);
      if a.Err? || PoolPortOver(port, raw).Err? {
        StoppedBefore(key, form, true, 3 + k, r, w, v);
      } else {
        var raw' := PoolPortOver(port, raw).value;
        PortKeepsAction(port, raw);
        var (t, w3) := TicketOf(anchor, kind, w2);
        TicketCalm(anchor, kind, w2);
        QuietTransitive(w, w2, w3);
        TookMore(w.plan, 1 + k, w2.plan, 1);
        if t.Err? {
          StoppedBefore(key, form, true, 3 + k, r, w, v);
        } else {
          AppendInstalls(anchor, kind, name, raw', t.value, w3);
          AppendedAfter(key, form, true, 1 + k + 1, 1, r, w, w3, v);
        }
      }
    }
  }

  lemma PortKeepsAction(port: Option<Port>, raw: RawRule)
    ensures PoolPortOver(port, raw).Ok? ==> PoolPortOver(port, raw).value.codes == raw.codes
  {
  }

  /**
   * A single add succeeds if and only if its name fits, its rule encodes and none of its calls is
   * refused; then it appends exactly the rule, and otherwise it changes nothing.
   */
  lemma SingleAppends(anchor: Text, rule: Rule, w: World)
    ensures var (r, v) := AddSingle(anchor, rule, w); Singly(anchor, rule, r, w, v)
  {
    hide AddPlain, AddPooled, Singly;
    if rule.FilterOf? || rule.ScrubOf? {
      PlainAppends(anchor, rule, w);
    } else {
      PooledAppends(anchor, rule, w);
    }
  }

  // ---- The verdict on a single add, without the firewall and without C structures ----

  /** Pool ticket, name, ticket, rule, append; or name, rule, pool ticket, address, port, ticket, append. */
  function SingleVerdict(anchor: Text, rule: Rule, plan: seq<Turn>): (Result<(), Error>, seq<Turn>) {
    if rule.FilterOf? || rule.ScrubOf? then PlainVerdict(anchor, rule, plan) else PooledVerdict(anchor, rule, plan)
  }

  function PlainVerdict(anchor: Text, rule: Rule, plan: seq<Turn>): (Result<(), Error>, seq<Turn>) {
    var (p, p1) := Pop(plan);
    if p.Err? then (p, p1)
    else
      match NameObjection(anchor)
      case Some(e) => (Err(e), p1)
      case None =>
        var (t, p2) := Pop(p1);
        if t.Err? then (t, p2)
        else
          match RuleObjection(rule)
          case Some(e) => (Err(e), p2)
          case None => Pop(p2)
  }

  function PooledVerdict(anchor: Text, rule: Rule, plan: seq<Turn>): (Result<(), Error>, seq<Turn>) {
    match First(NameObjection(anchor), RuleObjection(rule))
    case Some(e) => (Err(e), plan)
    case None =>
      var (p, p1) := Pop(plan);
      if p.Err? then (p, p1)
      else
        var (a, p2) := PoolVerdict(WantsPool(rule), PoolObjection(rule), p1);
        if a.Err? then (a, p2)
        else
          match PoolPortObjection(rule)
          case Some(e) => (Err(e), p2)
          case None =>
            var (t, p3) := Pop(p2);
            if t.Err? then (t, p3) else Pop(p3)
  }

  lemma PlainIsJudged(anchor: Text, rule: Rule, w: World)
    requires rule.FilterOf? || rule.ScrubOf?
    ensures var (r, v) := AddPlain(anchor, rule, w); (r, v.plan) == PlainVerdict(anchor, rule, w.plan)
  {
    hide RuleOver, RuleObjection, DiocBeginAddrs, TicketOf, Append, RegisterPool, RulesetOf, RulesetOfAction;
    hide NameObjection, AnchorOver, Pop, Quiet, Appended, Served, Took;
    var (p, w1) := DiocBeginAddrs(w);
    PoolCalm(None, w);
    RuleErrors(rule, ZERO_RULE);
    if p.Ok? {
      var (t, w2) := TicketOf(anchor, rule.Kind(), w1);
      TicketCalm(anchor, rule.Kind(), w1);
      NameErrors(anchor);
      if t.Ok? && RuleOver(rule, ZERO_RULE).Ok? {
        var raw := RuleOver(rule, ZERO_RULE).value;
        EncodedKind(rule);
        AppendInstalls(anchor, rule.Kind(), AnchorOver(anchor, Zeros(ANCHOR_SIZE)).value, raw, t.value, w2);
      }
    }
  }

  lemma PooledIsJudged(anchor: Text, rule: Rule, w: World)
    requires rule.NatOf? || rule.RedirectOf?
    ensures var (r, v) := AddPooled(anchor, rule, w); (r, v.plan) == PooledVerdict(anchor, rule, w.plan)
  {
    hide RuleOver, RuleObjection, PoolObjection, PoolPortObjection, WantsPool, PoolAddrOf, PoolPortOf, PoolPortOver;
    hide DiocBeginAddrs, TicketOf, Append, RegisterPool, PoolEncoded, RulesetOf, RulesetOfAction;
    hide NameObjection, AnchorOver, Pop, PoolVerdict, Quiet, Appended, Served, Took;
    NameErrors(anchor);
    RuleErrors(rule, ZERO_RULE);
    PoolErrors(rule);
    if Fits(anchor, ANCHOR_SIZE) && RuleOver(rule, ZERO_RULE).Ok? {
      var raw, pool, port := RuleOver(rule, ZERO_RULE).value, PoolAddrOf(rule), PoolPortOf(rule);
      PoolPortErrors(rule, raw);
      var (p, w1) := DiocBeginAddrs(w);
      PoolCalm(pool, w);
      if p.Ok? {
        var (a, w2) := RegisterPool(pool, p.value, w1);
        if a.Ok? && PoolPortOver(port, raw).Ok? {
          var raw' := PoolPortOver(port, raw).value;
          PortKeepsAction(port, raw);
          EncodedKind(rule);
          var (t, w3) := TicketOf(anchor, rule.Kind(), w2);
          TicketCalm(anchor, rule.Kind(), w2);
          if t.Ok? {
            AppendInstalls(anchor, rule.Kind(), AnchorOver(anchor, Zeros(ANCHOR_SIZE)).value, raw', t.value, w3);
          }
        }
      }
    }
  }

  /** A single add returns the verdict: the first name, rule or refusal in its way decides. */
  lemma SingleIsJudged(anchor: Text, rule: Rule, w: World)
    ensures var (r, v) := AddSingle(anchor, rule, w); (r, v.plan) == SingleVerdict(anchor, rule, w.plan)
  {
    hide AddPlain, AddPooled, PlainVerdict, PooledVerdict;
    if rule.FilterOf? || rule.ScrubOf? {
      PlainIsJudged(anchor, rule, w);
    } else {
      PooledIsJudged(anchor, rule, w);
    }
  }

  // ---- The calls of a single add ----

  /** A request for the ticket of an active ruleset. */
  predicate AsksTicket(e: Event, name: AnchorName, kind: RulesetKind) {
    && e.call.ChangeRule? && e.call.change == 6 && e.call.anchor == name
    && e.call.ticket == 0 && e.call.poolTicket == 0 && Bare(e.call.rule, kind)
    && e.reply.Ticket?
  }

  /** A pool and its address if there is one, the ticket, and the rule at the tail under both tickets. */
  predicate AddsSingly(events: seq<Event>, anchor: Text, kind: RulesetKind, form: Installed) {
    && Fits(anchor, ANCHOR_SIZE)
    && var (n, name) := (|events|, Padded(anchor, ANCHOR_SIZE));
       && n == 3 + |form.pool| && |form.pool| <= 1
       && events[0].call == BeginAddrs && events[0].reply.Ticket?
       && var p := events[0].reply.ticket;
          && (form.pool != [] ==> events[1] == Event(AddAddr(p, form.pool[0]), Done))
          && AsksTicket(events[n - 2], name, kind)
          && events[n - 1] == Event(ChangeRule(2, name, events[n - 2].reply.ticket, p, form.rule), Done)
  }

  lemma BeginEvent(w: World)
    ensures var (p, v) := DiocBeginAddrs(w);
            p.Ok? ==> v.trace == w.trace + [Event(BeginAddrs, Ticket(p.value))]
  {
  }

  lemma AddressEvent(pool: Option<PoolAddr>, ticket: u32, w: World)
    ensures var (a, v) := RegisterPool(pool, ticket, w);
            a.Ok? ==>
              && PoolEncoded(pool).Ok? && |PoolEncoded(pool).value| == PoolCalls(pool)
              && v.trace == w.trace + if pool.None? then []
                                      else [Event(AddAddr(ticket, PoolEncoded(pool).value[0]), Done)]
  {
    hide WrapOver, InterfaceOver;
  }

  lemma TicketEvent(anchor: Text, kind: RulesetKind, w: World) returns (e: Event)
    ensures var (t, v) := TicketOf(anchor, kind, w);
            t.Ok? ==>
              && v.trace == w.trace + [e] && e.reply == Ticket(t.value)
              && Fits(anchor, ANCHOR_SIZE) && AsksTicket(e, Padded(anchor, ANCHOR_SIZE), kind)
  {
    hide AnchorOver, Padded, RulesetOfAction;
    e := Event(BeginAddrs, Done);
    var (t, v) := TicketOf(anchor, kind, w);
    if t.Ok? {
      AnchorNameReadBack(anchor);
      e := v.trace[|w.trace|];
    }
  }

  lemma TailEvent(name: AnchorName, ticket: u32, poolTicket: u32, raw: RawRule, w: World)
    ensures var (r, v) := Append(name, ticket, poolTicket, raw, w);
            r.Ok? ==> v.trace == w.trace + [Event(ChangeRule(2, name, ticket, poolTicket, raw), Done)]
  {
    hide RulesetOfAction, NameOf;
  }

  lemma PlainTraced(anchor: Text, rule: Rule, w: World)
    requires rule.FilterOf? || rule.ScrubOf?
    ensures var (r, v) := AddPlain(anchor, rule, w);
            r.Ok? ==>
              && w.trace <= v.trace && SingleForm(rule).Ok?
              && AddsSingly(NewEvents(w, v), anchor, rule.Kind(), SingleForm(rule).value)
  {
    hide RuleOver, DiocBeginAddrs, TicketOf, Append, AnchorOver, Padded, AsksTicket, SingleForm, NewEvents;
    var (r, v) := AddPlain(anchor, rule, w);
    SingleFormPlain(rule);
    if r.Ok? {
      var (p, w1) := DiocBeginAddrs(w);
      var (t, w2) := TicketOf(anchor, rule.Kind(), w1);
      var name, raw := AnchorOver(anchor, Zeros(ANCHOR_SIZE)).value, RuleOver(rule, ZERO_RULE).value;
      BeginEvent(w);
      var e := TicketEvent(anchor, rule.Kind(), w1);
      AnchorNameReadBack(anchor);
      TailEvent(name, t.value, p.value, raw, w2);
      EventsAre(
        w, v, [Event(BeginAddrs, Ticket(p.value)), e, Event(ChangeRule(2, name, t.value, p.value, raw), Done)]);
    }
  }

  lemma EventsAre(w: World, v: World, events: seq<Event>)
    requires v.trace == w.trace + events
    ensures w.trace <= v.trace && NewEvents(w, v) == events
  {
  }

  lemma PooledTraced(anchor: Text, rule: Rule, w: World)
    requires rule.NatOf? || rule.RedirectOf?
    ensures var (r, v) := AddPooled(anchor, rule, w);
            r.Ok? ==>
              && w.trace <= v.trace && SingleForm(rule).Ok?
              && AddsSingly(NewEvents(w, v), anchor, rule.Kind(), SingleForm(rule).value)
  {
    hide RuleOver, PoolAddrOf, PoolPortOf, PoolPortOver, PoolEncoded, DiocBeginAddrs, RegisterPool, TicketOf, Append;
    hide AnchorOver, Padded, AsksTicket, SingleForm, NewEvents;
    var (r, v) := AddPooled(anchor, rule, w);
    SingleFormPooled(rule);
    if r.Ok? {
      var pool, port := PoolAddrOf(rule), PoolPortOf(rule);
      var name, raw := AnchorOver(anchor, Zeros(ANCHOR_SIZE)).value, RuleOver(rule, ZERO_RULE).value;
      var (p, w1) := DiocBeginAddrs(w);
      var (a, w2) := RegisterPool(pool, p.value, w1);
      var raw' := PoolPortOver(port, raw).value;
      var (t, w3) := TicketOf(anchor, rule.Kind(), w2);
      BeginEvent(w);
      AddressEvent(pool, p.value, w1);
      var e := TicketEvent(anchor, rule.Kind(), w2);
      AnchorNameReadBack(anchor);
      TailEvent(name, t.value, p.value, raw', w3);
      var addrs := PoolEncoded(pool).value;
      var added := if pool.None? then [] else [Event(AddAddr(p.value, addrs[0]), Done)];
      var first, last := [Event(BeginAddrs, Ticket(p.value))], Event(ChangeRule(2, name, t.value, p.value, raw'), Done);
      EventsAre(w, v, first + added + [e] + [last]);
    }
  }

  /** A single add that succeeds makes exactly these calls; its request for a ticket carries nothing but
      the anchor and the kind. */
  lemma SingleTraced(anchor: Text, rule: Rule, w: World)
    ensures var (r, v) := AddSingle(anchor, rule, w);
            r.Ok? ==>
              && w.trace <= v.trace && SingleForm(rule).Ok?
              && AddsSingly(NewEvents(w, v), anchor, rule.Kind(), SingleForm(rule).value)
  {
    hide AddPlain, AddPooled, SingleForm, AddsSingly;
    if rule.FilterOf? || rule.ScrubOf? {
      PlainTraced(anchor, rule, w);
    } else {
      PooledTraced(anchor, rule, w);
    }
  }

  // ---- Many single adds ----

  /** These installed rules are what adding these rules one by one leaves. */
  predicate HoldsSingly(added: seq<Installed>, rules: seq<Rule>) {
    |added| == |rules| && forall k :: 0 <= k < |rules| ==> SingleForm(rules[k]) == Ok(added[k])
  }

  lemma HoldsSinglyMore(form: Installed, rest: seq<Installed>, rules: seq<Rule>, j: nat, n: nat)
    requires j < n <= |rules| && SingleForm(rules[j]) == Ok(form) && HoldsSingly(rest, rules[j + 1..n])
    ensures HoldsSingly([form] + rest, rules[j..n])
  {
    hide SingleForm;
    assert rules[j..n] == [rules[j]] + rules[j + 1..n];
  }

  lemma HoldsSinglyNone(rules: seq<Rule>)
    ensures rules == [] ==> HoldsSingly([], rules)
  {
  }

  lemma ExtendedTwice(key: Key, a: seq<Installed>, b: seq<Installed>, u: World, v: World, w: World)
    requires Later(u.plan, v.plan) && Extended(key, a, u, v) && Extended(key, b, v, w)
    ensures Extended(key, a + b, u, w)
  {
    LaterKeeps(u.plan, v.plan);
    assert u.ActiveOf(key) + a + b == u.ActiveOf(key) + (a + b);
  }

  /** A failed add in front of nothing. */
  lemma ExtendedByNothing(key: Key, w: World, w': World)
    requires Unchanged(w, w')
    ensures Extended(key, [], w, w')
  {
  }

  function SinglesCalls(rules: seq<Rule>, j: nat): nat
    requires j <= |rules|
    decreases |rules| - j
  {
    if j == |rules| then 0 else SingleCalls(rules[j]) + SinglesCalls(rules, j + 1)
  }

  /**
   * A run of single adds appends exactly the rules before the one that failed. It goes through if
   * and only if the name fits, every rule encodes and none of its calls is refused.
   */
  lemma {:induction false} AllAppend(anchor: Text, kind: RulesetKind, rules: seq<Rule>, j: nat, w: World)
    returns (added: seq<Installed>)
    requires j <= |rules| && forall k :: 0 <= k < |rules| ==> rules[k].Kind() == kind
    ensures var (r, n, v) := AddAll(anchor, rules, j, w);
            && j <= n <= |rules| && (r.Ok? <==> n == |rules|)
            && HoldsSingly(added, rules[j..n])
            && Extended(Key(anchor, RulesetOf(kind)), added, w, v)
            && (AllServe(w.plan) && Fits(anchor, ANCHOR_SIZE) && n < |rules| ==> SingleForm(rules[n]).Err?)
            && (r.Ok? <==>
                  && (j < |rules| ==> Fits(anchor, ANCHOR_SIZE)) && Served(w.plan, SinglesCalls(rules, j))
                  && forall k :: j <= k < |rules| ==> SingleForm(rules[k]).Ok?)
    decreases |rules| - j
  {
    hide AddSingle, SingleForm, HoldsSingly, Extended, Unchanged, Later, RulesetOf, SingleCalls, Served, Took;
    var key := Key(anchor, RulesetOf(kind));
    added := [];
    HoldsSinglyNone(rules[j..j]);
    DropNothing(w.plan);
    if j == |rules| {
      QuietReflexive(w);
      ExtendedByNothing(key, w, w);
    } else {
      var (r, v) := AddSingle(anchor, rules[j], w);
      var m, later := SingleCalls(rules[j]), SinglesCalls(rules, j + 1);
      SingleAppends(anchor, rules[j], w);
      LaterKeeps(w.plan, v.plan);
      if r.Ok? {
        var form := SingleForm(rules[j]).value;
        var rest := AllAppend(anchor, kind, rules, j + 1, v);
        var (_, n, u) := AddAll(anchor, rules, j + 1, v);
        TookMore(w.plan, m, v.plan, later);
        added := [form] + rest;
        HoldsSinglyMore(form, rest, rules, j, n);
        ExtendedTwice(key, [form], rest, w, v, u);
      } else {
        AllServed(w.plan, m);
        if Served(w.plan, m + later) {
          ServedLess(w.plan, m, m + later);
        }
        ExtendedByNothing(key, w, v);
      }
    }
  }

  lemma AllServed(plan: seq<Turn>, n: nat)
    ensures AllServe(plan) ==> Served(plan, n)
  {
  }

  // ---- One transaction against flushing and adding ----

  /** Flushing: a transaction that sets one ruleset to no rules. */
  function Flush(anchor: Text, kind: RulesetKind, w: World): (Result<(), Error>, World) {
    Commit([Job(anchor, kind, [])], w)
  }

  lemma FlushEmpties(anchor: Text, kind: RulesetKind, w: World)
    ensures var (r, v) := Flush(anchor, kind, w);
            var key := Key(anchor, RulesetOf(kind));
            && Later(w.plan, v.plan)
            && (r.Ok? ==>
                  && v.ActiveOf(key) == []
                  && forall other :: other != key && Steady(other, w.plan) ==> v.ActiveOf(other) == w.ActiveOf(other))
            && (r.Err? ==> Unchanged(w, v))
            && (AllServe(w.plan) ==> (r.Ok? <==> Fits(anchor, ANCHOR_SIZE)))
  {
    hide Commit, Verdict, JobsCalls, Later, Steady;
    var jobs := [Job(anchor, kind, [])];
    CommitRefinesVerdict(jobs, w);
    CommitSucceedsExactly(jobs, w);
    assert jobs[0].Key() == Key(anchor, RulesetOf(kind));
    if Flush(anchor, kind, w).0.Ok? {
      assert Holds(Flush(anchor, kind, w).1.ActiveOf(jobs[0].Key()), []);
    }
  }

  /** Rules installed by a transaction and one by one are the same exactly if none is routed. */
  lemma FormsAgreeExactly(a: seq<Installed>, b: seq<Installed>, rules: seq<Rule>)
    requires Holds(a, rules) && HoldsSingly(b, rules)
    ensures a == b <==> AllUnrouted(rules)
  {
    hide InstalledForm, SingleForm, Unrouted;
    forall k | 0 <= k < |rules|
      ensures a[k] == b[k] <==> Unrouted(rules[k])
    {
      assert InstalledForm(rules[k]) == Ok(a[k]) && SingleForm(rules[k]) == Ok(b[k]);
      PathsDifferByRoute(rules[k]);
    }
  }

  /** What flushing a ruleset and then adding rules one by one leaves, for any plan. */
  ghost predicate SequenceLeaves(job: Job, w: World) {
    var (rf, wf) := Flush(job.anchor, job.kind, w);
    var (rs, n, ws) := AddAll(job.anchor, job.rules, 0, wf);
    rf.Ok? ==>
      && n <= |job.rules| && (rs.Ok? <==> n == |job.rules|)
      && (Steady(job.Key(), w.plan) ==> HoldsSingly(ws.ActiveOf(job.Key()), job.rules[..n]))
      && (forall other :: other != job.Key() && Steady(other, w.plan) ==> ws.ActiveOf(other) == w.ActiveOf(other))
      && (forall k :: 0 <= k < n ==> SingleForm(job.rules[k]).Ok?)
      && (AllServe(w.plan) && Fits(job.anchor, ANCHOR_SIZE) && rs.Err? ==> SingleForm(job.rules[n]).Err?)
      && (rs.Ok? <==>
            && (job.rules != [] ==> Fits(job.anchor, ANCHOR_SIZE)) && Served(wf.plan, SinglesCalls(job.rules, 0))
            && forall k :: 0 <= k < |job.rules| ==> SingleForm(job.rules[k]).Ok?)
  }

  /** After a flush the ruleset holds exactly the rules before the one that failed, whatever failed it. */
  lemma SequenceKeepsPrefix(job: Job, w: World)
    requires forall k :: 0 <= k < |job.rules| ==> job.rules[k].Kind() == job.kind
    ensures SequenceLeaves(job, w)
  {
    hide Flush, AddAll, SingleForm, HoldsSingly, Steady;
    var (rf, wf) := Flush(job.anchor, job.kind, w);
    var (rs, n, ws) := AddAll(job.anchor, job.rules, 0, wf);
    FlushEmpties(job.anchor, job.kind, w);
    SteadyLater(job.Key(), w.plan, wf.plan);
    var added := AllAppend(job.anchor, job.kind, job.rules, 0, wf);
    AllEncode(added, job.rules[0..n]);
    assert [] + added == added && job.rules[0..n] == job.rules[..n];
    LaterKeeps(w.plan, wf.plan);
    forall other | other != job.Key() && Steady(other, w.plan)
      ensures rf.Ok? ==> ws.ActiveOf(other) == w.ActiveOf(other)
    {
      SteadyLater(other, w.plan, wf.plan);
    }
  }

  lemma AllEncode(added: seq<Installed>, rules: seq<Rule>)
    requires HoldsSingly(added, rules)
    ensures forall k :: 0 <= k < |rules| ==> SingleForm(rules[k]).Ok?
  {
    hide SingleForm;
  }

  lemma SteadyLater(key: Key, plan: seq<Turn>, rest: seq<Turn>)
    requires Later(plan, rest)
    ensures Steady(key, plan) ==> Steady(key, rest)
  {
    LaterKeeps(plan, rest);
  }

  predicate AllUnrouted(rules: seq<Rule>) {
    forall k :: 0 <= k < |rules| ==> Unrouted(rules[k])
  }

  /** A ruleset set by one transaction, or flushed and then filled one rule at a time. */
  ghost predicate PathsCompare(job: Job, w: World) {
    var (rb, wb) := Commit([job], w);
    var (rf, wf) := Flush(job.anchor, job.kind, w);
    var (rs, n, ws) := AddAll(job.anchor, job.rules, 0, wf);
    // A failed transaction keeps the old rules; the other way keeps exactly the rules it got to.
    && (rb.Err? ==> Unchanged(w, wb))
    && SequenceLeaves(job, w)
    // When both succeed they end in the same rulesets exactly if no rule is routed.
    && (rb.Ok? && rf.Ok? && rs.Ok? && Steady(job.Key(), w.plan) ==>
          ((forall key :: Steady(key, w.plan) ==> wb.ActiveOf(key) == ws.ActiveOf(key)) <==> AllUnrouted(job.rules)))
    // Without refused ioctls and routes both succeed or neither does, and the rule that stopped
    // the other way is not acceptable.
    && (AllServe(w.plan) && Fits(job.anchor, ANCHOR_SIZE) && AllUnrouted(job.rules) ==>
          rf.Ok? && (rb.Ok? <==> rs.Ok?) && (rs.Err? ==> n < |job.rules| && !Acceptable(job.rules[n])))
  }

  lemma BatchAgainstSequence(job: Job, w: World)
    requires forall k :: 0 <= k < |job.rules| ==> job.rules[k].Kind() == job.kind
    ensures PathsCompare(job, w)
  {
    hide Commit, Verdict, Flush, AddAll, SequenceLeaves, AllUnrouted, Steady, Acceptable;
    CommitRefinesVerdict([job], w);
    SequenceKeepsPrefix(job, w);
    FlushEmpties(job.anchor, job.kind, w);
    SuccessesAgree(job, w);
    if AllServe(w.plan) && Fits(job.anchor, ANCHOR_SIZE) && AllUnrouted(job.rules) {
      BothOrNeither(job, w);
    }
  }

  lemma SuccessesAgree(job: Job, w: World)
    requires SequenceLeaves(job, w)
    requires forall k :: 0 <= k < |job.rules| ==> job.rules[k].Kind() == job.kind
    ensures var (rb, wb) := Commit([job], w);
            var (rf, wf) := Flush(job.anchor, job.kind, w);
            var (rs, _, ws) := AddAll(job.anchor, job.rules, 0, wf);
            rb.Ok? && rf.Ok? && rs.Ok? && Steady(job.Key(), w.plan) ==>
              ((forall key :: Steady(key, w.plan) ==> wb.ActiveOf(key) == ws.ActiveOf(key)) <==> AllUnrouted(job.rules))
  {
    hide Commit, Verdict, Flush, AddAll, Steady, Holds, HoldsSingly, AllUnrouted;
    var (rb, wb) := Commit([job], w);
    var (rf, wf) := Flush(job.anchor, job.kind, w);
    var (rs, _, ws) := AddAll(job.anchor, job.rules, 0, wf);
    CommitRefinesVerdict([job], w);
    if rb.Ok? && rf.Ok? && rs.Ok? && Steady(job.Key(), w.plan) {
      assert job.rules[..|job.rules|] == job.rules;
      assert Holds(wb.ActiveOf([job][0].Key()), [job][0].rules);
      FormsAgreeExactly(wb.ActiveOf(job.Key()), ws.ActiveOf(job.Key()), job.rules);
      forall key | key != job.Key() && Steady(key, w.plan)
        ensures wb.ActiveOf(key) == ws.ActiveOf(key)
      {
        assert Untouched(key, [job]);
      }
    }
  }

  lemma BothOrNeither(job: Job, w: World)
    requires forall k :: 0 <= k < |job.rules| ==> job.rules[k].Kind() == job.kind
    requires AllServe(w.plan) && Fits(job.anchor, ANCHOR_SIZE) && AllUnrouted(job.rules)
    ensures var (rs, n, ws) := AddAll(job.anchor, job.rules, 0, Flush(job.anchor, job.kind, w).1);
            && Flush(job.anchor, job.kind, w).0.Ok?
            && (Commit([job], w).0.Ok? <==> rs.Ok?)
            && (rs.Err? ==> n < |job.rules| && !Acceptable(job.rules[n]))
  {
    hide Commit, Flush, AddAll, Acceptable, InstalledForm, SingleForm, JobsCalls, HoldsSingly, Unrouted;
    SequenceKeepsPrefix(job, w);
    FlushEmpties(job.anchor, job.kind, w);
    CommitSucceedsExactly([job], w);
    assert [job][0] == job;
    var (rs, n, ws) := AddAll(job.anchor, job.rules, 0, Flush(job.anchor, job.kind, w).1);
    forall k | 0 <= k < |job.rules|
      ensures SingleForm(job.rules[k]).Ok? <==> Acceptable(job.rules[k])
    {
      UnroutedForm(job.rules[k]);
      AcceptanceIsExact(job.rules[k]);
    }
  }
}
