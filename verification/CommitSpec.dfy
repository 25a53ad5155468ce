// What committing a transaction does, twice: `Commit` as the sequence of ioctls the library
// issues, with tickets, queues and pools; `Verdict` as a walk over the rules and the plan that
// knows nothing of the firewall's state.
module CommitSpec {
  import opened Prelude
  import opened Ffi
  import opened CStrings
  import opened Rules
  import opened Encoding
  import opened PfKernel

  /** All the rules one transaction sets in one ruleset. */
  datatype Job = Job(anchor: Text, kind: RulesetKind, rules: seq<Rule>) {
    function Key(): Key {
      PfKernel.Key(anchor, RulesetOf(kind))
    }
  }

  /** The rules of a job are of its kind, and no two jobs set the same ruleset. */
  predicate Proper(jobs: seq<Job>) {
    && (forall m, k :: 0 <= m < |jobs| && 0 <= k < |jobs[m].rules| ==> jobs[m].rules[k].Kind() == jobs[m].kind)
    && (forall m, n :: 0 <= m < n < |jobs| ==> jobs[m].Key() != jobs[n].Key())
  }

  /** A ruleset holds exactly these rules, in this order, each with its own pool. */
  predicate Holds(ruleset: seq<Installed>, rules: seq<Rule>) {
    |ruleset| == |rules| && forall k :: 0 <= k < |rules| ==> InstalledForm(rules[k]) == Ok(ruleset[k])
  }

  // ---- The ioctls of a commit ----

  function NewElement(job: Job): Result<TransElement, Error> {
    var anchor :- AnchorOver(job.anchor, Zeros(ANCHOR_SIZE));
    Ok(TransElement(RulesetOf(job.kind), anchor, 0))
  }

  function Elements(jobs: seq<Job>): Result<seq<TransElement>, Error> {
    if jobs == [] then Ok([])
    else
      var front :- Elements(jobs[..|jobs| - 1]);
      var last :- NewElement(jobs[|jobs| - 1]);
      Ok(front + [last])
  }

  function RegisterPool(pool: Option<PoolAddr>, ticket: u32, w: World): (Result<(), Error>, World) {
    match pool
    case None => (Ok(()), w)
    case Some(p) =>
      match PoolAddrOver(p, ZERO_POOL_ADDR)
      case Err(e) => (Err(e), w)
      case Ok(addr) => DiocAddAddr(ticket, addr, w)
  }

  /** An encoded rule: a fresh pool, the address and port it wants, and the rule itself. */
  function AddEncoded(
    name: AnchorName, raw: RawRule, pool: Option<PoolAddr>, port: Option<Port>, ticket: u32, w: World)
    : (Result<(), Error>, World)
  {
    var (t, w1) := DiocBeginAddrs(w);
    if t.Err? then (Err(t.error), w1)
    else
      var (a, w2) := RegisterPool(pool, t.value, w1);
      if a.Err? then (a, w2)
      else
        match PoolPortOver(port, raw)
        case Err(e) => (Err(e), w2)
        case Ok(raw') => DiocAddRule(name, ticket, t.value, raw', w2)
  }

  /** One rule of a transaction. */
  function AddToTransaction(anchor: Text, rule: Rule, ticket: u32, w: World): (Result<(), Error>, World) {
    match AnchorOver(anchor, Zeros(ANCHOR_SIZE))
    case Err(e) => (Err(e), w)
    case Ok(name) =>
      match RuleOver(rule, ZERO_RULE)
      case Err(e) => (Err(e), w)
      case Ok(raw) => AddEncoded(name, raw, PoolAddrOf(rule), PoolPortOf(rule), ticket, w)
  }

  function AddRules(job: Job, ticket: u32, j: nat, w: World): (Result<(), Error>, World)
    requires j <= |job.rules|
    decreases |job.rules| - j
  {
    if j == |job.rules| then (Ok(()), w)
    else
      var (r, v) := AddToTransaction(job.anchor, job.rules[j], ticket, w);
      if r.Err? then (r, v) else AddRules(job, ticket, j + 1, v)
  }

  function AddJobs(jobs: seq<Job>, elements: seq<TransElement>, i: nat, w: World): (Result<(), Error>, World)
    requires |jobs| == |elements| && i <= |jobs|
    decreases |jobs| - i
  {
    if i == |jobs| then (Ok(()), w)
    else
      var (r, v) := AddRules(jobs[i], elements[i].ticket, 0, w);
      if r.Err? then (r, v) else AddJobs(jobs, elements, i + 1, v)
  }

  function Commit(jobs: seq<Job>, w: World): (Result<(), Error>, World) {
    match Elements(jobs)
    case Err(e) => (Err(e), w)
    case Ok(elements) =>
      var (b, w1) := DiocXBegin(elements, w);
      if b.Err? then (Err(b.error), w1)
      else
        BeginKeepsLength(elements, w);
        ElementsMeans(jobs);
        var (r, w2) := AddJobs(jobs, b.value, 0, w1);
        if r.Err? then (r, w2) else DiocXCommit(b.value, w2)
  }

  lemma {:induction false} ElementsMeans(jobs: seq<Job>)
    ensures Elements(jobs).Ok? <==> forall m :: 0 <= m < |jobs| ==> Fits(jobs[m].anchor, ANCHOR_SIZE)
    ensures Elements(jobs).Ok? ==>
              && |Elements(jobs).value| == |jobs|
              && forall m :: 0 <= m < |jobs| ==>
                   Elements(jobs).value[m]
                   == TransElement(RulesetOf(jobs[m].kind), Padded(jobs[m].anchor, ANCHOR_SIZE), 0)
  {
    hide RulesetOf;
    if jobs != [] {
      ElementsMeans(jobs[..|jobs| - 1]);
      if Fits(jobs[|jobs| - 1].anchor, ANCHOR_SIZE) {
        CopiedPads(jobs[|jobs| - 1].anchor, ANCHOR_SIZE);
      }
    }
  }

  /** Opening queues changes nothing of an element but its ticket. */
  lemma {:induction false} OpenedKeepsElements(elements: seq<TransElement>, s: Scratch)
    ensures var ticketed := Opened(elements, s).0;
            && |ticketed| == |elements|
            && forall m :: 0 <= m < |elements| ==> ticketed[m] == elements[m].(ticket := ticketed[m].ticket)
  {
    if elements != [] {
      OpenedKeepsElements(elements[..|elements| - 1], s);
    }
  }

  lemma BeginKeepsLength(elements: seq<TransElement>, w: World)
    ensures DiocXBegin(elements, w).0.Ok? ==> |DiocXBegin(elements, w).0.value| == |elements|
  {
    OpenedKeepsElements(elements, w.Turned().scratch);
  }

  // ---- The verdict, without the firewall and without C structures ----

  /** How a refused call is reported: only the errno 17, EEXIST, has an error of its own. */
  function RefusalError(errno: int): Error {
    if errno == 17 then StateAlreadyActive else Ioctl(errno)
  }

  function Pop(plan: seq<Turn>): (Result<(), Error>, seq<Turn>) {
    if plan == [] then (Ok(()), [])
    else (if plan[0].Serve? then Ok(()) else Err(RefusalError(plan[0].errno)), plan[1..])
  }

  function NameObjection(anchor: Text): Option<Error> {
    match Objection(anchor, ANCHOR_SIZE)
    case Some(reason) => Some(InvalidAnchorName(reason))
    case None => None
  }

  /** The objection to the first name that has one. */
  function NamesObjection(jobs: seq<Job>): Option<Error> {
    if jobs == [] then None
    else First(NamesObjection(jobs[..|jobs| - 1]), NameObjection(jobs[|jobs| - 1].anchor))
  }

  /** The address of a pool, if one is wanted. */
  function PoolVerdict(wanted: bool, objection: Option<Error>, plan: seq<Turn>): (Result<(), Error>, seq<Turn>) {
    if !wanted then (Ok(()), plan)
    else match objection
      case Some(e) => (Err(e), plan)
      case None => Pop(plan)
  }

  function RuleVerdict(rule: Rule, plan: seq<Turn>): (Result<(), Error>, seq<Turn>) {
    match RuleObjection(rule)
    case Some(e) => (Err(e), plan)
    case None =>
      var (t, p1) := Pop(plan);
      if t.Err? then (t, p1)
      else
        var (a, p2) := PoolVerdict(WantsPool(rule), PoolObjection(rule), p1);
        if a.Err? then (a, p2)
        else
          match PoolPortObjection(rule)
          case Some(e) => (Err(e), p2)
          case None => Pop(p2)
  }

  function RulesVerdict(rules: seq<Rule>, j: nat, plan: seq<Turn>): (Result<(), Error>, seq<Turn>)
    requires j <= |rules|
    decreases |rules| - j
  {
    if j == |rules| then (Ok(()), plan)
    else
      var (r, p) := RuleVerdict(rules[j], plan);
      if r.Err? then (r, p) else RulesVerdict(rules, j + 1, p)
  }

  function JobsVerdict(jobs: seq<Job>, i: nat, plan: seq<Turn>): (Result<(), Error>, seq<Turn>)
    requires i <= |jobs|
    decreases |jobs| - i
  {
    if i == |jobs| then (Ok(()), plan)
    else
      var (r, p) := RulesVerdict(jobs[i].rules, 0, plan);
      if r.Err? then (r, p) else JobsVerdict(jobs, i + 1, p)
  }

  /** The result of a commit: the first name, rule or refusal in the way decides. */
  function Verdict(jobs: seq<Job>, plan: seq<Turn>): Result<(), Error> {
    match NamesObjection(jobs)
    case Some(e) => Err(e)
    case None =>
      var (b, p1) := Pop(plan);
      if b.Err? then b
      else
        var (r, p2) := JobsVerdict(jobs, 0, p1);
        if r.Err? then r else Pop(p2).0
  }

  lemma NameErrors(anchor: Text)
    ensures Objects(NameObjection(anchor), AnchorOver(anchor, Zeros(ANCHOR_SIZE)))
  {
  }

  /** The array fails to be built with the first objection to a name. */
  lemma {:induction false} NamesErrors(jobs: seq<Job>)
    ensures Objects(NamesObjection(jobs), Elements(jobs))
  {
    hide NameObjection, AnchorOver;
    if jobs != [] {
      NamesErrors(jobs[..|jobs| - 1]);
      NameErrors(jobs[|jobs| - 1].anchor);
    }
  }
}
