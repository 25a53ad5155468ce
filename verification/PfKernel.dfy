// The firewall behind /dev/pf, as the library sees it through ioctls (the manual page pf(4)).
//
// A `World` is the whole state: the active rulesets, the scratch area of open transactions and
// pools, what other processes control, the turns still to come and the calls made so far. Each
// ioctl is a function on worlds. A turn may refuse a call: then the active rulesets stay, and
// the scratch area becomes anything at all. Before a call is served others may have edited any
// ruleset and moved the outside.
module PfKernel {
  import opened Prelude
  import opened Ffi
  import opened CStrings

  const EBUSY: int := 16
  const EEXIST: int := 17
  const EINVAL: int := 22

  // ---- State ----

  /** A ruleset: the name of its anchor and its number. */
  datatype Key = Key(anchor: seq<byte>, ruleset: int)

  /** The inactive queue of a ruleset. */
  datatype Queue = Queue(rules: seq<Installed>, ticket: u32, open: bool)

  datatype Scratch = Scratch(
    inactive: map<Key, Queue>, activeTickets: map<Key, u32>, pool: seq<RawPoolAddr>, poolTicket: u32)
  {
    function QueueOf(key: Key): Queue {
      if key in inactive then inactive[key] else Queue([], 0, false)
    }

    function ActiveTicket(key: Key): u32 {
      if key in activeTickets then activeTickets[key] else 0
    }
  }

  datatype Kif = Kif(name: IfName, flags: i32)

  /** What an interface query reports: a count, and as many entries. */
  type IfaceTable = t: RawIfaceTable | |t.entries| == Max(t.count, 0) witness RawIfaceTable(0, [])
  datatype RawIfaceTable = RawIfaceTable(count: i32, entries: seq<Kif>)

  /** What the network and the system change at will. */
  datatype Outside = Outside(ifaces: IfaceTable, statesLength: i32, states: seq<SyncState>, killed: byte)

  /**
   * How the next call is met. Before it is served the outside may have moved, and other processes
   * may have edited rulesets; or the call is refused.
   */
  datatype Turn =
    | Serve(outside: Option<Outside>, edits: map<Key, seq<Installed>>, slot: nat)
    | Refuse(errno: int, left: Scratch)

  datatype Call =
    | BeginTrans(elements: seq<TransElement>)
    | CommitTrans(elements: seq<TransElement>)
    | BeginAddrs
    | AddAddr(ticket: u32, addr: RawPoolAddr)
    | AddRule(anchor: AnchorName, ticket: u32, poolTicket: u32, rule: RawRule)
    | ChangeRule(change: u32, anchor: AnchorName, ticket: u32, poolTicket: u32, rule: RawRule)
    | InsertRule(rule: RawRule, anchorCall: AnchorName)
    | DeleteRule(action: byte, nr: nat)
    | GetRules(action: byte)
    | GetRule(action: byte, nr: nat)
    | GetIfaces(name: IfName, size: nat)
    | GetStates(length: i32)
    | KillStates(request: StateKill)

  datatype Reply = Failed(errno: int) | Done | Ticket(ticket: u32) | Count(count: int) | Found(anchorCall: AnchorCall)

  datatype Event = Event(call: Call, reply: Reply)

  datatype World = World(
    active: map<Key, seq<Installed>>, scratch: Scratch, outside: Outside, plan: seq<Turn>, trace: seq<Event>)
  {
    function ActiveOf(key: Key): seq<Installed> {
      if key in active then active[key] else []
    }

    /** The world in which one ruleset holds other rules. */
    function With(key: Key, rules: seq<Installed>): (w: World)
      ensures w.ActiveOf(key) == rules && forall other :: other != key ==> w.ActiveOf(other) == ActiveOf(other)
    {
      this.(active := active[key := rules])
    }

    /** The turn of the next call; when the plan is used up every call is served. */
    function Turn(): Turn {
      if plan == [] then Serve(None, map[], 0) else plan[0]
    }

    /** The world in which the next call is looked at. */
    function Turned(): World {
      var rest := if plan == [] then [] else plan[1..];
      match Turn()
      case Serve(o, edits, _) =>
        this.(plan := rest, outside := if o.Some? then o.value else outside, active := active + edits)
      case Refuse(_, left) => this.(plan := rest, scratch := left)
    }

    function Logged(call: Call, reply: Reply): World {
      this.(trace := trace + [Event(call, reply)])
    }
  }

  /** No call is refused. */
  predicate AllServe(plan: seq<Turn>) {
    forall i :: 0 <= i < |plan| ==> plan[i].Serve?
  }

  /** Nobody else edits this ruleset. */
  predicate Steady(key: Key, plan: seq<Turn>) {
    forall i :: 0 <= i < |plan| && plan[i].Serve? ==> key !in plan[i].edits
  }

  /** No ruleset changed, but for what others did. */
  ghost predicate Unchanged(w: World, w': World) {
    forall key :: Steady(key, w.plan) ==> w'.ActiveOf(key) == w.ActiveOf(key)
  }

  /** A plan after some of its turns. */
  predicate Later(plan: seq<Turn>, rest: seq<Turn>) {
    |rest| <= |plan| && rest == plan[|plan| - |rest|..]
  }

  lemma LaterKeeps(plan: seq<Turn>, rest: seq<Turn>)
    requires Later(plan, rest)
    ensures AllServe(plan) ==> AllServe(rest)
    ensures forall key :: Steady(key, plan) ==> Steady(key, rest)
  {
    forall i | 0 <= i < |rest|
      ensures rest[i] == plan[|plan| - |rest| + i]
    {
    }
  }

  lemma LaterTransitive(p: seq<Turn>, q: seq<Turn>, r: seq<Turn>)
    requires Later(p, q) && Later(q, r)
    ensures Later(p, r)
  {
  }

  // ---- Helpers ----

  /** The error a failed ioctl becomes. */
  function Guard(errno: int): Error {
    if errno == EEXIST then StateAlreadyActive else Ioctl(errno)
  }

  function Fail<T>(w: World, call: Call, errno: int): (Result<T, Error>, World) {
    (Err(Guard(errno)), w.Logged(call, Failed(errno)))
  }

  /** Tickets are 32 bits wide and wrap around. */
  function Next(ticket: u32): u32 {
    (ticket + 1) % 0x1_0000_0000
  }

  /** The name in an anchor buffer. */
  function NameOf(b: AnchorName): seq<byte> {
    if 0 in b then UntilNul(b).value else b
  }

  function ElementKey(e: TransElement): Key {
    Key(NameOf(e.anchor), e.rsNum)
  }

  function RuleKey(anchor: AnchorName, rule: RawRule): Key {
    Key(NameOf(anchor), RulesetOfAction(rule.codes.action))
  }

  // ---- Transactions ----

  /** Opens the inactive queue of each element, emptied and under a new ticket. */
  function Opened(elements: seq<TransElement>, s: Scratch): (seq<TransElement>, Scratch) {
    if elements == [] then ([], s)
    else
      var last := elements[|elements| - 1];
      var (front, s') := Opened(elements[..|elements| - 1], s);
      var ticket := Next(s'.QueueOf(ElementKey(last)).ticket);
      (front + [last.(ticket := ticket)],
       s'.(inactive := s'.inactive[ElementKey(last) := Queue([], ticket, true)]))
  }

  function DiocXBegin(elements: seq<TransElement>, w: World): (Result<seq<TransElement>, Error>, World) {
    var call := BeginTrans(elements);
    match w.Turn()
    case Refuse(errno, _) => Fail(w.Turned(), call, errno)
    case Serve(_, _, _) =>
      var (ticketed, s) := Opened(elements, w.Turned().scratch);
      (Ok(ticketed), w.Turned().(scratch := s).Logged(call, Done))
  }

  predicate Committable(e: TransElement, s: Scratch) {
    s.QueueOf(ElementKey(e)).open && s.QueueOf(ElementKey(e)).ticket == e.ticket
  }

  /** Swaps the queue of each element in; the old rules are dropped. */
  function Swapped(elements: seq<TransElement>, w: World): World {
    if elements == [] then w
    else
      var v := Swapped(elements[..|elements| - 1], w);
      var key := ElementKey(elements[|elements| - 1]);
      var q := v.scratch.QueueOf(key);
      v.With(key, q.rules).(
         scratch := v.scratch.(inactive := v.scratch.inactive[key := Queue([], q.ticket, false)],
                               activeTickets := v.scratch.activeTickets[key := q.ticket]))
  }

  function DiocXCommit(elements: seq<TransElement>, w: World): (Result<(), Error>, World) {
    var call := CommitTrans(elements);
    match w.Turn()
    case Refuse(errno, _) => Fail(w.Turned(), call, errno)
    case Serve(_, _, _) =>
      if exists i :: 0 <= i < |elements| && !Committable(elements[i], w.Turned().scratch) then
        Fail(w.Turned(), call, EBUSY)
      else
        (Ok(()), Swapped(elements, w.Turned()).Logged(call, Done))
  }

  function DiocAddRule(anchor: AnchorName, ticket: u32, poolTicket: u32, rule: RawRule, w: World)
    : (Result<(), Error>, World)
  {
    var call := AddRule(anchor, ticket, poolTicket, rule);
    match w.Turn()
    case Refuse(errno, _) => Fail(w.Turned(), call, errno)
    case Serve(_, _, _) =>
      var s, key := w.Turned().scratch, RuleKey(anchor, rule);
      var q := s.QueueOf(key);
      if ticket != q.ticket || poolTicket != s.poolTicket then Fail(w.Turned(), call, EBUSY)
      else
        var q' := q.(rules := q.rules + [Installed(rule, s.pool)]);
        (Ok(()), w.Turned().(scratch := s.(inactive := s.inactive[key := q'], pool := [])).Logged(call, Done))
  }

  // ---- Pools ----

  function DiocBeginAddrs(w: World): (Result<u32, Error>, World) {
    match w.Turn()
    case Refuse(errno, _) => Fail(w.Turned(), BeginAddrs, errno)
    case Serve(_, _, _) =>
      var ticket := Next(w.scratch.poolTicket);
      var s := w.scratch.(pool := [], poolTicket := ticket);
      (Ok(ticket), w.Turned().(scratch := s).Logged(BeginAddrs, Ticket(ticket)))
  }

  function DiocAddAddr(ticket: u32, addr: RawPoolAddr, w: World): (Result<(), Error>, World) {
    var call := AddAddr(ticket, addr);
    match w.Turn()
    case Refuse(errno, _) => Fail(w.Turned(), call, errno)
    case Serve(_, _, _) =>
      if ticket != w.scratch.poolTicket then Fail(w.Turned(), call, EBUSY)
      else (Ok(()), w.Turned().(scratch := w.scratch.(pool := w.scratch.pool + [addr])).Logged(call, Done))
  }

  // ---- Single rules ----

  /** DIOCCHANGERULE for the two changes the library asks for. */
  function DiocChangeRule(change: u32, anchor: AnchorName, ticket: u32, poolTicket: u32, rule: RawRule, w: World)
    : (Result<u32, Error>, World)
  {
    var call := ChangeRule(change, anchor, ticket, poolTicket, rule);
    match w.Turn()
    case Refuse(errno, _) => Fail(w.Turned(), call, errno)
    case Serve(_, _, _) =>
      var v, s, key := w.Turned(), w.Turned().scratch, RuleKey(anchor, rule);
      var next := Next(s.ActiveTicket(key));
      var tickets := s.activeTickets[key := next];
      if change == PF_CHANGE_GET_TICKET then
        (Ok(next), v.(scratch := s.(activeTickets := tickets)).Logged(call, Ticket(next)))
      else if change != PF_CHANGE_ADD_TAIL || ticket != s.ActiveTicket(key) then Fail(v, call, EINVAL)
      else if poolTicket != s.poolTicket then Fail(v, call, EBUSY)
      else
        (Ok(ticket),
         v.With(key, v.ActiveOf(key) + [Installed(rule, s.pool)]).(
            scratch := s.(activeTickets := tickets, pool := [])).Logged(call, Done))
  }

  // ---- Anchor rules of the main ruleset ----

  /** The anchor a rule calls; a rule that calls none reads back with the empty name. */
  function CallOf(i: Installed): AnchorCall {
    assert Zeros(ANCHOR_SIZE)[0] == 0;
    if i.AnchorRule? then i.call else Zeros(ANCHOR_SIZE)
  }

  function Called(i: Installed): seq<byte> {
    NameOf(CallOf(i))
  }

  predicate Listed(list: seq<Installed>, name: seq<byte>) {
    exists i :: 0 <= i < |list| && Called(list[i]) == name
  }

  /** The main ruleset a rule with this action belongs to. */
  function MainKey(action: byte): Key {
    Key([], RulesetOfAction(action))
  }

  /** A name that is there is refused; the place of a new one is the firewall's choice. */
  function DiocInsertRule(rule: RawRule, anchorCall: AnchorName, w: World): (Result<(), Error>, World) {
    var call := InsertRule(rule, anchorCall);
    match w.Turn()
    case Refuse(errno, _) => Fail(w.Turned(), call, errno)
    case Serve(_, _, slot) =>
      var v, key := w.Turned(), MainKey(rule.codes.action);
      var list := v.ActiveOf(key);
      if 0 !in anchorCall then Fail(v, call, EINVAL)
      else if NameOf(anchorCall) != [] && Listed(list, NameOf(anchorCall)) then Fail(v, call, EEXIST)
      else
        var at := Min(slot, |list|);
        (Ok(()), v.With(key, list[..at] + [AnchorRule(rule, [], anchorCall)] + list[at..]).Logged(call, Done))
  }

  function DiocGetRules(action: byte, w: World): (Result<nat, Error>, World) {
    match w.Turn()
    case Refuse(errno, _) => Fail(w.Turned(), GetRules(action), errno)
    case Serve(_, _, _) =>
      var count := |w.Turned().ActiveOf(MainKey(action))|;
      (Ok(count), w.Turned().Logged(GetRules(action), Count(count)))
  }

  function DiocGetRule(action: byte, nr: nat, w: World): (Result<AnchorCall, Error>, World) {
    var call := GetRule(action, nr);
    match w.Turn()
    case Refuse(errno, _) => Fail(w.Turned(), call, errno)
    case Serve(_, _, _) =>
      var list := w.Turned().ActiveOf(MainKey(action));
      if nr >= |list| then Fail(w.Turned(), call, EBUSY)
      else (Ok(CallOf(list[nr])), w.Turned().Logged(call, Found(CallOf(list[nr]))))
  }

  function DiocDeleteRule(action: byte, nr: nat, w: World): (Result<(), Error>, World) {
    var call := DeleteRule(action, nr);
    match w.Turn()
    case Refuse(errno, _) => Fail(w.Turned(), call, errno)
    case Serve(_, _, _) =>
      var v, key := w.Turned(), MainKey(action);
      var list := v.ActiveOf(key);
      if nr >= |list| then Fail(v, call, EINVAL)
      else (Ok(()), v.With(key, list[..nr] + list[nr + 1..]).Logged(call, Done))
  }

  // ---- Queries ----

  /** Fills at most `size` entries and reports how many there are. */
  function DiocGetIfaces(name: IfName, size: nat, w: World): (Result<(i32, seq<Kif>), Error>, World) {
    var call := GetIfaces(name, size);
    match w.Turn()
    case Refuse(errno, _) => Fail(w.Turned(), call, errno)
    case Serve(_, _, _) =>
      var t := w.Turned().outside.ifaces;
      (Ok((t.count, t.entries[..Min(size, |t.entries|)])), w.Turned().Logged(call, Count(t.count)))
  }

  /** Asked for no bytes it reports how many there are; otherwise it also fills what fits. */
  function DiocGetStates(length: i32, w: World): (Result<(i32, seq<SyncState>), Error>, World) {
    match w.Turn()
    case Refuse(errno, _) => Fail(w.Turned(), GetStates(length), errno)
    case Serve(_, _, _) =>
      var o := w.Turned().outside;
      (Ok((o.statesLength, o.states)), w.Turned().Logged(GetStates(length), Count(o.statesLength)))
  }

  /** Reports the number of states it removed, in a field of one byte. */
  function DiocKillStates(request: StateKill, w: World): (Result<byte, Error>, World) {
    match w.Turn()
    case Refuse(errno, _) => Fail(w.Turned(), KillStates(request), errno)
    case Serve(_, _, _) =>
      (Ok(w.Turned().outside.killed), w.Turned().Logged(KillStates(request), Count(w.Turned().outside.killed)))
  }
}
