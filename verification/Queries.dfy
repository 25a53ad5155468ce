// Queries whose answers may change between two calls: interfaces, states and their removal.
module Queries {
  import opened Prelude
  import opened ByteOrder
  import opened CStrings
  import opened Ffi
  import opened Rules
  import opened Encoding
  import opened Decoding
  import opened PfKernel
  import opened CommitTrace
  import opened Anchors
  import opened CommitSpec

  // ---- Socket addresses of states ----

  datatype SocketAddr = SocketAddr(ip: IpAddr, port: u16)

  /** `parse_address` on the 16 bytes of an address union and the two bytes of a port. */
  function ParseAddress(host: Endian, family: byte, addr: Octets16, port: Net2): Result<SocketAddr, Error> {
    if family == PF_INET then
      var number := Be32(host, Load32(host, addr[..4]));
      var octets := [Byte32(number, 0), Byte32(number, 1), Byte32(number, 2), Byte32(number, 3)];
      Ok(SocketAddr(V4Addr(octets), Be16(host, Load16(host, port))))
    else if family == PF_INET6 then Ok(SocketAddr(V6Addr(addr), Be16(host, Load16(host, port))))
    else Err(InvalidAddressFamily(family))
  }

  function FamilyOf(ip: IpAddr): byte {
    if ip.V4Addr? then PF_INET else PF_INET6
  }

  /** A word loaded and swapped has its octets in order, on either host. */
  lemma LoadedOctets(host: Endian, o: Octets4)
    ensures var number := Be32(host, Load32(host, o));
            [Byte32(number, 0), Byte32(number, 1), Byte32(number, 2), Byte32(number, 3)] == o
  {
    hide Be32, Load32, Byte32, Number32;
    NetworkOrder32(host, o);
    BytesOfNumber32(o[0], o[1], o[2], o[3]);
  }

  /** Parsing undoes the address and port writers, whatever the union held and on either host. */
  lemma AddressRoundTrip(host: Endian, ip: IpAddr, port: u16, prior: Octets16)
    ensures ParseAddress(host, FamilyOf(ip), AddrOver(ip, prior), Net16(port)) == Ok(SocketAddr(ip, port))
  {
    hide Be16, Load16, Net16, FromNet16, Be32, Load32, Byte32;
    NetworkOrder16(host, port);
    if ip.V4Addr? {
      assert AddrOver(ip, prior)[..4] == ip.o4;
      LoadedOctets(host, ip.o4);
    }
  }

  /** And writing undoes parsing: no two unions with the same address bytes parse differently. */
  lemma ParsedAddressIsWritten(host: Endian, family: byte, addr: Octets16, port: Net2)
    ensures match ParseAddress(host, family, addr, port)
            case Ok(s) => FamilyOf(s.ip) == family && AddrOver(s.ip, addr) == addr && Net16(s.port) == port
            case Err(e) => e == InvalidAddressFamily(family) && family != PF_INET && family != PF_INET6
  {
    hide Be16, Load16, Net16, FromNet16, Be32, Load32, Byte32;
    LoadNet16(host, port);
    if family == PF_INET {
      LoadedOctets(host, addr[..4]);
      assert addr[..4] + addr[4..] == addr;
    }
  }

  // ---- Interfaces ----

  const INITIAL_CAPACITY: nat := 30
  const MAX_RETRIES: nat := 2

  const ZERO_KIF := Kif(Zeros(IFNAME_SIZE), 0)

  datatype InterfaceDescription = InterfaceDescription(name: Text, flags: i32)

  /** The retry loop: a buffer too small for the count is replaced once by one of that count. */
  function FetchIfaces(name: IfName, retry: nat, size: nat, w: World): (Result<seq<Kif>, Error>, World)
    requires retry < MAX_RETRIES
    decreases MAX_RETRIES - retry
  {
    var (g, v) := DiocGetIfaces(name, size, w);
    if g.Err? then (Err(g.error), v)
    else
      var count := Max(g.value.0, 0);
      if retry + 1 < MAX_RETRIES && count > size then FetchIfaces(name, retry + 1, count, v)
      else (Ok(g.value.1), v)
  }

  function Describe(kifs: seq<Kif>): Result<seq<InterfaceDescription>, Error> {
    if kifs == [] then Ok([])
    else
      var name :- ParseName(kifs[0].name);
      var rest :- Describe(kifs[1..]);
      Ok([InterfaceDescription(name, kifs[0].flags)] + rest)
  }

  function GetInterfaces(i: Interface, w: World): (Result<seq<InterfaceDescription>, Error>, World) {
    match InterfaceOver(i, Zeros(IFNAME_SIZE))
    case Err(e) => (Err(e), w)
    case Ok(name) =>
      var (k, v) := FetchIfaces(name, 0, INITIAL_CAPACITY, w);
      (if k.Err? then Err(k.error) else Describe(k.value), v)
  }

  /** The size of the buffer of the last request: the first count if that exceeded the first buffer. */
  function LastSize(events: seq<Event>): nat
    requires events != [] && events[|events| - 1].call.GetIfaces?
  {
    events[|events| - 1].call.size
  }

  /**
   * The requests: at most two, the second sized by the first count, and made only if that count
   * exceeded the first buffer.
   */
  predicate IfaceRequests(name: IfName, events: seq<Event>) {
    && 1 <= |events| <= 2
    && (forall i :: 0 <= i < |events| ==> events[i].call.GetIfaces? && events[i].call.name == name)
    && events[0].call.size == INITIAL_CAPACITY
    && (|events| == 2 ==>
          events[0].reply.Count? && events[0].reply.count > INITIAL_CAPACITY
          && events[1].call.size == events[0].reply.count)
  }

  /** What a buffer of a size holds of a table: min(count, size) entries, all of them if they fit. */
  predicate Filled(kifs: seq<Kif>, size: nat, table: IfaceTable) {
    && kifs == table.entries[..Min(size, |table.entries|)]
    && |kifs| == Min(size, Max(table.count, 0))
    && (table.count <= size ==> kifs == table.entries)
  }

  /**
   * For any counts reported, the entries are the first ones of the last table, min(count, buffer)
   * of them, and all of them when they fit. The only error is a refused request.
   */
  lemma InterfacesFromLastRequest(name: IfName, w: World)
    ensures var (k, v) := FetchIfaces(name, 0, INITIAL_CAPACITY, w);
            && w.trace <= v.trace
            && var events := NewEvents(w, v);
            && IfaceRequests(name, events)
            && match k
               case Err(e) => events[|events| - 1].reply.Failed? && e == RefusalError(events[|events| - 1].reply.errno)
               case Ok(kifs) =>
                 && events[|events| - 1].reply == Count(v.outside.ifaces.count)
                 && Filled(kifs, LastSize(events), v.outside.ifaces)
                 && (|events| == 1 ==> kifs == v.outside.ifaces.entries)
  {
    hide DiocGetIfaces, FetchIfaces, RefusalError, Filled;
    FetchUnfolds(name, w);
    var (g, v) := DiocGetIfaces(name, INITIAL_CAPACITY, w);
    IfacesTraced(name, INITIAL_CAPACITY, w);
    if g.Ok? && g.value.0 > INITIAL_CAPACITY {
      var u := DiocGetIfaces(name, g.value.0, v).1;
      IfacesTraced(name, g.value.0, v);
      assert NewEvents(w, u) == NewEvents(w, v) + NewEvents(v, u);
    }
  }

  lemma FetchUnfolds(name: IfName, w: World)
    ensures var (g, v) := DiocGetIfaces(name, INITIAL_CAPACITY, w);
            FetchIfaces(name, 0, INITIAL_CAPACITY, w)
            == if g.Err? then (Err(g.error), v)
               else if g.value.0 <= INITIAL_CAPACITY then (Ok(g.value.1), v)
               else
                 var (h, u) := DiocGetIfaces(name, g.value.0, v);
                 (if h.Err? then Err(h.error) else Ok(h.value.1), u)
  {
    hide DiocGetIfaces;
  }

  lemma IfacesTraced(name: IfName, size: nat, w: World)
    ensures var (g, v) := DiocGetIfaces(name, size, w);
            && w.trace <= v.trace && NewEvents(w, v) == [v.trace[|w.trace|]]
            && v.trace[|w.trace|].call == GetIfaces(name, size)
            && match g
               case Err(e) => v.trace[|w.trace|].reply.Failed? && e == RefusalError(v.trace[|w.trace|].reply.errno)
               case Ok(filled) =>
                 var table := v.outside.ifaces;
                 && v.trace[|w.trace|].reply == Count(table.count)
                 && filled.0 == table.count && Filled(filled.1, size, table)
                 && (table.count <= INITIAL_CAPACITY <= size ==> filled.1 == table.entries)
  {
  }

  /** Every entry must have a terminated, valid name; the descriptions keep the order. */
  lemma {:induction false} DescribeMeans(kifs: seq<Kif>)
    ensures Describe(kifs).Ok? <==> forall i :: 0 <= i < |kifs| ==> ParseName(kifs[i].name).Ok?
    ensures Describe(kifs).Err? ==>
              exists i :: 0 <= i < |kifs| && ParseName(kifs[i].name) == Err(Describe(kifs).error)
                          && forall j :: 0 <= j < i ==> ParseName(kifs[j].name).Ok?
    ensures Describe(kifs).Ok? ==>
              && |Describe(kifs).value| == |kifs|
              && forall i :: 0 <= i < |kifs| ==>
                   Describe(kifs).value[i] == InterfaceDescription(ParseName(kifs[i].name).value, kifs[i].flags)
  {
    hide ParseName;
    if kifs != [] {
      DescribeMeans(kifs[1..]);
      if ParseName(kifs[0].name).Ok? && Describe(kifs[1..]).Err? {
        var i :| 0 <= i < |kifs[1..]| && ParseName(kifs[1..][i].name) == Err(Describe(kifs[1..]).error)
                 && forall j :: 0 <= j < i ==> ParseName(kifs[1..][j].name).Ok?;
        assert kifs[i + 1] == kifs[1..][i];
        forall j | 0 <= j < i + 1
          ensures ParseName(kifs[j].name).Ok?
        {
          assert j > 0 ==> kifs[j] == kifs[1..][j - 1];
        }
      }
    }
  }

  /**
   * The query as a whole. A name that does not fit makes no request. Otherwise it succeeds if and
   * only if no request was refused and every entry of the last one has a terminated, valid name;
   * then it describes exactly these entries, in order.
   */
  lemma GetInterfacesMeans(i: Interface, w: World)
    ensures var (r, v) := GetInterfaces(i, w);
            && w.trace <= v.trace
            && var events := NewEvents(w, v);
            if !NameFits(i) then events == [] && Objects(InterfaceObjection(i), r)
            else
              && IfaceRequests(Padded(if i.Any? then [] else i.name, IFNAME_SIZE), events)
              && var last := events[|events| - 1].reply;
                 var table := v.outside.ifaces;
                 var n := Min(LastSize(events), |table.entries|);
                 && (last.Failed? || last == Count(table.count))
                 && (r.Ok? <==> last.Count? && forall k :: 0 <= k < n ==> ParseName(table.entries[k].name).Ok?)
                 && match r
                    case Err(e) =>
                      if last.Failed? then e == RefusalError(last.errno)
                      else exists k :: 0 <= k < n && ParseName(table.entries[k].name) == Err(e)
                    case Ok(found) =>
                      && |found| == n
                      && forall k :: 0 <= k < n ==>
                           found[k]
                           == InterfaceDescription(ParseName(table.entries[k].name).value, table.entries[k].flags)
  {
    hide FetchIfaces, Describe, ParseName, IfaceRequests, RefusalError, Copied;
    if NameFits(i) {
      var name := InterfaceOver(i, Zeros(IFNAME_SIZE)).value;
      CopiedPads(InterfaceText(i), IFNAME_SIZE);
      var (k, v) := FetchIfaces(name, 0, INITIAL_CAPACITY, w);
      InterfacesFromLastRequest(name, w);
      LastIsRequest(name, NewEvents(w, v));
      if k.Ok? {
        DescribeMeans(k.value);
      }
    } else {
      assert NewEvents(w, w) == [];
    }
  }

  lemma LastIsRequest(name: IfName, events: seq<Event>)
    requires IfaceRequests(name, events)
    ensures events != [] && events[|events| - 1].call.GetIfaces?
  {
  }

  /** Terminated names of characters below 0x80 are always described, as they stand. */
  lemma AsciiNamesAreDescribed(kifs: seq<Kif>, names: seq<Text>)
    requires |names| == |kifs|
    requires forall i :: 0 <= i < |kifs| ==> names[i] + [0] <= kifs[i].name
    requires forall i, k :: 0 <= i < |names| && 0 <= k < |names[i]| ==> 0 < names[i][k] < 0x80
    ensures Describe(kifs).Ok? && |Describe(kifs).value| == |names|
    ensures forall i :: 0 <= i < |names| ==>
              Describe(kifs).value[i] == InterfaceDescription(names[i], kifs[i].flags)
  {
    hide ParseName, Describe;
    forall i | 0 <= i < |kifs|
      ensures ParseName(kifs[i].name) == Ok(names[i])
    {
      AsciiIsValid(names[i]);
      ValidExactly(names[i]);
      ParseNameMeans(kifs[i].name, names[i]);
    }
    DescribeMeans(kifs);
  }

  // ---- States ----

  /** The size of pfsync_state. */
  const STATE_SIZE: int := 297

  /** `as u32` and `as i32`. */
  function AsU32(x: int): u32 {
    x % 0x1_0000_0000
  }

  function AsI32(x: int): i32 {
    if AsU32(x) < 0x8000_0000 then AsU32(x) else AsU32(x) - 0x1_0000_0000
  }

  function NumStates(reported: i32): u32 {
    AsU32(reported) / STATE_SIZE
  }

  /** The length of the second request, before it is stored in 32 bits. */
  function RequestLength(num: u32): int {
    STATE_SIZE * AsI32(num)
  }

  /** For a length that is not negative the second request asks for its whole multiple of states. */
  lemma RequestIsLargestMultiple(reported: i32)
    requires reported >= 0
    ensures var length := RequestLength(NumStates(reported));
            && length % STATE_SIZE == 0 && 0 <= length <= reported
            && (forall m: int :: m % STATE_SIZE == 0 && m <= reported ==> m <= length)
            && AsI32(length) == length
  {
  }

  /** The product fits 32 bits for these reported lengths and for no others. */
  lemma RequestFitsExactly(reported: i32)
    ensures AsI32(RequestLength(NumStates(reported))) == RequestLength(NumStates(reported))
            <==> reported >= 0 || reported < -0x8000_0000 + 97
  {
    var num := NumStates(reported);
    assert AsU32(reported) == if reported >= 0 then reported else reported + 0x1_0000_0000;
    assert num < 0x8000_0000 && AsI32(num) == num;
  }

  /** The snapshot: as many zeroed entries as the first answer has room for, filled from the front. */
  function Snapshot(states: seq<SyncState>, num: nat): (s: seq<SyncState>)
    ensures |s| == num
    ensures forall i :: 0 <= i < num ==> s[i] == if i < |states| then states[i] else ZERO_STATE
  {
    if |states| >= num then states[..num] else states + seq(num - |states|, i => ZERO_STATE)
  }

  function GetStatesInner(w: World): (Result<seq<SyncState>, Error>, World) {
    var (g, v) := DiocGetStates(0, w);
    if g.Err? then (Err(g.error), v)
    else
      var num := NumStates(g.value.0);
      if num == 0 then (Ok([]), v)
      else
        var (s, u) := DiocGetStates(AsI32(RequestLength(num)), v);
        if s.Err? then (Err(s.error), u) else (Ok(Snapshot(s.value.1, num)), u)
  }

  /** The calls of a snapshot that ended with `s`. */
  predicate SnapshotCalls(events: seq<Event>, s: Result<seq<SyncState>, Error>) {
    && 1 <= |events| <= 2
    && events[0].call == GetStates(0)
    && (s.Err? ==> EndsRefused(events, s.error))
    && (s.Ok? ==>
          && events[0].reply.Count?
          && -0x8000_0000 <= events[0].reply.count < 0x8000_0000
          && |s.value| == NumStates(events[0].reply.count)
          && (|events| == 2 <==> |s.value| > 0)
          && (|events| == 2 ==> events[1].call == GetStates(AsI32(RequestLength(|s.value|)))))
  }

  /** Two calls at most: the first sizes the second, and the snapshot has one entry per state of
      the first answer, whatever the second one reports: the states of the second answer as far
      as they go, and zeroed entries after them. */
  lemma SnapshotTakesTwoCalls(w: World)
    ensures var (s, v) := GetStatesInner(w);
            && w.trace <= v.trace
            && SnapshotCalls(NewEvents(w, v), s)
            && (s.Ok? ==>
                  forall i :: 0 <= i < |s.value| ==>
                    s.value[i] == if i < |v.outside.states| then v.outside.states[i] else ZERO_STATE)
  {
    hide DiocGetStates, NumStates, AsI32;
    var (g, v) := DiocGetStates(0, w);
    StatesTraced(0, w);
    if g.Ok? && NumStates(g.value.0) != 0 {
      var length := AsI32(RequestLength(NumStates(g.value.0)));
      var u := DiocGetStates(length, v).1;
      StatesTraced(length, v);
      assert NewEvents(w, u) == [v.trace[|w.trace|], u.trace[|v.trace|]];
    }
  }

  lemma StatesTraced(length: i32, w: World)
    ensures var (g, v) := DiocGetStates(length, w);
            && w.trace <= v.trace && NewEvents(w, v) == [v.trace[|w.trace|]]
            && v.trace[|w.trace|].call == GetStates(length)
            && match g
               case Ok((reported, states)) => v.trace[|w.trace|].reply == Count(reported) && states == v.outside.states
               case Err(e) => EndsRefused(NewEvents(w, v), e)
  {
  }

  /** The states of an anchor rule in a snapshot, in order. */
  function OfAnchor(states: seq<SyncState>, nr: nat, i: nat): seq<SyncState>
    requires i <= |states|
    decreases |states| - i
  {
    if i == |states| then []
    else (if states[i].anchor == nr then [states[i]] else []) + OfAnchor(states, nr, i + 1)
  }

  /** `setup_pfioc_state_kill`: the family, protocol, interface and hosts of a state. */
  function KillOf(state: SyncState): StateKill {
    ZERO_KILL.(
      af := state.afLan, proto := state.proto, protoVariant := state.protoVariant, ifname := state.ifname,
      src := state.lan, dst := state.extLan)
  }

  /** Kills the states one by one and adds up the counts, up to the first error. */
  function KillAll(states: seq<SyncState>, w: World): (Result<nat, Error>, World) {
    if states == [] then (Ok(0), w)
    else
      var (k, v) := DiocKillStates(KillOf(states[0]), w);
      if k.Err? then (Err(k.error), v)
      else
        var (sum, u) := KillAll(states[1..], v);
        (if sum.Err? then sum else Ok(k.value + sum.value), u)
  }

  /** `clear_states`: the snapshot, the anchor rule, and then its states. */
  function ClearStates(name: Text, kind: RulesetKind, w: World): (Result<nat, Error>, World) {
    var (s, v) := GetStatesInner(w);
    if s.Err? then (Err(s.error), v)
    else if s.value == [] then (Ok(0), v)
    else
      var (i, u) := FindAnchor(name, kind, v);
      if i.Err? then (Err(i.error), u) else KillAll(OfAnchor(s.value, i.value, 0), u)
  }

  /** The counts in the replies. */
  function Counted(events: seq<Event>): int {
    if events == [] then 0
    else (if events[0].reply.Count? then events[0].reply.count else 0) + Counted(events[1..])
  }

  /** One request per state, in order, up to the first error; the result is the sum of the counts. */
  lemma {:induction false} KillsInOrder(states: seq<SyncState>, w: World)
    ensures var (r, v) := KillAll(states, w);
            && w.trace <= v.trace
            && var events := NewEvents(w, v);
            && KillRequests(events, states)
            && match r
               case Ok(sum) => |events| == |states| && sum == Counted(events)
               case Err(e) => EndsRefused(events, e)
    decreases |states|
  {
    if states != [] {
      hide DiocKillStates, Counted, KillRequests, NewEvents, RefusalError;
      var (k, v) := DiocKillStates(KillOf(states[0]), w);
      KillTraced(states[0], w);
      KillsOneMore(v.trace[|w.trace|], [], states);
      if k.Ok? {
        var (sum, u) := KillAll(states[1..], v);
        KillsInOrder(states[1..], v);
        KillsOneMore(v.trace[|w.trace|], NewEvents(v, u), states);
        EventsOfSteps(w, v, u);
      } else {
        assert NewEvents(w, v) == [v.trace[|w.trace|]] + [];
      }
    }
  }

  lemma {:induction false} KillsBounded(states: seq<SyncState>, w: World)
    ensures KillAll(states, w).0.Ok? ==> KillAll(states, w).0.value <= 0xFF * |states|
    decreases |states|
  {
    hide DiocKillStates;
    if states != [] {
      var (k, v) := DiocKillStates(KillOf(states[0]), w);
      KillsBounded(states[1..], v);
    }
  }

  /** The calls ask for the first states, in order. */
  predicate KillRequests(events: seq<Event>, states: seq<SyncState>) {
    |events| <= |states| && forall i :: 0 <= i < |events| ==> Kills(events[i], states[i])
  }

  /** The request names the state by family, protocol, interface and hosts. */
  predicate Kills(e: Event, state: SyncState) {
    && e.call.KillStates?
    && var kill := e.call.request;
       && kill.af == state.afLan && kill.proto == state.proto && kill.protoVariant == state.protoVariant
       && kill.ifname == state.ifname && kill.src == state.lan && kill.dst == state.extLan
  }

  lemma KillsOneMore(first: Event, rest: seq<Event>, states: seq<SyncState>)
    requires states != [] && Kills(first, states[0])
    ensures KillRequests(rest, states[1..]) ==> KillRequests([first] + rest, states)
    ensures rest == [] ==> KillRequests(rest, states[1..])
    ensures Counted([first] + rest) == (if first.reply.Count? then first.reply.count else 0) + Counted(rest)
  {
    assert ([first] + rest)[1..] == rest;
  }

  lemma KillTraced(state: SyncState, w: World)
    ensures var (k, v) := DiocKillStates(KillOf(state), w);
            && w.trace <= v.trace && NewEvents(w, v) == [v.trace[|w.trace|]]
            && Kills(v.trace[|w.trace|], state)
            && match k
               case Ok(count) => v.trace[|w.trace|].reply == Count(count)
               case Err(e) => EndsRefused(NewEvents(w, v), e)
  {
  }

  /** It is the part of the snapshot that carries the number, each state as often as there. */
  lemma {:induction false} OfAnchorMeans(states: seq<SyncState>, nr: nat, i: nat, s: SyncState)
    requires i <= |states|
    ensures |OfAnchor(states, nr, i)| <= |states| - i
    ensures multiset(OfAnchor(states, nr, i))[s] == if s.anchor == nr then multiset(states[i..])[s] else 0
    decreases |states| - i
  {
    if i < |states| {
      OfAnchorMeans(states, nr, i + 1, s);
      OfAnchorFirst(states, nr, i);
      SuffixFirst(states, i);
      hide OfAnchor;
      CountsFirst(states[i], states[i + 1..], s);
      CountsFirst(states[i], OfAnchor(states, nr, i + 1), s);
    }
  }

  lemma SuffixFirst(states: seq<SyncState>, i: nat)
    requires i < |states|
    ensures states[i..] == [states[i]] + states[i + 1..]
  {
  }

  lemma OfAnchorFirst(states: seq<SyncState>, nr: nat, i: nat)
    requires i < |states|
    ensures var rest := OfAnchor(states, nr, i + 1);
            OfAnchor(states, nr, i) == if states[i].anchor == nr then [states[i]] + rest else rest
  {
  }

  lemma CountsFirst(first: SyncState, rest: seq<SyncState>, s: SyncState)
    ensures multiset([first] + rest)[s] == multiset(rest)[s] + if s == first then 1 else 0
  {
  }

  /** These are states found at these rising places, none before number `i`. */
  predicate Rising(picked: seq<SyncState>, places: seq<nat>, states: seq<SyncState>, i: nat) {
    && |places| == |picked|
    && (forall k :: 0 <= k < |places| ==> i <= places[k] < |states| && picked[k] == states[places[k]])
    && (forall j, k :: 0 <= j < k < |places| ==> places[j] < places[k])
  }

  /** These are the places from number `i` on of the states that carry the number. */
  predicate Complete(places: seq<nat>, states: seq<SyncState>, nr: nat, i: nat) {
    forall p :: i <= p < |states| ==> (states[p].anchor == nr <==> p in places)
  }

  predicate PickedAt(picked: seq<SyncState>, places: seq<nat>, states: seq<SyncState>, nr: nat, i: nat) {
    Rising(picked, places, states, i) && Complete(places, states, nr, i)
  }

  lemma RisingFirst(picked: seq<SyncState>, places: seq<nat>, states: seq<SyncState>, i: nat)
    requires i < |states| && Rising(picked, places, states, i + 1)
    ensures Rising([states[i]] + picked, [i] + places, states, i)
  {
  }

  lemma InFirst(first: nat, rest: seq<nat>, p: nat)
    ensures p in [first] + rest <==> p == first || p in rest
  {
  }

  lemma CompleteFirst(places: seq<nat>, states: seq<SyncState>, nr: nat, i: nat)
    requires i < |states| && states[i].anchor == nr && Complete(places, states, nr, i + 1)
    ensures Complete([i] + places, states, nr, i)
  {
    forall p | i <= p < |states|
      ensures states[p].anchor == nr <==> p in [i] + places
    {
      InFirst(i, places, p);
    }
  }

  lemma PickFirst(picked: seq<SyncState>, places: seq<nat>, states: seq<SyncState>, nr: nat, i: nat)
    requires i < |states| && states[i].anchor == nr && PickedAt(picked, places, states, nr, i + 1)
    ensures PickedAt([states[i]] + picked, [i] + places, states, nr, i)
  {
    hide Rising, Complete;
    RisingFirst(picked, places, states, i);
    CompleteFirst(places, states, nr, i);
  }

  lemma PickNone(picked: seq<SyncState>, places: seq<nat>, states: seq<SyncState>, nr: nat, i: nat)
    requires i < |states| && states[i].anchor != nr && PickedAt(picked, places, states, nr, i + 1)
    ensures PickedAt(picked, places, states, nr, i)
  {
  }

  /** The filtered states are in the order of the snapshot, and none is left out. */
  lemma {:induction false} OfAnchorInOrder(states: seq<SyncState>, nr: nat, i: nat) returns (places: seq<nat>)
    requires i <= |states|
    ensures PickedAt(OfAnchor(states, nr, i), places, states, nr, i)
    decreases |states| - i
  {
    places := [];
    if i < |states| {
      hide PickedAt, OfAnchor;
      OfAnchorFirst(states, nr, i);
      places := OfAnchorInOrder(states, nr, i + 1);
      if states[i].anchor == nr {
        PickFirst(OfAnchor(states, nr, i + 1), places, states, nr, i);
        places := [i] + places;
      } else {
        PickNone(OfAnchor(states, nr, i + 1), places, states, nr, i);
      }
    }
  }

  /** The calls of clearing states that ended with `r`, in three stretches. */
  predicate Clears(
    name: Text, action: byte, s: Result<seq<SyncState>, Error>, found: Result<nat, Error>,
    snapshot: seq<Event>, search: seq<Event>, kills: seq<Event>, r: Result<nat, Error>)
  {
    && SnapshotCalls(snapshot, s)
    && match s
       case Err(e) => search == [] && kills == [] && r == Err(e)
       case Ok(states) =>
         if states == [] then search == [] && kills == [] && r == Ok(0)
         else
           // the count, and the rules up to the first one with the name
           && SearchCalls(search, name, action, found)
           && match found
              case Err(e) => kills == [] && r == Err(e)
              case Ok(nr) =>
                // one request per state of the snapshot that carries the number found, in order
                && KillRequests(kills, OfAnchor(states, nr, 0))
                && match r
                   case Ok(sum) => |kills| == |OfAnchor(states, nr, 0)| && sum == Counted(kills) && sum < 0x1_0000_0000
                   case Err(e) => EndsRefused(kills, e)
  }

  /**
   * Clearing the states of an anchor from end to end, whatever changes between its calls. The
   * anchor is reported missing if and only if there was a snapshot with states, every rule was
   * read and none has the name; any other error is that of the last call.
   */
  lemma ClearStatesMeans(name: Text, kind: RulesetKind, w: World)
    returns (
      s: Result<seq<SyncState>, Error>, found: Result<nat, Error>,
      snapshot: seq<Event>, search: seq<Event>, kills: seq<Event>)
    ensures var (r, v) := ClearStates(name, kind, w);
            && w.trace <= v.trace
            && NewEvents(w, v) == snapshot + search + kills
            && Clears(name, ActionFor(kind), s, found, snapshot, search, kills, r)
            && (r == Err(AnchorDoesNotExist) <==>
                  s.Ok? && s.value != [] && Missed(search, name, ActionFor(kind)))
            && (r.Err? && r.error != AnchorDoesNotExist ==> EndsRefused(NewEvents(w, v), r.error))
  {
    hide GetStatesInner, FindAnchor, KillAll, OfAnchor, SnapshotCalls, KillRequests, Counted, RefusalError;
    hide AnchorAction, ActionFor;
    hide SearchCalls, Missed;
    var (s', v1) := GetStatesInner(w);
    SnapshotTakesTwoCalls(w);
    s, found, snapshot, search, kills := s', Err(AnchorDoesNotExist), NewEvents(w, v1), [], [];
    assert snapshot + [] + [] == snapshot;
    RefusalIsOther();
    SnapshotError(snapshot, s);
    if s.Ok? && s.value != [] {
      var states := s.value;
      var (found', v2) := FindAnchor(name, kind, v1);
      FindTraced(name, kind, v1);
      found, search := found', NewEvents(v1, v2);
      SearchError(search, name, ActionFor(kind), found);
      EventsOfSteps(w, v1, v2);
      assert snapshot + search + [] == snapshot + search;
      if found.Ok? {
        var v3 := KillAll(OfAnchor(states, found.value, 0), v2).1;
        KillsInOrder(OfAnchor(states, found.value, 0), v2);
        KillCountFits(w, found.value, v2);
        kills := NewEvents(v2, v3);
        EventsOfSteps(w, v2, v3);
      }
    }
  }

  lemma SnapshotError(events: seq<Event>, s: Result<seq<SyncState>, Error>)
    requires SnapshotCalls(events, s)
    ensures s.Err? ==> EndsRefused(events, s.error) && s.error != AnchorDoesNotExist
  {
    hide Reads;
  }

  lemma SnapshotIsBounded(w: World)
    ensures GetStatesInner(w).0.Ok? ==> |GetStatesInner(w).0.value| <= 0xFFFF_FFFF / STATE_SIZE
  {
  }

  /** The sum of the one-byte counts over a snapshot never overflows 32 bits. */
  lemma KillCountFits(w: World, nr: nat, w': World)
    requires GetStatesInner(w).0.Ok?
    ensures var (r, _) := KillAll(OfAnchor(GetStatesInner(w).0.value, nr, 0), w');
            r.Ok? ==> r.value < 0x1_0000_0000
  {
    var states := GetStatesInner(w).0.value;
    SnapshotIsBounded(w);
    OfAnchorMeans(states, nr, 0, ZERO_STATE);
    KillsBounded(OfAnchor(states, nr, 0), w');
  }

  // ---- Clearing the states of an anchor that is not there ----

  /**
   * The documentation promises AnchorDoesNotExist for an anchor that does not exist. That holds
   * exactly when the firewall has states: without any the main ruleset is never looked at.
   */
  lemma MissingAnchorIsReportedExactly(name: Text, kind: RulesetKind, w: World)
    requires Steady(MainOf(kind), w.plan) && AllServe(w.plan) && !Listed(List(w, kind), name)
    ensures var num := NumStates(w.Turned().outside.statesLength);
            && (ClearStates(name, kind, w).0 == Err(AnchorDoesNotExist) <==> num > 0)
            && (num == 0 ==> ClearStates(name, kind, w).0 == Ok(0))
  {
    hide FindAnchor, Listed, NumStates, AsI32, KillAll, Steady;
    var (s, v) := GetStatesInner(w);
    SnapshotStill(w);
    if s.value != [] {
      ListStays(kind, w, v);
      LaterKeeps(w.plan, v.plan);
      FindAnchorMeans(name, kind, v);
      var (found, u) := FindAnchor(name, kind, v);
      if found.Ok? {
        CalledIsListed(List(v, kind), found.value);
      }
    }
  }

  lemma SnapshotStill(w: World)
    requires AllServe(w.plan)
    ensures var (s, v) := GetStatesInner(w);
            && s.Ok? && |s.value| == NumStates(w.Turned().outside.statesLength)
            && Later(w.plan, v.plan) && Unchanged(w, v)
  {
    hide NumStates, AsI32, RequestLength, Steady, Later;
    var (g, v) := DiocGetStates(0, w);
    TurnStill(w);
    TurnStill(v);
    TurnIsServed(w);
    LaterKeeps(w.plan, v.plan);
    TurnIsServed(v);
    LaterTransitive(w.plan, v.plan, v.Turned().plan);
    UnchangedTransitive(w, v, v.Turned());
  }

  /** A firewall without states and without anchors. */
  const EMPTY := World(
    map[], Scratch(map[], map[], [], 0), Outside(RawIfaceTable(0, []), 0, [], 0), [], [])

  /** There, clearing a missing anchor succeeds. */
  lemma MissingAnchorCanGoUnnoticed()
    ensures !Listed(List(EMPTY, RulesetKind.Filter), [120])
    ensures ClearStates([120], RulesetKind.Filter, EMPTY).0 == Ok(0)
  {
    MissingAnchorIsReportedExactly([120], RulesetKind.Filter, EMPTY);
  }
}
