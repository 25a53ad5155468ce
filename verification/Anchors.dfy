// Anchors of the main ruleset: adding, finding and removing them.
module Anchors {
  import opened Prelude
  import opened Ffi
  import opened CStrings
  import opened Rules
  import opened Encoding
  import opened Decoding
  import opened PfKernel
  import opened CommitSpec
  import opened CommitProofs
  import opened CommitTrace

  // ---- The operations ----

  /** The rule of a request to add an anchor: nothing but its action. */
  function AnchorRequest(kind: RulesetKind): RawRule {
    ZERO_RULE.(codes := ZERO_CODES.(action := AnchorAction(kind)))
  }

  function AddAnchor(name: Text, kind: RulesetKind, w: World): (Result<(), Error>, World) {
    match AnchorOver(name, Zeros(ANCHOR_SIZE))
    case Err(e) => (Err(e), w)
    case Ok(call) => DiocInsertRule(AnchorRequest(kind), call, w)
  }

  /** The search behind `with_anchor_rule`: reads rule after rule up to the count it was first told. */
  function Search(name: Text, action: byte, i: nat, count: nat, w: World): (Result<nat, Error>, World)
    requires i <= count
    decreases count - i
  {
    if i == count then (Err(AnchorDoesNotExist), w)
    else
      var (b, v) := DiocGetRule(action, i, w);
      if b.Err? then (Err(b.error), v)
      else if CompareCstrSafe(name, b.value) then (Ok(i), v)
      else Search(name, action, i + 1, count, v)
  }

  function FindAnchor(name: Text, kind: RulesetKind, w: World): (Result<nat, Error>, World) {
    var (c, v) := DiocGetRules(AnchorAction(kind), w);
    if c.Err? then (Err(c.error), v) else Search(name, AnchorAction(kind), 0, c.value, v)
  }

  function RemoveAnchor(name: Text, kind: RulesetKind, w: World): (Result<(), Error>, World) {
    var (i, v) := FindAnchor(name, kind, w);
    if i.Err? then (Err(i.error), v) else DiocDeleteRule(AnchorAction(kind), i.value, v)
  }

  /** An error of one kind is not an error. */
  function Ignore(r: Result<(), Error>, e: Error): Result<(), Error> {
    if r == Err(e) then Ok(()) else r
  }

  datatype Operation =
    | Add(name: Text, kind: RulesetKind)
    | TryAdd(name: Text, kind: RulesetKind)
    | Remove(name: Text, kind: RulesetKind)
    | TryRemove(name: Text, kind: RulesetKind)

  predicate Adding(op: Operation) {
    op.Add? || op.TryAdd?
  }

  /** The operation without the forgiveness of its try form. */
  function Plainly(op: Operation, w: World): (Result<(), Error>, World) {
    if Adding(op) then AddAnchor(op.name, op.kind, w) else RemoveAnchor(op.name, op.kind, w)
  }

  /** What is returned when the plain operation ends with `r`. */
  function Report(op: Operation, r: Result<(), Error>): Result<(), Error> {
    if op.TryAdd? then Ignore(r, StateAlreadyActive)
    else if op.TryRemove? then Ignore(r, AnchorDoesNotExist)
    else r
  }

  function Perform(op: Operation, w: World): (Result<(), Error>, World) {
    var (r, v) := Plainly(op, w);
    (Report(op, r), v)
  }

  // ---- The search against a firewall that changes between its calls ----

  predicate Reads(e: Event, action: byte, i: nat, name: Text, matches: bool) {
    e.call == GetRule(action, i) && e.reply.Found? && (NameOf(e.reply.anchorCall) == name <==> matches)
  }

  /** The reads of a search that ended with `r`. */
  predicate SearchReads(events: seq<Event>, name: Text, action: byte, i: nat, count: nat, r: Result<nat, Error>) {
    && i + |events| <= count
    && (forall k :: 0 <= k < |events| - 1 ==> Reads(events[k], action, i + k, name, false))
    && (r.Ok? ==>
          && events != [] && r.value == i + |events| - 1
          && Reads(events[|events| - 1], action, r.value, name, true))
    && (r == Err(AnchorDoesNotExist) <==>
        i + |events| == count && forall k :: 0 <= k < |events| ==> Reads(events[k], action, i + k, name, false))
    && (r.Err? && r.error != AnchorDoesNotExist ==>
          events != [] && events[|events| - 1].call == GetRule(action, i + |events| - 1)
          && events[|events| - 1].reply.Failed? && r.error == RefusalError(events[|events| - 1].reply.errno))
  }

  /**
   * Whatever is read: the indices are read in order without gaps, all below the first count; the
   * result is the first index whose name matches; and the anchor is reported missing exactly
   * when every index was read and none matched.
   */
  lemma {:induction false} SearchIsFirstMatch(name: Text, action: byte, i: nat, count: nat, w: World)
    requires i <= count
    ensures var (r, v) := Search(name, action, i, count, w);
            w.trace <= v.trace && SearchReads(NewEvents(w, v), name, action, i, count, r)
    decreases count - i
  {
    hide DiocGetRule, UntilNul, NameOf, RefusalError;
    if i < count {
      var (b, u) := DiocGetRule(action, i, w);
      ReadTraced(action, i, w);
      var first := u.trace[|w.trace|];
      assert NewEvents(w, u) == [first];
      if b.Ok? && !CompareCstrSafe(name, b.value) {
        var (r, v) := Search(name, action, i + 1, count, u);
        SearchIsFirstMatch(name, action, i + 1, count, u);
        assert Reads(first, action, i, name, false);
        SearchOneMore(first, NewEvents(u, v), name, action, i, count, r);
        assert NewEvents(w, v) == [first] + NewEvents(u, v);
      }
    }
  }

  lemma ReadTraced(action: byte, i: nat, w: World)
    ensures var (b, u) := DiocGetRule(action, i, w);
            && w.trace <= u.trace && |u.trace| == |w.trace| + 1 && u.trace[|w.trace|].call == GetRule(action, i)
            && match b
               case Ok(call) => u.trace[|w.trace|].reply == Found(call) && NameOf(call) == UntilNul(call).value
               case Err(e) =>
                 && e != AnchorDoesNotExist
                 && u.trace[|w.trace|].reply.Failed? && e == RefusalError(u.trace[|w.trace|].reply.errno)
  {
  }

  lemma SearchOneMore(
    first: Event, rest: seq<Event>, name: Text, action: byte, i: nat, count: nat, r: Result<nat, Error>)
    requires i < count && Reads(first, action, i, name, false)
    requires SearchReads(rest, name, action, i + 1, count, r)
    requires rest == [] ==> r == Err(AnchorDoesNotExist)
    ensures SearchReads([first] + rest, name, action, i, count, r)
  {
    hide Reads;
    var events := [first] + rest;
    forall k | 0 < k < |events|
      ensures events[k] == rest[k - 1]
    {
    }
    if r == Err(AnchorDoesNotExist) {
      forall k | 0 <= k < |events|
        ensures Reads(events[k], action, i + k, name, false)
      {
        assert k > 0 ==> Reads(rest[k - 1], action, i + 1 + (k - 1), name, false);
      }
    }
    if i + |events| == count && forall k :: 0 <= k < |events| ==> Reads(events[k], action, i + k, name, false) {
      forall k | 0 <= k < |rest|
        ensures Reads(rest[k], action, i + 1 + k, name, false)
      {
        assert Reads(events[k + 1], action, i + (k + 1), name, false);
      }
    }
    forall k | 0 <= k < |events| - 1
      ensures Reads(events[k], action, i + k, name, false)
    {
      assert k > 0 ==> Reads(rest[k - 1], action, i + 1 + (k - 1), name, false);
    }
  }

  // ---- The calls of the operations, whatever the firewall answers ----

  /** The calls ended with a refusal, and this is its error. */
  predicate EndsRefused(events: seq<Event>, e: Error) {
    events != [] && events[|events| - 1].reply.Failed? && e == RefusalError(events[|events| - 1].reply.errno)
  }

  lemma RefusalIsOther()
    ensures forall errno :: RefusalError(errno) != AnchorDoesNotExist
  {
  }

  /** The calls of a search for an anchor that ended with `found`: the count, then the reads. */
  predicate SearchCalls(search: seq<Event>, name: Text, action: byte, found: Result<nat, Error>) {
    && search != [] && search[0].call == GetRules(action)
    && match search[0].reply
       case Count(count) => count >= 0 && SearchReads(search[1..], name, action, 0, count, found)
       case _ => |search| == 1 && found.Err? && EndsRefused(search, found.error)
  }

  /** Every rule was read, and none has the name. */
  predicate Missed(search: seq<Event>, name: Text, action: byte) {
    && search != [] && search[0].reply.Count? && |search| == 1 + search[0].reply.count
    && forall k :: 1 <= k < |search| ==> Reads(search[k], action, k - 1, name, false)
  }

  /** A search reports the anchor missing exactly when it missed it; its other errors are refusals. */
  lemma SearchError(search: seq<Event>, name: Text, action: byte, found: Result<nat, Error>)
    requires SearchCalls(search, name, action, found)
    ensures found == Err(AnchorDoesNotExist) <==> Missed(search, name, action)
    ensures found.Err? && found.error != AnchorDoesNotExist ==> EndsRefused(search, found.error)
  {
    hide Reads;
    if search[0].reply.Count? {
      var looks := search[1..];
      assert forall k :: 0 <= k < |looks| ==> looks[k] == search[k + 1];
      if forall k :: 0 <= k < |looks| ==> Reads(looks[k], action, k, name, false) {
        forall k | 1 <= k < |search|
          ensures Reads(search[k], action, k - 1, name, false)
        {
          assert search[k] == looks[k - 1];
        }
      }
      if Missed(search, name, action) {
        forall k | 0 <= k < |looks|
          ensures Reads(looks[k], action, k, name, false)
        {
          assert Reads(search[k + 1], action, k + 1 - 1, name, false);
        }
      }
    }
  }

  /** The calls of a search: the count, then the reads. */
  lemma FindTraced(name: Text, kind: RulesetKind, w: World)
    ensures var (found, v) := FindAnchor(name, kind, w);
            w.trace <= v.trace && SearchCalls(NewEvents(w, v), name, ActionFor(kind), found)
  {
    hide SearchReads, Search, AnchorAction, ActionFor, RulesetOfAction;
    ActionsAgree(kind);
    var (c, u) := DiocGetRules(AnchorAction(kind), w);
    if c.Ok? {
      SearchIsFirstMatch(name, AnchorAction(kind), 0, c.value, u);
      var v := Search(name, AnchorAction(kind), 0, c.value, u).1;
      assert NewEvents(w, v)[1..] == NewEvents(u, v);
    } else {
      assert NewEvents(w, u) == [u.trace[|w.trace|]];
    }
  }

  lemma ActionsAgree(kind: RulesetKind)
    ensures AnchorAction(kind) == ActionFor(kind) && Bare(AnchorRequest(kind), kind)
  {
  }

  /** Adding an anchor makes one call, with nothing but the kind and the name; its refusal is the error. */
  lemma AddAnchorTraced(name: Text, kind: RulesetKind, w: World)
    ensures var (r, v) := AddAnchor(name, kind, w);
            match NameObjection(name)
            case Some(e) => r == Err(e) && v == w
            case None =>
              && w.trace <= v.trace && |NewEvents(w, v)| == 1 && Fits(name, ANCHOR_SIZE)
              && var e := NewEvents(w, v)[0];
                 && e.call.InsertRule? && Bare(e.call.rule, kind) && e.call.anchorCall == Padded(name, ANCHOR_SIZE)
                 && match r
                    case Ok(_) => e.reply == Done
                    case Err(error) => EndsRefused(NewEvents(w, v), error)
  {
    hide AnchorOver, Padded, Bare, AnchorRequest, Listed, Called, NameOf, MainKey;
    NameErrors(name);
    ActionsAgree(kind);
    if Fits(name, ANCHOR_SIZE) {
      AnchorNameReadBack(name);
    }
  }

  /** Removing an anchor searches it, and deletes the rule of the number found. */
  lemma RemoveAnchorTraced(name: Text, kind: RulesetKind, w: World)
    ensures var (r, v) := RemoveAnchor(name, kind, w);
            var (found, u) := FindAnchor(name, kind, w);
            && w.trace <= u.trace <= v.trace && SearchCalls(NewEvents(w, u), name, ActionFor(kind), found)
            && match found
               case Err(e) => r == Err(e) && v == u
               case Ok(nr) =>
                 && |NewEvents(u, v)| == 1 && NewEvents(u, v)[0].call == DeleteRule(ActionFor(kind), nr)
                 && match r
                    case Ok(_) => NewEvents(u, v)[0].reply == Done
                    case Err(error) => EndsRefused(NewEvents(u, v), error)
  {
    hide FindAnchor, SearchCalls, AnchorAction, ActionFor, MainKey;
    ActionsAgree(kind);
    FindTraced(name, kind, w);
    var (found, u) := FindAnchor(name, kind, w);
  }

  // ---- The main ruleset as anchor names and other rules ----

  function MainOf(kind: RulesetKind): Key {
    Key([], RulesetOf(kind))
  }

  function List(w: World, kind: RulesetKind): seq<Installed> {
    w.ActiveOf(MainOf(kind))
  }

  /** The anchors a ruleset calls. */
  function Names(list: seq<Installed>): set<Text> {
    set i | 0 <= i < |list| && Called(list[i]) != [] :: Called(list[i])
  }

  predicate NoDuplicates(list: seq<Installed>) {
    forall i, j :: 0 <= i < j < |list| && Called(list[i]) == Called(list[j]) ==> Called(list[i]) == []
  }

  /** The rules of a ruleset that call no anchor, in order. */
  function Others(list: seq<Installed>): seq<Installed> {
    if list == [] then []
    else Kept(list[0]) + Others(list[1..])
  }

  function Kept(i: Installed): seq<Installed> {
    if Called(i) == [] then [i] else []
  }

  lemma OthersFirst(first: Installed, rest: seq<Installed>)
    ensures Others([first] + rest) == Kept(first) + Others(rest)
  {
    hide Kept;
    assert ([first] + rest)[1..] == rest;
  }

  lemma {:induction false} OthersConcat(a: seq<Installed>, b: seq<Installed>)
    ensures Others(a + b) == Others(a) + Others(b)
  {
    if a == [] {
      assert a + b == b;
    } else {
      hide Others, Kept;
      var first, rest := a[0], a[1..];
      assert a == [first] + rest;
      Regroup([first], rest, b);
      OthersFirst(first, rest + b);
      OthersConcat(rest, b);
      OthersFirst(first, rest);
      Regroup(Kept(first), Others(rest), Others(b));
    }
  }

  lemma {:induction false} OthersOfAnchors(list: seq<Installed>)
    requires forall i :: 0 <= i < |list| ==> Called(list[i]) != []
    ensures Others(list) == []
  {
    hide Called;
    if list != [] {
      OthersOfAnchors(list[1..]);
    }
  }

  function Inserted(list: seq<Installed>, entry: Installed, at: nat): seq<Installed>
    requires at <= |list|
  {
    list[..at] + [entry] + list[at..]
  }

  function Deleted(list: seq<Installed>, i: nat): seq<Installed>
    requires i < |list|
  {
    list[..i] + list[i + 1..]
  }

  lemma OthersAround(a: seq<Installed>, entry: Installed, b: seq<Installed>)
    ensures Others(a + [entry] + b) == Others(a) + Kept(entry) + Others(b)
    ensures Others(a + b) == Others(a) + Others(b)
  {
    hide Kept, Others;
    Regroup(a, [entry], b);
    OthersConcat(a, [entry] + b);
    OthersFirst(entry, b);
    Regroup(Others(a), Kept(entry), Others(b));
    OthersConcat(a, b);
  }

  lemma InsertedOthers(list: seq<Installed>, entry: Installed, at: nat)
    requires at <= |list|
    ensures Called(entry) != [] ==> Others(Inserted(list, entry, at)) == Others(list)
    ensures Called(entry) == [] ==> |Others(Inserted(list, entry, at))| == |Others(list)| + 1
  {
    hide Called, Others;
    OthersAround(list[..at], entry, list[at..]);
    assert list[..at] + list[at..] == list;
  }

  lemma DeletedOthers(list: seq<Installed>, i: nat)
    requires i < |list|
    ensures Called(list[i]) != [] ==> Others(Deleted(list, i)) == Others(list)
    ensures Called(list[i]) == [] && (forall k :: 0 <= k < i ==> Called(list[k]) != []) ==>
              Others(list) == [list[i]] + Others(Deleted(list, i))
  {
    hide Called, Others;
    OthersAround(list[..i], list[i], list[i + 1..]);
    assert list[..i] + [list[i]] + list[i + 1..] == list;
    if forall k :: 0 <= k < i ==> Called(list[k]) != [] {
      OthersOfAnchors(list[..i]);
    }
  }

  lemma InsertedNames(list: seq<Installed>, entry: Installed, at: nat)
    requires at <= |list| && NoDuplicates(list) && Called(entry) != [] && !Listed(list, Called(entry))
    ensures Names(Inserted(list, entry, at)) == Names(list) + {Called(entry)}
    ensures NoDuplicates(Inserted(list, entry, at))
  {
    hide Called;
    var list' := Inserted(list, entry, at);
    forall i | 0 <= i < |list|
      ensures list[i] == list'[if i < at then i else i + 1]
    {
    }
    assert list'[at] == entry;
    forall i | 0 <= i < |list'|
      ensures list'[i] == if i < at then list[i] else if i == at then entry else list[i - 1]
    {
    }
    forall name | name in Names(list)
      ensures name in Names(list')
    {
      var i :| 0 <= i < |list| && Called(list[i]) == name;
      assert list[i] == list'[if i < at then i else i + 1];
    }
  }

  lemma DeletedNames(list: seq<Installed>, i: nat)
    requires i < |list| && NoDuplicates(list) && Called(list[i]) != []
    ensures Names(Deleted(list, i)) == Names(list) - {Called(list[i])}
    ensures NoDuplicates(Deleted(list, i))
  {
    hide Called;
    var list' := Deleted(list, i);
    forall k | 0 <= k < |list'|
      ensures list'[k] == list[if k < i then k else k + 1]
    {
    }
    forall name | name in Names(list) - {Called(list[i])}
      ensures name in Names(list')
    {
      var k :| 0 <= k < |list| && Called(list[k]) == name;
      assert list[k] == list'[if k < i then k else k - 1];
    }
  }

  lemma ListedNames(list: seq<Installed>, name: Text)
    ensures name != [] ==> (Listed(list, name) <==> name in Names(list))
  {
    hide Called;
  }

  // ---- The operations, while nobody else edits the main ruleset ----

  /** A refusal with EEXIST is kept for names that exist. */
  predicate Candid(plan: seq<Turn>) {
    forall i :: 0 <= i < |plan| && plan[i].Refuse? ==> plan[i].errno != EEXIST
  }

  lemma CandidLater(plan: seq<Turn>, rest: seq<Turn>)
    requires Later(plan, rest) && Candid(plan)
    ensures Candid(rest)
  {
    forall i | 0 <= i < |rest|
      ensures rest[i] == plan[|plan| - |rest| + i]
    {
    }
  }

  /** One main ruleset became `list`, and every other ruleset is as it was. */
  ghost predicate Moves(w: World, w': World, kind: RulesetKind, list: seq<Installed>) {
    && Later(w.plan, w'.plan)
    && w'.ActiveOf(MainOf(kind)) == list
    && (forall key :: key != MainOf(kind) && Steady(key, w.plan) ==> w'.ActiveOf(key) == w.ActiveOf(key))
  }

  function NewAnchor(name: Text, kind: RulesetKind): Installed
    requires Fits(name, ANCHOR_SIZE)
  {
    AnchorNameReadBack(name);
    AnchorRule(AnchorRequest(kind), [], AnchorOver(name, Zeros(ANCHOR_SIZE)).value)
  }

  /** An anchor rule that calls exactly this name and restricts nothing. */
  predicate IsAnchor(entry: Installed, name: Text, kind: RulesetKind) {
    && entry.AnchorRule? && entry.pool == [] && Bare(entry.rule, kind)
    && Fits(name, ANCHOR_SIZE) && entry.call == Padded(name, ANCHOR_SIZE)
  }

  lemma NewAnchorIsBare(name: Text, kind: RulesetKind)
    requires Fits(name, ANCHOR_SIZE)
    ensures IsAnchor(NewAnchor(name, kind), name, kind)
  {
    hide AnchorOver, Padded, AnchorRequest, Bare;
    AnchorNameReadBack(name);
    ActionsAgree(kind);
  }

  lemma NewAnchorCalls(name: Text, kind: RulesetKind)
    requires Fits(name, ANCHOR_SIZE)
    ensures Called(NewAnchor(name, kind)) == name
  {
    hide AnchorOver, NameOf;
    AnchorNameReadBack(name);
  }

  lemma KindOfAction(kind: RulesetKind)
    ensures MainKey(AnchorAction(kind)) == MainOf(kind)
  {
  }

  lemma AddAnchorMeans(name: Text, kind: RulesetKind, w: World) returns (at: nat)
    requires Steady(MainOf(kind), w.plan)
    ensures var (r, v) := AddAnchor(name, kind, w);
            var list := List(w, kind);
            && at <= |list|
            && if NameObjection(name).Some? then r == Err(NameObjection(name).value) && Moves(w, v, kind, list)
               else if w.Turn().Refuse? then r == Err(RefusalError(w.Turn().errno)) && Moves(w, v, kind, list)
               else if name != [] && Listed(list, name) then r == Err(StateAlreadyActive) && Moves(w, v, kind, list)
               else
                 && at == Min(w.Turn().slot, |list|)
                 && r == Ok(()) && Moves(w, v, kind, Inserted(list, NewAnchor(name, kind), at))
                 && IsAnchor(NewAnchor(name, kind), name, kind)
  {
    NameErrors(name);
    hide AnchorOver, NameOf, DiocInsertRule, Moves, Listed, RulesetOf, IsAnchor, NameObjection;
    at := if w.Turn().Serve? then Min(w.Turn().slot, |List(w, kind)|) else 0;
    if Fits(name, ANCHOR_SIZE) {
      AnchorNameReadBack(name);
      NewAnchorIsBare(name, kind);
      InsertMeans(kind, AnchorOver(name, Zeros(ANCHOR_SIZE)).value, w);
    } else {
      StaysPut(kind, w);
    }
  }

  lemma StaysPut(kind: RulesetKind, w: World)
    ensures Moves(w, w, kind, List(w, kind))
  {
  }

  lemma InsertMeans(kind: RulesetKind, call: AnchorCall, w: World)
    requires Steady(MainOf(kind), w.plan)
    ensures var (r, v) := DiocInsertRule(AnchorRequest(kind), call, w);
            var list := List(w, kind);
            match w.Turn()
            case Refuse(errno, _) => r == Err(RefusalError(errno)) && Moves(w, v, kind, list)
            case Serve(_, _, slot) =>
              if NameOf(call) != [] && Listed(list, NameOf(call)) then
                r == Err(StateAlreadyActive) && Moves(w, v, kind, list)
              else
                var entry := AnchorRule(AnchorRequest(kind), [], call);
                r == Ok(()) && Moves(w, v, kind, Inserted(list, entry, Min(slot, |list|)))
  {
    hide AnchorAction, NameOf, RulesetOf, RulesetOfAction, Listed, Steady, Moves;
    KindOfAction(kind);
    assert AnchorRequest(kind).codes.action == AnchorAction(kind);
    TurnMoves(kind, w);
    var entry := AnchorRule(AnchorRequest(kind), [], call);
    var at := if w.Turn().Serve? then Min(w.Turn().slot, |List(w, kind)|) else 0;
    TurnReplaces(kind, Inserted(List(w, kind), entry, at), w);
  }

  lemma TurnMoves(kind: RulesetKind, w: World)
    requires Steady(MainOf(kind), w.plan)
    ensures w.Turned().ActiveOf(MainOf(kind)) == List(w, kind)
    ensures forall call, reply :: Moves(w, w.Turned().Logged(call, reply), kind, List(w, kind))
  {
    TurnStill(w);
  }

  lemma TurnReplaces(kind: RulesetKind, list: seq<Installed>, w: World)
    requires Steady(MainOf(kind), w.plan)
    ensures forall call, reply :: Moves(w, w.Turned().With(MainOf(kind), list).Logged(call, reply), kind, list)
  {
    TurnStill(w);
  }

  /** Taking a turn changes no ruleset that others leave alone. */
  lemma TurnStill(w: World)
    ensures Unchanged(w, w.Turned()) && Later(w.plan, w.Turned().plan)
  {
    if w.plan != [] {
      assert forall key :: Steady(key, w.plan) && w.plan[0].Serve? ==> key !in w.plan[0].edits;
      assert |w.plan[1..]| == |w.plan| - 1;
    }
    hide Steady;
  }

  lemma DeleteMeans(kind: RulesetKind, nr: nat, w: World)
    requires Steady(MainOf(kind), w.plan) && nr < |List(w, kind)|
    ensures var (r, v) := DiocDeleteRule(AnchorAction(kind), nr, w);
            match w.Turn()
            case Refuse(errno, _) => r == Err(RefusalError(errno)) && Moves(w, v, kind, List(w, kind))
            case Serve(_, _, _) => r == Ok(()) && Moves(w, v, kind, Deleted(List(w, kind), nr))
  {
    hide AnchorAction, RulesetOf, RulesetOfAction, Steady, Moves;
    KindOfAction(kind);
    TurnMoves(kind, w);
    TurnReplaces(kind, Deleted(List(w, kind), nr), w);
  }

  /** Changes after a stretch in which nothing moved. */
  lemma MovesAfter(u: World, v: World, w: World, kind: RulesetKind, list: seq<Installed>)
    requires Later(u.plan, v.plan) && Unchanged(u, v) && Moves(v, w, kind, list)
    ensures Moves(u, w, kind, list)
  {
    hide Steady;
    LaterTransitive(u.plan, v.plan, w.plan);
    LaterKeeps(u.plan, v.plan);
  }

  lemma UnchangedTransitive(u: World, v: World, w: World)
    requires Later(u.plan, v.plan) && Unchanged(u, v) && Unchanged(v, w)
    ensures Unchanged(u, w)
  {
    hide Steady;
    LaterKeeps(u.plan, v.plan);
  }

  lemma ListStays(kind: RulesetKind, w: World, v: World)
    requires Steady(MainOf(kind), w.plan) && Unchanged(w, v)
    ensures List(v, kind) == List(w, kind)
  {
  }

  lemma ReadStill(kind: RulesetKind, i: nat, w: World)
    requires Steady(MainOf(kind), w.plan) && i < |List(w, kind)|
    ensures var (b, v) := DiocGetRule(AnchorAction(kind), i, w);
            && Later(w.plan, v.plan) && Unchanged(w, v)
            && match b
               case Ok(call) => UntilNul(call).value == Called(List(w, kind)[i])
               case Err(e) => e != AnchorDoesNotExist && !AllServe(w.plan)
  {
    hide AnchorAction, RulesetOf, RulesetOfAction, UntilNul, Steady, Later;
    KindOfAction(kind);
    TurnStill(w);
    TurnIsServed(w);
  }

  /** Searching a main ruleset that keeps still finds the first rule with the name. */
  lemma {:induction false} SearchStill(name: Text, kind: RulesetKind, i: nat, w: World)
    requires Steady(MainOf(kind), w.plan) && i <= |List(w, kind)|
    ensures var list := List(w, kind);
            var (r, v) := Search(name, AnchorAction(kind), i, |list|, w);
            && Later(w.plan, v.plan) && Unchanged(w, v)
            && match r
               case Ok(n) =>
                 i <= n < |list| && Called(list[n]) == name && forall k :: i <= k < n ==> Called(list[k]) != name
               case Err(e) =>
                 if e == AnchorDoesNotExist then forall k :: i <= k < |list| ==> Called(list[k]) != name
                 else !AllServe(w.plan)
    decreases |List(w, kind)| - i
  {
    hide DiocGetRule, UntilNul, Called, Later, Steady, Unchanged, AllServe;
    if i < |List(w, kind)| {
      ReadStill(kind, i, w);
      var (b, v) := DiocGetRule(AnchorAction(kind), i, w);
      LaterKeeps(w.plan, v.plan);
      if b.Ok? && !CompareCstrSafe(name, b.value) {
        var u := Search(name, AnchorAction(kind), i + 1, |List(w, kind)|, v).1;
        ListStays(kind, w, v);
        SearchStill(name, kind, i + 1, v);
        LaterTransitive(w.plan, v.plan, u.plan);
        UnchangedTransitive(w, v, u);
      }
    } else {
      QuietReflexive(w);
    }
  }

  /** The whole search: the first rule with the name, a miss, or a refused call; nothing has moved. */
  lemma FindAnchorMeans(name: Text, kind: RulesetKind, w: World)
    requires Steady(MainOf(kind), w.plan)
    ensures var (r, v) := FindAnchor(name, kind, w);
            var list := List(w, kind);
            && Later(w.plan, v.plan) && Unchanged(w, v)
            && match r
               case Ok(n) => n < |list| && Called(list[n]) == name && forall k :: 0 <= k < n ==> Called(list[k]) != name
               case Err(e) => if e == AnchorDoesNotExist then !Listed(list, name) else !AllServe(w.plan)
  {
    hide Search, AnchorAction, Called, RulesetOf, RulesetOfAction, Steady, Later;
    KindOfAction(kind);
    TurnStill(w);
    TurnIsServed(w);
    var (c, v) := DiocGetRules(AnchorAction(kind), w);
    if c.Ok? {
      LaterKeeps(w.plan, v.plan);
      SearchStill(name, kind, 0, v);
      LaterTransitive(w.plan, v.plan, FindAnchor(name, kind, w).1.plan);
      UnchangedTransitive(w, v, FindAnchor(name, kind, w).1);
    }
  }

  lemma RemoveAnchorMeans(name: Text, kind: RulesetKind, w: World) returns (i: nat)
    requires Steady(MainOf(kind), w.plan)
    ensures var (r, v) := RemoveAnchor(name, kind, w);
            var list := List(w, kind);
            match r
            case Ok(_) =>
              && r == Ok(()) && i < |list|
              && Called(list[i]) == name && (forall k :: 0 <= k < i ==> Called(list[k]) != name)
              && Moves(w, v, kind, Deleted(list, i))
            case Err(e) =>
              && Moves(w, v, kind, list)
              && if e == AnchorDoesNotExist then !Listed(list, name) else !AllServe(w.plan)
  {
    hide FindAnchor, DiocDeleteRule, AnchorAction, Called, Listed, Moves, RulesetOf, Later, Steady;
    FindAnchorMeans(name, kind, w);
    var (found, v) := FindAnchor(name, kind, w);
    var u := RemoveAnchor(name, kind, w).1;
    LaterKeeps(w.plan, v.plan);
    ListStays(kind, w, v);
    StaysPut(kind, v);
    if found.Ok? {
      i := found.value;
      DeleteMeans(kind, i, v);
      MovesAfter(w, v, u, kind, if v.Turn().Serve? then Deleted(List(v, kind), i) else List(v, kind));
      TurnIsServed(v);
      assert List(v, kind) == List(w, kind);
    } else {
      i := 0;
      MovesAfter(w, v, v, kind, List(w, kind));
    }
  }

  lemma TurnIsServed(w: World)
    ensures AllServe(w.plan) ==> w.Turn().Serve?
    ensures forall errno :: RefusalError(errno) != AnchorDoesNotExist && Guard(errno) != AnchorDoesNotExist
  {
  }

  // ---- Refinement of a set of names per kind ----

  /** What an operation that returned `r` does to a set of names. */
  function NamesAfter(op: Operation, r: Result<(), Error>, names: set<Text>): set<Text> {
    if r.Err? then names else if Adding(op) then names + {op.name} else names - {op.name}
  }

  /** What an operation returns when no call is refused. */
  function Answer(op: Operation, names: set<Text>): Result<(), Error> {
    if Adding(op) then
      if NameObjection(op.name).Some? then Err(NameObjection(op.name).value)
      else if op.name in names && op.Add? then Err(StateAlreadyActive)
      else Ok(())
    else if op.name !in names && op.Remove? then Err(AnchorDoesNotExist)
    else Ok(())
  }

  /** Whatever others do to the main ruleset an operation is about, it touches no other. */
  lemma OperationElsewhere(op: Operation, w: World, key: Key)
    requires key != MainOf(op.kind) && Steady(key, w.plan)
    ensures var w' := Perform(op, w).1; Later(w.plan, w'.plan) && w'.ActiveOf(key) == w.ActiveOf(key)
  {
    hide AnchorOver, NameOf, Search, AnchorAction, RulesetOf, RulesetOfAction, Listed, Steady;
    KindOfAction(op.kind);
    QuietReflexive(w);
    TurnStill(w);
    if !Adding(op) {
      var (found, v) := FindAnchor(op.name, op.kind, w);
      FindAnchorIsQuiet(op.name, op.kind, w);
      TurnStill(v);
      LaterKeeps(w.plan, v.plan);
      LaterTransitive(w.plan, v.plan, v.Turned().plan);
    }
  }

  lemma FindAnchorIsQuiet(name: Text, kind: RulesetKind, w: World)
    ensures var v := FindAnchor(name, kind, w).1; Later(w.plan, v.plan) && Unchanged(w, v)
  {
    hide Search, AnchorAction, RulesetOfAction, Steady, Later;
    var (c, v) := DiocGetRules(AnchorAction(kind), w);
    TurnStill(w);
    if c.Ok? {
      var u := FindAnchor(name, kind, w).1;
      SearchIsQuiet(name, AnchorAction(kind), 0, c.value, v);
      LaterTransitive(w.plan, v.plan, u.plan);
      UnchangedTransitive(w, v, u);
    }
  }

  lemma ReadIsQuiet(action: byte, i: nat, w: World)
    ensures var v := DiocGetRule(action, i, w).1; Later(w.plan, v.plan) && Unchanged(w, v)
  {
    hide CallOf, Steady, Later;
    TurnStill(w);
  }

  lemma {:induction false} SearchIsQuiet(name: Text, action: byte, i: nat, count: nat, w: World)
    requires i <= count
    ensures var v := Search(name, action, i, count, w).1; Later(w.plan, v.plan) && Unchanged(w, v)
    decreases count - i
  {
    hide DiocGetRule, UntilNul, Steady, Later, Unchanged;
    QuietReflexive(w);
    if i < count {
      var (b, v) := DiocGetRule(action, i, w);
      ReadIsQuiet(action, i, w);
      if b.Ok? && !CompareCstrSafe(name, b.value) {
        var u := Search(name, action, i + 1, count, v).1;
        SearchIsQuiet(name, action, i + 1, count, v);
        LaterTransitive(w.plan, v.plan, u.plan);
        UnchangedTransitive(w, v, u);
      }
    }
  }

  /**
   * One operation, seen by one ruleset nobody else edits: if the plain operation succeeds, the names
   * of its own main ruleset change as it says, otherwise nothing does; rules that call no anchor
   * stay, and no name is there twice. Where EEXIST is kept for names that exist, the result that is
   * returned tells as much as that of the plain operation.
   */
  lemma StepRefines(op: Operation, w: World, key: Key)
    requires Steady(key, w.plan) && NoDuplicates(w.ActiveOf(key)) && (key == MainOf(op.kind) ==> op.name != [])
    ensures var (plain, w') := Plainly(op, w);
            var (list, list') := (w.ActiveOf(key), w'.ActiveOf(key));
            && Later(w.plan, w'.plan)
            && NoDuplicates(list') && Others(list') == Others(list)
            && Names(list') == (if key == MainOf(op.kind) then NamesAfter(op, plain, Names(list)) else Names(list))
            && (key == MainOf(op.kind) ==>
                  && (Candid(w.plan) ==>
                        NamesAfter(op, plain, Names(list)) == NamesAfter(op, Report(op, plain), Names(list)))
                  && (AllServe(w.plan) ==> Report(op, plain) == Answer(op, Names(list))))
  {
    hide AddAnchor, RemoveAnchor, AnchorOver, Called, Listed, Names, NoDuplicates, Others, RulesetOf, Steady;
    if key != MainOf(op.kind) {
      OperationElsewhere(op, w, key);
    } else {
      var list := List(w, op.kind);
      ListedNames(list, op.name);
      assert op.name in Names(list) ==> Names(list) + {op.name} == Names(list);
      assert op.name !in Names(list) ==> Names(list) - {op.name} == Names(list);
      if Adding(op) {
        NameError(op.name);
        var at := AddAnchorMeans(op.name, op.kind, w);
        if Fits(op.name, ANCHOR_SIZE) && w.Turn().Serve? && !Listed(list, op.name) {
          var entry := NewAnchor(op.name, op.kind);
          NewAnchorCalls(op.name, op.kind);
          InsertedNames(list, entry, at);
          InsertedOthers(list, entry, at);
        }
      } else {
        var i := RemoveAnchorMeans(op.name, op.kind, w);
        if RemoveAnchor(op.name, op.kind, w).0.Ok? {
          CalledIsListed(list, i);
          DeletedNames(list, i);
          DeletedOthers(list, i);
        }
      }
    }
  }

  lemma NameError(name: Text)
    ensures NameObjection(name).Some? <==> !Fits(name, ANCHOR_SIZE)
    ensures NameObjection(name).Some? ==> NameObjection(name).value.InvalidAnchorName?
  {
  }

  lemma CalledIsListed(list: seq<Installed>, i: nat)
    requires i < |list|
    ensures Listed(list, Called(list[i]))
  {
  }

  /** The results of the plain operations; what is returned is their report. */
  function Run(ops: seq<Operation>, w: World): (seq<Result<(), Error>>, World) {
    if ops == [] then ([], w)
    else
      var (r, v) := Plainly(ops[0], w);
      var (rest, u) := Run(ops[1..], v);
      ([r] + rest, u)
  }

  function Reports(ops: seq<Operation>, plain: seq<Result<(), Error>>): seq<Result<(), Error>>
    requires |ops| == |plain|
  {
    seq(|ops|, i requires 0 <= i < |ops| => Report(ops[i], plain[i]))
  }

  /** The names of one kind after operations with these results. */
  function NamesAfterAll(
    ops: seq<Operation>, results: seq<Result<(), Error>>, kind: RulesetKind, names: set<Text>): set<Text>
    requires |ops| == |results|
  {
    if ops == [] then names
    else
      NamesAfterAll(
        ops[1..], results[1..], kind, if ops[0].kind == kind then NamesAfter(ops[0], results[0], names) else names)
  }

  /**
   * Over any sequence of operations, any of them refused at any step, a main ruleset that nobody
   * else edits behaves as a set of names on which the successful operations of its kind alone act.
   * No name is ever there twice, and rules that call no anchor stay as they are. Where EEXIST is
   * kept for names that exist, the results that are returned say which operations succeeded.
   */
  lemma {:induction false} LifecycleRefinesNames(ops: seq<Operation>, w: World, kind: RulesetKind)
    requires Steady(MainOf(kind), w.plan) && NoDuplicates(List(w, kind))
    requires forall i :: 0 <= i < |ops| && ops[i].kind == kind ==> ops[i].name != []
    ensures var (plain, w') := Run(ops, w);
            && |plain| == |ops|
            && Names(List(w', kind)) == NamesAfterAll(ops, plain, kind, Names(List(w, kind)))
            && NoDuplicates(List(w', kind)) && Others(List(w', kind)) == Others(List(w, kind))
            && (Candid(w.plan) ==>
                  Names(List(w', kind)) == NamesAfterAll(ops, Reports(ops, plain), kind, Names(List(w, kind))))
  {
    hide Plainly, Report, NamesAfter, Names, NoDuplicates, Others, Steady, Candid;
    if ops != [] {
      var (r, v) := Plainly(ops[0], w);
      var rest := Run(ops[1..], v).0;
      MainOfKind(ops[0].kind, kind);
      StepRefines(ops[0], w, MainOf(kind));
      LaterKeeps(w.plan, v.plan);
      if Candid(w.plan) {
        CandidLater(w.plan, v.plan);
      }
      LifecycleRefinesNames(ops[1..], v, kind);
      var reports := Reports(ops[1..], rest);
      ReportsFirst(ops, r, rest);
      NamesAfterFirst(ops, r, rest, kind, Names(List(w, kind)));
      NamesAfterFirst(ops, Report(ops[0], r), reports, kind, Names(List(w, kind)));
      hide Reports, NamesAfterAll;
    }
  }

  lemma ReportsFirst(ops: seq<Operation>, r: Result<(), Error>, rest: seq<Result<(), Error>>)
    requires |ops| == 1 + |rest|
    ensures Reports(ops, [r] + rest) == [Report(ops[0], r)] + Reports(ops[1..], rest)
  {
  }

  lemma NamesAfterFirst(
    ops: seq<Operation>, r: Result<(), Error>, rest: seq<Result<(), Error>>, kind: RulesetKind, names: set<Text>)
    requires |ops| == 1 + |rest|
    ensures NamesAfterAll(ops, [r] + rest, kind, names)
            == NamesAfterAll(ops[1..], rest, kind,
                             if ops[0].kind == kind then NamesAfter(ops[0], r, names) else names)
  {
    hide NamesAfter;
    assert ([r] + rest)[1..] == rest;
  }

  lemma MainOfKind(a: RulesetKind, b: RulesetKind)
    ensures MainOf(a) == MainOf(b) <==> a == b
  {
  }

  /** Repeating an operation in its try form changes no ruleset and succeeds. */
  lemma TryFormsAreIdempotent(op: Operation, w: World, key: Key)
    requires Steady(MainOf(op.kind), w.plan) && AllServe(w.plan) && (op.TryAdd? || op.TryRemove?) && op.name != []
    requires NoDuplicates(List(w, op.kind)) && Perform(op, w).0.Ok?
    ensures var w1 := Perform(op, w).1;
            && Perform(op, w1).0 == Ok(())
            && (Steady(key, w.plan) ==> Perform(op, w1).1.ActiveOf(key) == w1.ActiveOf(key))
  {
    hide AddAnchor, RemoveAnchor, AnchorOver, Called, Listed, Names, NoDuplicates, Others, RulesetOf, Steady;
    var w1 := Perform(op, w).1;
    StepRefines(op, w, MainOf(op.kind));
    LaterKeeps(w.plan, w1.plan);
    ListedNames(List(w1, op.kind), op.name);
    if op.TryAdd? {
      var at := AddAnchorMeans(op.name, op.kind, w);
      var _ := AddAnchorMeans(op.name, op.kind, w1);
    } else {
      var i := RemoveAnchorMeans(op.name, op.kind, w1);
      if RemoveAnchor(op.name, op.kind, w1).0.Ok? {
        CalledIsListed(List(w1, op.kind), i);
      }
    }
  }

  /** Without the assumption on EEXIST: a successful try_add means that the name is there, unless
      the call was refused with that very errno while it was not. */
  lemma TryAddTells(name: Text, kind: RulesetKind, w: World)
    requires Steady(MainOf(kind), w.plan) && name != [] && Perform(TryAdd(name, kind), w).0.Ok?
    ensures Listed(List(Perform(TryAdd(name, kind), w).1, kind), name) <==>
            Listed(List(w, kind), name) || w.Turn().Serve? || w.Turn().errno != EEXIST
  {
    hide AddAnchor, Called;
    var at := AddAnchorMeans(name, kind, w);
    if Fits(name, ANCHOR_SIZE) {
      NewAnchorCalls(name, kind);
      assert Inserted(List(w, kind), NewAnchor(name, kind), at)[at] == NewAnchor(name, kind);
    }
  }

  // ---- The name that is no name ----

  /** Adding and removing leave the rules that call no anchor alone exactly if the name is not empty. */
  lemma EmptyNameIsNoAnchor(name: Text, kind: RulesetKind, w: World)
    requires Steady(MainOf(kind), w.plan)
    ensures var (r, v) := AddAnchor(name, kind, w);
            r.Ok? ==> |Others(List(v, kind))| == |Others(List(w, kind))| + if name == [] then 1 else 0
    ensures var (r, v) := RemoveAnchor(name, kind, w);
            r.Ok? ==>
              if name == [] then Others(List(w, kind)) != [] && Others(List(v, kind)) == Others(List(w, kind))[1..]
              else Others(List(v, kind)) == Others(List(w, kind))
  {
    hide AddAnchor, RemoveAnchor, Called, Listed, Others, RulesetOf, AnchorOver;
    var list := List(w, kind);
    var at := AddAnchorMeans(name, kind, w);
    if AddAnchor(name, kind, w).0.Ok? {
      NewAnchorCalls(name, kind);
      InsertedOthers(list, NewAnchor(name, kind), at);
    }
    var i := RemoveAnchorMeans(name, kind, w);
    if RemoveAnchor(name, kind, w).0.Ok? {
      DeletedOthers(list, i);
    }
  }

  /** Adding this name and removing it again leaves every ruleset as it was. */
  ghost predicate Restores(name: Text, kind: RulesetKind, w: World) {
    var (r, w1) := AddAnchor(name, kind, w);
    r.Ok? ==>
      var (r', w2) := RemoveAnchor(name, kind, w1);
      r' == Ok(()) && Unchanged(w, w2)
  }

  lemma RemoveUndoesAdd(name: Text, kind: RulesetKind, w: World)
    requires Steady(MainOf(kind), w.plan) && AllServe(w.plan) && name != []
    ensures Restores(name, kind, w)
  {
    hide AddAnchor, RemoveAnchor, Called, Listed, RulesetOf, AnchorOver, Inserted, Deleted, NewAnchor, Steady;
    var (r, w1) := AddAnchor(name, kind, w);
    if r.Ok? {
      var list := List(w, kind);
      var at := AddAnchorMeans(name, kind, w);
      NewAnchorCalls(name, kind);
      LaterKeeps(w.plan, w1.plan);
      var i := RemoveAnchorMeans(name, kind, w1);
      InsertedIsListed(list, NewAnchor(name, kind), at);
      FoundAgain(list, NewAnchor(name, kind), at, i);
    }
  }

  lemma InsertedIsListed(list: seq<Installed>, entry: Installed, at: nat)
    requires at <= |list|
    ensures Listed(Inserted(list, entry, at), Called(entry)) && |Inserted(list, entry, at)| == |list| + 1
  {
    hide Called;
    assert Inserted(list, entry, at)[at] == entry;
  }

  lemma FoundAgain(list: seq<Installed>, entry: Installed, at: nat, i: nat)
    requires at <= |list| && i <= |list| && !Listed(list, Called(entry))
    requires Called(Inserted(list, entry, at)[i]) == Called(entry)
    ensures Deleted(Inserted(list, entry, at), i) == list
  {
    hide Called;
    assert i == at;
  }

  /** A firewall whose main filter ruleset has one rule, which calls no anchor. */
  const ONE_RULE := World(
    map[Key([], PF_RULESET_FILTER) := [Installed(ZERO_RULE, [])]], Scratch(map[], map[], [], 0),
    Outside(RawIfaceTable(0, []), 0, [], 0), [Serve(None, map[], 1)], [])

  /** There, adding and removing the empty name removes that rule and leaves another. */
  lemma EmptyNameIsNotRestored()
    ensures Steady(MainOf(RulesetKind.Filter), ONE_RULE.plan) && AllServe(ONE_RULE.plan)
    ensures !Restores([], RulesetKind.Filter, ONE_RULE)
  {
    hide AddAnchor, RemoveAnchor, AnchorOver, Called;
    var w, kind := ONE_RULE, RulesetKind.Filter;
    var list := List(w, kind);
    assert list == [Installed(ZERO_RULE, [])];
    OrdinaryCalls(list[0]);
    var at := AddAnchorMeans([], kind, w);
    var w1 := AddAnchor([], kind, w).1;
    NewAnchorCalls([], kind);
    var list1 := List(w1, kind);
    var i := RemoveAnchorMeans([], kind, w1);
  }

  lemma OrdinaryCalls(i: Installed)
    requires i.Installed?
    ensures Called(i) == []
  {
  }

  /** Removing undoes adding on every firewall exactly for names that are not empty. */
  lemma RemoveUndoesAddExactly(name: Text)
    ensures (forall kind: RulesetKind, w: World ::
               Steady(MainOf(kind), w.plan) && AllServe(w.plan) ==> Restores(name, kind, w)) <==> name != []
  {
    hide Restores, Steady;
    EmptyNameIsNotRestored();
    if name != [] {
      forall kind: RulesetKind, w: World | Steady(MainOf(kind), w.plan) && AllServe(w.plan)
        ensures Restores(name, kind, w)
      {
        RemoveUndoesAdd(name, kind, w);
      }
    }
  }
}
