// Flag lists folded into one byte.
module Flags {
  import opened Prelude

  datatype TcpFlag = AnyFlag | Syn | Ack | Fin | Rst | Psh | Urg | Ece | Cwr

  /** Control bits of the TCP header, section 3.1 of RFC 9293. */
  function TcpBit(f: TcpFlag): bv8 {
    match f
    case AnyFlag => 0
    case Fin => 0x01
    case Syn => 0x02
    case Rst => 0x04
    case Psh => 0x08
    case Ack => 0x10
    case Urg => 0x20
    case Ece => 0x40
    case Cwr => 0x80
  }

  datatype RuleLog = ExcludeMatchingState | IncludeMatchingState | SocketOwner

  /** PF_LOG, PF_LOG_ALL and PF_LOG_SOCKET_LOOKUP. */
  function LogBit(l: RuleLog): bv8 {
    match l
    case ExcludeMatchingState => 1
    case IncludeMatchingState => 2
    case SocketOwner => 4
  }

  /** The left fold of a list of flags with bitwise or. */
  function Fold<T>(bit: T -> bv8, list: seq<T>): bv8 {
    if list == [] then 0 else Fold(bit, list[..|list| - 1]) | bit(list[|list| - 1])
  }

  function TcpByte(list: seq<TcpFlag>): bv8 {
    Fold(TcpBit, list)
  }

  function LogByte(list: seq<RuleLog>): bv8 {
    Fold(LogBit, list)
  }

  predicate OneHot(m: bv8) {
    m in {0x01, 0x02, 0x04, 0x08, 0x10, 0x20, 0x40, 0x80}
  }

  predicate HasBit(b: bv8, m: bv8) {
    b & m != 0
  }

  lemma OrHasBit(a: bv8, b: bv8, m: bv8)
    ensures HasBit(a | b, m) <==> HasBit(a, m) || HasBit(b, m)
  {
    assert (a | b) & m == (a & m) | (b & m);
  }

  lemma OneHotMeet(a: bv8, m: bv8)
    requires OneHot(m) && (a == 0 || OneHot(a))
    ensures HasBit(a, m) <==> a == m
  {
  }

  /** A one-bit mask is set in the fold exactly when some element of the list carries it. */
  lemma {:induction false} FoldHasBit<T>(bit: T -> bv8, list: seq<T>, m: bv8)
    requires OneHot(m) && forall x :: x in list ==> bit(x) == 0 || OneHot(bit(x))
    ensures HasBit(Fold(bit, list), m) <==> exists x :: x in list && bit(x) == m
  {
    if list != [] {
      var front, last := list[..|list| - 1], list[|list| - 1];
      assert list == front + [last];
      FoldHasBit(bit, front, m);
      OrHasBit(Fold(bit, front), bit(last), m);
      OneHotMeet(bit(last), m);
    }
  }

  /** Concatenating two lists is the bitwise or of their bytes. */
  lemma {:induction false} FoldConcat<T>(bit: T -> bv8, a: seq<T>, b: seq<T>)
    ensures Fold(bit, a + b) == Fold(bit, a) | Fold(bit, b)
  {
    if b == [] {
      assert a + b == a;
    } else {
      var front, last := b[..|b| - 1], b[|b| - 1];
      assert (a + b)[..|a + b| - 1] == a + front;
      FoldConcat(bit, a, front);
    }
  }

  // ---- The places of the flags in their byte ----

  /** The control bits of the TCP header from the lowest place up, section 3.1 of RFC 9293. */
  const TCP_HEADER: seq<TcpFlag> := [Fin, Syn, Rst, Psh, Ack, Urg, Ece, Cwr]

  /** The log options of pf_rule from the lowest place up. */
  const LOG_OPTIONS: seq<RuleLog> := [ExcludeMatchingState, IncludeMatchingState, SocketOwner]

  /** The value of each place. */
  const PLACES: seq<bv8> := [0x01, 0x02, 0x04, 0x08, 0x10, 0x20, 0x40, 0x80]

  predicate At(b: bv8, place: nat)
    requires place < 8
  {
    HasBit(b, PLACES[place])
  }

  /** The bit at a place of the header is set exactly when the flag of that place is listed. */
  lemma TcpByteMeans(list: seq<TcpFlag>, place: nat)
    requires place < 8
    ensures At(TcpByte(list), place) <==> TCP_HEADER[place] in list
  {
    FoldHasBit(TcpBit, list, PLACES[place]);
    assert TcpBit(TCP_HEADER[place]) == PLACES[place];
  }

  /** The same for the log options; no other bit is ever set. */
  lemma LogByteMeans(list: seq<RuleLog>, place: nat)
    requires place < 8
    ensures At(LogByte(list), place) <==> place < 3 && LOG_OPTIONS[place] in list
  {
    FoldHasBit(LogBit, list, PLACES[place]);
    assert place < 3 ==> LogBit(LOG_OPTIONS[place]) == PLACES[place];
  }

  lemma ByteExtensional(a: bv8, b: bv8)
    requires forall m :: OneHot(m) ==> (HasBit(a, m) <==> HasBit(b, m))
    ensures a == b
  {
    assert OneHot(0x01) && OneHot(0x02) && OneHot(0x04) && OneHot(0x08);
    assert OneHot(0x10) && OneHot(0x20) && OneHot(0x40) && OneHot(0x80);
    assert forall m: bv8 :: OneHot(m) ==> (a & m != 0 <==> b & m != 0);
  }

  /** Order and repetition do not matter: lists with the same members fold to the same byte. */
  lemma FoldBySet<T>(bit: T -> bv8, a: seq<T>, b: seq<T>)
    requires forall x :: x in a <==> x in b
    requires forall x :: x in a ==> bit(x) == 0 || OneHot(bit(x))
    ensures Fold(bit, a) == Fold(bit, b)
  {
    forall m | OneHot(m)
      ensures HasBit(Fold(bit, a), m) <==> HasBit(Fold(bit, b), m)
    {
      FoldHasBit(bit, a, m);
      FoldHasBit(bit, b, m);
    }
    ByteExtensional(Fold(bit, a), Fold(bit, b));
  }

  // ---- Reading a byte back as a set of flags ----

  function TcpFlagsOf(b: bv8): set<TcpFlag> {
    set place | 0 <= place < 8 && At(b, place) :: TCP_HEADER[place]
  }

  /** The options of a byte, if it has no other bit. */
  function LogsOf(b: bv8): Option<set<RuleLog>> {
    if exists place :: 3 <= place < 8 && At(b, place) then None
    else Some(set place | 0 <= place < 3 && At(b, place) :: LOG_OPTIONS[place])
  }

  lemma TcpRoundTrip(list: seq<TcpFlag>)
    ensures TcpFlagsOf(TcpByte(list)) == (set f | f in list && f != AnyFlag)
  {
    forall place: nat | place < 8
      ensures At(TcpByte(list), place) <==> TCP_HEADER[place] in list
    {
      TcpByteMeans(list, place);
    }
    forall f | f in list && f != AnyFlag
      ensures f in TcpFlagsOf(TcpByte(list))
    {
      var place := PlaceOf(f);
      assert At(TcpByte(list), place);
    }
  }

  lemma PlaceOf(f: TcpFlag) returns (place: nat)
    requires f != AnyFlag
    ensures place < 8 && TCP_HEADER[place] == f
  {
    place := match f
      case Fin => 0
      case Syn => 1
      case Rst => 2
      case Psh => 3
      case Ack => 4
      case Urg => 5
      case Ece => 6
      case Cwr => 7;
  }

  lemma LogRoundTrip(list: seq<RuleLog>)
    ensures LogsOf(LogByte(list)) == Some(set l | l in list)
  {
    forall place: nat | place < 8
      ensures At(LogByte(list), place) <==> place < 3 && LOG_OPTIONS[place] in list
    {
      LogByteMeans(list, place);
    }
    assert LogsOf(LogByte(list)).Some?;
    var read := LogsOf(LogByte(list)).value;
    forall l | l in list
      ensures l in read
    {
      var place: nat := match l
        case ExcludeMatchingState => 0
        case IncludeMatchingState => 1
        case SocketOwner => 2;
      assert At(LogByte(list), place) && LOG_OPTIONS[place] == l;
    }
    assert read == set l | l in list;
  }

  lemma PlaceOfMask(m: bv8) returns (place: nat)
    requires OneHot(m)
    ensures place < 8 && PLACES[place] == m
  {
    place :=
      if m == 0x01 then 0 else if m == 0x02 then 1 else if m == 0x04 then 2 else if m == 0x08 then 3
      else if m == 0x10 then 4 else if m == 0x20 then 5 else if m == 0x40 then 6 else 7;
  }

  lemma SamePlaces(a: bv8, b: bv8)
    requires forall place: nat :: place < 8 ==> (At(a, place) <==> At(b, place))
    ensures a == b
  {
    forall m | OneHot(m)
      ensures HasBit(a, m) <==> HasBit(b, m)
    {
      var place := PlaceOfMask(m);
      assert At(a, place) <==> At(b, place);
    }
    ByteExtensional(a, b);
  }

  /** Only one byte reads back as a set of flags. */
  lemma TcpFlagsTell(a: bv8, b: bv8)
    requires TcpFlagsOf(a) == TcpFlagsOf(b)
    ensures a == b
  {
    hide HasBit;
    forall place: nat | place < 8
      ensures At(a, place) <==> At(b, place)
    {
      assert At(a, place) <==> TCP_HEADER[place] in TcpFlagsOf(a);
      assert At(b, place) <==> TCP_HEADER[place] in TcpFlagsOf(b);
    }
    SamePlaces(a, b);
  }

  lemma LogsTell(a: bv8, b: bv8)
    requires LogsOf(a).Some? && LogsOf(a) == LogsOf(b)
    ensures a == b
  {
    forall place: nat | place < 8
      ensures At(a, place) <==> At(b, place)
    {
      if place < 3 {
        assert At(a, place) <==> LOG_OPTIONS[place] in LogsOf(a).value;
        assert At(b, place) <==> LOG_OPTIONS[place] in LogsOf(b).value;
      }
    }
    SamePlaces(a, b);
  }
}
