// Bounded, NUL-terminated strings: the copy into a C buffer, and the two ways back out of one.
module CStrings {
  import opened Prelude
  import opened Ffi

  /** The condition under which a text fits a buffer of `size` bytes, terminator included. */
  predicate Fits(s: seq<byte>, size: nat) {
    |s| < size && 0 !in s
  }

  /** What is wrong with a text for a buffer of `size` bytes. */
  function Objection(s: seq<byte>, size: nat): Option<TextError> {
    if |s| >= size then Some(TooLong) else if 0 in s then Some(ContainsNul) else None
  }

  /** A text in a zeroed buffer. */
  function Padded(s: seq<byte>, size: nat): (b: seq<byte>)
    requires Fits(s, size)
    ensures |b| == size
  {
    s + Zeros(size - |s|)
  }

  /** The outcome of copying `s` over a buffer holding `dst`. */
  function Copied(s: seq<byte>, dst: seq<byte>): (r: Result<seq<byte>, TextError>)
    ensures r.Ok? <==> Fits(s, |dst|)
    ensures r.Ok? ==> |r.value| == |dst| && s + [0] <= r.value && r.value[|s| + 1..] == dst[|s| + 1..]
    ensures r.Err? ==> Objection(s, |dst|) == Some(r.error)
  {
    if |s| >= |dst| then Err(TooLong)
    else if 0 in s then Err(ContainsNul)
    else
      assert (s + [0] + dst[|s| + 1..])[|s| + 1..] == dst[|s| + 1..];
      Ok(s + [0] + dst[|s| + 1..])
  }

  /** Copies a text into a C buffer in place; a buffer that does not fit it keeps every byte. */
  method TryCopyString(s: seq<byte>, dst: array<byte>) returns (r: Result<(), TextError>)
    modifies dst
    ensures match Copied(s, old(dst[..]))
            case Ok(b) => r == Ok(()) && dst[..] == b
            case Err(e) => r == Err(e) && dst[..] == old(dst[..])
  {
    if |s| >= dst.Length {
      return Err(TooLong);
    }
    if 0 in s {
      return Err(ContainsNul);
    }
    forall i | 0 <= i < |s| {
      dst[i] := s[i];
    }
    dst[|s|] := 0;
    assert dst[..] == s + [0] + old(dst[..])[|s| + 1..];
    r := Ok(());
  }

  /** The text before the first NUL, if the buffer holds one. */
  function UntilNul(b: seq<byte>): (r: Option<seq<byte>>)
    ensures r.Some? <==> 0 in b
    ensures r.Some? ==> 0 !in r.value && r.value + [0] <= b
  {
    if b == [] then None
    else if b[0] == 0 then Some([])
    else
      match UntilNul(b[1..])
      case None => None
      case Some(t) =>
        assert b == [b[0]] + b[1..];
        Some([b[0]] + t)
  }

  /** A terminated text is found whatever bytes follow its terminator. */
  lemma {:induction false} UntilNulFindsTerminated(s: seq<byte>, b: seq<byte>)
    requires 0 !in s && s + [0] <= b
    ensures UntilNul(b) == Some(s)
  {
    var t := UntilNul(b).value;
    assert b[|s|] == (s + [0])[|s|] == 0;
    assert b[|t|] == (t + [0])[|t|] == 0;
    assert s == b[..|s|] && t == b[..|t|];
  }

  /** Comparison of a text with a C string. The library panics when the buffer holds no NUL. */
  predicate CompareCstrSafe(s: seq<byte>, b: seq<byte>)
    requires 0 in b
  {
    s == UntilNul(b).value
  }

  /** Into a zeroed buffer the copy leaves the text and zeros. */
  lemma CopiedPads(s: seq<byte>, size: nat)
    requires Fits(s, size)
    ensures Copied(s, Zeros(size)) == Ok(Padded(s, size))
  {
    var b := Copied(s, Zeros(size)).value;
    assert b[..|s| + 1] == s + [0];
    assert b == b[..|s| + 1] + b[|s| + 1..];
    assert Padded(s, size) == s + [0] + Zeros(size)[|s| + 1..];
  }

  // ---- UTF-8 validity, section 4 of RFC 3629 ----

  predicate Tail(b: byte) {
    0x80 <= b <= 0xBF
  }

  /** The length of the well-formed character that starts the text, or 0. */
  function CharLength(s: seq<byte>): (n: nat)
    requires s != []
    ensures n <= |s|
  {
    var b := s[0];
    if b <= 0x7F then 1
    else if 0xC2 <= b <= 0xDF && |s| >= 2 && Tail(s[1]) then 2
    else if 0xE0 <= b <= 0xEF && |s| >= 3 && Tail(s[1]) && Tail(s[2])
            && (b == 0xE0 ==> 0xA0 <= s[1]) && (b == 0xED ==> s[1] <= 0x9F) then 3
    else if 0xF0 <= b <= 0xF4 && |s| >= 4 && Tail(s[1]) && Tail(s[2]) && Tail(s[3])
            && (b == 0xF0 ==> 0x90 <= s[1]) && (b == 0xF4 ==> s[1] <= 0x8F) then 4
    else 0
  }

  predicate ValidUtf8(s: seq<byte>) {
    s == [] || (CharLength(s) > 0 && ValidUtf8(s[CharLength(s)..]))
  }

  // ---- The encoding of characters, section 3 of RFC 3629 ----

  /** A Unicode scalar value: a code point that is no surrogate. */
  type Scalar = c: nat | c <= 0x10FFFF && !(0xD800 <= c <= 0xDFFF)

  function Tail6(c: nat): byte {
    0x80 + c % 0x40
  }

  /** The octets of a character by its number. */
  function Utf8Char(c: Scalar): (s: seq<byte>)
    ensures s != []
  {
    if c < 0x80 then [c]
    else if c < 0x800 then [0xC0 + c / 0x40, Tail6(c)]
    else if c < 0x1_0000 then [0xE0 + c / 0x1000, Tail6(c / 0x40), Tail6(c)]
    else [0xF0 + c / 0x4_0000, Tail6(c / 0x1000), Tail6(c / 0x40), Tail6(c)]
  }

  function Utf8(text: seq<Scalar>): seq<byte> {
    if text == [] then [] else Utf8Char(text[0]) + Utf8(text[1..])
  }

  lemma CharIsWhole(c: Scalar)
    ensures CharLength(Utf8Char(c)) == |Utf8Char(c)|
  {
  }

  /** What follows a whole character does not change its length. */
  lemma CharStands(e: seq<byte>, rest: seq<byte>)
    requires e != [] && CharLength(e) == |e|
    ensures CharLength(e + rest) == |e|
  {
    assert forall i :: 0 <= i < |e| ==> (e + rest)[i] == e[i];
  }

  lemma CharOfScalar(c: Scalar, rest: seq<byte>)
    ensures CharLength(Utf8Char(c) + rest) == |Utf8Char(c)|
  {
    hide CharLength, Utf8Char;
    CharIsWhole(c);
    CharStands(Utf8Char(c), rest);
  }

  /** The last six bits of a number, and the rest. */
  lemma SixBits(high: nat, low: nat)
    requires low < 0x40
    ensures (high * 0x40 + low) / 0x40 == high && (high * 0x40 + low) % 0x40 == low
  {
  }

  lemma TwoOctets(p: nat, q: nat)
    requires 2 <= p < 0x20 && q < 0x40
    ensures Utf8Char(p * 0x40 + q) == [0xC0 + p, 0x80 + q]
  {
    SixBits(p, q);
  }

  lemma ThreeOctets(p: nat, q: nat, r: nat)
    requires p < 0x10 && q < 0x40 && r < 0x40 && (p == 0 ==> 0x20 <= q) && (p == 0xD ==> q < 0x20)
    ensures var c := (p * 0x40 + q) * 0x40 + r;
            0x800 <= c < 0x1_0000 && !(0xD800 <= c <= 0xDFFF) && Utf8Char(c) == [0xE0 + p, 0x80 + q, 0x80 + r]
  {
    SixBits(p * 0x40 + q, r);
    SixBits(p, q);
  }

  lemma FourOctets(p: nat, q: nat, r: nat, t: nat)
    requires p <= 4 && q < 0x40 && r < 0x40 && t < 0x40 && (p == 0 ==> 0x10 <= q) && (p == 4 ==> q < 0x10)
    ensures var c := ((p * 0x40 + q) * 0x40 + r) * 0x40 + t;
            0x1_0000 <= c <= 0x10FFFF && Utf8Char(c) == [0xF0 + p, 0x80 + q, 0x80 + r, 0x80 + t]
  {
    var c := ((p * 0x40 + q) * 0x40 + r) * 0x40 + t;
    SixBits((p * 0x40 + q) * 0x40 + r, t);
    SixBits(p * 0x40 + q, r);
    SixBits(p, q);
    assert c / 0x1000 == c / 0x40 / 0x40 && c / 0x4_0000 == c / 0x40 / 0x40 / 0x40;
  }

  lemma ScalarOfChar(s: seq<byte>) returns (c: Scalar)
    requires s != [] && CharLength(s) > 0
    ensures Utf8Char(c) == s[..CharLength(s)]
  {
    hide Utf8Char;
    var n := CharLength(s);
    if n == 1 {
      c := s[0];
      OneOctet(c);
    } else if n == 2 {
      var p: nat, q: nat := s[0] - 0xC0, s[1] - 0x80;
      TwoOctets(p, q);
      c := p * 0x40 + q;
    } else if n == 3 {
      var p: nat, q: nat, r: nat := s[0] - 0xE0, s[1] - 0x80, s[2] - 0x80;
      ThreeOctets(p, q, r);
      c := (p * 0x40 + q) * 0x40 + r;
    } else {
      var p: nat, q: nat, r: nat, t: nat := s[0] - 0xF0, s[1] - 0x80, s[2] - 0x80, s[3] - 0x80;
      FourOctets(p, q, r, t);
      c := ((p * 0x40 + q) * 0x40 + r) * 0x40 + t;
    }
  }

  lemma OneOctet(c: Scalar)
    ensures c < 0x80 ==> Utf8Char(c) == [c]
  {
  }

  lemma {:induction false} EncodedIsValid(text: seq<Scalar>)
    ensures ValidUtf8(Utf8(text))
  {
    if text != [] {
      var rest := Utf8(text[1..]);
      CharOfScalar(text[0], rest);
      assert (Utf8Char(text[0]) + rest)[|Utf8Char(text[0])|..] == rest;
      EncodedIsValid(text[1..]);
    }
  }

  lemma {:induction false} ValidIsEncoded(s: seq<byte>) returns (text: seq<Scalar>)
    requires ValidUtf8(s)
    ensures Utf8(text) == s
  {
    text := [];
    if s != [] {
      hide CharLength, Utf8Char;
      var c := ScalarOfChar(s);
      var rest := ValidIsEncoded(s[CharLength(s)..]);
      text := [c] + rest;
      assert text[1..] == rest && s[..CharLength(s)] + s[CharLength(s)..] == s;
    }
  }

  /** The texts taken for UTF-8 are exactly the encodings of sequences of characters. */
  lemma ValidExactly(s: seq<byte>)
    ensures ValidUtf8(s) <==> exists text :: Utf8(text) == s
  {
    if ValidUtf8(s) {
      var _ := ValidIsEncoded(s);
    }
    forall text | Utf8(text) == s
      ensures ValidUtf8(s)
    {
      EncodedIsValid(text);
    }
  }

  lemma {:induction false} AsciiIsValid(s: seq<byte>)
    requires forall i :: 0 <= i < |s| ==> s[i] < 0x80
    ensures ValidUtf8(s)
  {
    if s != [] {
      AsciiIsValid(s[1..]);
    }
  }

  /** The name parser of an interface description. */
  function ParseName(b: seq<byte>): (r: Result<seq<byte>, Error>)
    ensures r.Ok? ==> r.value + [0] <= b && 0 !in r.value && ValidUtf8(r.value)
  {
    match UntilNul(b)
    case None => Err(InvalidInterfaceName(MissingNul))
    case Some(s) => if ValidUtf8(s) then Ok(s) else Err(InvalidInterfaceName(InvalidUtf8))
  }

  /**
   * The parser returns exactly the terminated texts that encode characters: what stands before
   * the first NUL, if there is one.
   */
  lemma ParseNameMeans(b: seq<byte>, s: seq<byte>)
    ensures 0 !in b ==> ParseName(b) == Err(InvalidInterfaceName(MissingNul))
    ensures 0 !in s && s + [0] <= b ==>
              ParseName(b) == if exists text :: Utf8(text) == s then Ok(s) else Err(InvalidInterfaceName(InvalidUtf8))
  {
    ValidExactly(s);
    if 0 !in s && s + [0] <= b {
      assert b[|s|] == (s + [0])[|s|];
      UntilNulFindsTerminated(s, b);
    }
  }

  /**
   * The string round trip, over a buffer with any prior content: the comparison accepts exactly
   * the copied text, and the interface-name parser returns it.
   */
  lemma StringRoundTrip(s: seq<byte>, dst: seq<byte>, t: seq<byte>)
    requires Fits(s, |dst|)
    ensures var b := Copied(s, dst).value;
            && 0 in b
            && (CompareCstrSafe(t, b) <==> t == s)
            && (ValidUtf8(s) ==> ParseName(b) == Ok(s))
            && (!ValidUtf8(s) ==> ParseName(b) == Err(InvalidInterfaceName(InvalidUtf8)))
  {
    var b := Copied(s, dst).value;
    assert b[|s|] == (s + [0])[|s|];
    UntilNulFindsTerminated(s, b);
  }

  /** Two different texts never leave the same bytes, whatever was in the two buffers. */
  lemma CopyInjective(s: seq<byte>, t: seq<byte>, dst: seq<byte>, dst': seq<byte>)
    requires Fits(s, |dst|) && Fits(t, |dst'|)
    ensures Copied(s, dst) == Copied(t, dst') ==> s == t
  {
    StringRoundTrip(s, dst, s);
    StringRoundTrip(t, dst', t);
  }
}
