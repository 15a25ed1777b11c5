// Lossless encoding of path bytes, and of strings with lone surrogates.
module PathBytes {
  type Byte = b: int | 0 <= b < 0x100
  type Unit = u: int | 0 <= u < 0x1_0000
  type CodePoint = c: int | 0 <= c <= 0x10_FFFF

  /** A string, as its UTF-16 code units. */
  type Text = seq<Unit>

  const PERCENT: Unit := 0x25

  predicate Surrogate(c: int) {
    0xD800 <= c <= 0xDFFF
  }

  /** The octets of section 3 of RFC 3629; for a surrogate, its three WTF-8 octets. */
  function Utf8(c: CodePoint): (octets: seq<Byte>)
    ensures 1 <= |octets| <= 4
  {
    if c < 0x80 then [c]
    else if c < 0x800 then [0xC0 + c / 0x40, 0x80 + c % 0x40]
    else if c < 0x1_0000 then [0xE0 + c / 0x40 / 0x40, 0x80 + c / 0x40 % 0x40, 0x80 + c % 0x40]
    else [0xF0 + c / 0x40 / 0x40 / 0x40, 0x80 + c / 0x40 / 0x40 % 0x40, 0x80 + c / 0x40 % 0x40, 0x80 + c % 0x40]
  }

  /** The code units of one code point. */
  function Utf16(c: CodePoint): (units: seq<Unit>)
    ensures 1 <= |units| <= 2
  {
    if c < 0x1_0000 then [c] else [0xD800 + (c - 0x1_0000) / 0x400, 0xDC00 + (c - 0x1_0000) % 0x400]
  }

  function Utf8All(cs: seq<CodePoint>): seq<Byte> {
    if cs == [] then [] else Utf8(cs[0]) + Utf8All(cs[1..])
  }

  /** Valid UTF-8: the encoding of some sequence of Unicode scalar values. */
  ghost predicate ValidUtf8(b: seq<Byte>) {
    exists cs: seq<CodePoint> :: (forall c | c in cs :: !Surrogate(c)) && Utf8All(cs) == b
  }

  // ----- the recognizer

  predicate Cont(b: seq<Byte>, k: nat, lo: int, hi: int) {
    k < |b| && lo <= b[k] <= hi
  }

  predicate Tail(b: seq<Byte>, k: nat) {
    Cont(b, k, 0x80, 0xBF)
  }

  /** Length of the sequence at the front, or 0 when it is invalid. */
  function SequenceLength(b: seq<Byte>): (n: nat)
    requires b != []
    ensures n <= |b|
  {
    var b0 := b[0];
    if b0 < 0x80 then 1
    else if 0xC2 <= b0 <= 0xDF then if Tail(b, 1) then 2 else 0
    else if b0 == 0xE0 then if Cont(b, 1, 0xA0, 0xBF) && Tail(b, 2) then 3 else 0
    else if 0xE1 <= b0 <= 0xEC then if Tail(b, 1) && Tail(b, 2) then 3 else 0
    else if b0 == 0xED then if Cont(b, 1, 0x80, 0x9F) && Tail(b, 2) then 3 else 0
    else if 0xEE <= b0 <= 0xEF then if Tail(b, 1) && Tail(b, 2) then 3 else 0
    else if b0 == 0xF0 then if Cont(b, 1, 0x90, 0xBF) && Tail(b, 2) && Tail(b, 3) then 4 else 0
    else if 0xF1 <= b0 <= 0xF3 then if Tail(b, 1) && Tail(b, 2) && Tail(b, 3) then 4 else 0
    else if b0 == 0xF4 then if Cont(b, 1, 0x80, 0x8F) && Tail(b, 2) && Tail(b, 3) then 4 else 0
    else 0
  }

  /** A value with six more bits. */
  function Join(high: int, tail: Byte): (c: int)
    ensures 0x80 <= tail <= 0xBF ==> c / 0x40 == high && c % 0x40 == tail - 0x80
  {
    high * 0x40 + (tail - 0x80)
  }

  /** The code point that the sequence at the front stands for. */
  function FrontCode(b: seq<Byte>): CodePoint
    requires b != [] && 0 < SequenceLength(b)
  {
    var n, lead: int := SequenceLength(b), b[0];
    if n == 1 then lead
    else if n == 2 then Join(lead - 0xC0, b[1])
    else if n == 3 then Join(Join(lead - 0xE0, b[1]), b[2])
    else Join(Join(Join(lead - 0xF0, b[1]), b[2]), b[3])
  }

  /** Whatever the recognizer accepts is the encoding of a scalar value. */
  lemma SequenceIsScalar(b: seq<Byte>)
    requires b != [] && 0 < SequenceLength(b)
    ensures !Surrogate(FrontCode(b)) && b == Utf8(FrontCode(b)) + b[SequenceLength(b)..]
    ensures |Utf8(FrontCode(b))| == SequenceLength(b)
  {
    var c, n := FrontCode(b), SequenceLength(b);
    assert Utf8(c) == if n == 1 then [b[0]] else if n == 2 then [b[0], b[1]] else if n == 3 then [b[0], b[1], b[2]] else [b[0], b[1], b[2], b[3]];
    hide Utf8, FrontCode;
  }

  /** Every encoding of a scalar value is accepted, in full. */
  lemma ScalarIsSequence(c: CodePoint, rest: seq<Byte>)
    requires !Surrogate(c)
    ensures var b := Utf8(c) + rest; SequenceLength(b) == |Utf8(c)| && FrontCode(b) == c && b[|Utf8(c)|..] == rest
  {
    var u, b := Utf8(c), Utf8(c) + rest;
    assert forall k | 0 <= k < |u| :: b[k] == u[k];
    if |u| == 3 {
      assert Join(Join(u[0] - 0xE0, u[1]), u[2]) == c;
    } else if |u| == 4 {
      assert Join(Join(Join(u[0] - 0xF0, u[1]), u[2]), u[3]) == c;
    }
    hide Utf8;
  }

  predicate Accepts(b: seq<Byte>) {
    b == [] || (0 < SequenceLength(b) && Accepts(b[SequenceLength(b)..]))
  }

  /** The code points of accepted bytes. */
  function Codes(b: seq<Byte>): (cs: seq<CodePoint>)
    requires Accepts(b)
  {
    if b == [] then [] else [FrontCode(b)] + Codes(b[SequenceLength(b)..])
  }

  lemma {:induction false} AcceptedIsValid(b: seq<Byte>)
    requires Accepts(b)
    ensures Utf8All(Codes(b)) == b && forall c | c in Codes(b) :: !Surrogate(c)
  {
    if b != [] {
      var n := SequenceLength(b);
      SequenceIsScalar(b);
      hide SequenceLength, FrontCode, Utf8;
      AcceptedIsValid(b[n..]);
      assert Codes(b)[1..] == Codes(b[n..]);
    }
  }

  lemma {:induction false} ValidIsAccepted(cs: seq<CodePoint>)
    requires forall c | c in cs :: !Surrogate(c)
    ensures Accepts(Utf8All(cs)) && Codes(Utf8All(cs)) == cs
  {
    hide SequenceLength, FrontCode, Utf8;
    if cs != [] {
      ScalarIsSequence(cs[0], Utf8All(cs[1..]));
      ValidIsAccepted(cs[1..]);
    }
  }

  /** The recognizer accepts exactly the UTF-8 of section 4 of RFC 3629. */
  lemma AcceptsExactlyUtf8(b: seq<Byte>)
    ensures Accepts(b) <==> ValidUtf8(b)
  {
    if Accepts(b) {
      AcceptedIsValid(b);
    }
    if ValidUtf8(b) {
      var cs: seq<CodePoint> :| (forall c | c in cs :: !Surrogate(c)) && Utf8All(cs) == b;
      ValidIsAccepted(cs);
    }
  }

  lemma SuffixOfSuffix<T>(s: seq<T>, i: nat, n: nat)
    requires i + n <= |s|
    ensures s[i..][n..] == s[i + n..]
  {
  }

  lemma Assoc<T>(x: seq<T>, y: seq<T>, z: seq<T>)
    ensures (x + y) + z == x + (y + z)
  {
  }

  method IsValidUtf8Bytes(b: seq<Byte>) returns (valid: bool)
    ensures valid <==> ValidUtf8(b)
  {
    AcceptsExactlyUtf8(b);
    hide SequenceLength, ValidUtf8;
    assert b[0..] == b;
    var i := 0;
    while i < |b|
      invariant 0 <= i <= |b|
      invariant Accepts(b) <==> Accepts(b[i..])
    {
      var length := SequenceLength(b[i..]);
      if length == 0 {
        return false;
      }
      SuffixOfSuffix(b, i, length);
      i := i + length;
    }
    return true;
  }

  // ----- encoding

  datatype EncodedPath = EncodedPath(path: seq<Unit>, encoded: bool)

  function HexDigit(d: int): Unit
    requires 0 <= d < 16
  {
    if d < 10 then 0x30 + d else 0x41 + (d - 10)
  }

  predicate IsHex(u: Unit) {
    0x30 <= u <= 0x39 || 0x41 <= u <= 0x46
  }

  function HexValue(u: Unit): (d: int)
    requires IsHex(u)
    ensures 0 <= d < 16 && HexDigit(d) == u
  {
    if u <= 0x39 then u - 0x30 else u - 0x41 + 10
  }

  function EscapeByte(x: Byte): seq<Unit> {
    [PERCENT, HexDigit(x / 16), HexDigit(x % 16)]
  }

  function EscapeBytes(b: seq<Byte>): seq<Unit> {
    if b == [] then [] else EscapeByte(b[0]) + EscapeBytes(b[1..])
  }

  function Utf16All(cs: seq<CodePoint>): seq<Unit> {
    if cs == [] then [] else Utf16(cs[0]) + Utf16All(cs[1..])
  }

  function Kept(c: CodePoint): seq<Unit> {
    if c == PERCENT then EscapeByte(PERCENT) else Utf16(c)
  }

  /** The escaped form of bytes. */
  function Escaped(b: seq<Byte>): seq<Unit> {
    if b == [] then []
    else if SequenceLength(b) == 0 then EscapeByte(b[0]) + Escaped(b[1..])
    else Kept(FrontCode(b)) + Escaped(b[SequenceLength(b)..])
  }

  function Encoded(b: seq<Byte>): EncodedPath {
    if Accepts(b) then EncodedPath(Utf16All(Codes(b)), false) else EncodedPath(Escaped(b), true)
  }

  lemma PercentIsOneByte(b: seq<Byte>)
    requires b != [] && 0 < SequenceLength(b)
    ensures FrontCode(b) == PERCENT <==> SequenceLength(b) == 1 && b[0] == PERCENT
  {
    SequenceIsScalar(b);
  }

  lemma EscapedStep(out: seq<Unit>, b: seq<Byte>, i: nat)
    requires i < |b|
    ensures var rest, n := b[i..], SequenceLength(b[i..]);
            if n == 0 then (out + EscapeByte(b[i])) + Escaped(b[i + 1..]) == out + Escaped(rest)
            else (out + Kept(FrontCode(rest))) + Escaped(b[i + n..]) == out + Escaped(rest)
  {
    var rest, n := b[i..], SequenceLength(b[i..]);
    hide SequenceLength, FrontCode, EscapeByte, Kept;
    if n == 0 {
      SuffixOfSuffix(b, i, 1);
      Assoc(out, EscapeByte(b[i]), Escaped(rest[1..]));
    } else {
      SuffixOfSuffix(b, i, n);
      Assoc(out, Kept(FrontCode(rest)), Escaped(rest[n..]));
    }
  }

  method EncodePathBytes(b: seq<Byte>) returns (e: EncodedPath)
    ensures e == Encoded(b)
    ensures e.encoded <==> !ValidUtf8(b)
  {
    hide ValidUtf8, SequenceLength, FrontCode, EscapeByte, Utf16, Accepts, Codes, Utf16All;
    assert Escaped([]) == [];
    hide Escaped;
    AcceptsExactlyUtf8(b);
    var valid := IsValidUtf8Bytes(b);
    if valid {
      return EncodedPath(Utf16All(Codes(b)), false);
    }
    var out := [];
    var i := 0;
    assert b[0..] == b;
    while i < |b|
      invariant 0 <= i <= |b|
      invariant out + Escaped(b[i..]) == Escaped(b)
    {
      var rest := b[i..];
      var length := SequenceLength(rest);
      if length == 0 {
        EscapedStep(out, b, i);
        out := out + EscapeByte(b[i]);
        i := i + 1;
      } else {
        PercentIsOneByte(rest);
        EscapedStep(out, b, i);
        out := out + (if length == 1 && b[i] == PERCENT then EscapeByte(PERCENT) else Utf16(FrontCode(rest)));
        i := i + length;
      }
    }
    return EncodedPath(out, true);
  }

  // ----- decoding

  /** The code point at the front of a string, and its number of units; an unpaired surrogate stands for itself. */
  function First(s: seq<Unit>): (first: (CodePoint, nat))
    requires s != []
    ensures 1 <= first.1 <= |s| && first.1 <= 2
  {
    if 0xD800 <= s[0] <= 0xDBFF && 1 < |s| && 0xDC00 <= s[1] <= 0xDFFF
    then (0x1_0000 + (s[0] as int - 0xD800) * 0x400 + (s[1] as int - 0xDC00), 2)
    else (s[0], 1)
  }

  /** The octets written for a code point of a string: an unpaired surrogate is replaced by U+FFFD. */
  function Octets(c: CodePoint): seq<Byte> {
    if Surrogate(c) then Utf8(0xFFFD) else Utf8(c)
  }

  /** UTF-8 octets of a string. */
  function FromText(s: seq<Unit>): seq<Byte> {
    if s == [] then [] else Octets(First(s).0) + FromText(s[First(s).1..])
  }

  predicate EscapeAt(s: seq<Unit>) {
    2 < |s| && s[0] == PERCENT && IsHex(s[1]) && IsHex(s[2])
  }

  function Decoded(s: seq<Unit>): seq<Byte> {
    if s == [] then []
    else if EscapeAt(s) then [16 * HexValue(s[1]) + HexValue(s[2])] + Decoded(s[3..])
    else Octets(First(s).0) + Decoded(s[First(s).1..])
  }

  method DecodePathBytes(s: seq<Unit>) returns (bytes: seq<Byte>)
    ensures bytes == Decoded(s)
  {
    bytes := [];
    var i := 0;
    assert s[0..] == s;
    hide First, Octets, HexValue;
    while i < |s|
      invariant 0 <= i <= |s|
      invariant bytes + Decoded(s[i..]) == Decoded(s)
    {
      var rest := s[i..];
      if EscapeAt(rest) {
        SuffixOfSuffix(s, i, 3);
        Assoc(bytes, [16 * HexValue(rest[1]) + HexValue(rest[2])], Decoded(rest[3..]));
        bytes := bytes + [16 * HexValue(rest[1]) + HexValue(rest[2])];
        i := i + 3;
      } else {
        var first := First(rest);
        SuffixOfSuffix(s, i, first.1);
        Assoc(bytes, Octets(first.0), Decoded(rest[first.1..]));
        bytes := bytes + Octets(first.0);
        i := i + first.1;
      }
    }
  }

  /** What a reader recovers from a path and its flag. */
  function Original(e: EncodedPath): seq<Byte> {
    if e.encoded then Decoded(e.path) else FromText(e.path)
  }

  lemma DecodeEscape(x: Byte, rest: seq<Unit>)
    ensures Decoded(EscapeByte(x) + rest) == [x] + Decoded(rest)
  {
    var s := EscapeByte(x) + rest;
    assert s[3..] == rest && s[0] == PERCENT && s[1] == HexDigit(x / 16) && s[2] == HexDigit(x % 16);
  }

  lemma FirstOfScalar(c: CodePoint, rest: seq<Unit>)
    requires !Surrogate(c)
    ensures var s := Utf16(c) + rest; First(s) == (c, |Utf16(c)|) && s[|Utf16(c)|..] == rest
  {
  }

  lemma DecodeKept(c: CodePoint, rest: seq<Unit>)
    requires !Surrogate(c)
    ensures Decoded(Kept(c) + rest) == Utf8(c) + Decoded(rest)
  {
    if c == PERCENT {
      DecodeEscape(PERCENT, rest);
    } else {
      FirstOfScalar(c, rest);
    }
  }

  lemma {:induction false} EscapedDecodes(b: seq<Byte>)
    ensures Decoded(Escaped(b)) == b
  {
    hide SequenceLength, FrontCode, Utf8, Kept, EscapeByte, First, Octets;
    if b != [] {
      var n := SequenceLength(b);
      if n == 0 {
        DecodeEscape(b[0], Escaped(b[1..]));
        EscapedDecodes(b[1..]);
      } else {
        SequenceIsScalar(b);
        DecodeKept(FrontCode(b), Escaped(b[n..]));
        EscapedDecodes(b[n..]);
      }
    }
  }

  lemma {:induction false} TextBytes(cs: seq<CodePoint>)
    requires forall c | c in cs :: !Surrogate(c)
    ensures FromText(Utf16All(cs)) == Utf8All(cs)
  {
    if cs != [] {
      FirstOfScalar(cs[0], Utf16All(cs[1..]));
      TextBytes(cs[1..]);
    }
  }

  /** Every byte string is recovered from its encoding. */
  lemma RoundTrip(b: seq<Byte>)
    ensures Original(Encoded(b)) == b
  {
    if Accepts(b) {
      AcceptedIsValid(b);
      TextBytes(Codes(b));
    } else {
      EscapedDecodes(b);
    }
    hide Accepts, Decoded, FromText, Escaped;
  }

  lemma EncodingIsInjective(a: seq<Byte>, b: seq<Byte>)
    ensures Encoded(a) == Encoded(b) <==> a == b
  {
    RoundTrip(a);
    RoundTrip(b);
    hide *;
  }

  /** The path text alone does not determine the bytes: a lone FF byte and the three bytes of "%FF". */
  lemma PathTextIsAmbiguous()
    ensures Encoded([0xFF]).path == Encoded([0x25, 0x46, 0x46]).path
  {
    var cs: seq<CodePoint> := [0x25, 0x46, 0x46];
    assert Utf8All(cs[2..]) == [0x46] && cs[1..][1..] == cs[2..];
    assert Utf16All(cs[2..]) == [0x46];
    assert Utf8All(cs) == [0x25, 0x46, 0x46] && Utf16All(cs) == [0x25, 0x46, 0x46];
    ValidIsAccepted(cs);
    assert Escaped([0xFF]) == EscapeByte(0xFF);
  }

  // ----- strings

  /** The code points a loop over a string visits. */
  function Points(s: seq<Unit>): seq<CodePoint> {
    if s == [] then [] else [First(s).0] + Points(s[First(s).1..])
  }

  predicate WellFormed(s: seq<Unit>) {
    forall c | c in Points(s) :: !Surrogate(c)
  }

  function EscapePoint(c: CodePoint): seq<Unit> {
    if Surrogate(c) then EscapeByte(Utf8(c)[0]) + EscapeByte(Utf8(c)[1]) + EscapeByte(Utf8(c)[2]) else Kept(c)
  }

  function EscapePoints(cs: seq<CodePoint>): seq<Unit> {
    if cs == [] then [] else EscapePoint(cs[0]) + EscapePoints(cs[1..])
  }

  /** The WTF-8 octets of a string. */
  function Wtf8(s: seq<Unit>): seq<Byte> {
    Utf8All(Points(s))
  }

  lemma {:induction false} PointsSpell(s: seq<Unit>)
    ensures Utf16All(Points(s)) == s
  {
    if s != [] {
      FirstSpells(s);
      hide First, Utf16;
      PointsSpell(s[First(s).1..]);
      assert Points(s) == [First(s).0] + Points(s[First(s).1..]);
    }
  }

  lemma FirstSpells(s: seq<Unit>)
    requires s != []
    ensures Utf16(First(s).0) + s[First(s).1..] == s
  {
  }

  lemma SurrogateBytes(c: CodePoint)
    requires Surrogate(c)
    ensures var u := Utf8(c); |u| == 3 && u[0] == 0xED && 0xA0 <= u[1] <= 0xBF && 0x80 <= u[2] <= 0xBF
  {
  }

  lemma Continuation(b: seq<Byte>)
    requires b != [] && 0x80 <= b[0] <= 0xBF
    ensures SequenceLength(b) == 0
  {
  }

  lemma HighSurrogate(b: seq<Byte>)
    requires 1 < |b| && b[0] == 0xED && 0xA0 <= b[1]
    ensures SequenceLength(b) == 0
  {
  }

  lemma InvalidFirst(b: seq<Byte>)
    requires b != [] && SequenceLength(b) == 0
    ensures !Accepts(b) && Escaped(b) == EscapeByte(b[0]) + Escaped(b[1..])
  {
    hide SequenceLength, FrontCode, EscapeByte;
  }

  lemma SurrogateIsEscaped(c: CodePoint, rest: seq<Byte>)
    requires Surrogate(c)
    ensures var b := Utf8(c) + rest; !Accepts(b) && Escaped(b) == EscapePoint(c) + Escaped(rest)
  {
    SurrogateBytes(c);
    var u := Utf8(c);
    assert EscapePoint(c) == EscapeByte(u[0]) + EscapeByte(u[1]) + EscapeByte(u[2]);
    hide *;
    var b := u + rest;
    assert b[1..] == u[1..] + rest && b[1..][1..] == u[2..] + rest && b[1..][1..][1..] == rest;
    HighSurrogate(b);
    Continuation(b[1..]);
    Continuation(b[1..][1..]);
    InvalidFirst(b);
    InvalidFirst(b[1..]);
    InvalidFirst(b[1..][1..]);
    assert Escaped(b) == EscapeByte(u[0]) + EscapeByte(u[1]) + EscapeByte(u[2]) + Escaped(rest);
  }

  /** Escaping bytes and escaping code points agree, and only surrogates are invalid. */
  lemma {:induction false} EscapedPoints(cs: seq<CodePoint>)
    ensures Escaped(Utf8All(cs)) == EscapePoints(cs)
    ensures Accepts(Utf8All(cs)) <==> forall c | c in cs :: !Surrogate(c)
  {
    hide SequenceLength, FrontCode, Utf8, Kept, EscapeByte;
    if cs != [] {
      EscapedPoints(cs[1..]);
      if Surrogate(cs[0]) {
        SurrogateIsEscaped(cs[0], Utf8All(cs[1..]));
      } else {
        ScalarIsSequence(cs[0], Utf8All(cs[1..]));
      }
    }
  }

  function EncodedString(s: seq<Unit>): EncodedPath {
    if WellFormed(s) then EncodedPath(s, false) else EncodedPath(EscapePoints(Points(s)), true)
  }

  /** The two encoders agree: a string is encoded as its WTF-8 octets are. */
  lemma StringIsItsBytes(s: seq<Unit>)
    ensures EncodedString(s) == Encoded(Wtf8(s))
  {
    EscapedPoints(Points(s));
    if WellFormed(s) {
      ValidIsAccepted(Points(s));
      PointsSpell(s);
    }
    hide Accepts, Codes, Points, Utf8All, Escaped, EscapePoints;
  }

  method EncodePathString(s: seq<Unit>) returns (e: EncodedPath)
    ensures e == EncodedString(s) == Encoded(Wtf8(s))
  {
    StringIsItsBytes(s);
    if WellFormed(s) {
      return EncodedPath(s, false);
    }
    var out := [];
    var i := 0;
    assert s[0..] == s;
    hide First, EscapePoint;
    while i < |s|
      invariant 0 <= i <= |s|
      invariant out + EscapePoints(Points(s[i..])) == EscapePoints(Points(s))
    {
      var (c, length) := First(s[i..]);
      SuffixOfSuffix(s, i, length);
      assert Points(s[i..])[1..] == Points(s[i + length..]);
      Assoc(out, EscapePoint(c), EscapePoints(Points(s[i + length..])));
      out := out + EscapePoint(c);
      i := i + length;
    }
    return EncodedPath(out, true);
  }

  lemma Utf8Decides(c: CodePoint, d: CodePoint, x: seq<Byte>, y: seq<Byte>)
    requires Utf8(c) + x == Utf8(d) + y
    ensures c == d && x == y
  {
    var u, v, w := Utf8(c), Utf8(d), Utf8(c) + x;
    assert w[0] == u[0] == v[0];
    assert |u| == |v|;
    assert u == w[..|u|] == v && x == w[|u|..] == y;
    assert c / 0x40 / 0x40 / 0x40 == d / 0x40 / 0x40 / 0x40;
  }

  lemma {:induction false} Utf8IsInjective(cs: seq<CodePoint>, ds: seq<CodePoint>)
    requires Utf8All(cs) == Utf8All(ds)
    ensures cs == ds
  {
    if cs != [] && ds != [] {
      Utf8Decides(cs[0], ds[0], Utf8All(cs[1..]), Utf8All(ds[1..]));
      Utf8IsInjective(cs[1..], ds[1..]);
    }
  }

  /** Different strings, well formed or not, have different encodings. */
  lemma StringEncodingIsInjective(s: seq<Unit>, t: seq<Unit>)
    ensures EncodedString(s) == EncodedString(t) <==> s == t
  {
    StringIsItsBytes(s);
    StringIsItsBytes(t);
    if EncodedString(s) == EncodedString(t) {
      EncodingIsInjective(Wtf8(s), Wtf8(t));
      Utf8IsInjective(Points(s), Points(t));
      PointsSpell(s);
      PointsSpell(t);
    }
  }

  lemma PointsOfKept(c: CodePoint, rest: seq<Unit>)
    requires !Surrogate(c) && WellFormed(rest)
    ensures WellFormed(Utf16(c) + rest)
  {
    FirstOfScalar(c, rest);
  }

  lemma EscapeIsWellFormed(x: Byte, rest: seq<Unit>)
    requires WellFormed(rest)
    ensures WellFormed(EscapeByte(x) + rest)
  {
    var e := EscapeByte(x);
    PointsOfKept(e[2], rest);
    PointsOfKept(e[1], [e[2]] + rest);
    PointsOfKept(e[0], [e[1]] + ([e[2]] + rest));
    assert e + rest == [e[0]] + ([e[1]] + ([e[2]] + rest));
  }

  lemma KeptIsWellFormed(c: CodePoint, rest: seq<Unit>)
    requires !Surrogate(c) && WellFormed(rest)
    ensures WellFormed(Kept(c) + rest)
  {
    EscapeIsWellFormed(PERCENT, rest);
    PointsOfKept(c, rest);
    hide WellFormed, EscapeByte, Utf16;
  }

  lemma {:induction false} EscapedIsWellFormed(b: seq<Byte>)
    ensures WellFormed(Escaped(b))
  {
    assert WellFormed([]);
    hide SequenceLength, FrontCode, Utf8, Kept, EscapeByte, WellFormed;
    if b != [] {
      var n := SequenceLength(b);
      if n == 0 {
        EscapedIsWellFormed(b[1..]);
        EscapeIsWellFormed(b[0], Escaped(b[1..]));
      } else {
        EscapedIsWellFormed(b[n..]);
        SequenceIsScalar(b);
        KeptIsWellFormed(FrontCode(b), Escaped(b[n..]));
      }
    }
  }

  lemma {:induction false} TextIsWellFormed(cs: seq<CodePoint>)
    requires forall c | c in cs :: !Surrogate(c)
    ensures WellFormed(Utf16All(cs))
  {
    if cs != [] {
      TextIsWellFormed(cs[1..]);
      PointsOfKept(cs[0], Utf16All(cs[1..]));
    }
  }

  /** Encoded paths are well-formed Unicode, whatever the bytes were. */
  lemma EncodedIsWellFormed(b: seq<Byte>)
    ensures WellFormed(Encoded(b).path)
  {
    if Accepts(b) {
      AcceptedIsValid(b);
      TextIsWellFormed(Codes(b));
    } else {
      EscapedIsWellFormed(b);
    }
  }
}
