// What an encoded path looks like, character by character and byte by byte.
module PathForm {
  import opened PathBytes

  /** A character of valid UTF-8, or a byte that begins none. */
  datatype Piece = Char(c: CodePoint) | Stray(b: Byte)

  /** Some valid character begins the bytes. */
  ghost predicate CharAhead(b: seq<Byte>) {
    exists c: CodePoint :: !Surrogate(c) && Utf8(c) <= b
  }

  /** The bytes cut into pieces: characters wherever one begins. */
  ghost predicate Cut(b: seq<Byte>, ps: seq<Piece>)
    decreases |ps|
  {
    if ps == [] then b == []
    else match ps[0]
         case Char(c) => !Surrogate(c) && Utf8(c) <= b && Cut(b[|Utf8(c)|..], ps[1..])
         case Stray(x) => b != [] && b[0] == x && !CharAhead(b) && Cut(b[1..], ps[1..])
  }

  /** An upper-case hexadecimal digit. */
  function Hex(d: int): Unit
    requires 0 <= d < 16
  {
    if d <= 9 then 0x30 + d else 0x37 + d
  }

  /** A stray byte as a percent sign and two digits, a percent sign as %25, and every other character as it is. */
  function Shown(ps: seq<Piece>): Text {
    if ps == [] then []
    else (match ps[0]
          case Char(c) => if c == 0x25 then [0x25, 0x32, 0x35] else Utf16(c)
          case Stray(b) => [0x25, Hex(b / 16), Hex(b % 16)]) + Shown(ps[1..])
  }

  /** Characters as they are. */
  function Plain(ps: seq<Piece>): Text
    requires forall p | p in ps :: p.Char?
  {
    if ps == [] then [] else Utf16(ps[0].c) + Plain(ps[1..])
  }

  lemma NotAhead(b: seq<Byte>)
    requires b != []
    ensures CharAhead(b) <==> 0 < SequenceLength(b)
  {
    if 0 < SequenceLength(b) {
      SequenceIsScalar(b);
      var c := FrontCode(b);
      hide Utf8, SequenceLength, FrontCode;
      assert Utf8(c) <= b;
    } else if CharAhead(b) {
      var c: CodePoint :| !Surrogate(c) && Utf8(c) <= b;
      assert b == Utf8(c) + b[|Utf8(c)|..];
      ScalarIsSequence(c, b[|Utf8(c)|..]);
    }
  }

  lemma FrontCut(b: seq<Byte>) returns (p: Piece, n: nat)
    requires b != []
    ensures 0 < n <= |b|
    ensures if 0 < SequenceLength(b) then n == SequenceLength(b) && p == Char(FrontCode(b)) && !Surrogate(p.c) && Utf8(p.c) <= b && |Utf8(p.c)| == n
            else n == 1 && p == Stray(b[0]) && !CharAhead(b)
  {
    NotAhead(b);
    if 0 < SequenceLength(b) {
      SequenceIsScalar(b);
      p, n := Char(FrontCode(b)), SequenceLength(b);
      hide Utf8, SequenceLength, FrontCode;
      assert b[..n] == Utf8(p.c);
    } else {
      p, n := Stray(b[0]), 1;
    }
  }

  /** The first piece, and a cut of what follows it. */
  ghost predicate Begins(b: seq<Byte>, p: Piece, n: nat) {
    n <= |b| && match p
                case Char(c) => !Surrogate(c) && Utf8(c) <= b && |Utf8(c)| == n
                case Stray(x) => n == 1 && b[0] == x && !CharAhead(b)
  }

  lemma CutCons(b: seq<Byte>, p: Piece, n: nat, rest: seq<Piece>)
    requires Begins(b, p, n) && Cut(b[n..], rest)
    ensures Cut(b, [p] + rest)
    ensures Shown([p] + rest) == Shown([p]) + Shown(rest)
  {
    hide Utf8, CharAhead;
    assert ([p] + rest)[1..] == rest && [p][1..] == [];
  }

  lemma OneShown(p: Piece)
    ensures Shown([p]) == match p case Char(c) => Kept(c) case Stray(b) => EscapeByte(b)
  {
    hide Utf16;
    assert [p][1..] == [] && Shown([]) == [];
  }

  lemma EscapedFront(b: seq<Byte>)
    requires b != []
    ensures Escaped(b) == if SequenceLength(b) == 0 then EscapeByte(b[0]) + Escaped(b[1..])
                          else Kept(FrontCode(b)) + Escaped(b[SequenceLength(b)..])
  {
    hide SequenceLength, FrontCode, EscapeByte, Kept;
  }

  lemma {:induction false} EscapedForm(b: seq<Byte>) returns (ps: seq<Piece>)
    ensures Cut(b, ps) && Escaped(b) == Shown(ps)
    decreases |b|
  {
    if b == [] {
      ps := [];
    } else {
      var p, n := FrontCut(b);
      assert Begins(b, p, n);
      hide *;
      var rest := EscapedForm(b[n..]);
      CutCons(b, p, n, rest);
      OneShown(p);
      EscapedFront(b);
      ps := [p] + rest;
    }
  }

  lemma {:induction false} AcceptedForm(b: seq<Byte>) returns (ps: seq<Piece>)
    requires Accepts(b)
    ensures Cut(b, ps) && (forall p | p in ps :: p.Char?) && Utf16All(Codes(b)) == Plain(ps)
    decreases |b|
  {
    hide SequenceLength, FrontCode, Utf8, Utf16, CharAhead, Cut, Shown;
    if b == [] {
      ps := [];
      NoCut();
    } else {
      var p, n := FrontCut(b);
      var rest := AcceptedForm(b[n..]);
      assert Begins(b, p, n);
      CutCons(b, p, n, rest);
      ps := [p] + rest;
      assert ps[1..] == rest;
      assert Codes(b) == [FrontCode(b)] + Codes(b[n..]);
    }
  }

  lemma NoCut()
    ensures Cut([], [])
  {
  }

  lemma {:induction false} CutAccepts(b: seq<Byte>, ps: seq<Piece>)
    requires Cut(b, ps)
    ensures Accepts(b) <==> forall p | p in ps :: p.Char?
    decreases |ps|
  {
    if ps != [] {
      assert ps == [ps[0]] + ps[1..];
      NotAhead(b);
      match ps[0] {
        case Char(c) =>
          assert b == Utf8(c) + b[|Utf8(c)|..];
          ScalarIsSequence(c, b[|Utf8(c)|..]);
          CutAccepts(b[|Utf8(c)|..], ps[1..]);
        case Stray(_) =>
      }
      hide SequenceLength, FrontCode, Utf8, CharAhead;
    }
  }

  /**
   * Bytes are cut into characters and stray bytes in one way. Without stray bytes the path is the characters; otherwise every
   * stray byte is escaped, and so is every percent sign.
   */
  lemma EncodedForm(b: seq<Byte>)
    ensures exists ps :: Cut(b, ps) && IsForm(Encoded(b), ps)
  {
    hide Escaped, Codes, Accepts, Cut;
    if Accepts(b) {
      var ps := AcceptedForm(b);
      CutAccepts(b, ps);
      assert IsForm(Encoded(b), ps);
    } else {
      var ps := EscapedForm(b);
      CutAccepts(b, ps);
      assert IsForm(Encoded(b), ps);
    }
  }

  ghost predicate IsForm(e: EncodedPath, ps: seq<Piece>) {
    if forall p | p in ps :: p.Char? then e == EncodedPath(Plain(ps), false) else e == EncodedPath(Shown(ps), true)
  }

  /** There is only one cut. */
  lemma {:induction false} OneCut(b: seq<Byte>, ps: seq<Piece>, qs: seq<Piece>)
    requires Cut(b, ps) && Cut(b, qs)
    ensures ps == qs
    decreases |ps|
  {
    if ps != [] && qs != [] {
      FirstPiece(b, ps);
      FirstPiece(b, qs);
      hide Utf8, CharAhead, SequenceLength, FrontCode;
      OneCut(if ps[0].Char? then b[|Utf8(ps[0].c)|..] else b[1..], ps[1..], qs[1..]);
      assert ps == [ps[0]] + ps[1..] && qs == [qs[0]] + qs[1..];
    }
  }

  lemma FirstPiece(b: seq<Byte>, ps: seq<Piece>)
    requires Cut(b, ps) && ps != []
    ensures b != [] && ps[0] == if 0 < SequenceLength(b) then Char(FrontCode(b)) else Stray(b[0])
  {
    match ps[0]
    case Char(c) =>
      assert b == Utf8(c) + b[|Utf8(c)|..];
      ScalarIsSequence(c, b[|Utf8(c)|..]);
    case Stray(_) =>
      NotAhead(b);
  }

  // ----- decoding

  /** A percent sign with two upper-case digits, or a character; an unpaired surrogate is a character of its own. */
  datatype Sign = Escape(b: Byte) | Letter(c: CodePoint)

  function EscapeOf(b: Byte): Text {
    [0x25, Hex(b / 16), Hex(b % 16)]
  }

  ghost predicate EscapeAhead(s: Text) {
    exists b: Byte :: EscapeOf(b) <= s
  }

  /** A text cut into escapes wherever one begins, and characters, of which no surrogate is half of a pair. */
  ghost predicate CutText(s: Text, signs: seq<Sign>)
    decreases |signs|
  {
    if signs == [] then s == []
    else match signs[0]
         case Escape(b) => EscapeOf(b) <= s && CutText(s[3..], signs[1..])
         case Letter(c) =>
           && !EscapeAhead(s) && Utf16(c) <= s && !(Surrogate(c) && 1 < |s| && High(s[0]) && Low(s[1]))
           && CutText(s[|Utf16(c)|..], signs[1..])
  }

  /** The bytes of an escape, or the UTF-8 octets of a character; U+FFFD for a surrogate. */
  function SignBytes(sign: Sign): seq<Byte> {
    match sign
    case Escape(b) => [b]
    case Letter(c) => if Surrogate(c) then [0xEF, 0xBF, 0xBD] else Utf8(c)
  }

  function AllBytes(signs: seq<Sign>): seq<Byte> {
    if signs == [] then [] else SignBytes(signs[0]) + AllBytes(signs[1..])
  }

  lemma EscapeAheadIs(s: Text)
    ensures EscapeAhead(s) <==> EscapeAt(s)
    ensures EscapeAt(s) ==> 0 <= 16 * HexValue(s[1]) + HexValue(s[2]) < 256 && EscapeOf(16 * HexValue(s[1]) + HexValue(s[2])) <= s
  {
    if EscapeAt(s) {
      var b: Byte := 16 * HexValue(s[1]) + HexValue(s[2]);
      assert EscapeOf(b) == s[..3];
    }
    if EscapeAhead(s) {
      var b: Byte :| EscapeOf(b) <= s;
      assert s[0] == 0x25 && s[1] == Hex(b / 16) && s[2] == Hex(b % 16);
    }
  }

  lemma FirstLetter(s: Text)
    requires s != []
    ensures var (c, n) := First(s); |Utf16(c)| == n && Utf16(c) <= s && !(Surrogate(c) && 1 < |s| && High(s[0]) && Low(s[1]))
    ensures Octets(First(s).0) == SignBytes(Letter(First(s).0))
  {
  }

  /** Decoding any text gives the bytes of its escapes and characters, in order. */
  lemma {:induction false} DecodedForm(s: Text) returns (signs: seq<Sign>)
    ensures CutText(s, signs) && Decoded(s) == AllBytes(signs)
    decreases |s|
  {
    if s == [] {
      signs := [];
    } else {
      EscapeAheadIs(s);
      if EscapeAt(s) {
        var b: Byte := 16 * HexValue(s[1]) + HexValue(s[2]);
        var rest := DecodedForm(s[3..]);
        signs := [Escape(b)] + rest;
        assert signs[1..] == rest;
      } else {
        var (c, n) := First(s);
        FirstLetter(s);
        var rest := DecodedForm(s[n..]);
        signs := [Letter(c)] + rest;
        assert signs[1..] == rest;
      }
      hide EscapeOf, EscapeAhead, Utf8, Utf16, First, Octets, HexValue;
    }
  }

  // ----- strings

  predicate High(u: Unit) {
    0xD800 <= u <= 0xDBFF
  }

  predicate Low(u: Unit) {
    0xDC00 <= u <= 0xDFFF
  }

  /** Every high surrogate is followed by a low one, and every low one follows a high one. */
  ghost predicate Paired(s: Text) {
    && (forall i | 0 <= i < |s| && High(s[i]) :: i + 1 < |s| && Low(s[i + 1]))
    && (forall i | 0 <= i < |s| && Low(s[i]) :: 0 < i && High(s[i - 1]))
  }

  lemma PairedStep(s: Text)
    requires s != []
    ensures Paired(s) <==> !Surrogate(First(s).0) && Paired(s[First(s).1..])
  {
    var n := First(s).1;
    var rest := s[n..];
    assert forall i | n <= i < |s| :: s[i] == rest[i - n];
    if Paired(s) {
      forall i | 0 <= i < |rest| && Low(rest[i])
        ensures 0 < i && High(rest[i - 1])
      {
        assert Low(s[i + n]) && High(s[i + n - 1]);
      }
    }
    if !Surrogate(First(s).0) && Paired(rest) {
      forall i | 0 <= i < |s| && Low(s[i])
        ensures 0 < i && High(s[i - 1])
      {
        assert n <= i ==> Low(rest[i - n]);
      }
    }
  }

  /** A string is well-formed exactly when its surrogates are paired. */
  lemma {:induction false} WellFormedExactly(s: Text)
    ensures WellFormed(s) <==> Paired(s)
    decreases |s|
  {
    if s != [] {
      PairedStep(s);
      WellFormedExactly(s[First(s).1..]);
      hide Paired, First;
      assert Points(s) == [First(s).0] + Points(s[First(s).1..]);
    }
  }

  /** Well-formed strings pass through. */
  lemma PairedPassThrough(s: Text)
    requires Paired(s)
    ensures EncodedString(s) == EncodedPath(s, false)
  {
    WellFormedExactly(s);
    hide WellFormed, Paired;
  }
}
