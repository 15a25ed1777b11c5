// Finding the JSON object in a model's reply.
module ReviewJson {
  import opened PathBytes
  import opened JsonUnits

  datatype Extracted = Payload(text: Text) | NoObject | Unterminated

  // ----- the scanner

  /** Where the scanner is: how deep, inside a string or not, and after a backslash or not. */
  datatype State = State(depth: int, inString: bool, escaped: bool)

  function Next(s: State, u: Unit): State {
    if s.inString then
      if s.escaped then s.(escaped := false)
      else if u == BACKSLASH then s.(escaped := true)
      else if u == QUOTE then s.(inString := false)
      else s
    else if u == QUOTE then s.(inString := true)
    else if u == OPEN_OBJECT then s.(depth := s.depth + 1)
    else if u == CLOSE_OBJECT then s.(depth := s.depth - 1)
    else s
  }

  /** The object ends with this unit. */
  predicate Ends(s: State, u: Unit) {
    !s.inString && u == CLOSE_OBJECT && s.depth == 1
  }

  /** How many units there are up to the end of the object, if it ends. */
  function Length(text: Text, s: State): (n: int)
    ensures -1 <= n <= |text|
  {
    if text == [] then -1
    else if Ends(s, text[0]) then 1
    else
      var rest := Length(text[1..], Next(s, text[0]));
      if rest == -1 then -1 else 1 + rest
  }

  function FirstOpen(text: Text): (k: nat)
    ensures k <= |text| && (k < |text| ==> text[k] == OPEN_OBJECT) && forall i | 0 <= i < k :: text[i] != OPEN_OBJECT
  {
    if text == [] || text[0] == OPEN_OBJECT then 0 else 1 + FirstOpen(text[1..])
  }

  const START := State(0, false, false)

  function Extract(text: Text): Extracted {
    var start := FirstOpen(text);
    if start == |text| then NoObject
    else
      var n := Length(text[start..], START);
      if n == -1 then Unterminated else Payload(text[start..][..n])
  }

  // indexOf: the length stands for -1.
  method IndexOfOpen(text: Text) returns (start: nat)
    ensures start == FirstOpen(text)
  {
    start := 0;
    while start < |text| && text[start] != OPEN_OBJECT
      invariant 0 <= start <= |text|
      invariant forall i | 0 <= i < start :: text[i] != OPEN_OBJECT
    {
      start := start + 1;
    }
    FirstOpenIs(text, start);
  }

  method ExtractReviewJsonPayload(text: Text) returns (result: Extracted)
    ensures result == Extract(text)
  {
    hide Extract, LengthAt;
    ExtractIs(text);
    var start := IndexOfOpen(text);
    if start == |text| {
      return NoObject;
    }
    var depth, inString, escaped := 0, false, false;
    var index := start;
    while index < |text|
      invariant start <= index <= |text|
      invariant LengthAt(text, start, START) == After(index - start, LengthAt(text, index, State(depth, inString, escaped)))
    {
      var u := text[index];
      LengthStep(text, index, State(depth, inString, escaped));
      if inString {
        if escaped {
          escaped := false;
        } else if u == BACKSLASH {
          escaped := true;
        } else if u == QUOTE {
          inString := false;
        }
      } else if u == QUOTE {
        inString := true;
      } else if u == OPEN_OBJECT {
        depth := depth + 1;
      } else if u == CLOSE_OBJECT {
        depth := depth - 1;
        if depth == 0 {
          return Payload(text[start..index + 1]);
        }
      }
      index := index + 1;
    }
    LengthStep(text, index, State(depth, inString, escaped));
    return Unterminated;
  }

  ghost function LengthAt(text: Text, i: nat, s: State): (n: int)
    requires i <= |text|
    ensures -1 <= n <= |text| - i
  {
    Length(text[i..], s)
  }

  lemma ExtractIs(text: Text)
    ensures var start := FirstOpen(text);
            Extract(text) == if start == |text| then NoObject
                             else if LengthAt(text, start, START) == -1 then Unterminated
                             else Payload(text[start..start + LengthAt(text, start, START)])
  {
    hide FirstOpen, Length;
    var start := FirstOpen(text);
    if start < |text| && LengthAt(text, start, START) != -1 {
      SliceOfRest(text, start, LengthAt(text, start, START));
    }
  }

  lemma SliceOfRest(text: Text, i: nat, n: nat)
    requires i + n <= |text|
    ensures text[i..][..n] == text[i..i + n]
  {
  }

  lemma LengthStep(text: Text, i: nat, s: State)
    requires i <= |text|
    ensures i == |text| ==> LengthAt(text, i, s) == -1
    ensures i < |text| ==> LengthAt(text, i, s) == if Ends(s, text[i]) then 1 else After(1, LengthAt(text, i + 1, Next(s, text[i])))
  {
    assert i < |text| ==> text[i..][1..] == text[i + 1..];
  }

  function After(k: int, n: int): int {
    if n == -1 then -1 else k + n
  }

  lemma FirstOpenIs(text: Text, k: nat)
    requires k <= |text| && (k < |text| ==> text[k] == OPEN_OBJECT) && forall i | 0 <= i < k :: text[i] != OPEN_OBJECT
    ensures FirstOpen(text) == k
  {
    var n := FirstOpen(text);
    assert n < |text| ==> text[n] == OPEN_OBJECT;
  }

  // ----- JSON texts

  /** One character of a string: itself, a two-character escape, or four hexadecimal digits. */
  datatype Character = Plain(u: Unit) | Short(u: Unit) | Hex(digits: Text)

  /** JSON texts with their white space: section 2 of RFC 8259; literals and numbers are kept as they are. */
  datatype Json =
    | Literal(text: Text)
    | String(characters: seq<Character>)
    | Array(elements: seq<Element>, space: Text)
    | Object(members: seq<Member>, space: Text)
  datatype Element = Element(before: Text, value: Json, after: Text)
  datatype Member = Member(before: Text, name: seq<Character>, middle: Text, value: Element)

  predicate Space(text: Text) {
    forall i | 0 <= i < |text| :: text[i] == 0x20 || text[i] == 0x09 || text[i] == 0x0A || text[i] == 0x0D
  }

  predicate LetterOrDigit(u: Unit) {
    0x30 <= u <= 0x39 || 0x41 <= u <= 0x5A || 0x61 <= u <= 0x7A
  }

  /** The characters that section 7 of RFC 8259 allows, each in its form. */
  predicate Allowed(c: Character) {
    match c
    case Plain(u) => u != 0x22 && u != 0x5C && 0x20 <= u
    case Short(u) => u == 0x22 || u == 0x5C || u == 0x2F || u == 0x62 || u == 0x66 || u == 0x6E || u == 0x72 || u == 0x74
    case Hex(digits) => |digits| == 4 && forall i | 0 <= i < 4 :: LetterOrDigit(digits[i])
  }

  predicate WellFormed(v: Json) {
    match v
    case Literal(text) => forall i | 0 <= i < |text| :: LetterOrDigit(text[i]) || text[i] == 0x2B || text[i] == 0x2D || text[i] == 0x2E
    case String(characters) => forall c | c in characters :: Allowed(c)
    case Array(elements, space) => Space(space) && forall i | 0 <= i < |elements| :: WellFormedElement(elements[i])
    case Object(members, space) => Space(space) && forall i | 0 <= i < |members| :: WellFormedMember(members[i])
  }

  predicate WellFormedElement(e: Element) {
    Space(e.before) && WellFormed(e.value) && Space(e.after)
  }

  predicate WellFormedMember(m: Member) {
    Space(m.before) && (forall c | c in m.name :: Allowed(c)) && Space(m.middle) && WellFormedElement(m.value)
  }

  function PrintCharacter(c: Character): Text {
    match c
    case Plain(u) => [u]
    case Short(u) => [0x5C, u]
    case Hex(digits) => [0x5C, 0x75] + digits
  }

  function PrintCharacters(cs: seq<Character>): Text {
    if cs == [] then [] else PrintCharacter(cs[0]) + PrintCharacters(cs[1..])
  }

  function PrintString(cs: seq<Character>): Text {
    [0x22] + (PrintCharacters(cs) + [0x22])
  }

  function Print(v: Json): Text
    decreases v, 0
  {
    match v
    case Literal(text) => text
    case String(characters) => PrintString(characters)
    case Array(elements, space) => [0x5B] + (space + (PrintElements(elements) + [0x5D]))
    case Object(members, space) => [0x7B] + (space + (PrintMembers(members) + [0x7D]))
  }

  function PrintElement(e: Element): Text
    decreases e, 1
  {
    e.before + (Print(e.value) + e.after)
  }

  function PrintElements(es: seq<Element>): Text
    decreases es, 0
  {
    if es == [] then [] else PrintElement(es[0]) + ((if |es| == 1 then [] else [0x2C]) + PrintElements(es[1..]))
  }

  function PrintMember(m: Member): Text
    decreases m, 2
  {
    m.before + (PrintString(m.name) + (m.middle + ([0x3A] + PrintElement(m.value))))
  }

  function PrintMembers(ms: seq<Member>): Text
    decreases ms, 0
  {
    if ms == [] then [] else PrintMember(ms[0]) + ((if |ms| == 1 then [] else [0x2C]) + PrintMembers(ms[1..]))
  }

  // ----- the scanner passes over JSON texts

  /** Inside an object, the scanner goes over the text and is where it was. */
  ghost predicate Passes(text: Text) {
    forall depth, rest {:trigger Length(text + rest, State(depth, false, false))} ::
      0 < depth ==> Length(text + rest, State(depth, false, false)) == After(|text|, Length(rest, State(depth, false, false)))
  }

  lemma PassesBoth(a: Text, b: Text)
    requires Passes(a) && Passes(b)
    ensures Passes(a + b)
  {
    forall depth, rest | 0 < depth
      ensures Length(a + b + rest, State(depth, false, false)) == After(|a + b|, Length(rest, State(depth, false, false)))
    {
      Assoc(a, b, rest);
    }
  }

  lemma {:induction false} QuietPasses(text: Text)
    requires forall i | 0 <= i < |text| :: text[i] != QUOTE && text[i] != OPEN_OBJECT && text[i] != CLOSE_OBJECT
    ensures Passes(text)
  {
    if text == [] {
      assert forall rest: Text :: text + rest == rest;
    } else {
      QuietPasses(text[1..]);
      forall depth, rest | 0 < depth
        ensures Length(text + rest, State(depth, false, false)) == After(|text|, Length(rest, State(depth, false, false)))
      {
        assert (text + rest)[1..] == text[1..] + rest;
      }
    }
  }

  lemma InString(u: Unit, rest: Text, s: State)
    requires s.inString
    ensures Length([u] + rest, s) == After(1, Length(rest, Next(s, u)))
  {
    assert ([u] + rest)[1..] == rest;
  }

  lemma {:induction false} PlainsPass(us: Text, rest: Text, depth: int)
    requires forall i | 0 <= i < |us| :: us[i] != QUOTE && us[i] != BACKSLASH
    ensures Length(us + rest, State(depth, true, false)) == After(|us|, Length(rest, State(depth, true, false)))
  {
    if us == [] {
      assert us + rest == rest;
    } else {
      PlainsPass(us[1..], rest, depth);
      assert us + rest == [us[0]] + (us[1..] + rest);
      InString(us[0], us[1..] + rest, State(depth, true, false));
    }
  }

  lemma CharacterPasses(c: Character, rest: Text, depth: int)
    requires Allowed(c)
    ensures Length(PrintCharacter(c) + rest, State(depth, true, false)) == After(|PrintCharacter(c)|, Length(rest, State(depth, true, false)))
  {
    hide Length;
    match c
    case Plain(u) => InString(u, rest, State(depth, true, false));
    case Short(u) =>
      assert PrintCharacter(c) + rest == [BACKSLASH] + ([u] + rest);
      InString(BACKSLASH, [u] + rest, State(depth, true, false));
      InString(u, rest, State(depth, true, true));
    case Hex(digits) =>
      assert PrintCharacter(c) + rest == [BACKSLASH] + ([0x75] + (digits + rest));
      InString(BACKSLASH, [0x75] + (digits + rest), State(depth, true, false));
      InString(0x75, digits + rest, State(depth, true, true));
      PlainsPass(digits, rest, depth);
  }

  lemma {:induction false} CharactersPass(cs: seq<Character>, rest: Text, depth: int)
    requires forall c | c in cs :: Allowed(c)
    ensures Length(PrintCharacters(cs) + rest, State(depth, true, false)) == After(|PrintCharacters(cs)|, Length(rest, State(depth, true, false)))
  {
    if cs == [] {
      assert PrintCharacters(cs) + rest == rest;
    } else {
      CharactersPass(cs[1..], rest, depth);
      CharacterPasses(cs[0], PrintCharacters(cs[1..]) + rest, depth);
      Assoc(PrintCharacter(cs[0]), PrintCharacters(cs[1..]), rest);
      hide Length, Allowed, PrintCharacter;
    }
  }

  /** Whatever braces and quotes a string contains. */
  lemma StringPasses(cs: seq<Character>)
    requires forall c | c in cs :: Allowed(c)
    ensures Passes(PrintString(cs))
  {
    var inner := PrintCharacters(cs);
    forall depth, rest | 0 < depth
      ensures Length(PrintString(cs) + rest, State(depth, false, false)) == After(|PrintString(cs)|, Length(rest, State(depth, false, false)))
    {
      var text := PrintString(cs) + rest;
      assert text[1..] == inner + ([QUOTE] + rest);
      CharactersPass(cs, [QUOTE] + rest, depth);
      InString(QUOTE, rest, State(depth, true, false));
    }
  }

  lemma SpacePasses(text: Text)
    requires Space(text)
    ensures Passes(text)
  {
    QuietPasses(text);
  }

  lemma {:induction false} ValuePasses(v: Json)
    requires WellFormed(v)
    ensures Passes(Print(v))
    decreases v, 0
  {
    hide Passes;
    match v
    case Literal(text) => QuietPasses(text);
    case String(characters) => StringPasses(characters);
    case Array(elements, space) =>
      ElementsPass(elements);
      SpacePasses(space);
      QuietPasses([OPEN_ARRAY]);
      QuietPasses([CLOSE_ARRAY]);
      PassesBoth(PrintElements(elements), [CLOSE_ARRAY]);
      PassesBoth(space, PrintElements(elements) + [CLOSE_ARRAY]);
      PassesBoth([OPEN_ARRAY], space + (PrintElements(elements) + [CLOSE_ARRAY]));
    case Object(members, space) =>
      MembersPass(members);
      SpacePasses(space);
      PassesBoth(space, PrintMembers(members));
      ObjectPasses(space, PrintMembers(members));
  }

  lemma ElementPasses(e: Element)
    requires WellFormedElement(e)
    ensures Passes(PrintElement(e))
    decreases e, 1
  {
    hide Passes;
    SpacePasses(e.before);
    SpacePasses(e.after);
    ValuePasses(e.value);
    PassesBoth(Print(e.value), e.after);
    PassesBoth(e.before, Print(e.value) + e.after);
  }

  lemma {:induction false} ElementsPass(es: seq<Element>)
    requires forall i | 0 <= i < |es| :: WellFormedElement(es[i])
    ensures Passes(PrintElements(es))
    decreases es, 0
  {
    hide Passes, PrintElement;
    QuietPasses([]);
    if es != [] {
      var comma := if |es| == 1 then [] else [COMMA];
      ElementPasses(es[0]);
      ElementsPass(es[1..]);
      QuietPasses(comma);
      PassesBoth(comma, PrintElements(es[1..]));
      PassesBoth(PrintElement(es[0]), comma + PrintElements(es[1..]));
    }
  }

  lemma MemberPasses(m: Member)
    requires WellFormedMember(m)
    ensures Passes(PrintMember(m))
    decreases m, 2
  {
    hide Passes, PrintElement, PrintString;
    SpacePasses(m.before);
    SpacePasses(m.middle);
    StringPasses(m.name);
    QuietPasses([COLON]);
    ElementPasses(m.value);
    PassesBoth([COLON], PrintElement(m.value));
    PassesBoth(m.middle, [COLON] + PrintElement(m.value));
    PassesBoth(PrintString(m.name), m.middle + ([COLON] + PrintElement(m.value)));
    PassesBoth(m.before, PrintString(m.name) + (m.middle + ([COLON] + PrintElement(m.value))));
  }

  lemma {:induction false} MembersPass(ms: seq<Member>)
    requires forall i | 0 <= i < |ms| :: WellFormedMember(ms[i])
    ensures Passes(PrintMembers(ms))
    decreases ms, 0
  {
    hide Passes, PrintMember;
    QuietPasses([]);
    if ms != [] {
      var comma := if |ms| == 1 then [] else [COMMA];
      MemberPasses(ms[0]);
      MembersPass(ms[1..]);
      QuietPasses(comma);
      PassesBoth(comma, PrintMembers(ms[1..]));
      PassesBoth(PrintMember(ms[0]), comma + PrintMembers(ms[1..]));
    }
  }

  lemma ObjectInner(inner: Text, rest: Text, depth: int)
    requires Passes(inner) && 0 <= depth
    ensures var text := [OPEN_OBJECT] + (inner + [CLOSE_OBJECT]) + rest;
            Length(text, State(depth, false, false)) == After(1 + |inner|, Length([CLOSE_OBJECT] + rest, State(depth + 1, false, false)))
  {
    var text := [OPEN_OBJECT] + (inner + [CLOSE_OBJECT]) + rest;
    assert text[1..] == inner + ([CLOSE_OBJECT] + rest);
    assert Length(inner + ([CLOSE_OBJECT] + rest), State(depth + 1, false, false)) == After(|inner|, Length([CLOSE_OBJECT] + rest, State(depth + 1, false, false)));
    assert Length(text, State(depth, false, false)) == After(1, Length(text[1..], State(depth + 1, false, false)));
  }

  lemma ObjectPasses(space: Text, members: Text)
    requires Passes(space + members)
    ensures Passes([OPEN_OBJECT] + (space + (members + [CLOSE_OBJECT])))
  {
    var text := [OPEN_OBJECT] + (space + (members + [CLOSE_OBJECT]));
    assert text == [OPEN_OBJECT] + ((space + members) + [CLOSE_OBJECT]);
    forall depth, rest | 0 < depth
      ensures Length(text + rest, State(depth, false, false)) == After(|text|, Length(rest, State(depth, false, false)))
    {
      ObjectInner(space + members, rest, depth);
      assert ([CLOSE_OBJECT] + rest)[1..] == rest;
    }
  }

  /** There is no object exactly when there is no opening brace. */
  lemma NoObjectExactly(text: Text)
    ensures Extract(text) == NoObject <==> forall i | 0 <= i < |text| :: text[i] != 0x7B
  {
    hide Length;
    assert FirstOpen(text) < |text| ==> text[FirstOpen(text)] == 0x7B;
  }

  /** After a prefix without braces, an object is extracted in full, whatever follows it. */
  lemma ExtractsObject(prefix: Text, members: seq<Member>, space: Text, suffix: Text)
    requires WellFormed(Object(members, space)) && forall i | 0 <= i < |prefix| :: prefix[i] != 0x7B
    ensures var text := Print(Object(members, space));
            Extract(prefix + text + suffix) == Payload(text)
  {
    var inner := space + PrintMembers(members);
    var text := Print(Object(members, space));
    MembersPass(members);
    SpacePasses(space);
    PassesBoth(space, PrintMembers(members));
    hide WellFormed, PrintMembers, Passes, FirstOpen;
    assert text == [OPEN_OBJECT] + (inner + [CLOSE_OBJECT]);
    ObjectInner(inner, suffix, 0);
    assert Length([CLOSE_OBJECT] + suffix, State(1, false, false)) == 1;
    hide Print, Length;
    var all := prefix + text + suffix;
    assert all[|prefix|..] == text + suffix && all[|prefix|] == OPEN_OBJECT;
    FirstOpenIs(all, |prefix|);
    assert (text + suffix)[..|text|] == text;
  }
}
