// A reader of JSON texts, written from RFC 8259 with the units it names, and what it makes of serialized values.
module JcsReader {
  import opened Wrappers
  import opened PathBytes
  import opened Jcs

  /** What was read, and the text after it. */
  datatype Read<T> = Read(value: T, rest: Text) | Bad

  // ----- section 2: insignificant white space

  predicate Space(u: Unit) {
    u == 0x20 || u == 0x09 || u == 0x0A || u == 0x0D
  }

  function Skip(t: Text): (r: Text)
    ensures |r| <= |t|
  {
    if t != [] && Space(t[0]) then Skip(t[1..]) else t
  }

  /** A text that begins with a given unit after white space. */
  predicate Begins(t: Text, u: Unit) {
    Skip(t) != [] && Skip(t)[0] == u
  }

  // ----- section 7: strings

  function HexDigit(u: Unit): Option<nat> {
    if 0x30 <= u <= 0x39 then Some(u - 0x30)
    else if 0x41 <= u <= 0x46 then Some(u - 0x41 + 10)
    else if 0x61 <= u <= 0x66 then Some(u - 0x61 + 10)
    else None
  }

  /** The unit that a two-character escape stands for. */
  function Unescaped(u: Unit): Option<Unit> {
    match u
    case 0x22 => Some(0x22)
    case 0x5C => Some(0x5C)
    case 0x2F => Some(0x2F)
    case 0x62 => Some(0x08)
    case 0x66 => Some(0x0C)
    case 0x6E => Some(0x0A)
    case 0x72 => Some(0x0D)
    case 0x74 => Some(0x09)
    case _ => None
  }

  /** One unit of a string: itself, or what an escape stands for. */
  function ReadUnit(t: Text): (r: Read<Unit>)
    ensures r.Read? ==> |r.rest| < |t|
  {
    if t == [] || t[0] < 0x20 || t[0] == 0x22 then Bad
    else if t[0] != 0x5C then Read(t[0], t[1..])
    else if |t| < 2 then Bad
    else if t[1] != 0x75 then
      if Unescaped(t[1]).Some? then Read(Unescaped(t[1]).value, t[2..]) else Bad
    else if |t| < 6 then Bad
    else
      match (HexDigit(t[2]), HexDigit(t[3]), HexDigit(t[4]), HexDigit(t[5]))
      case (Some(a), Some(b), Some(c), Some(d)) =>
        if a < 16 && b < 16 && c < 16 && d < 16 then Read(((a * 16 + b) * 16 + c) * 16 + d, t[6..]) else Bad
      case _ => Bad
  }

  /** The units of a string up to its closing quotation mark. */
  function ReadUnits(t: Text): (r: Read<Text>)
    ensures r.Read? ==> |r.rest| < |t|
    decreases |t|
  {
    if t != [] && t[0] == 0x22 then Read([], t[1..])
    else
      match ReadUnit(t)
      case Bad => Bad
      case Read(u, rest) =>
        match ReadUnits(rest)
        case Bad => Bad
        case Read(s, more) => Read([u] + s, more)
  }

  /** A string with its quotation marks. */
  function ReadString(t: Text): (r: Read<Text>)
    ensures r.Read? ==> |r.rest| < |t|
  {
    if t == [] || t[0] != 0x22 then Bad else ReadUnits(t[1..])
  }

  // ----- section 6: numbers, without fraction and exponent

  function ReadDigits(t: Text, n: nat): (r: Read<nat>)
    ensures r.Read? && |r.rest| <= |t|
    decreases |t|
  {
    if t != [] && 0x30 <= t[0] <= 0x39 then ReadDigits(t[1..], n * 10 + (t[0] - 0x30)) else Read(n, t)
  }

  /** An integer: zero, or digits that do not begin with it, and perhaps a sign before. */
  function ReadNumber(t: Text): (r: Read<int>)
    ensures r.Read? ==> |r.rest| < |t|
  {
    var minus := t != [] && t[0] == 0x2D;
    var digits := if minus then t[1..] else t;
    if digits == [] || !(0x30 <= digits[0] <= 0x39) then Bad
    else if digits[0] == 0x30 then Read(0, digits[1..])
    else
      var n := ReadDigits(digits[1..], digits[0] - 0x30);
      var value: int := n.value;
      Read(if minus then -value else value, n.rest)
  }

  // ----- sections 3 to 5: values, objects, arrays

  predicate Starts(t: Text, word: Text) {
    |word| <= |t| && t[..|word|] == word
  }

  function ReadValue(text: Text): (r: Read<Json>)
    ensures r.Read? ==> |r.rest| < |text|
    decreases |text|, 1
  {
    var t := Skip(text);
    if t == [] then Bad
    else if Starts(t, [0x6E, 0x75, 0x6C, 0x6C]) then Read(Null, t[4..])
    else if Starts(t, [0x74, 0x72, 0x75, 0x65]) then Read(Bool(true), t[4..])
    else if Starts(t, [0x66, 0x61, 0x6C, 0x73, 0x65]) then Read(Bool(false), t[5..])
    else if t[0] == 0x22 then
      match ReadString(t) case Bad => Bad case Read(s, rest) => Read(Str(s), rest)
    else if t[0] == 0x5B then
      if Begins(t[1..], 0x5D) then Read(Arr([]), Skip(t[1..])[1..])
      else match ReadElements(t[1..]) case Bad => Bad case Read(items, rest) => Read(Arr(items), rest)
    else if t[0] == 0x7B then
      if Begins(t[1..], 0x7D) then Read(Obj([]), Skip(t[1..])[1..])
      else match ReadMembers(t[1..]) case Bad => Bad case Read(ms, rest) => Read(Obj(ms), rest)
    else
      match ReadNumber(t) case Bad => Bad case Read(n, rest) => Read(Num(n), rest)
  }

  /** Values with commas between them, up to the closing bracket. */
  function ReadElements(t: Text): (r: Read<seq<Json>>)
    ensures r.Read? ==> |r.rest| < |t|
    decreases |t|, 2
  {
    match ReadValue(t)
    case Bad => Bad
    case Read(v, rest) =>
      if Begins(rest, 0x5D) then Read([v], Skip(rest)[1..])
      else if Begins(rest, 0x2C) then
        match ReadElements(Skip(rest)[1..]) case Bad => Bad case Read(items, more) => Read([v] + items, more)
      else Bad
  }

  function ReadMember(t: Text): (r: Read<Member>)
    ensures r.Read? ==> |r.rest| < |t|
    decreases |t|, 2
  {
    match ReadString(Skip(t))
    case Bad => Bad
    case Read(key, rest) =>
      if !Begins(rest, 0x3A) then Bad
      else match ReadValue(Skip(rest)[1..]) case Bad => Bad case Read(v, more) => Read(Member(key, v), more)
  }

  /** Members with commas between them, up to the closing brace. */
  function ReadMembers(t: Text): (r: Read<seq<Member>>)
    ensures r.Read? ==> |r.rest| < |t|
    decreases |t|, 3
  {
    match ReadMember(t)
    case Bad => Bad
    case Read(m, rest) =>
      if Begins(rest, 0x7D) then Read([m], Skip(rest)[1..])
      else if Begins(rest, 0x2C) then
        match ReadMembers(Skip(rest)[1..]) case Bad => Bad case Read(ms, more) => Read([m] + ms, more)
      else Bad
  }

  /** A whole text: one value and nothing else. */
  function ReadText(t: Text): Option<Json> {
    match ReadValue(t) case Bad => None case Read(v, rest) => if Skip(rest) == [] then Some(v) else None
  }

  // ----- strings and numbers come back

  lemma HexComesBack(d: int)
    requires 0 <= d < 16
    ensures HexDigit(LowerHex(d)) == Some(d)
  {
  }

  lemma HexValue(c: nat)
    requires c < 0x10000
    ensures ((c / 16 / 16 / 16 * 16 + c / 16 / 16 % 16) * 16 + c / 16 % 16) * 16 + c % 16 == c
  {
    assert c / 16 / 16 / 16 * 16 + c / 16 / 16 % 16 == c / 16 / 16;
    assert c / 16 / 16 * 16 + c / 16 % 16 == c / 16;
  }

  lemma UnitFirst(u: Unit, t: Text, x: Text)
    requires ReadUnit(t) == Read(u, x) && t != [] && t[0] != 0x22
    ensures ReadUnits(t) == match ReadUnits(x) case Bad => Bad case Read(s, rest) => Read([u] + s, rest)
  {
    hide ReadUnit;
  }

  /** One code point, as it is escaped. */
  lemma EscapeComesBack(c: CodePoint, x: Text)
    ensures ReadUnits(EscapeCode(c) + x) == match ReadUnits(x) case Bad => Bad case Read(s, rest) => Read(Utf16(c) + s, rest)
  {
    var t := EscapeCode(c) + x;
    if |EscapeCode(c)| == 6 {
      HexValue(c);
      HexComesBack(c / 16 / 16 / 16);
      HexComesBack(c / 16 / 16 % 16);
      HexComesBack(c / 16 % 16);
      HexComesBack(c % 16);
      assert t[6..] == x;
      UnitFirst(c, t, x);
    } else if EscapeCode(c)[0] == 0x5C {
      assert t[2..] == x;
      UnitFirst(c, t, x);
    } else if |EscapeCode(c)| == 1 {
      assert t[1..] == x;
      UnitFirst(c, t, x);
    } else {
      PairComesBack(c, x);
    }
  }

  lemma PairComesBack(c: CodePoint, x: Text)
    requires 0x1_0000 <= c
    ensures ReadUnits(Utf16(c) + x) == match ReadUnits(x) case Bad => Bad case Read(s, rest) => Read(Utf16(c) + s, rest)
  {
    var u, t := Utf16(c), Utf16(c) + x;
    assert t[1..] == [u[1]] + x && t[1..][1..] == x;
    UnitFirst(u[0], t, t[1..]);
    UnitFirst(u[1], t[1..], x);
    assert u == [u[0]] + [u[1]];
    hide ReadUnits, Utf16;
    match ReadUnits(x)
    case Bad =>
    case Read(s, rest) => assert [u[0]] + ([u[1]] + s) == u + s;
  }

  lemma {:induction false} EscapesComeBack(cs: seq<CodePoint>, x: Text)
    ensures ReadUnits(EscapeCodes(cs) + [0x22] + x) == Read(Utf16All(cs), x)
  {
    if cs == [] {
      assert ([] + [0x22] + x)[1..] == x;
    } else {
      EscapesStart(cs, x);
      EscapeComesBack(cs[0], EscapeCodes(cs[1..]) + [0x22] + x);
      EscapesComeBack(cs[1..], x);
      hide EscapeCode, ReadUnits;
    }
  }

  /** A string is read back unit by unit, well-formed or not. */
  lemma StringComesBack(s: Text, x: Text)
    ensures ReadString(Quote(s) + x) == Read(s, x)
  {
    hide Points, EscapeCodes, ReadUnits;
    assert (Quote(s) + x)[1..] == EscapeCodes(Points(s)) + [0x22] + x;
    EscapesComeBack(Points(s), x);
    PointsSpell(s);
  }

  lemma {:induction false} DigitsComeBack(n: nat, x: Text)
    ensures ReadDigits(Decimal(n) + x, 0) == ReadDigits(x, n)
    ensures 0x30 <= Decimal(n)[0] <= 0x39 && (0 < n ==> Decimal(n)[0] != 0x30)
  {
    var d: Unit := 0x30 + n % 10;
    assert ([d] + x)[1..] == x;
    assert ReadDigits([d] + x, n / 10) == ReadDigits(x, n);
    if n < 10 {
      assert Decimal(n) == [d];
    } else {
      DigitsComeBack(n / 10, [d] + x);
      assert Decimal(n) + x == Decimal(n / 10) + ([d] + x);
    }
  }

  /** A number is read back by its decimal digits. */
  lemma NumberComesBack(n: nat, x: Text)
    requires EndsNumber(x)
    ensures ReadNumber(Decimal(n) + x) == Read(n, x)
  {
    DigitsComeBack(n, x);
    var t := Decimal(n) + x;
    assert ReadDigits(t, 0) == ReadDigits(t[1..], t[0] - 0x30);
    assert ReadDigits(x, n) == Read(n, x);
    if n == 0 {
      assert Decimal(0) == [0x30] && t[1..] == x;
    }
    hide ReadDigits, Decimal;
  }

  // ----- values come back

  lemma NothingToSkip(t: Text)
    requires t != [] && !Space(t[0])
    ensures Skip(t) == t
  {
  }

  /** The first key comes first by code units: they agree up to where it ends, or has the smaller unit. */
  ghost predicate Before(s: Text, t: Text) {
    exists p :: 0 <= p <= |s| && p < |t| && s[..p] == t[..p] && (p == |s| || s[p] < t[p])
  }

  /** At every depth, the members of an object are in strictly ascending order of their keys. */
  ghost predicate Ordered(v: Json) {
    match v
    case Arr(items) => forall i | 0 <= i < |items| :: Ordered(items[i])
    case Obj(ms) =>
      && (forall i, j | 0 <= i < j < |ms| :: Before(ms[i].key, ms[j].key))
      && (forall i | 0 <= i < |ms| :: Ordered(ms[i].value))
    case _ => true
  }

  lemma {:induction false} LessIsBefore(s: Text, t: Text)
    requires Less(s, t)
    ensures Before(s, t)
  {
    if s == [] || s[0] < t[0] {
      assert s[..0] == t[..0];
    } else {
      LessIsBefore(s[1..], t[1..]);
      var p :| 0 <= p <= |s[1..]| && p < |t[1..]| && s[1..][..p] == t[1..][..p] && (p == |s[1..]| || s[1..][p] < t[1..][p]);
      assert s[..p + 1] == [s[0]] + s[1..][..p] && t[..p + 1] == [t[0]] + t[1..][..p];
    }
  }

  /** What a text of a value reads as: that value but for the order of members and those that are undefined. */
  ghost predicate ReadsAs(r: Read<Json>, v: Json, x: Text) {
    r.Read? && r.rest == x && Same(v, r.value) && Ordered(r.value)
  }

  lemma WordStarts(t: Text, word: Text)
    requires word != []
    ensures Starts(t, word) ==> t != [] && t[0] == word[0]
  {
    if Starts(t, word) {
      assert t[..|word|][0] == t[0];
    }
  }

  /** A text that begins none of the three words. */
  lemma NoWord(t: Text)
    requires t != [] && t[0] != 0x6E && t[0] != 0x74 && t[0] != 0x66
    ensures !Starts(t, [0x6E, 0x75, 0x6C, 0x6C]) && !Starts(t, [0x74, 0x72, 0x75, 0x65]) && !Starts(t, [0x66, 0x61, 0x6C, 0x73, 0x65])
  {
    hide Starts;
    WordStarts(t, [0x6E, 0x75, 0x6C, 0x6C]);
    WordStarts(t, [0x74, 0x72, 0x75, 0x65]);
    WordStarts(t, [0x66, 0x61, 0x6C, 0x73, 0x65]);
  }

  lemma StringRead(s: Text, x: Text)
    ensures ReadValue(Quote(s) + x) == Read(Str(s), x)
  {
    var t := Quote(s) + x;
    assert t[0] == 0x22;
    hide ReadString, Quote, ReadElements, ReadMembers, ReadNumber, Starts;
    NoWord(t);
    StringComesBack(s, x);
    NothingToSkip(t);
  }

  lemma DigitRead(t: Text)
    requires t != [] && 0x30 <= t[0] <= 0x39
    ensures ReadValue(t) == match ReadNumber(t) case Bad => Bad case Read(n, rest) => Read(Num(n), rest)
  {
    hide ReadString, ReadElements, ReadMembers, ReadNumber, Starts;
    NoWord(t);
    NothingToSkip(t);
  }

  lemma NumberRead(n: nat, x: Text)
    requires EndsNumber(x)
    ensures ReadValue(Decimal(n) + x) == Read(Num(n), x)
  {
    hide *;
    DigitsComeBack(n, x);
    NumberComesBack(n, x);
    assert (Decimal(n) + x)[0] == Decimal(n)[0];
    DigitRead(Decimal(n) + x);
  }

  lemma WordRead(b: bool, x: Text)
    ensures ReadValue((if b then TRUE else FALSE) + x) == Read(Bool(b), x)
  {
    var word := if b then TRUE else FALSE;
    var t := word + x;
    hide ReadString, ReadElements, ReadMembers, ReadNumber;
    assert t[0] == word[0] && t[..|word|] == word && t[|word|..] == x;
    NothingToSkip(t);
  }

  lemma ArrayRead(t: Text)
    requires t != [] && t[0] == 0x5B
    ensures ReadValue(t) == if Begins(t[1..], 0x5D) then Read(Arr([]), Skip(t[1..])[1..])
                            else match ReadElements(t[1..]) case Bad => Bad case Read(items, rest) => Read(Arr(items), rest)
  {
    hide ReadString, ReadElements, ReadMembers, ReadNumber, Starts;
    NoWord(t);
    NothingToSkip(t);
  }

  lemma ObjectRead(t: Text)
    requires t != [] && t[0] == 0x7B
    ensures ReadValue(t) == if Begins(t[1..], 0x7D) then Read(Obj([]), Skip(t[1..])[1..])
                            else match ReadMembers(t[1..]) case Bad => Bad case Read(ms, rest) => Read(Obj(ms), rest)
  {
    hide ReadString, ReadElements, ReadMembers, ReadNumber, Starts;
    NoWord(t);
    NothingToSkip(t);
  }

  lemma BracketOpens(inner: Serialized, open: Unit, close: Unit, x: Text)
    requires inner.Ok?
    ensures var t := Bracket(open, inner, close).text + x; t != [] && t[0] == open && t[1..] == inner.text + ([close] + x)
  {
  }

  /** After the opening bracket: the values, one by one. */
  ghost predicate ItemsReadAs(r: Read<seq<Json>>, items: seq<Json>, x: Text) {
    && r.Read? && r.rest == x && |r.value| == |items|
    && forall i | 0 <= i < |items| :: Same(items[i], r.value[i]) && Ordered(r.value[i])
  }

  /** After the opening brace: the same keys, and the values, one by one. */
  ghost predicate MembersReadAs(r: Read<seq<Member>>, ms: seq<Member>, x: Text) {
    && r.Read? && r.rest == x && |r.value| == |ms|
    && forall i | 0 <= i < |ms| :: ms[i].key == r.value[i].key && Same(ms[i].value, r.value[i].value) && Ordered(r.value[i].value)
  }

  lemma ElementsStep(t: Text, v: Json, r: Text)
    requires ReadValue(t) == Read(v, r) && r != [] && (r[0] == 0x5D || r[0] == 0x2C)
    ensures ReadElements(t)
            == if r[0] == 0x5D then Read([v], r[1..])
               else match ReadElements(r[1..]) case Bad => Bad case Read(items, more) => Read([v] + items, more)
  {
    hide ReadValue;
    NothingToSkip(r);
  }

  lemma MembersStep(t: Text, m: Member, r: Text)
    requires ReadMember(t) == Read(m, r) && r != [] && (r[0] == 0x7D || r[0] == 0x2C)
    ensures ReadMembers(t)
            == if r[0] == 0x7D then Read([m], r[1..])
               else match ReadMembers(r[1..]) case Bad => Bad case Read(ms, more) => Read([m] + ms, more)
  {
    hide ReadMember;
    NothingToSkip(r);
  }

  lemma MemberStep(key: Text, t: Text, v: Json, r: Text)
    requires ReadValue(t) == Read(v, r)
    ensures ReadMember(Quote(key) + ([0x3A] + t)) == Read(Member(key, v), r)
  {
    var text := Quote(key) + ([0x3A] + t);
    assert text[0] == 0x22;
    hide ReadValue, ReadString, Quote;
    NothingToSkip(text);
    StringComesBack(key, [0x3A] + t);
    NothingToSkip([0x3A] + t);
    assert ([0x3A] + t)[1..] == t;
  }

  /** The text of values after a first one. */
  lemma MoreItems(items: seq<Json>, x: Text)
    requires Items(items, false).Ok?
    ensures Items(items, true).Ok?
    ensures items == [] ==> Items(items, false).text + x == x
    ensures items != [] ==> Items(items, false).text + x == [0x2C] + (Items(items, true).text + x)
  {
    hide Serialize;
    if items != [] {
      var a, b := Serialize(items[0]).text, Items(items[1..], false).text;
      assert Items(items, true).text == [] + a + b && Items(items, false).text == [0x2C] + a + b;
      assert [0x2C] + a + b + x == [0x2C] + ([] + a + b + x);
    }
  }

  lemma MoreMembers(ms: seq<Member>, all: seq<Member>, x: Text)
    requires (forall m | m in ms :: m in all) && Members(ms, false, all).Ok?
    ensures Members(ms, true, all).Ok?
    ensures ms == [] ==> Members(ms, false, all).text + x == x
    ensures ms != [] ==> Members(ms, false, all).text + x == [0x2C] + (Members(ms, true, all).text + x)
  {
    hide Serialize, Quote;
    if ms != [] {
      MembersUnfold(ms, false, all);
      var a, b := Quote(ms[0].key) + [0x3A] + Serialize(ms[0].value).text, Members(ms[1..], false, all).text;
      assert Members(ms, true, all).text == a + b && Members(ms, false, all).text == [0x2C] + a + b by {
        assert [] + Quote(ms[0].key) == Quote(ms[0].key);
        assert [0x2C] + Quote(ms[0].key) + [0x3A] + Serialize(ms[0].value).text == [0x2C] + a;
      }
      assert [0x2C] + a + b + x == [0x2C] + (a + b + x);
    }
  }

  /** Every value is read back from its text, whatever follows it inside another value. */
  lemma {:induction false} ValueComesBack(v: Json, x: Text)
    requires Serialize(v).Ok? && Proper(v) && EndsNumber(x)
    ensures ReadsAs(ReadValue(Serialize(v).text + x), v, x)
    decreases v, 0
  {
    hide Decimal, Quote, Same, WellFormed, ReadValue, Written, Sort, Defined, Items, Members, ReadElements, ReadMembers;
    match v
    case Bool(b) =>
      WordRead(b, x);
      SameLeaf(v);
    case Num(n) =>
      NumberRead(n, x);
      SameLeaf(v);
    case Str(s) =>
      StringRead(s, x);
      SameLeaf(v);
    case Arr(items) =>
      BracketOpens(Items(items, true), 0x5B, 0x5D, x);
      ArrayRead(Serialize(v).text + x);
      if items != [] {
        ElementsComeBack(items, x);
      }
      ArrayReadAs(items, x);
    case Obj(ms) =>
      WrittenAll(ms);
      BracketOpens(Members(Written(ms), true, ms), 0x7B, 0x7D, x);
      ObjectRead(Serialize(v).text + x);
      if Written(ms) != [] {
        MembersComeBack(Written(ms), ms, x);
      }
      ObjectReadAs(ms, x);
  }

  lemma {:induction false} ElementsComeBack(items: seq<Json>, x: Text)
    requires items != [] && Items(items, true).Ok? && forall i | 0 <= i < |items| :: Proper(items[i])
    ensures ItemsReadAs(ReadElements(Items(items, true).text + ([0x5D] + x)), items, x)
    decreases items, 1
  {
    hide Serialize, Same, Proper, ReadElements, ReadValue, Ordered, Items, EndsNumber;
    var y, rest := [0x5D] + x, items[1..];
    ItemsStart(items, true, y);
    var r := Items(rest, false).text + y;
    var t := Items(items, true).text + y;
    assert t == Serialize(items[0]).text + r;
    ValueComesBack(items[0], r);
    var v := ReadValue(t).value;
    MoreItems(rest, y);
    ElementsStep(t, v, r);
    if rest == [] {
      assert y[1..] == x && [v] + [] == [v];
      ItemsReadCons(items, v, x, ReadElements(t), Read([], x));
    } else {
      var more := Items(rest, true).text + y;
      assert r[1..] == more;
      ElementsComeBack(rest, x);
      ItemsReadCons(items, v, x, ReadElements(t), ReadElements(more));
    }
  }

  lemma ItemsFirst(items: seq<Json>, x: Text)
    requires items != [] && Items(items, true).Ok?
    ensures var t := Items(items, true).text + ([0x5D] + x); t != [] && !Space(t[0]) && t[0] != 0x5D
  {
    ItemsStart(items, true, [0x5D] + x);
    FirstUnit(items[0]);
    hide Serialize, Items;
  }

  lemma ItemsReadCons(items: seq<Json>, v: Json, x: Text, r: Read<seq<Json>>, more: Read<seq<Json>>)
    requires items != [] && Same(items[0], v) && Ordered(v) && ItemsReadAs(more, items[1..], x) && r == Read([v] + more.value, x)
    ensures ItemsReadAs(r, items, x)
  {
    hide Same, Ordered;
    forall i | 0 < i < |items|
      ensures items[i] == items[1..][i - 1] && r.value[i] == more.value[i - 1]
    {
    }
  }

  lemma {:induction false} MembersComeBack(ms: seq<Member>, all: seq<Member>, x: Text)
    requires ms != [] && (forall m | m in ms :: m in all) && (forall m | m in all :: Proper(m.value)) && Members(ms, true, all).Ok?
    ensures MembersReadAs(ReadMembers(Members(ms, true, all).text + ([0x7D] + x)), ms, x)
    decreases all, 1, |ms|
  {
    hide Serialize, Same, Proper, ReadMembers, ReadMember, ReadValue, Ordered, Members, Quote, EndsNumber;
    var y, rest := [0x7D] + x, ms[1..];
    MembersStart(ms, true, all, y);
    var r := Members(rest, false, all).text + y;
    var t := Members(ms, true, all).text + y;
    var inner := Serialize(ms[0].value).text + r;
    assert t == Quote(ms[0].key) + ([0x3A] + inner);
    assert ms[0] in all;
    var i :| 0 <= i < |all| && all[i] == ms[0];
    ValueComesBack(all[i].value, r);
    var v := ReadValue(inner).value;
    MemberStep(ms[0].key, inner, v, r);
    MoreMembers(rest, all, y);
    MembersStep(t, Member(ms[0].key, v), r);
    if rest == [] {
      assert y[1..] == x && [Member(ms[0].key, v)] + [] == [Member(ms[0].key, v)];
      NoMembers(x);
      MembersReadCons(ms, v, x, ReadMembers(t), Read([], x));
    } else {
      var more := Members(rest, true, all).text + y;
      assert r[1..] == more;
      MembersComeBack(rest, all, x);
      MembersReadCons(ms, v, x, ReadMembers(t), ReadMembers(more));
    }
  }

  lemma MembersReadCons(ms: seq<Member>, v: Json, x: Text, r: Read<seq<Member>>, more: Read<seq<Member>>)
    requires ms != [] && Same(ms[0].value, v) && Ordered(v) && MembersReadAs(more, ms[1..], x)
    requires r == Read([Member(ms[0].key, v)] + more.value, x)
    ensures MembersReadAs(r, ms, x)
  {
    hide Same, Ordered;
    forall i | 0 < i < |ms|
      ensures ms[i] == ms[1..][i - 1] && r.value[i] == more.value[i - 1]
    {
    }
  }

  /** From the values to the array. */
  lemma ArrayReadAs(items: seq<Json>, x: Text)
    requires Serialize(Arr(items)).Ok?
    requires var t := Serialize(Arr(items)).text + x;
             && t != [] && t[0] == 0x5B && t[1..] == Items(items, true).text + ([0x5D] + x)
             && (items != [] ==> ItemsReadAs(ReadElements(t[1..]), items, x))
    ensures ReadsAs(ReadValue(Serialize(Arr(items)).text + x), Arr(items), x)
  {
    hide ReadElements, ReadValue, Same;
    var t := Serialize(Arr(items)).text + x;
    ArrayRead(t);
    if items == [] {
      assert t[1..] == [0x5D] + x && ([0x5D] + x)[1..] == x;
      NothingToSkip(t[1..]);
      SameArrays([], []);
    } else {
      ItemsFirst(items, x);
      NothingToSkip(t[1..]);
      SameArrays(items, ReadElements(t[1..]).value);
    }
    hide Serialize, Items;
  }

  /** From the members to the object. */
  lemma ObjectReadAs(ms: seq<Member>, x: Text)
    requires Serialize(Obj(ms)).Ok? && Proper(Obj(ms)) && (forall m | m in Written(ms) :: m in ms)
    requires Serialize(Obj(ms)) == Bracket(0x7B, Members(Written(ms), true, ms), 0x7D)
    requires var t := Serialize(Obj(ms)).text + x;
             && t != [] && t[0] == 0x7B && t[1..] == Members(Written(ms), true, ms).text + ([0x7D] + x)
             && (Written(ms) != [] ==> MembersReadAs(ReadMembers(t[1..]), Written(ms), x))
    ensures ReadsAs(ReadValue(Serialize(Obj(ms)).text + x), Obj(ms), x)
  {
    WrittenSorted(ms);
    hide ReadMembers, ReadValue, Same, Ordered, Written, Proper, Serialize, MembersReadAs;
    var t := Serialize(Obj(ms)).text + x;
    ObjectRead(t);
    if Written(ms) == [] {
      assert t[1..] == [0x7D] + x && ([0x7D] + x)[1..] == x;
      NothingToSkip(t[1..]);
      SameReadBack(ms, [], x) by { assert MembersReadAs(Read([], x), Written(ms), x) by { NoMembers(x); } }
    } else {
      MembersStart(Written(ms), true, ms, [0x7D] + x);
      MembersFirst(ms, x);
      NothingToSkip(t[1..]);
      SameReadBack(ms, ReadMembers(t[1..]).value, x);
    }
  }

  lemma NoMembers(x: Text)
    ensures MembersReadAs(Read([], x), [], x)
  {
  }

  lemma MembersFirst(ms: seq<Member>, x: Text)
    requires (forall m | m in Written(ms) :: m in ms) && Members(Written(ms), true, ms).Ok? && Written(ms) != []
    ensures var t := Members(Written(ms), true, ms).text + ([0x7D] + x); t != [] && t[0] == 0x22
  {
    hide Written, Serialize;
    MembersUnfold(Written(ms), true, ms);
  }

  /** The members read are those written, so the objects are the same. */
  lemma SameReadBack(ms: seq<Member>, ns: seq<Member>, x: Text)
    requires Proper(Obj(ms)) && Sorted(Written(ms)) && MembersReadAs(Read(ns, x), Written(ms), x)
    ensures Same(Obj(ms), Obj(ns)) && Ordered(Obj(ns))
  {
    WrittenDefined(ms);
    var ws := Written(ms);
    hide Written, Proper, Ordered;
    assert Agree(ws, ns);
    AgreeKeys(ws, ns);
    assert Sorted(ns);
    NoneUndefined(ws, ns);
    hide HasKey;
    forall i, j | 0 <= i < |ms| && 0 <= j < |ns| && ms[i].key == ns[j].key && !ms[i].value.Undefined? && !ns[j].value.Undefined?
      ensures Same(ms[i].value, ns[j].value)
    {
      AgreeAt(ws, ns, ms[i], ns[j]);
    }
    SortedOrdered(ns);
  }

  lemma NoneUndefined(ws: seq<Member>, ns: seq<Member>)
    requires Agree(ws, ns) && forall m | m in ws :: !m.value.Undefined?
    ensures forall n | n in ns :: !n.value.Undefined?
    ensures forall key :: HasKey(ns, key) <==> KeyIn(ns, key)
  {
    forall n | n in ns
      ensures !n.value.Undefined?
    {
      var i :| 0 <= i < |ns| && ns[i] == n;
      assert ws[i] in ws && Same(ws[i].value, ns[i].value);
    }
    hide Same;
  }

  lemma SortedOrdered(ns: seq<Member>)
    requires Sorted(ns) && forall i | 0 <= i < |ns| :: Ordered(ns[i].value)
    ensures Ordered(Obj(ns))
  {
    forall i, j | 0 <= i < j < |ns|
      ensures Before(ns[i].key, ns[j].key)
    {
      LessIsBefore(ns[i].key, ns[j].key);
    }
    hide Less, Before;
  }

  /**
   * Reading the text of a value gives the value, up to the order of members and members that are undefined; and the members
   * of every object are in the order of section 3.2.3 of RFC 8785.
   */
  lemma TextReadsBack(v: Json)
    requires Proper(v) && Serialize(v).Ok?
    ensures var w := ReadText(Serialize(v).text); w.Some? && Same(v, w.value) && Ordered(w.value)
  {
    hide ReadValue, Serialize, Same, Ordered, Proper;
    assert Serialize(v).text + [] == Serialize(v).text;
    ValueComesBack(v, []);
  }

  // ----- refusals

  /** A reason to refuse a value: one in itself or in something it holds. */
  ghost predicate Refuses(v: Json, e: Error) {
    match v
    case Null => e == NullValue
    case Undefined => e == Unsupported
    case Odd => e == NotNatural
    case Bool(_) => false
    case Num(n) => e == NotNatural && (n < 0 || 9_007_199_254_740_991 < n)
    case Str(s) => e == IllFormed && !WellFormed(s)
    case Arr(items) => exists i :: 0 <= i < |items| && Refuses(items[i], e)
    case Obj(ms) => exists i :: 0 <= i < |ms| && !ms[i].value.Undefined? && Refuses(ms[i].value, e)
  }

  /** A value is refused only for such a reason. */
  lemma {:induction false} RefusedForReason(v: Json)
    requires Serialize(v).Err?
    ensures Refuses(v, Serialize(v).error)
    decreases v, 0
  {
    match v
    case Arr(items) =>
      ItemsRefused(items, true);
    case Obj(ms) =>
      WrittenAll(ms);
      WrittenDefined(ms);
      var m := MembersRefused(Written(ms), true, ms);
      hide Written, Sort, Defined, Members;
      var i :| 0 <= i < |ms| && ms[i] == m;
    case _ =>
  }

  lemma {:induction false} ItemsRefused(items: seq<Json>, first: bool)
    requires Items(items, first).Err?
    ensures exists i :: 0 <= i < |items| && Refuses(items[i], Items(items, first).error)
    decreases items, 1
  {
    hide Serialize, Refuses;
    if Serialize(items[0]).Err? {
      RefusedForReason(items[0]);
    } else {
      ItemsRefused(items[1..], false);
      var i :| 0 <= i < |items[1..]| && Refuses(items[1..][i], Items(items[1..], false).error);
      assert items[i + 1] == items[1..][i];
    }
  }

  lemma {:induction false} MembersRefused(ms: seq<Member>, first: bool, all: seq<Member>) returns (m: Member)
    requires (forall m | m in ms :: m in all) && Members(ms, first, all).Err?
    ensures m in ms && Refuses(m.value, Members(ms, first, all).error)
    decreases all, 1, |ms|
  {
    hide Serialize, Refuses, Quote;
    assert ms[0] in all;
    var i :| 0 <= i < |all| && all[i] == ms[0];
    if Serialize(ms[0].value).Err? {
      RefusedForReason(all[i].value);
      m := ms[0];
    } else {
      m := MembersRefused(ms[1..], false, all);
    }
  }
}
