// Canonical JSON (RFC 8785): what is serialized, and that the text determines the value up to member order.
module Jcs {
  import opened PathBytes
  import opened JsonUnits

  /** A value handed to the serializer; Undefined is an absent member, Odd a number that is no safe integer or minus zero. */
  datatype Json =
    | Null
    | Undefined
    | Bool(b: bool)
    | Num(n: int)
    | Odd
    | Str(s: Text)
    | Arr(items: seq<Json>)
    | Obj(members: seq<Member>)
  datatype Member = Member(key: Text, value: Json)

  datatype Error = NullValue | IllFormed | NotNatural | Unsupported

  datatype Serialized = Ok(text: Text) | Err(error: Error)

  const TRUE: Text := [0x74, 0x72, 0x75, 0x65]
  const FALSE: Text := [0x66, 0x61, 0x6C, 0x73, 0x65]
  const MAX_SAFE := 0x1F_FFFF_FFFF_FFFF

  // ----- strings and numbers

  function LowerHex(d: int): Unit
    requires 0 <= d < 16
  {
    if d < 10 then 0x30 + d else 0x61 + (d - 10)
  }

  /** One code point inside a string: section 3.2.2.2 of RFC 8785, and an escape for an unpaired surrogate. */
  function EscapeCode(c: CodePoint): (e: Text)
    ensures e != [] && e[0] != QUOTE
  {
    match c
    case 0x22 => [BACKSLASH, QUOTE]
    case 0x5C => [BACKSLASH, BACKSLASH]
    case 0x08 => [BACKSLASH, 0x62]
    case 0x0C => [BACKSLASH, 0x66]
    case 0x0A => [BACKSLASH, 0x6E]
    case 0x0D => [BACKSLASH, 0x72]
    case 0x09 => [BACKSLASH, 0x74]
    case _ =>
      if c < 0x20 || Surrogate(c)
      then [BACKSLASH, 0x75, LowerHex(c / 16 / 16 / 16), LowerHex(c / 16 / 16 % 16), LowerHex(c / 16 % 16), LowerHex(c % 16)]
      else Utf16(c)
  }

  function EscapeCodes(cs: seq<CodePoint>): Text {
    if cs == [] then [] else EscapeCode(cs[0]) + EscapeCodes(cs[1..])
  }

  function Quote(s: Text): Text {
    [QUOTE] + EscapeCodes(Points(s)) + [QUOTE]
  }

  function Decimal(n: nat): (d: Text)
    ensures |d| == 1 <==> n < 10
    ensures d != []
  {
    if n < 10 then [0x30 + n] else Decimal(n / 10) + [0x30 + n % 10]
  }

  // ----- members in order

  predicate Less(s: Text, t: Text) {
    t != [] && (s == [] || s[0] < t[0] || (s[0] == t[0] && Less(s[1..], t[1..])))
  }

  function Defined(ms: seq<Member>): (ds: seq<Member>)
    ensures forall m :: m in ds <==> m in ms && !m.value.Undefined?
  {
    if ms == [] then []
    else if ms[0].value.Undefined? then Defined(ms[1..])
    else [ms[0]] + Defined(ms[1..])
  }

  function Insert(m: Member, ms: seq<Member>): (r: seq<Member>)
    ensures forall x :: x in r <==> x == m || x in ms
  {
    if ms == [] || Less(m.key, ms[0].key) then [m] + ms else [ms[0]] + Insert(m, ms[1..])
  }

  /** Members by key, as sequences of UTF-16 code units: section 3.2.3 of RFC 8785. */
  function Sort(ms: seq<Member>): (r: seq<Member>)
    ensures forall x :: x in r <==> x in ms
  {
    if ms == [] then [] else Insert(ms[0], Sort(ms[1..]))
  }

  // ----- serialization

  function Bracket(open: Unit, inner: Serialized, close: Unit): Serialized {
    if inner.Ok? then Ok([open] + inner.text + [close]) else inner
  }

  function Append(a: Text, b: Serialized): Serialized {
    if b.Ok? then Ok(a + b.text) else b
  }

  function Separator(first: bool): Text {
    if first then [] else [COMMA]
  }

  function Serialize(v: Json): Serialized
    decreases v, 0
  {
    match v
    case Null => Err(NullValue)
    case Undefined => Err(Unsupported)
    case Bool(b) => Ok(if b then TRUE else FALSE)
    case Num(n) => if 0 <= n <= MAX_SAFE then Ok(Decimal(n)) else Err(NotNatural)
    case Odd => Err(NotNatural)
    case Str(s) => if WellFormed(s) then Ok(Quote(s)) else Err(IllFormed)
    case Arr(items) => Bracket(OPEN_ARRAY, Items(items, true), CLOSE_ARRAY)
    case Obj(members) => Bracket(OPEN_OBJECT, Members(Sort(Defined(members)), true, members), CLOSE_OBJECT)
  }

  function Items(items: seq<Json>, first: bool): Serialized
    decreases items, 1
  {
    if items == [] then Ok([])
    else
      var item := Serialize(items[0]);
      if item.Err? then item else Append(Separator(first) + item.text, Items(items[1..], false))
  }

  function Members(ms: seq<Member>, first: bool, ghost all: seq<Member>): Serialized
    requires forall m | m in ms :: m in all
    decreases all, 1, |ms|
  {
    if ms == [] then Ok([])
    else
      assert ms[0] in all;
      ghost var i :| 0 <= i < |all| && all[i] == ms[0];
      var value := Serialize(ms[0].value);
      if value.Err? then value
      else Append(Separator(first) + Quote(ms[0].key) + [COLON] + value.text, Members(ms[1..], false, all))
  }

  // ----- what the text is meant to tell apart

  ghost predicate HasKey(ms: seq<Member>, key: Text) {
    exists m :: m in ms && m.key == key && !m.value.Undefined?
  }

  /** Equal up to the order of members and members that are undefined. */
  ghost predicate Same(v: Json, w: Json)
    decreases v, 0
  {
    match (v, w)
    case (Arr(a), Arr(b)) => |a| == |b| && forall i | 0 <= i < |a| :: Same(a[i], b[i])
    case (Obj(ms), Obj(ns)) =>
      && (forall key :: HasKey(ms, key) <==> HasKey(ns, key))
      && (forall i, j | 0 <= i < |ms| && 0 <= j < |ns| && ms[i].key == ns[j].key && !ms[i].value.Undefined? && !ns[j].value.Undefined? ::
            Same(ms[i].value, ns[j].value))
    case _ => v == w
  }

  /** Objects have one member of a name, at any depth. */
  ghost predicate Proper(v: Json) {
    match v
    case Arr(items) => forall i | 0 <= i < |items| :: Proper(items[i])
    case Obj(ms) =>
      && (forall i, j | 0 <= i < j < |ms| :: ms[i].key != ms[j].key)
      && (forall i | 0 <= i < |ms| :: Proper(ms[i].value))
    case _ => true
  }

  // ----- the order of members

  lemma {:induction false} LessTransitive(s: Text, t: Text, u: Text)
    requires Less(s, t) && Less(t, u)
    ensures Less(s, u)
  {
    if s != [] && s[0] == t[0] == u[0] {
      LessTransitive(s[1..], t[1..], u[1..]);
    }
  }

  lemma {:induction false} LessTotal(s: Text, t: Text)
    ensures Less(s, t) || Less(t, s) || s == t
    ensures !(Less(s, t) && Less(t, s)) && !Less(s, s)
  {
    if s != [] && t != [] {
      LessTotal(s[1..], t[1..]);
    }
    if s != [] {
      LessTotal(s[1..], s[1..]);
    }
  }

  ghost predicate Sorted(ms: seq<Member>) {
    forall i, j | 0 <= i < j < |ms| :: Less(ms[i].key, ms[j].key)
  }

  lemma {:induction false} InsertSorted(m: Member, ms: seq<Member>)
    requires Sorted(ms) && forall x | x in ms :: x.key != m.key
    ensures Sorted(Insert(m, ms))
  {
    if ms != [] {
      LessTotal(m.key, ms[0].key);
      if Less(m.key, ms[0].key) {
        forall j | 0 <= j < |ms| ensures Less(m.key, ms[j].key) {
          if 0 < j { LessTransitive(m.key, ms[0].key, ms[j].key); }
        }
      } else {
        InsertSorted(m, ms[1..]);
        assert forall x | x in Insert(m, ms[1..]) :: Less(ms[0].key, x.key);
      }
    }
  }

  lemma {:induction false} SortSorted(ms: seq<Member>)
    requires forall i, j | 0 <= i < j < |ms| :: ms[i].key != ms[j].key
    ensures Sorted(Sort(ms))
  {
    if ms != [] {
      SortSorted(ms[1..]);
      InsertSorted(ms[0], Sort(ms[1..]));
    }
  }

  lemma {:induction false} DefinedKeys(ms: seq<Member>)
    requires forall i, j | 0 <= i < j < |ms| :: ms[i].key != ms[j].key
    ensures forall i, j | 0 <= i < j < |Defined(ms)| :: Defined(ms)[i].key != Defined(ms)[j].key
  {
    if ms != [] {
      DefinedKeys(ms[1..]);
    }
  }

  /** The members that are written: strictly ordered, so each name once, and exactly the defined ones. */
  function Written(ms: seq<Member>): seq<Member> {
    Sort(Defined(ms))
  }

  lemma WrittenSorted(ms: seq<Member>)
    requires Proper(Obj(ms))
    ensures Sorted(Written(ms))
  {
    DefinedKeys(ms);
    SortSorted(Defined(ms));
  }

  // ----- prefix-free texts

  lemma EscapeDecides(c: CodePoint, d: CodePoint, x: Text, y: Text)
    requires EscapeCode(c) + x == EscapeCode(d) + y
    ensures c == d && x == y
  {
    var e, f, w := EscapeCode(c), EscapeCode(d), EscapeCode(c) + x;
    assert w[0] == e[0] == f[0];
    assert 1 < |e| && 1 < |f| ==> w[1] == e[1] == f[1];
    assert |e| == |f|;
    assert e == w[..|e|] == f && x == w[|e|..] == y;
    EqualEscapes(c, d);
  }

  lemma EqualEscapes(c: CodePoint, d: CodePoint)
    requires EscapeCode(c) == EscapeCode(d)
    ensures c == d
  {
    hide Utf16, LowerHex;
    var e, f := EscapeCode(c), EscapeCode(d);
    Utf16Units(c);
    Utf16Units(d);
    if |e| == 6 {
      assert e[2] == f[2] && e[3] == f[3] && e[4] == f[4] && e[5] == f[5];
      HexDecides(c, d);
    } else if e[0] != BACKSLASH {
      assert Utf16(c) == e == f == Utf16(d);
    } else {
      assert e[1] == f[1];
    }
  }

  /** A code point is read off its units, and only a backslash starts with one. */
  lemma Utf16Units(c: CodePoint)
    ensures Utf16(c)[0] == BACKSLASH ==> c == BACKSLASH
    ensures c == if |Utf16(c)| == 1 then Utf16(c)[0] else 0x1_0000 + (Utf16(c)[0] as int - 0xD800) * 0x400 + (Utf16(c)[1] as int - 0xDC00)
  {
  }

  lemma HexDecides(c: nat, d: nat)
    requires c < 0x10000 && d < 0x10000
    requires LowerHex(c % 16) == LowerHex(d % 16) && LowerHex(c / 16 % 16) == LowerHex(d / 16 % 16)
    requires LowerHex(c / 16 / 16 % 16) == LowerHex(d / 16 / 16 % 16) && LowerHex(c / 16 / 16 / 16) == LowerHex(d / 16 / 16 / 16)
    ensures c == d
  {
    assert c / 16 / 16 == d / 16 / 16;
    assert c / 16 == d / 16;
  }

  lemma EscapesStart(cs: seq<CodePoint>, x: Text)
    ensures var w := EscapeCodes(cs) + [QUOTE] + x;
            if cs == [] then w == [QUOTE] + x
            else w == EscapeCode(cs[0]) + (EscapeCodes(cs[1..]) + [QUOTE] + x) && w[0] != QUOTE
  {
    hide EscapeCode;
  }

  lemma {:induction false} EscapesDecide(cs: seq<CodePoint>, ds: seq<CodePoint>, x: Text, y: Text)
    requires EscapeCodes(cs) + [QUOTE] + x == EscapeCodes(ds) + [QUOTE] + y
    ensures cs == ds && x == y
  {
    hide *;
    EscapesStart(cs, x);
    EscapesStart(ds, y);
    if cs == [] {
      assert ([QUOTE] + x)[1..] == x && ([QUOTE] + y)[1..] == y;
    } else {
      EscapeDecides(cs[0], ds[0], EscapeCodes(cs[1..]) + [QUOTE] + x, EscapeCodes(ds[1..]) + [QUOTE] + y);
      EscapesDecide(cs[1..], ds[1..], x, y);
    }
  }

  lemma QuoteDecides(s: Text, t: Text, x: Text, y: Text)
    requires Quote(s) + x == Quote(t) + y
    ensures s == t && x == y
  {
    hide Points, EscapeCodes;
    var w := Quote(s) + x;
    assert w[1..] == EscapeCodes(Points(s)) + [QUOTE] + x;
    assert w[1..] == EscapeCodes(Points(t)) + [QUOTE] + y;
    EscapesDecide(Points(s), Points(t), x, y);
    PointsSpell(s);
    PointsSpell(t);
  }

  predicate Digit(u: Unit) {
    0x30 <= u <= 0x39
  }

  /** A text that does not continue a number. */
  predicate EndsNumber(x: Text) {
    x == [] || !Digit(x[0])
  }

  lemma {:induction false} DecimalIsDigits(n: nat)
    ensures forall i | 0 <= i < |Decimal(n)| :: Digit(Decimal(n)[i])
  {
    if 10 <= n {
      DecimalIsDigits(n / 10);
    }
  }

  lemma {:induction false} DecimalIsInjective(n: nat, m: nat)
    requires Decimal(n) == Decimal(m)
    ensures n == m
  {
    var d := Decimal(n);
    assert d[|d| - 1] == 0x30 + n % 10 == 0x30 + m % 10;
    if 10 <= n && 10 <= m {
      assert Decimal(n / 10) == d[..|d| - 1] == Decimal(m / 10);
      DecimalIsInjective(n / 10, m / 10);
    }
  }

  lemma NoLongerNumber(a: Text, b: Text, x: Text, y: Text)
    requires a + x == b + y && EndsNumber(x) && forall i | 0 <= i < |b| :: Digit(b[i])
    ensures |b| <= |a|
  {
    assert forall i | 0 <= i < |b| :: Digit((b + y)[i]);
    assert |b| + |y| == |a| + |x|;
    assert x != [] ==> x[0] == (a + x)[|a|];
  }

  lemma DecimalDecides(n: nat, m: nat, x: Text, y: Text)
    requires Decimal(n) + x == Decimal(m) + y && EndsNumber(x) && EndsNumber(y)
    ensures n == m && x == y
  {
    DecimalIsDigits(n);
    DecimalIsDigits(m);
    var a, b, w := Decimal(n), Decimal(m), Decimal(n) + x;
    hide Decimal;
    NoLongerNumber(a, b, x, y);
    NoLongerNumber(b, a, y, x);
    assert a == w[..|a|] == b && x == w[|a|..] == y;
    DecimalIsInjective(n, m);
  }

  // ----- the text determines the value

  /** The first unit of a value's text says what kind of value it is. */
  lemma FirstUnit(v: Json)
    requires Serialize(v).Ok?
    ensures Serialize(v).text != []
    ensures var u := Serialize(v).text[0];
            match v
            case Bool(b) => u == if b then 0x74 else 0x66
            case Num(n) => Digit(u)
            case Str(s) => u == QUOTE
            case Arr(items) => u == OPEN_ARRAY
            case Obj(ms) => u == OPEN_OBJECT
            case _ => false
  {
    if v.Num? {
      DecimalIsDigits(v.n);
    }
    hide Decimal, Points, EscapeCodes, Items, Members;
  }

  /** Texts that can follow a value inside one. */
  lemma {:induction false} TextDecides(v: Json, w: Json, x: Text, y: Text)
    requires Serialize(v).Ok? && Serialize(w).Ok? && EndsNumber(x) && EndsNumber(y) && Proper(v) && Proper(w)
    requires Serialize(v).text + x == Serialize(w).text + y
    ensures Same(v, w) && x == y
    decreases v, 0
  {
    FirstUnit(v);
    FirstUnit(w);
    var a, b := Serialize(v).text, Serialize(w).text;
    assert (a + x)[0] == a[0] && (b + y)[0] == b[0];
    hide Decimal, Points, EscapeCodes, Written, Sort, Defined, Quote, Same, WellFormed;
    match v
    case Bool(_) =>
      SameLength(a, b, x, y);
      SameLeaf(v);
    case Num(n) =>
      DecimalDecides(n, w.n, x, y);
      SameLeaf(v);
    case Str(s) =>
      QuoteDecides(s, w.s, x, y);
      SameLeaf(v);
    case Arr(items) =>
      BracketDecides(Items(items, true), Items(w.items, true), OPEN_ARRAY, CLOSE_ARRAY, x, y);
      ItemsDecide(items, w.items, true, [CLOSE_ARRAY] + x, [CLOSE_ARRAY] + y);
      SameArrays(items, w.items);
      assert ([CLOSE_ARRAY] + x)[1..] == x && ([CLOSE_ARRAY] + y)[1..] == y;
    case Obj(ms) =>
      WrittenAll(ms);
      WrittenAll(w.members);
      BracketDecides(Members(Written(ms), true, ms), Members(Written(w.members), true, w.members), OPEN_OBJECT, CLOSE_OBJECT, x, y);
      MembersDecide(Written(ms), Written(w.members), true, ms, w.members, [CLOSE_OBJECT] + x, [CLOSE_OBJECT] + y);
      SameWritten(ms, w.members);
      assert ([CLOSE_OBJECT] + x)[1..] == x && ([CLOSE_OBJECT] + y)[1..] == y;
  }

  lemma WrittenAll(ms: seq<Member>)
    ensures forall m | m in Written(ms) :: m in ms
    ensures Serialize(Obj(ms)) == Bracket(OPEN_OBJECT, Members(Written(ms), true, ms), CLOSE_OBJECT)
  {
    hide Members;
  }

  lemma SameLeaf(v: Json)
    requires !v.Arr? && !v.Obj?
    ensures Same(v, v)
  {
  }

  lemma SameArrays(items: seq<Json>, others: seq<Json>)
    requires |items| == |others| && forall i | 0 <= i < |items| :: Same(items[i], others[i])
    ensures Same(Arr(items), Arr(others))
  {
  }

  lemma SameLength(a: Text, b: Text, x: Text, y: Text)
    requires a + x == b + y && |a| == |b|
    ensures a == b && x == y
  {
    assert (a + x)[..|a|] == a && (b + y)[..|a|] == b && (a + x)[|a|..] == x && (b + y)[|a|..] == y;
  }

  lemma BracketDecides(a: Serialized, b: Serialized, open: Unit, close: Unit, x: Text, y: Text)
    requires a.Ok? && b.Ok? && Bracket(open, a, close).text + x == Bracket(open, b, close).text + y
    ensures a.text + ([close] + x) == b.text + ([close] + y)
  {
    assert (Bracket(open, a, close).text + x)[1..] == a.text + ([close] + x);
    assert (Bracket(open, b, close).text + y)[1..] == b.text + ([close] + y);
  }

  predicate Closes(x: Text, close: Unit) {
    x != [] && x[0] == close
  }

  lemma ItemsUnfold(items: seq<Json>, first: bool)
    requires Items(items, first).Ok? && items != []
    ensures Serialize(items[0]).Ok? && Items(items[1..], false).Ok?
    ensures Items(items, first).text == Separator(first) + Serialize(items[0]).text + Items(items[1..], false).text
  {
    hide Serialize;
  }

  lemma ItemsContinue(items: seq<Json>, x: Text)
    requires Items(items, false).Ok? && Closes(x, CLOSE_ARRAY)
    ensures EndsNumber(Items(items, false).text + x)
  {
    if items == [] {
      assert Items(items, false).text + x == x;
    } else {
      ItemsUnfold(items, false);
    }
    hide Serialize, Items;
  }

  lemma ItemsStart(items: seq<Json>, first: bool, x: Text)
    requires Items(items, first).Ok? && Closes(x, CLOSE_ARRAY)
    ensures var t := Items(items, first).text + x;
            if items == [] then t == x
            else && Serialize(items[0]).Ok? && Items(items[1..], false).Ok? && t[0] != CLOSE_ARRAY
                 && t == Separator(first) + (Serialize(items[0]).text + (Items(items[1..], false).text + x))
                 && EndsNumber(Items(items[1..], false).text + x)
  {
    if items == [] {
      assert [] + x == x;
    } else {
      ItemsUnfold(items, first);
      ItemsContinue(items[1..], x);
      FirstUnit(items[0]);
      hide Serialize, Items;
      var a, r := Serialize(items[0]).text, Items(items[1..], false).text;
      Assoc(Separator(first), a, r);
      Assoc(Separator(first), a + r, x);
      Assoc(a, r, x);
      assert (Separator(first) + (a + (r + x)))[0] == if first then a[0] else COMMA;
    }
  }

  lemma {:induction false} ItemsDecide(items: seq<Json>, others: seq<Json>, first: bool, x: Text, y: Text)
    requires (forall i | 0 <= i < |items| :: Proper(items[i])) && (forall i | 0 <= i < |others| :: Proper(others[i]))
    requires Items(items, first).Ok? && Items(others, first).Ok? && Closes(x, CLOSE_ARRAY) && Closes(y, CLOSE_ARRAY)
    requires Items(items, first).text + x == Items(others, first).text + y
    ensures |items| == |others| && (forall i | 0 <= i < |items| :: Same(items[i], others[i])) && x == y
    decreases items, 1
  {
    hide Serialize, Items, Same, Proper;
    ItemsStart(items, first, x);
    ItemsStart(others, first, y);
    if items != [] {
      var r, q := Items(items[1..], false).text + x, Items(others[1..], false).text + y;
      var n := |Separator(first)|;
      assert (Separator(first) + (Serialize(items[0]).text + r))[n..] == Serialize(items[0]).text + r;
      assert (Separator(first) + (Serialize(others[0]).text + q))[n..] == Serialize(others[0]).text + q;
      TextDecides(items[0], others[0], r, q);
      ItemsDecide(items[1..], others[1..], false, x, y);
    }
  }

  lemma AssocAll(s: Text, q: Text, c: Text, a: Text, r: Text, x: Text)
    ensures s + q + c + a + r + x == s + (q + (c + (a + (r + x))))
  {
    Assoc(s + q + c + a, r, x);
    Assoc(s + q + c, a, r + x);
    Assoc(s + q, c, a + (r + x));
    Assoc(s, q, c + (a + (r + x)));
  }

  lemma MembersUnfold(ms: seq<Member>, first: bool, all: seq<Member>)
    requires (forall m | m in ms :: m in all) && Members(ms, first, all).Ok? && ms != []
    ensures Serialize(ms[0].value).Ok? && Members(ms[1..], false, all).Ok?
    ensures Members(ms, first, all).text
            == Separator(first) + Quote(ms[0].key) + [COLON] + Serialize(ms[0].value).text + Members(ms[1..], false, all).text
  {
    hide Serialize, Quote;
  }

  lemma MembersContinue(ms: seq<Member>, all: seq<Member>, x: Text)
    requires (forall m | m in ms :: m in all) && Members(ms, false, all).Ok? && Closes(x, CLOSE_OBJECT)
    ensures EndsNumber(Members(ms, false, all).text + x)
  {
    if ms == [] {
      assert Members(ms, false, all).text + x == x;
    } else {
      MembersUnfold(ms, false, all);
    }
    hide Serialize, Members, Quote;
  }

  lemma MembersStart(ms: seq<Member>, first: bool, all: seq<Member>, x: Text)
    requires (forall m | m in ms :: m in all) && Members(ms, first, all).Ok? && Closes(x, CLOSE_OBJECT)
    ensures var t := Members(ms, first, all).text + x;
            if ms == [] then t == x
            else && Serialize(ms[0].value).Ok? && Members(ms[1..], false, all).Ok? && t[0] != CLOSE_OBJECT
                 && t == Separator(first) + (Quote(ms[0].key) + ([COLON] + (Serialize(ms[0].value).text + (Members(ms[1..], false, all).text + x))))
                 && EndsNumber(Members(ms[1..], false, all).text + x)
  {
    if ms == [] {
      assert [] + x == x;
    } else {
      MembersUnfold(ms, first, all);
      MembersContinue(ms[1..], all, x);
      assert Quote(ms[0].key)[0] == QUOTE;
      hide Serialize, Members, Quote;
      AssocAll(Separator(first), Quote(ms[0].key), [COLON], Serialize(ms[0].value).text, Members(ms[1..], false, all).text, x);
    }
  }

  lemma {:induction false} MembersDecide(ms: seq<Member>, ns: seq<Member>, first: bool, all: seq<Member>, others: seq<Member>, x: Text, y: Text)
    requires (forall m | m in ms :: m in all) && (forall n | n in ns :: n in others)
    requires (forall m | m in all :: Proper(m.value)) && (forall n | n in others :: Proper(n.value))
    requires Members(ms, first, all).Ok? && Members(ns, first, others).Ok? && Closes(x, CLOSE_OBJECT) && Closes(y, CLOSE_OBJECT)
    requires Members(ms, first, all).text + x == Members(ns, first, others).text + y
    ensures Agree(ms, ns) && x == y
    decreases all, 1, |ms|
  {
    hide Serialize, Members, Same, Quote, Proper;
    MembersStart(ms, first, all, x);
    MembersStart(ns, first, others, y);
    if ms != [] {
      var r, q := Members(ms[1..], false, all).text + x, Members(ns[1..], false, others).text + y;
      var a, b := Serialize(ms[0].value).text, Serialize(ns[0].value).text;
      var n := |Separator(first)|;
      var m, k := Quote(ms[0].key), Quote(ns[0].key);
      assert (Separator(first) + (m + ([COLON] + (a + r))))[n..] == m + ([COLON] + (a + r));
      assert (Separator(first) + (k + ([COLON] + (b + q))))[n..] == k + ([COLON] + (b + q));
      QuoteDecides(ms[0].key, ns[0].key, [COLON] + (a + r), [COLON] + (b + q));
      assert ([COLON] + (a + r))[1..] == a + r && ([COLON] + (b + q))[1..] == b + q;
      assert ms[0] in all;
      var i :| 0 <= i < |all| && all[i] == ms[0];
      TextDecides(all[i].value, ns[0].value, r, q);
      MembersDecide(ms[1..], ns[1..], false, all, others, x, y);
    }
  }

  /** Objects whose written members agree one by one are the same. */
  lemma SameWritten(ms: seq<Member>, ns: seq<Member>)
    requires Proper(Obj(ms)) && Proper(Obj(ns)) && Agree(Written(ms), Written(ns))
    ensures Same(Obj(ms), Obj(ns))
  {
    WrittenSorted(ms);
    WrittenSorted(ns);
    WrittenDefined(ms);
    WrittenDefined(ns);
    hide Written, Proper;
    AgreeKeys(Written(ms), Written(ns));
    forall i, j | 0 <= i < |ms| && 0 <= j < |ns| && ms[i].key == ns[j].key && !ms[i].value.Undefined? && !ns[j].value.Undefined?
      ensures Same(ms[i].value, ns[j].value)
    {
      AgreeAt(Written(ms), Written(ns), ms[i], ns[j]);
    }
    hide Sorted, Agree;
  }

  /** Lists of members with the same keys and the same values, one by one. */
  ghost predicate Agree(s: seq<Member>, t: seq<Member>) {
    |s| == |t| && forall i | 0 <= i < |s| :: s[i].key == t[i].key && Same(s[i].value, t[i].value)
  }

  ghost predicate KeyIn(s: seq<Member>, key: Text) {
    exists m :: m in s && m.key == key
  }

  lemma WrittenDefined(ms: seq<Member>)
    ensures forall m :: m in Written(ms) <==> m in ms && !m.value.Undefined?
    ensures forall key :: KeyIn(Written(ms), key) <==> HasKey(ms, key)
  {
    assert forall m :: m in Written(ms) <==> m in ms && !m.value.Undefined?;
    hide Written;
  }

  lemma AgreeKeys(s: seq<Member>, t: seq<Member>)
    requires Agree(s, t)
    ensures forall key :: KeyIn(s, key) <==> KeyIn(t, key)
  {
    hide Same;
    assert forall i | 0 <= i < |s| :: s[i] in s && t[i] in t;
  }

  lemma AgreeAt(s: seq<Member>, t: seq<Member>, m: Member, n: Member)
    requires Agree(s, t) && Sorted(t) && m in s && n in t && m.key == n.key
    ensures Same(m.value, n.value)
  {
    hide Same;
    var a :| 0 <= a < |s| && s[a] == m;
    var b :| 0 <= b < |t| && t[b] == n;
    LessTotal(t[a].key, t[b].key);
  }

  // ----- equal values have one text

  lemma SortedTail(s: seq<Member>, key: Text)
    requires Sorted(s) && s != []
    ensures KeyIn(s[1..], key) <==> KeyIn(s, key) && key != s[0].key
    ensures KeyIn(s, key) ==> key == s[0].key || Less(s[0].key, key)
    ensures Sorted(s[1..]) && KeyIn(s, s[0].key)
  {
    LessTotal(s[0].key, s[0].key);
    assert s == [s[0]] + s[1..];
    assert s[0] in s;
  }

  /** Strictly ordered lists with the same keys have them in the same places. */
  lemma {:induction false} SortedKeys(s: seq<Member>, t: seq<Member>)
    requires Sorted(s) && Sorted(t) && forall key :: KeyIn(s, key) <==> KeyIn(t, key)
    ensures |s| == |t| && forall i | 0 <= i < |s| :: s[i].key == t[i].key
  {
    if s != [] && t != [] {
      SortedTail(s, t[0].key);
      SortedTail(t, s[0].key);
      SortedTail(t, t[0].key);
      SortedTail(s, s[0].key);
      LessTotal(s[0].key, t[0].key);
      forall key ensures KeyIn(s[1..], key) <==> KeyIn(t[1..], key) {
        SortedTail(s, key);
        SortedTail(t, key);
      }
      SortedKeys(s[1..], t[1..]);
    } else if s != [] {
      SortedTail(s, s[0].key);
    } else if t != [] {
      SortedTail(t, t[0].key);
    }
  }

  lemma WrittenAgree(ms: seq<Member>, ns: seq<Member>)
    requires Proper(Obj(ms)) && Proper(Obj(ns)) && Same(Obj(ms), Obj(ns))
    ensures Agree(Written(ms), Written(ns))
  {
    WrittenSorted(ms);
    WrittenSorted(ns);
    WrittenDefined(ms);
    WrittenDefined(ns);
    hide Written, Proper, HasKey;
    var s, t := Written(ms), Written(ns);
    SortedKeys(s, t);
    forall i | 0 <= i < |s|
      ensures Same(s[i].value, t[i].value)
    {
      assert s[i] in s && t[i] in t;
      var a :| 0 <= a < |ms| && ms[a] == s[i];
      var b :| 0 <= b < |ns| && ns[b] == t[i];
      assert Same(ms[a].value, ns[b].value);
    }
  }

  lemma {:induction false} SameSerialize(v: Json, w: Json)
    requires Same(v, w) && Proper(v) && Proper(w)
    ensures Serialize(v) == Serialize(w)
    decreases v, 0
  {
    match v
    case Arr(items) => SameItems(items, w.items, true);
    case Obj(ms) =>
      WrittenAgree(ms, w.members);
      WrittenAll(ms);
      WrittenAll(w.members);
      SameMembers(Written(ms), Written(w.members), true, ms, w.members);
      hide Written, Sort, Defined, Members;
    case _ =>
  }

  lemma {:induction false} SameItems(items: seq<Json>, others: seq<Json>, first: bool)
    requires |items| == |others| && forall i | 0 <= i < |items| :: Same(items[i], others[i]) && Proper(items[i]) && Proper(others[i])
    ensures Items(items, first) == Items(others, first)
    decreases items, 1
  {
    hide Serialize, Same, Proper;
    if items != [] {
      SameSerialize(items[0], others[0]);
      SameItems(items[1..], others[1..], false);
    }
  }

  lemma {:induction false} SameMembers(ms: seq<Member>, ns: seq<Member>, first: bool, all: seq<Member>, others: seq<Member>)
    requires (forall m | m in ms :: m in all) && (forall n | n in ns :: n in others) && Agree(ms, ns)
    requires (forall m | m in all :: Proper(m.value)) && (forall n | n in others :: Proper(n.value))
    ensures Members(ms, first, all) == Members(ns, first, others)
    decreases all, 1, |ms|
  {
    hide Serialize, Same, Proper, Quote;
    if ms != [] {
      assert ms[0] in all;
      var i :| 0 <= i < |all| && all[i] == ms[0];
      SameSerialize(all[i].value, ns[0].value);
      SameMembers(ms[1..], ns[1..], false, all, others);
    }
  }

  /**
   * Two values are serialized alike exactly when they are equal up to the order of members and undefined members;
   * values that are refused are refused for the same reason when they are equal in that sense.
   */
  lemma CanonicalText(v: Json, w: Json)
    requires Proper(v) && Proper(w)
    ensures Same(v, w) ==> Serialize(v) == Serialize(w)
    ensures Serialize(v).Ok? && Serialize(v) == Serialize(w) ==> Same(v, w)
  {
    if Same(v, w) {
      SameSerialize(v, w);
    }
    if Serialize(v).Ok? && Serialize(v) == Serialize(w) {
      TextDecides(v, w, [], []);
    }
  }

  // ----- what is refused

  /** Serializable: no null, no undefined outside an object, natural safe numbers and well-formed strings. */
  ghost predicate Permitted(v: Json) {
    match v
    case Null => false
    case Undefined => false
    case Odd => false
    case Bool(_) => true
    case Num(n) => 0 <= n <= 9_007_199_254_740_991
    case Str(s) => WellFormed(s)
    case Arr(items) => forall i | 0 <= i < |items| :: Permitted(items[i])
    case Obj(ms) => forall i | 0 <= i < |ms| :: ms[i].value.Undefined? || Permitted(ms[i].value)
  }

  lemma {:induction false} SerializedIffPermitted(v: Json)
    ensures Serialize(v).Ok? <==> Permitted(v)
    decreases v, 0
  {
    match v
    case Arr(items) => ItemsPermitted(items, true);
    case Obj(ms) =>
      WrittenAll(ms);
      WrittenDefined(ms);
      MembersPermitted(Written(ms), true, ms);
      hide Written, Sort, Defined, Members;
      assert forall i | 0 <= i < |ms| :: ms[i] in ms;
    case _ =>
  }

  lemma {:induction false} ItemsPermitted(items: seq<Json>, first: bool)
    ensures Items(items, first).Ok? <==> forall i | 0 <= i < |items| :: Permitted(items[i])
    decreases items, 1
  {
    hide Serialize, Permitted;
    if items != [] {
      SerializedIffPermitted(items[0]);
      ItemsPermitted(items[1..], false);
      assert items == [items[0]] + items[1..];
    }
  }

  lemma {:induction false} MembersPermitted(ms: seq<Member>, first: bool, all: seq<Member>)
    requires forall m | m in ms :: m in all
    ensures Members(ms, first, all).Ok? <==> forall m | m in ms :: Permitted(m.value)
    decreases all, 1, |ms|
  {
    hide Serialize, Permitted, Quote;
    if ms != [] {
      assert ms[0] in all;
      var i :| 0 <= i < |all| && all[i] == ms[0];
      SerializedIffPermitted(all[i].value);
      MembersPermitted(ms[1..], false, all);
      assert ms == [ms[0]] + ms[1..];
    }
  }
}
