/** The canonical JSON text that digests are taken of: object keys sorted, everything else as `JSON.stringify` prints
    it. Two values get the same text exactly when they are the same value up to the order of object keys. */
module CanonicalJson {

  /** A UTF-16 code unit; strings may hold unpaired surrogates. */
  type Unit = u: int | 0 <= u < 0x10000

  type Text = seq<Unit>

  datatype Field = Field(key: Text, value: Json)

  /** A number is represented by the text it prints as. Object fields are in insertion order. */
  datatype Json =
    | Null
    | Bool(b: bool)
    | Num(token: Text)
    | Str(s: Text)
    | Arr(items: seq<Json>)
    | Obj(fields: seq<Field>)

  const QUOTE: Unit := 34
  const COMMA: Unit := 44
  const COLON: Unit := 58
  const BACKSLASH: Unit := 92
  const OPEN_BRACKET: Unit := 91
  const CLOSE_BRACKET: Unit := 93
  const OPEN_BRACE: Unit := 123
  const CLOSE_BRACE: Unit := 125

  // ---------- Strings ----------

  function HexDigit(n: int): Unit
    requires 0 <= n < 16
  {
    if n < 10 then 48 + n else 87 + n
  }

  function UnicodeEscape(u: Unit): Text {
    [BACKSLASH, 117, HexDigit(u / 16 / 16 / 16), HexDigit(u / 16 / 16 % 16), HexDigit(u / 16 % 16), HexDigit(u % 16)]
  }

  predicate IsHigh(u: Unit) {
    0xD800 <= u <= 0xDBFF
  }

  predicate IsLow(u: Unit) {
    0xDC00 <= u <= 0xDFFF
  }

  function EscapeUnit(u: Unit): Text {
    if u == 8 then [BACKSLASH, 98]
    else if u == 9 then [BACKSLASH, 116]
    else if u == 10 then [BACKSLASH, 110]
    else if u == 12 then [BACKSLASH, 102]
    else if u == 13 then [BACKSLASH, 114]
    else if u == QUOTE || u == BACKSLASH then [BACKSLASH, u]
    else if u < 32 || IsHigh(u) || IsLow(u) then UnicodeEscape(u)
    else [u]
  }

  /** The units of a text in ASCII. */
  function Ascii(s: string): Text
    requires forall i :: 0 <= i < |s| ==> s[i] < 128 as char
  {
    seq(|s|, i requires 0 <= i < |s| => s[i] as int)
  }

  lemma HexDigitIs(n: int)
    requires 0 <= n < 16
    ensures HexDigit(n) == "0123456789abcdef"[n] as int
  {
  }

  lemma ShortEscapeIs(u: Unit)
    ensures u == 8 ==> EscapeUnit(u) == Ascii("\\b")
    ensures u == 9 ==> EscapeUnit(u) == Ascii("\\t")
    ensures u == 10 ==> EscapeUnit(u) == Ascii("\\n")
    ensures u == 12 ==> EscapeUnit(u) == Ascii("\\f")
    ensures u == 13 ==> EscapeUnit(u) == Ascii("\\r")
    ensures u == '\"' as int ==> EscapeUnit(u) == Ascii("\\\"")
    ensures u == '\\' as int ==> EscapeUnit(u) == Ascii("\\\\")
  {
    assert Ascii("\\b") == [92, 98] && Ascii("\\t") == [92, 116] && Ascii("\\n") == [92, 110];
    assert Ascii("\\f") == [92, 102] && Ascii("\\r") == [92, 114];
    assert Ascii("\\\"") == [92, 34] && Ascii("\\\\") == [92, 92];
    hide UnicodeEscape, Ascii;
  }

  lemma UnicodeEscapeIs(u: Unit)
    ensures UnicodeEscape(u) == Ascii("\\u") + [HexDigit(u / 0x1000), HexDigit(u / 0x100 % 16), HexDigit(u / 16 % 16),
                                                HexDigit(u % 16)]
  {
    assert Ascii("\\u") == [92, 117];
    assert u / 16 / 16 == u / 0x100 && u / 16 / 16 / 16 == u / 0x1000;
    hide Ascii, HexDigit;
  }

  /** What stands for a unit in a string: a short escape for five control characters and for quote and backslash, four
      lower-case hexadecimal digits for other control characters and for lone surrogates, and itself for the rest. */
  lemma EscapeIs(u: Unit)
    ensures u == 8 ==> EscapeUnit(u) == Ascii("\\b")
    ensures u == 9 ==> EscapeUnit(u) == Ascii("\\t")
    ensures u == 10 ==> EscapeUnit(u) == Ascii("\\n")
    ensures u == 12 ==> EscapeUnit(u) == Ascii("\\f")
    ensures u == 13 ==> EscapeUnit(u) == Ascii("\\r")
    ensures u == '\"' as int ==> EscapeUnit(u) == Ascii("\\\"")
    ensures u == '\\' as int ==> EscapeUnit(u) == Ascii("\\\\")
    ensures (u < 32 && u !in {8, 9, 10, 12, 13}) || 0xD800 <= u <= 0xDFFF ==>
              EscapeUnit(u) == Ascii("\\u") + [HexDigit(u / 0x1000), HexDigit(u / 0x100 % 16), HexDigit(u / 16 % 16),
                                                HexDigit(u % 16)]
    ensures 32 <= u && u != 34 && u != 92 && !(0xD800 <= u <= 0xDFFF) ==> EscapeUnit(u) == [u]
  {
    ShortEscapeIs(u);
    UnicodeEscapeIs(u);
    hide UnicodeEscape, Ascii, HexDigit;
  }

  /** How many units are escaped together: a surrogate pair is, and is left as it is. */
  function Step(s: Text): (n: nat)
    requires s != []
    ensures 1 <= n <= |s|
  {
    if |s| >= 2 && IsHigh(s[0]) && IsLow(s[1]) then 2 else 1
  }

  function EscapeStep(s: Text): Text
    requires s != []
  {
    if Step(s) == 2 then s[..2] else EscapeUnit(s[0])
  }

  /** A surrogate pair stays as it is; anything else is escaped unit by unit. */
  lemma PairIsKept(u: Unit, rest: Text)
    ensures var s := [u] + rest;
            EscapeStep(s) ==
            if 0xD800 <= u <= 0xDBFF && rest != [] && 0xDC00 <= rest[0] <= 0xDFFF then [u, rest[0]] else EscapeUnit(u)
  {
    var s := [u] + rest;
    assert s[0] == u && (rest != [] ==> s[1] == rest[0] && s[..2] == [u, rest[0]]);
  }

  function Escape(s: Text): Text {
    if s == [] then [] else EscapeStep(s) + Escape(s[Step(s)..])
  }

  function Quote(s: Text): Text {
    [QUOTE] + Escape(s) + [QUOTE]
  }

  // ---------- Printing ----------

  function Join(xs: seq<Text>): Text {
    if xs == [] then [] else if |xs| == 1 then xs[0] else xs[0] + [COMMA] + Join(xs[1..])
  }

  /** Lexicographic order on code units: the order of `sort` on strings. */
  predicate Less(a: Text, b: Text) {
    if a == [] then b != []
    else b != [] && (a[0] < b[0] || (a[0] == b[0] && Less(a[1..], b[1..])))
  }

  /** A key with the text of its value. */
  datatype Member = Member(key: Text, text: Text)

  function Insert(ms: seq<Member>, m: Member): seq<Member> {
    if ms == [] || Less(m.key, ms[0].key) then [m] + ms else [ms[0]] + Insert(ms[1..], m)
  }

  function Sort(ms: seq<Member>): seq<Member> {
    if ms == [] then [] else Insert(Sort(ms[..|ms| - 1]), ms[|ms| - 1])
  }

  function MemberTexts(ms: seq<Member>): (xs: seq<Text>)
    ensures |xs| == |ms| && forall i :: 0 <= i < |ms| ==> xs[i] == Quote(ms[i].key) + [COLON] + ms[i].text
  {
    seq(|ms|, i requires 0 <= i < |ms| => Quote(ms[i].key) + [COLON] + ms[i].text)
  }

  function ItemTexts(v: Json): (xs: seq<Text>)
    requires v.Arr?
    ensures |xs| == |v.items| && forall i :: 0 <= i < |v.items| ==> xs[i] == Print(v.items[i])
    decreases v, 0
  {
    seq(|v.items|, i requires 0 <= i < |v.items| => Print(v.items[i]))
  }

  function Members(v: Json): (ms: seq<Member>)
    requires v.Obj?
    ensures |ms| == |v.fields|
    ensures forall i :: 0 <= i < |v.fields| ==> ms[i] == Member(v.fields[i].key, Print(v.fields[i].value))
    decreases v, 0
  {
    seq(|v.fields|, i requires 0 <= i < |v.fields| => Member(v.fields[i].key, Print(v.fields[i].value)))
  }

  /** `stableStringify`. */
  function Print(v: Json): Text
    decreases v, 1
  {
    match v
    case Null => [110, 117, 108, 108]
    case Bool(b) => if b then [116, 114, 117, 101] else [102, 97, 108, 115, 101]
    case Num(token) => token
    case Str(s) => Quote(s)
    case Arr(_) => [OPEN_BRACKET] + Join(ItemTexts(v)) + [CLOSE_BRACKET]
    case Obj(_) => [OPEN_BRACE] + Join(MemberTexts(Sort(Members(v)))) + [CLOSE_BRACE]
  }

  // ---------- Values ----------

  /** How each kind of value is printed: no blanks, members joined with their keys quoted. */
  lemma PrintIs(v: Json)
    ensures v.Null? ==> Print(v) == Ascii("null")
    ensures v.Bool? ==> Print(v) == if v.b then Ascii("true") else Ascii("false")
    ensures v.Str? ==> Print(v) == Ascii("\"") + Escape(v.s) + Ascii("\"")
    ensures v.Arr? ==> Print(v) == Ascii("[") + Join(ItemTexts(v)) + Ascii("]")
    ensures v.Obj? ==> Print(v) == Ascii("{") + Join(MemberTexts(Sort(Members(v)))) + Ascii("}")
  {
    assert Ascii("null") == [110, 117, 108, 108] && Ascii("true") == [116, 114, 117, 101];
    assert Ascii("false") == [102, 97, 108, 115, 101] && Ascii("\"") == [34];
    assert Ascii("[") == [91] && Ascii("]") == [93] && Ascii("{") == [123] && Ascii("}") == [125];
    hide Escape, Join, Sort, MemberTexts, ItemTexts, Members;
  }

  predicate IsNumUnit(u: Unit) {
    48 <= u <= 57 || u == 45 || u == 43 || u == 46 || u == 101
  }

  /** Finite numbers print as digits, sign, point and exponent, starting with a digit or a minus sign. */
  lemma NumUnitIs(u: Unit)
    ensures IsNumUnit(u) <==> u < 128 && u as char in "0123456789-+.e"
  {
  }

  predicate IsNumToken(t: Text) {
    t != [] && (48 <= t[0] <= 57 || t[0] == 45) && forall i :: 0 <= i < |t| ==> IsNumUnit(t[i])
  }

  predicate DistinctKeys(fields: seq<Field>) {
    forall i, j :: 0 <= i < j < |fields| ==> fields[i].key != fields[j].key
  }

  predicate WellFormed(v: Json) {
    match v
    case Num(token) => IsNumToken(token)
    case Arr(items) => forall i :: 0 <= i < |items| ==> WellFormed(items[i])
    case Obj(fields) => DistinctKeys(fields) && forall i :: 0 <= i < |fields| ==> WellFormed(fields[i].value)
    case _ => true
  }

  /** The same value, up to the order of object keys at every level. */
  predicate Same(a: Json, b: Json) {
    match a
    case Arr(items) => b.Arr? && |b.items| == |items| && forall i :: 0 <= i < |items| ==> Same(items[i], b.items[i])
    case Obj(fields) =>
      && b.Obj?
      && (forall i :: 0 <= i < |fields| ==>
            var j := IndexOfKey(b.fields, fields[i].key); j < |b.fields| && Same(fields[i].value, b.fields[j].value))
      && forall j :: 0 <= j < |b.fields| ==> HasKey(fields, b.fields[j].key)
    case _ => a == b
  }

  predicate HasKey(fields: seq<Field>, key: Text) {
    exists i :: 0 <= i < |fields| && fields[i].key == key
  }

  function IndexOfKey(fields: seq<Field>, key: Text): (i: nat)
    ensures i <= |fields| && (i < |fields| ==> fields[i].key == key)
    ensures i == |fields| ==> !HasKey(fields, key)
  {
    if fields == [] then 0
    else if fields[0].key == key then 0
    else
      assert forall j :: 0 < j < |fields| ==> fields[j] == fields[1..][j - 1];
      1 + IndexOfKey(fields[1..], key)
  }

  // ---------- Texts end where they end ----------

  /** What may follow a value: nothing, a comma, or a closing bracket or brace. */
  predicate Ends(s: Text) {
    s == [] || s[0] == COMMA || s[0] == CLOSE_BRACKET || s[0] == CLOSE_BRACE
  }

  /** Neither text continues the other. */
  ghost predicate Delimited(x: Text, y: Text) {
    forall s: Text, t: Text :: Ends(s) && Ends(t) && x + s == y + t ==> x == y
  }

  lemma SameStart(x: Text, y: Text, s: Text, t: Text)
    requires x + s == y + t && x != [] && y != []
    ensures x[0] == y[0]
  {
    assert (x + s)[0] == x[0] && (y + t)[0] == y[0];
  }

  lemma SameLengthSame(x: Text, y: Text, s: Text, t: Text)
    requires x + s == y + t && |x| == |y|
    ensures x == y && s == t
  {
    assert x == (x + s)[..|x|] && y == (y + t)[..|y|];
    assert s == (x + s)[|x|..] && t == (y + t)[|y|..];
  }

  // Strings.

  lemma DigitInjective(m: int, n: int)
    requires 0 <= m < 16 && 0 <= n < 16 && HexDigit(m) == HexDigit(n)
    ensures m == n
  {
  }

  lemma HexInjective(u: Unit, v: Unit)
    requires UnicodeEscape(u) == UnicodeEscape(v)
    ensures u == v
  {
    var x, y := UnicodeEscape(u), UnicodeEscape(v);
    assert x[2] == y[2] && x[3] == y[3] && x[4] == y[4] && x[5] == y[5];
    DigitInjective(u / 16 / 16 / 16, v / 16 / 16 / 16);
    DigitInjective(u / 16 / 16 % 16, v / 16 / 16 % 16);
    DigitInjective(u / 16 % 16, v / 16 % 16);
    DigitInjective(u % 16, v % 16);
    hide HexDigit, UnicodeEscape;
  }

  /** The first unit of an escape tells its length, except after a backslash, where the second does. */
  function EscapeLength(x: Text): nat
    requires x != []
  {
    if x[0] != BACKSLASH then (if IsHigh(x[0]) then 2 else 1)
    else if |x| >= 2 && x[1] == 117 then 6 else 2
  }

  lemma LengthShows(s: Text, x: Text)
    requires s != []
    ensures EscapeStep(s) + x != [] && EscapeLength(EscapeStep(s) + x) == |EscapeStep(s)|
    ensures (EscapeStep(s) + x)[0] != QUOTE
  {
    var e := EscapeStep(s);
    assert (e + x)[0] == e[0];
    if |e| >= 2 {
      assert (e + x)[1] == e[1];
    }
  }

  lemma StepInjective(s: Text, t: Text)
    requires s != [] && t != [] && EscapeStep(s) == EscapeStep(t)
    ensures Step(s) == Step(t) && s[..Step(s)] == t[..Step(t)]
  {
    var e, f := EscapeStep(s), EscapeStep(t);
    assert e[0] == f[0];
    if Step(s) == 1 && Step(t) == 1 {
      if |e| == 6 {
        HexInjective(s[0], t[0]);
      } else if |e| == 2 {
        assert e[1] == f[1];
      }
      assert s[..1] == [s[0]] && t[..1] == [t[0]];
    }
  }

  /** An escaped string ends at its closing quote and at no other place, and can be read back. */
  lemma {:induction false} EscapeInjective(s: Text, t: Text, x: Text, y: Text)
    requires Escape(s) + [QUOTE] + x == Escape(t) + [QUOTE] + y
    ensures s == t && x == y
    decreases |s|
  {
    hide EscapeStep, Step;
    if s == [] || t == [] {
      EmptyEscape(s, t, x, y);
    } else {
      var m, n := Step(s), Step(t);
      var u, v := Escape(s[m..]) + [QUOTE] + x, Escape(t[n..]) + [QUOTE] + y;
      assert EscapeStep(s) + u == Escape(s) + [QUOTE] + x;
      assert EscapeStep(t) + v == Escape(t) + [QUOTE] + y;
      LengthShows(s, u);
      LengthShows(t, v);
      SameLengthSame(EscapeStep(s), EscapeStep(t), u, v);
      StepInjective(s, t);
      EscapeInjective(s[m..], t[n..], x, y);
      assert s == s[..m] + s[m..] && t == t[..n] + t[n..];
    }
  }

  lemma EmptyEscape(s: Text, t: Text, x: Text, y: Text)
    requires Escape(s) + [QUOTE] + x == Escape(t) + [QUOTE] + y && (s == [] || t == [])
    ensures s == t && x == y
  {
    StartsQuoted(s, x);
    StartsQuoted(t, y);
    hide Escape;
    assert s == [] && t == [];
    assert Escape([]) == [] by {
      NothingEscaped();
    }
    assert [] + [QUOTE] + x == [QUOTE] + x && [] + [QUOTE] + y == [QUOTE] + y;
    SameLengthSame([QUOTE], [QUOTE], x, y);
  }

  lemma NothingEscaped()
    ensures Escape([]) == []
  {
  }

  lemma StartsQuoted(s: Text, x: Text)
    ensures Escape(s) + [QUOTE] + x != [] && ((Escape(s) + [QUOTE] + x)[0] == QUOTE <==> s == [])
  {
    hide EscapeStep, Step;
    if s != [] {
      var rest := Escape(s[Step(s)..]) + [QUOTE] + x;
      assert EscapeStep(s) + rest == Escape(s) + [QUOTE] + x;
      LengthShows(s, rest);
    }
  }

  lemma QuoteInjective(s: Text, t: Text, x: Text, y: Text)
    requires Quote(s) + x == Quote(t) + y
    ensures s == t && x == y
  {
    var u, v := Escape(s) + [QUOTE] + x, Escape(t) + [QUOTE] + y;
    assert [QUOTE] + u == Quote(s) + x && [QUOTE] + v == Quote(t) + y;
    SameLengthSame([QUOTE], [QUOTE], u, v);
    EscapeInjective(s, t, x, y);
  }

  // Numbers.

  /** How many number units a text starts with. */
  function NumPrefix(t: Text): nat {
    if t == [] || !IsNumUnit(t[0]) then 0 else 1 + NumPrefix(t[1..])
  }

  lemma {:induction false} NumPrefixStops(x: Text, s: Text)
    requires (forall i :: 0 <= i < |x| ==> IsNumUnit(x[i])) && Ends(s)
    ensures NumPrefix(x + s) == |x|
    decreases |x|
  {
    if x == [] {
      assert x + s == s;
    } else {
      assert (x + s)[0] == x[0] && (x + s)[1..] == x[1..] + s;
      NumPrefixStops(x[1..], s);
    }
  }

  lemma NumDelimited(x: Text, y: Text, s: Text, t: Text)
    requires IsNumToken(x) && IsNumToken(y) && Ends(s) && Ends(t) && x + s == y + t
    ensures x == y
  {
    NumPrefixStops(x, s);
    NumPrefixStops(y, t);
    SameLengthSame(x, y, s, t);
  }

  // Lists.

  /** The text starts like a value, not like what follows one. */
  predicate Starts(x: Text) {
    x != [] && !Ends(x)
  }

  function AfterFirst(xs: seq<Text>, close: Unit, s: Text): Text
    requires xs != []
  {
    if |xs| == 1 then [close] + s else [COMMA] + (Join(xs[1..]) + [close] + s)
  }

  lemma JoinSplits(xs: seq<Text>, close: Unit, s: Text)
    requires xs != [] && (close == CLOSE_BRACKET || close == CLOSE_BRACE)
    ensures Join(xs) + [close] + s == xs[0] + AfterFirst(xs, close, s) && Ends(AfterFirst(xs, close, s))
  {
  }

  /** A closed list of delimited texts can be taken apart again. */
  lemma {:induction false} JoinInjective(xs: seq<Text>, ys: seq<Text>, close: Unit, s: Text, t: Text)
    requires close == CLOSE_BRACKET || close == CLOSE_BRACE
    requires forall i, j :: 0 <= i < |xs| && 0 <= j < |ys| ==> Delimited(xs[i], ys[j])
    requires (forall i :: 0 <= i < |xs| ==> Starts(xs[i])) && forall j :: 0 <= j < |ys| ==> Starts(ys[j])
    requires Join(xs) + [close] + s == Join(ys) + [close] + t
    ensures xs == ys && s == t
    decreases |xs|
  {
    ClosesIfEmpty(xs, close, s);
    ClosesIfEmpty(ys, close, t);
    if xs == [] {
      hide Join, Delimited;
      assert Join([]) == [] by {
        JoinNothing();
      }
      assert [] + [close] + s == [close] + s && [] + [close] + t == [close] + t;
      SameLengthSame([close], [close], s, t);
    } else {
      JoinSplits(xs, close, s);
      JoinSplits(ys, close, t);
      hide Join;
      var u, v := AfterFirst(xs, close, s), AfterFirst(ys, close, t);
      assert xs[0] == ys[0] by {
        assert Delimited(xs[0], ys[0]);
      }
      hide Delimited;
      SameLengthSame(xs[0], ys[0], u, v);
      TailsMatch(xs, ys, close, s, t);
      if |xs| > 1 {
        JoinInjective(xs[1..], ys[1..], close, s, t);
      }
    }
  }

  lemma JoinNothing()
    ensures Join([]) == []
  {
  }

  lemma ClosesIfEmpty(xs: seq<Text>, close: Unit, s: Text)
    requires close == CLOSE_BRACKET || close == CLOSE_BRACE
    requires forall i :: 0 <= i < |xs| ==> Starts(xs[i])
    ensures var x := Join(xs) + [close] + s; x != [] && (Ends(x) <==> xs == [])
  {
    if xs != [] {
      JoinSplits(xs, close, s);
      assert (xs[0] + AfterFirst(xs, close, s))[0] == xs[0][0];
    }
  }

  lemma TailsMatch(xs: seq<Text>, ys: seq<Text>, close: Unit, s: Text, t: Text)
    requires xs != [] && ys != [] && (close == CLOSE_BRACKET || close == CLOSE_BRACE)
    requires AfterFirst(xs, close, s) == AfterFirst(ys, close, t)
    ensures |xs| == 1 <==> |ys| == 1
    ensures |xs| == 1 ==> s == t
    ensures |xs| > 1 ==> Join(xs[1..]) + [close] + s == Join(ys[1..]) + [close] + t
  {
    var u, v := AfterFirst(xs, close, s), AfterFirst(ys, close, t);
    hide Join;
    assert u[0] == v[0];
    assert u[1..] == v[1..];
    if |xs| == 1 {
      assert u[1..] == s && v[1..] == t;
    } else {
      assert u[1..] == Join(xs[1..]) + [close] + s;
      assert v[1..] == Join(ys[1..]) + [close] + t;
    }
  }

  // Members.

  lemma MemberDelimited(k: Text, l: Text, x: Text, y: Text)
    requires Delimited(x, y)
    ensures Delimited(Quote(k) + [COLON] + x, Quote(l) + [COLON] + y)
  {
    hide Quote;
    var p, q := Quote(k) + [COLON] + x, Quote(l) + [COLON] + y;
    forall s: Text, t: Text | Ends(s) && Ends(t) && p + s == q + t ensures p == q {
      assert Quote(k) + ([COLON] + (x + s)) == p + s && Quote(l) + ([COLON] + (y + t)) == q + t;
      QuoteInjective(k, l, [COLON] + (x + s), [COLON] + (y + t));
      SameLengthSame([COLON], [COLON], x + s, y + t);
    }
  }

  lemma MemberInjective(k: Text, l: Text, x: Text, y: Text)
    requires Quote(k) + [COLON] + x == Quote(l) + [COLON] + y
    ensures k == l && x == y
  {
    hide Quote;
    assert Quote(k) + ([COLON] + x) == Quote(k) + [COLON] + x && Quote(l) + ([COLON] + y) == Quote(l) + [COLON] + y;
    QuoteInjective(k, l, [COLON] + x, [COLON] + y);
    SameLengthSame([COLON], [COLON], x, y);
  }

  lemma QuoteStarts(k: Text, x: Text)
    ensures Starts(Quote(k) + [COLON] + x)
  {
    assert (Quote(k) + [COLON] + x)[0] == QUOTE;
  }

  // Sorting.

  lemma {:induction false} InsertMembers(ms: seq<Member>, m: Member)
    ensures |Insert(ms, m)| == |ms| + 1
    ensures forall x :: x in Insert(ms, m) <==> x in ms || x == m
  {
    if ms != [] && !Less(m.key, ms[0].key) {
      InsertMembers(ms[1..], m);
      assert ms == [ms[0]] + ms[1..];
    }
  }

  lemma {:induction false} SortMembers(ms: seq<Member>)
    ensures |Sort(ms)| == |ms|
    ensures forall x :: x in Sort(ms) <==> x in ms
  {
    if ms != [] {
      var front := ms[..|ms| - 1];
      SortMembers(front);
      InsertMembers(Sort(front), ms[|ms| - 1]);
      assert ms == front + [ms[|ms| - 1]];
    }
  }

  lemma {:induction false} LessTransitive(a: Text, b: Text, c: Text)
    requires Less(a, b) && Less(b, c)
    ensures Less(a, c)
  {
    if a != [] && a[0] == b[0] == c[0] {
      LessTransitive(a[1..], b[1..], c[1..]);
    }
  }

  lemma {:induction false} LessTotal(a: Text, b: Text)
    ensures Less(a, b) || Less(b, a) || a == b
    ensures !(Less(a, b) && Less(b, a)) && !Less(a, a)
  {
    if a != [] {
      if b != [] {
        LessTotal(a[1..], b[1..]);
        assert a == [a[0]] + a[1..] && b == [b[0]] + b[1..];
      } else {
        LessTotal(a[1..], a[1..]);
      }
    }
  }

  predicate Ascending(ms: seq<Member>) {
    forall i, j :: 0 <= i < j < |ms| ==> Less(ms[i].key, ms[j].key)
  }

  lemma {:induction false} InsertAscends(ms: seq<Member>, m: Member)
    requires Ascending(ms) && forall i :: 0 <= i < |ms| ==> ms[i].key != m.key
    ensures Ascending(Insert(ms, m))
  {
    hide Less;
    if ms == [] {
    } else if Less(m.key, ms[0].key) {
      forall i | 0 <= i < |ms| ensures Less(m.key, ms[i].key) {
        if i > 0 {
          LessTransitive(m.key, ms[0].key, ms[i].key);
        }
      }
    } else {
      LessTotal(m.key, ms[0].key);
      InsertAscends(ms[1..], m);
      InsertMembers(ms[1..], m);
      var rest := Insert(ms[1..], m);
      forall j | 0 <= j < |rest| ensures Less(ms[0].key, rest[j].key) {
        assert rest[j] in rest;
        if rest[j] != m {
          assert rest[j] in ms[1..];
        }
      }
    }
  }

  predicate DistinctMembers(ms: seq<Member>) {
    forall i, j :: 0 <= i < j < |ms| ==> ms[i].key != ms[j].key
  }

  lemma {:induction false} SortAscends(ms: seq<Member>)
    requires DistinctMembers(ms)
    ensures Ascending(Sort(ms))
  {
    if ms != [] {
      var front, last := ms[..|ms| - 1], ms[|ms| - 1];
      SortAscends(front);
      SortMembers(front);
      forall i | 0 <= i < |front| ensures Sort(front)[i].key != last.key {
        assert Sort(front)[i] in front;
      }
      hide Less;
      InsertAscends(Sort(front), last);
    }
  }

  /** There is only one way to list the same members in ascending order. */
  lemma {:induction false} AscendingUnique(ms: seq<Member>, ns: seq<Member>)
    requires Ascending(ms) && Ascending(ns) && forall x :: x in ms <==> x in ns
    ensures ms == ns
    decreases |ms|
  {
    hide Less;
    HasFirst(ns);
    if ms == [] {
    } else {
      assert ms[0] in ns;
      FirstIsLeast(ms, ns);
      TailsAlike(ms, ns);
      AscendingUnique(ms[1..], ns[1..]);
      assert ms == [ms[0]] + ms[1..] && ns == [ns[0]] + ns[1..];
    }
  }

  lemma HasFirst(ns: seq<Member>)
    ensures ns != [] ==> exists x :: x in ns
  {
    if ns != [] {
      assert ns[0] in ns;
    }
  }

  lemma FirstIsLeast(ms: seq<Member>, ns: seq<Member>)
    requires ms != [] && ns != [] && Ascending(ms) && Ascending(ns) && forall x :: x in ms <==> x in ns
    ensures ms[0] == ns[0]
  {
    hide Less;
    assert ms[0] in ns && ns[0] in ms;
    var i :| 0 <= i < |ns| && ns[i] == ms[0];
    var j :| 0 <= j < |ms| && ms[j] == ns[0];
    LessTotal(ms[0].key, ns[0].key);
  }

  lemma TailsAlike(ms: seq<Member>, ns: seq<Member>)
    requires ms != [] && ns != [] && Ascending(ms) && Ascending(ns) && ms[0] == ns[0]
    requires forall x :: x in ms <==> x in ns
    ensures forall x :: x in ms[1..] <==> x in ns[1..]
  {
    hide Less;
    LessTotal(ms[0].key, ms[0].key);
    assert ms == [ms[0]] + ms[1..] && ns == [ns[0]] + ns[1..];
    forall x ensures x in ms[1..] <==> x in ms && x != ms[0] {
    }
    forall x ensures x in ns[1..] <==> x in ns && x != ns[0] {
    }
  }

  // ---------- The printing is injective up to key order ----------

  lemma PrintStarts(v: Json)
    requires WellFormed(v)
    ensures Starts(Print(v))
    ensures v.Null? <==> Print(v)[0] == 110
    ensures v.Bool? <==> Print(v)[0] == 116 || Print(v)[0] == 102
    ensures v.Str? <==> Print(v)[0] == QUOTE
    ensures v.Arr? <==> Print(v)[0] == OPEN_BRACKET
    ensures v.Obj? <==> Print(v)[0] == OPEN_BRACE
  {
  }

  lemma ItemsStart(v: Json)
    requires v.Arr? && WellFormed(v)
    ensures forall i :: 0 <= i < |v.items| ==> Starts(ItemTexts(v)[i])
  {
    forall i | 0 <= i < |v.items| ensures Starts(ItemTexts(v)[i]) {
      PrintStarts(v.items[i]);
    }
  }

  function SortedTexts(v: Json): seq<Text>
    requires v.Obj?
  {
    MemberTexts(Sort(Members(v)))
  }

  lemma MembersStart(v: Json)
    requires v.Obj?
    ensures forall i :: 0 <= i < |SortedTexts(v)| ==> Starts(SortedTexts(v)[i])
  {
    var ms := Sort(Members(v));
    forall i | 0 <= i < |ms| ensures Starts(MemberTexts(ms)[i]) {
      QuoteStarts(ms[i].key, ms[i].text);
    }
  }

  /** A sorted member is one of the object's fields. */
  lemma FieldOf(v: Json, i: nat) returns (k: nat)
    requires v.Obj? && i < |Sort(Members(v))|
    ensures k < |v.fields| && Sort(Members(v))[i] == Member(v.fields[k].key, Print(v.fields[k].value))
  {
    SortMembers(Members(v));
    var ms := Members(v);
    assert Sort(ms)[i] in ms;
    k :| k < |ms| && ms[k] == Sort(ms)[i];
  }

  lemma {:induction false} PrintDelimited(a: Json, b: Json)
    requires WellFormed(a) && WellFormed(b)
    ensures Delimited(Print(a), Print(b))
    decreases a
  {
    forall s: Text, t: Text | Ends(s) && Ends(t) && Print(a) + s == Print(b) + t ensures Print(a) == Print(b) {
      PrintStarts(a);
      PrintStarts(b);
      SameStart(Print(a), Print(b), s, t);
      hide Quote, Join, Sort, MemberTexts, Delimited, Starts;
      match a
      case Num(x) => NumDelimited(x, b.token, s, t);
      case Str(x) => QuoteInjective(x, b.s, s, t);
      case Arr(_) =>
        forall i, j | 0 <= i < |a.items| && 0 <= j < |b.items| ensures Delimited(ItemTexts(a)[i], ItemTexts(b)[j]) {
          PrintDelimited(a.items[i], b.items[j]);
        }
        ItemsStart(a);
        ItemsStart(b);
        ListDelimited(ItemTexts(a), ItemTexts(b), OPEN_BRACKET, CLOSE_BRACKET, s, t);
      case Obj(_) =>
        forall i, j | 0 <= i < |SortedTexts(a)| && 0 <= j < |SortedTexts(b)|
          ensures Delimited(SortedTexts(a)[i], SortedTexts(b)[j])
        {
          var k := FieldOf(a, i);
          var l := FieldOf(b, j);
          PrintDelimited(a.fields[k].value, b.fields[l].value);
          MemberDelimited(a.fields[k].key, b.fields[l].key, Print(a.fields[k].value), Print(b.fields[l].value));
        }
        MembersStart(a);
        MembersStart(b);
        ListDelimited(SortedTexts(a), SortedTexts(b), OPEN_BRACE, CLOSE_BRACE, s, t);
      case _ =>
    }
  }

  lemma ListDelimited(xs: seq<Text>, ys: seq<Text>, start: Unit, close: Unit, s: Text, t: Text)
    requires close == CLOSE_BRACKET || close == CLOSE_BRACE
    requires forall i, j :: 0 <= i < |xs| && 0 <= j < |ys| ==> Delimited(xs[i], ys[j])
    requires (forall i :: 0 <= i < |xs| ==> Starts(xs[i])) && forall j :: 0 <= j < |ys| ==> Starts(ys[j])
    requires [start] + Join(xs) + [close] + s == [start] + Join(ys) + [close] + t
    ensures xs == ys
  {
    hide Join, Delimited, Starts;
    var u, v := Join(xs) + [close] + s, Join(ys) + [close] + t;
    assert u == v by {
      Regroup(start, Join(xs), close, s);
      Regroup(start, Join(ys), close, t);
      SameLengthSame([start], [start], u, v);
    }
    JoinInjective(xs, ys, close, s, t);
  }

  lemma Regroup(start: Unit, x: Text, close: Unit, s: Text)
    ensures [start] + x + [close] + s == [start] + (x + [close] + s)
  {
  }

  /** Equal texts come only from the same value. */
  lemma {:induction false} EqualTextSameValue(a: Json, b: Json)
    requires WellFormed(a) && WellFormed(b) && Print(a) == Print(b)
    ensures Same(a, b)
    decreases a
  {
    PrintStarts(a);
    PrintStarts(b);
    hide Quote, Join, Sort, MemberTexts, Delimited, Starts;
    match a
    case Str(x) =>
      assert Quote(x) + [] == Quote(x) && Quote(b.s) + [] == Quote(b.s);
      QuoteInjective(x, b.s, [], []);
    case Arr(_) =>
      hide Print;
      SameItems(a, b);
      forall i | 0 <= i < |a.items| ensures Same(a.items[i], b.items[i]) {
        assert ItemTexts(a)[i] == ItemTexts(b)[i];
        EqualTextSameValue(a.items[i], b.items[i]);
      }
    case Obj(_) =>
      hide Print;
      SameMembers(a, b);
      forall i, j | 0 <= i < |a.fields| && 0 <= j < |b.fields| && Members(a)[i] == Members(b)[j]
        ensures Same(a.fields[i].value, b.fields[j].value)
      {
        EqualTextSameValue(a.fields[i].value, b.fields[j].value);
      }
      SameFields(a, b);
    case _ =>
  }

  lemma KeyIndex(fields: seq<Field>, j: nat)
    requires DistinctKeys(fields) && j < |fields|
    ensures IndexOfKey(fields, fields[j].key) == j
  {
    hide IndexOfKey;
    assert HasKey(fields, fields[j].key);
  }

  /** A field's member is found in the other object under the field's key. */
  lemma FieldPartner(a: Json, b: Json, i: nat)
    requires a.Obj? && b.Obj? && DistinctKeys(b.fields) && i < |a.fields| && Members(a)[i] in Members(b)
    ensures var j := IndexOfKey(b.fields, a.fields[i].key); j < |b.fields| && Members(a)[i] == Members(b)[j]
  {
    hide Print, IndexOfKey;
    var j :| 0 <= j < |b.fields| && Members(b)[j] == Members(a)[i];
    KeyIndex(b.fields, j);
    hide DistinctKeys;
  }

  lemma KeyPartner(a: Json, b: Json, j: nat)
    requires a.Obj? && b.Obj? && j < |b.fields| && Members(b)[j] in Members(a)
    ensures HasKey(a.fields, b.fields[j].key)
  {
    hide Print;
    var i :| 0 <= i < |a.fields| && Members(a)[i] == Members(b)[j];
  }

  lemma SameFields(a: Json, b: Json)
    requires a.Obj? && b.Obj? && DistinctKeys(b.fields) && forall m :: m in Members(a) <==> m in Members(b)
    requires forall i, j :: 0 <= i < |a.fields| && 0 <= j < |b.fields| && Members(a)[i] == Members(b)[j] ==>
                              Same(a.fields[i].value, b.fields[j].value)
    ensures Same(a, b)
  {
    hide Print, DistinctKeys, HasKey, IndexOfKey;
    forall i | 0 <= i < |a.fields|
      ensures var j := IndexOfKey(b.fields, a.fields[i].key);
              j < |b.fields| && Same(a.fields[i].value, b.fields[j].value)
    {
      assert Members(a)[i] in Members(b);
      FieldPartner(a, b, i);
    }
    forall j | 0 <= j < |b.fields| ensures HasKey(a.fields, b.fields[j].key) {
      assert Members(b)[j] in Members(a);
      KeyPartner(a, b, j);
    }
    hide Members;
  }

  lemma SameItems(a: Json, b: Json)
    requires a.Arr? && b.Arr? && WellFormed(a) && WellFormed(b) && Print(a) == Print(b)
    ensures ItemTexts(a) == ItemTexts(b)
  {
    forall i, j | 0 <= i < |a.items| && 0 <= j < |b.items| ensures Delimited(ItemTexts(a)[i], ItemTexts(b)[j]) {
      PrintDelimited(a.items[i], b.items[j]);
    }
    ItemsStart(a);
    ItemsStart(b);
    hide Join, Delimited, Starts;
    assert Print(a) + [] == Print(a) && Print(b) + [] == Print(b);
    ListDelimited(ItemTexts(a), ItemTexts(b), OPEN_BRACKET, CLOSE_BRACKET, [], []);
  }

  lemma SameMembers(a: Json, b: Json)
    requires a.Obj? && b.Obj? && WellFormed(a) && WellFormed(b) && Print(a) == Print(b)
    ensures forall m :: m in Members(a) <==> m in Members(b)
  {
    hide Join, Delimited, Starts, Quote, Sort;
    forall i, j | 0 <= i < |SortedTexts(a)| && 0 <= j < |SortedTexts(b)|
      ensures Delimited(SortedTexts(a)[i], SortedTexts(b)[j])
    {
      var k := FieldOf(a, i);
      var l := FieldOf(b, j);
      PrintDelimited(a.fields[k].value, b.fields[l].value);
      MemberDelimited(a.fields[k].key, b.fields[l].key, Print(a.fields[k].value), Print(b.fields[l].value));
    }
    MembersStart(a);
    MembersStart(b);
    assert Print(a) + [] == Print(a) && Print(b) + [] == Print(b);
    ListDelimited(SortedTexts(a), SortedTexts(b), OPEN_BRACE, CLOSE_BRACE, [], []);
    var ms, ns := Sort(Members(a)), Sort(Members(b));
    forall i | 0 <= i < |ms| ensures ms[i] == ns[i] {
      assert MemberTexts(ms)[i] == MemberTexts(ns)[i];
      MemberInjective(ms[i].key, ns[i].key, ms[i].text, ns[i].text);
    }
    assert ms == ns;
    SortMembers(Members(a));
    SortMembers(Members(b));
  }

  /** The same value always prints the same, whatever order its keys were inserted in. */
  lemma {:induction false} SameValueEqualText(a: Json, b: Json)
    requires WellFormed(a) && WellFormed(b) && Same(a, b)
    ensures Print(a) == Print(b)
    decreases a
  {
    hide Quote, Join, Sort, MemberTexts;
    match a
    case Arr(_) =>
      assert ItemTexts(a) == ItemTexts(b) by {
        hide Print;
        forall i | 0 <= i < |a.items| ensures ItemTexts(a)[i] == ItemTexts(b)[i] {
          SameValueEqualText(a.items[i], b.items[i]);
        }
      }
      hide Same, WellFormed, ItemTexts;
    case Obj(_) =>
      assert Sort(Members(a)) == Sort(Members(b)) by {
        hide Print;
        forall i | 0 <= i < |a.fields| ensures Members(a)[i] in Members(b) {
          var j := IndexOfKey(b.fields, a.fields[i].key);
          SameValueEqualText(a.fields[i].value, b.fields[j].value);
          assert Members(b)[j] == Members(a)[i];
        }
        assert forall j :: 0 <= j < |b.fields| ==> HasKey(a.fields, b.fields[j].key);
        hide Same, HasKey, IndexOfKey;
        MembersAlike(a, b);
      }
      hide Same, WellFormed, Members;
    case _ =>
  }

  lemma MembersAlike(a: Json, b: Json)
    requires a.Obj? && b.Obj? && DistinctKeys(a.fields) && DistinctKeys(b.fields)
    requires forall i :: 0 <= i < |a.fields| ==> Members(a)[i] in Members(b)
    requires forall j :: 0 <= j < |b.fields| ==> HasKey(a.fields, b.fields[j].key)
    ensures Sort(Members(a)) == Sort(Members(b))
  {
    var ms, ns := Members(a), Members(b);
    hide Print, Sort;
    forall j | 0 <= j < |ns| ensures ns[j] in ms {
      var i :| 0 <= i < |a.fields| && a.fields[i].key == b.fields[j].key;
      assert ms[i] in ns;
      var l :| 0 <= l < |ns| && ns[l] == ms[i];
      assert l == j;
    }
    SortMembers(ms);
    SortMembers(ns);
    SortAscends(ms);
    SortAscends(ns);
    AscendingUnique(Sort(ms), Sort(ns));
  }

  /** The printing identifies exactly the values that differ in nothing but key order. */
  lemma PrintIsCanonical(a: Json, b: Json)
    requires WellFormed(a) && WellFormed(b)
    ensures Print(a) == Print(b) <==> Same(a, b)
  {
    if Print(a) == Print(b) {
      EqualTextSameValue(a, b);
    }
    if Same(a, b) {
      SameValueEqualText(a, b);
    }
  }
}
