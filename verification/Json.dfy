/**
 * JSON values and their text, in UTF-16 code units as JavaScript strings hold them: `JSON.stringify`
 * for values in a given key order, and a parser that recovers them.
 */
module Json {
  import opened Collections
  import opened Decimals

  type Unit = u: int | 0 <= u < 0x1_0000

  type Text = seq<Unit>

  /** A JavaScript value without functions; numbers are integers, fields keep their order. */
  datatype Json =
    | Undefined
    | Null
    | Bool(b: bool)
    | Num(n: int)
    | Str(s: Text)
    | Arr(items: seq<Json>)
    | Obj(fields: seq<Field>)

  datatype Field = Field(key: Text, value: Json)

  const QUOTE: Unit := 0x22
  const COMMA: Unit := 0x2C
  const MINUS: Unit := 0x2D
  const COLON: Unit := 0x3A
  const OPEN_BRACKET: Unit := 0x5B
  const BACKSLASH: Unit := 0x5C
  const CLOSE_BRACKET: Unit := 0x5D
  const OPEN_BRACE: Unit := 0x7B
  const CLOSE_BRACE: Unit := 0x7D
  const NULL: Text := [0x6E, 0x75, 0x6C, 0x6C]
  const TRUE: Text := [0x74, 0x72, 0x75, 0x65]
  const FALSE: Text := [0x66, 0x61, 0x6C, 0x73, 0x65]

  // ----- strings (section 7 of RFC 8259)

  predicate High(u: Unit) { 0xD800 <= u < 0xDC00 }

  predicate Low(u: Unit) { 0xDC00 <= u < 0xE000 }

  function HexDigit(d: nat): (u: Unit)
    requires d < 16
    ensures HexValue(u) == Some(d)
  {
    if d < 10 then 0x30 + d else 0x57 + d
  }

  function HexValue(u: Unit): (r: Option<int>)
    ensures r.Some? ==> 0 <= r.value < 16
  {
    if 0x30 <= u <= 0x39 then Some(u - 0x30)
    else if 0x61 <= u <= 0x66 then Some(u - 0x57)
    else if 0x41 <= u <= 0x46 then Some(u - 0x37)
    else None
  }

  /** The letter of a two-unit escape, where the unit has one. */
  function ShortEscape(u: Unit): Option<Unit> {
    if u == QUOTE || u == BACKSLASH then Some(u)
    else if u == 0x08 then Some(0x62)
    else if u == 0x09 then Some(0x74)
    else if u == 0x0A then Some(0x6E)
    else if u == 0x0C then Some(0x66)
    else if u == 0x0D then Some(0x72)
    else None
  }

  function ShortUnescape(e: Unit): Option<Unit> {
    if e == QUOTE || e == BACKSLASH || e == 0x2F then Some(e)
    else if e == 0x62 then Some(0x08)
    else if e == 0x74 then Some(0x09)
    else if e == 0x6E then Some(0x0A)
    else if e == 0x66 then Some(0x0C)
    else if e == 0x72 then Some(0x0D)
    else None
  }

  function EscapeUnit(u: Unit): Text {
    if ShortEscape(u).Some? then [BACKSLASH, ShortEscape(u).value]
    else if u < 0x20 || High(u) || Low(u) then
      [BACKSLASH, 0x75, HexDigit(u / 16 / 16 / 16), HexDigit(u / 16 / 16 % 16), HexDigit(u / 16 % 16), HexDigit(u % 16)]
    else [u]
  }

  /** Units taken at once: a surrogate pair stands for itself, a lone surrogate is escaped. */
  function Width(s: Text): (n: nat)
    requires s != []
    ensures 1 <= n <= |s|
  {
    if |s| >= 2 && High(s[0]) && Low(s[1]) then 2 else 1
  }

  function Head(s: Text): Text
    requires s != []
  {
    if Width(s) == 2 then s[..2] else EscapeUnit(s[0])
  }

  function Escape(s: Text): Text {
    if s == [] then [] else Head(s) + Escape(s[Width(s)..])
  }

  function Quote(s: Text): Text { [QUOTE] + Escape(s) + [QUOTE] }

  function Prepend(s: Text, r: Option<(Text, Text)>): Option<(Text, Text)> {
    if r.None? then None else Some((s + r.value.0, r.value.1))
  }

  function Hex4(t: Text): Option<Unit>
    requires |t| >= 4
  {
    var a, b, c, d := HexValue(t[0]), HexValue(t[1]), HexValue(t[2]), HexValue(t[3]);
    if a.None? || b.None? || c.None? || d.None? then None
    else Some(0x1000 * a.value + 0x100 * b.value + 16 * c.value + d.value)
  }

  /** The string up to its closing quote, and what follows. */
  function ReadString(t: Text): (r: Option<(Text, Text)>)
    ensures r.Some? ==> |r.value.1| < |t|
  {
    if t == [] || t[0] < 0x20 then None
    else if t[0] == QUOTE then Some(([], t[1..]))
    else if t[0] != BACKSLASH then Prepend([t[0]], ReadString(t[1..]))
    else if |t| < 2 then None
    else if t[1] == 0x75 then
      if |t| < 6 || Hex4(t[2..]).None? then None else Prepend([Hex4(t[2..]).value], ReadString(t[6..]))
    else if ShortUnescape(t[1]).None? then None
    else Prepend([ShortUnescape(t[1]).value], ReadString(t[2..]))
  }

  lemma HexRoundTrip(u: Unit, t: Text)
    requires |t| >= 4 && t[0] == HexDigit(u / 16 / 16 / 16) && t[1] == HexDigit(u / 16 / 16 % 16)
    requires t[2] == HexDigit(u / 16 % 16) && t[3] == HexDigit(u % 16)
    ensures Hex4(t) == Some(u)
  {
    hide HexDigit, HexValue;
    var a := u / 16;
    var b := a / 16;
    assert u == 16 * a + u % 16 && a == 16 * b + a % 16 && b == 16 * (b / 16) + b % 16;
  }

  lemma ReadEscapedUnit(u: Unit, t: Text)
    ensures ReadString(EscapeUnit(u) + t) == Prepend([u], ReadString(t))
  {
    hide Hex4, HexDigit, HexValue;
    var e := EscapeUnit(u);
    assert (e + t)[|e|..] == t;
    if ShortEscape(u).None? && (u < 0x20 || High(u) || Low(u)) {
      HexRoundTrip(u, (e + t)[2..]);
    }
  }

  lemma ReadRawUnit(u: Unit, t: Text)
    requires u >= 0x20 && u != QUOTE && u != BACKSLASH
    ensures ReadString([u] + t) == Prepend([u], ReadString(t))
  {
    assert ([u] + t)[1..] == t;
  }

  lemma ReadHead(s: Text, later: Text)
    requires s != []
    ensures ReadString(Head(s) + later) == Prepend(s[..Width(s)], ReadString(later))
  {
    hide ReadString, EscapeUnit;
    if Width(s) == 2 {
      ReadRawUnit(s[1], later);
      ReadRawUnit(s[0], [s[1]] + later);
      assert s[..2] + later == [s[0]] + ([s[1]] + later);
      PrependTwice([s[0]], [s[1]], ReadString(later));
      assert s[..2] == [s[0]] + [s[1]];
    } else {
      ReadEscapedUnit(s[0], later);
      assert s[..1] == [s[0]];
    }
  }

  lemma ReadEnd(rest: Text)
    ensures ReadString([QUOTE] + rest) == Some(([], rest))
  {
    assert ([QUOTE] + rest)[1..] == rest;
  }

  lemma PrependTwice(a: Text, b: Text, r: Option<(Text, Text)>)
    ensures Prepend(a, Prepend(b, r)) == Prepend(a + b, r)
  {
    if r.Some? { assert a + (b + r.value.0) == a + b + r.value.0; }
  }

  lemma {:induction false} ReadEscaped(s: Text, rest: Text)
    ensures ReadString(Escape(s) + ([QUOTE] + rest)) == Some((s, rest))
  {
    hide ReadString, Head;
    var tail := [QUOTE] + rest;
    if s == [] {
      ReadEnd(rest);
      assert Escape(s) + tail == tail;
    } else {
      var n := Width(s);
      ReadEscaped(s[n..], rest);
      ReadHead(s, Escape(s[n..]) + tail);
      assert Escape(s) + tail == Head(s) + (Escape(s[n..]) + tail);
      assert s == s[..n] + s[n..];
    }
  }

  // ----- numbers

  predicate DigitUnit(u: Unit) { 0x30 <= u <= 0x39 }

  function Ascii(s: string): Text
    requires AllDigits(s)
  {
    seq(|s|, i requires 0 <= i < |s| => s[i] as int)
  }

  /** Length of the run of digits at the start of a text. */
  function DigitRun(t: Text): (n: nat)
    ensures n <= |t| && forall i | 0 <= i < n :: DigitUnit(t[i])
  {
    if t == [] || !DigitUnit(t[0]) then 0 else 1 + DigitRun(t[1..])
  }

  function Digits(t: Text): (s: string)
    requires forall i | 0 <= i < |t| :: DigitUnit(t[i])
    ensures |s| == |t| && AllDigits(s) && forall i | 0 <= i < |t| :: s[i] as int == t[i]
  {
    if t == [] then "" else
      assert DigitUnit(t[0]);
      [DigitChar(t[0] - 0x30)] + Digits(t[1..])
  }

  function NumberText(n: int): Text {
    if n < 0 then [MINUS] + Ascii(Decimal(-n)) else Ascii(Decimal(n))
  }

  function ReadNat(t: Text): (r: Option<(int, Text)>)
    ensures r.Some? ==> |r.value.1| < |t|
  {
    var n := DigitRun(t);
    if n == 0 then None else Some((Value(Digits(t[..n])), t[n..]))
  }

  /** What may follow a value: anything that does not continue a number. */
  predicate Boundary(rest: Text) { rest == [] || !DigitUnit(rest[0]) }

  lemma {:induction false} DigitRunOf(digits: Text, rest: Text)
    requires Boundary(rest) && forall i | 0 <= i < |digits| :: DigitUnit(digits[i])
    ensures DigitRun(digits + rest) == |digits|
  {
    if digits == [] {
      assert digits + rest == rest;
    } else {
      assert (digits + rest)[1..] == digits[1..] + rest;
      DigitRunOf(digits[1..], rest);
    }
  }

  lemma ReadDecimal(n: nat, rest: Text)
    requires Boundary(rest)
    ensures ReadNat(Ascii(Decimal(n)) + rest) == Some((n, rest))
  {
    var digits := Ascii(Decimal(n));
    DigitRunOf(digits, rest);
    ValueOfDecimal(n);
    var t := digits + rest;
    assert t[..|digits|] == digits && t[|digits|..] == rest;
    assert Digits(digits) == Decimal(n);
  }

  // ----- printing

  function Join(parts: seq<Text>): Text {
    if parts == [] then []
    else if |parts| == 1 then parts[0]
    else parts[0] + [COMMA] + Join(parts[1..])
  }

  /** `"key":text` for each printed field. */
  function Members(entries: seq<(Text, Text)>): seq<Text> {
    if entries == [] then [] else [Quote(entries[0].0) + [COLON] + entries[0].1] + Members(entries[1..])
  }

  /** `JSON.stringify` in key order: undefined fields are dropped, undefined elsewhere prints null. */
  function Stringify(v: Json): Text
    decreases v
  {
    match v
    case Undefined => NULL
    case Null => NULL
    case Bool(b) => if b then TRUE else FALSE
    case Num(n) => NumberText(n)
    case Str(s) => Quote(s)
    case Arr(items) => [OPEN_BRACKET] + Join(StringifyItems(items)) + [CLOSE_BRACKET]
    case Obj(fields) => [OPEN_BRACE] + Join(Members(StringifyFields(fields))) + [CLOSE_BRACE]
  }

  function StringifyItems(items: seq<Json>): seq<Text>
    decreases items
  {
    if items == [] then [] else [Stringify(items[0])] + StringifyItems(items[1..])
  }

  function StringifyFields(fields: seq<Field>): seq<(Text, Text)>
    decreases fields
  {
    if fields == [] then []
    else
      var later := StringifyFields(fields[1..]);
      if fields[0].value.Undefined? then later else [(fields[0].key, Stringify(fields[0].value))] + later
  }

  /** No `undefined` at any depth. */
  predicate Defined(v: Json)
    decreases v
  {
    match v
    case Undefined => false
    case Arr(items) => forall i | 0 <= i < |items| :: Defined(items[i])
    case Obj(fields) => forall i | 0 <= i < |fields| :: Defined(fields[i].value)
    case _ => true
  }

  // ----- parsing

  function ParseValue(t: Text): (r: Option<(Json, Text)>)
    ensures r.Some? ==> |r.value.1| < |t|
    decreases |t|, 0
  {
    if t == [] then None
    else if t[0] == OPEN_BRACE then
      if |t| > 1 && t[1] == CLOSE_BRACE then Some((Obj([]), t[2..]))
      else
        var r := ParseFields(t[1..]);
        if r.None? then None else Some((Obj(r.value.0), r.value.1))
    else if t[0] == OPEN_BRACKET then
      if |t| > 1 && t[1] == CLOSE_BRACKET then Some((Arr([]), t[2..]))
      else
        var r := ParseItems(t[1..]);
        if r.None? then None else Some((Arr(r.value.0), r.value.1))
    else if t[0] == QUOTE then
      var r := ReadString(t[1..]);
      if r.None? then None else Some((Str(r.value.0), r.value.1))
    else if NULL <= t then Some((Null, t[4..]))
    else if TRUE <= t then Some((Bool(true), t[4..]))
    else if FALSE <= t then Some((Bool(false), t[5..]))
    else if t[0] == MINUS then
      var r := ReadNat(t[1..]);
      if r.None? then None else Some((Num(-r.value.0), r.value.1))
    else
      var r := ReadNat(t);
      if r.None? then None else Some((Num(r.value.0), r.value.1))
  }

  function ParseItems(t: Text): (r: Option<(seq<Json>, Text)>)
    ensures r.Some? ==> |r.value.1| < |t|
    decreases |t|, 1
  {
    var first := ParseValue(t);
    if first.None? || first.value.1 == [] then None
    else
      var v, rest := first.value.0, first.value.1;
      if rest[0] == CLOSE_BRACKET then Some(([v], rest[1..]))
      else if rest[0] != COMMA then None
      else
        var later := ParseItems(rest[1..]);
        if later.None? then None else Some(([v] + later.value.0, later.value.1))
  }

  function ParseFields(t: Text): (r: Option<(seq<Field>, Text)>)
    ensures r.Some? ==> |r.value.1| < |t|
    decreases |t|, 1
  {
    if t == [] || t[0] != QUOTE then None
    else
      var key := ReadString(t[1..]);
      if key.None? || key.value.1 == [] || key.value.1[0] != COLON then None
      else
        var first := ParseValue(key.value.1[1..]);
        if first.None? || first.value.1 == [] then None
        else
          var field, rest := Field(key.value.0, first.value.0), first.value.1;
          if rest[0] == CLOSE_BRACE then Some(([field], rest[1..]))
          else if rest[0] != COMMA then None
          else
            var later := ParseFields(rest[1..]);
            if later.None? then None else Some(([field] + later.value.0, later.value.1))
  }

  // ----- the parser recovers what was printed

  lemma FirstUnit(v: Json)
    ensures Stringify(v) != [] && Stringify(v)[0] != CLOSE_BRACKET
  {
  }

  lemma ParseStringifiedNumber(n: int, rest: Text)
    requires Boundary(rest)
    ensures ParseValue(NumberText(n) + rest) == Some((Num(n), rest))
  {
    hide Ascii, DigitRun, Value, ReadNat, ParseItems, ParseFields, ReadString;
    var t := NumberText(n) + rest;
    if n < 0 {
      assert t[1..] == Ascii(Decimal(-n)) + rest;
      ReadDecimal(-n, rest);
    } else {
      ReadDecimal(n, rest);
      AsciiDigits(Decimal(n));
    }
  }

  lemma AsciiDigits(s: string)
    requires AllDigits(s) && s != ""
    ensures |Ascii(s)| > 0 && DigitUnit(Ascii(s)[0])
  {
    assert IsDigit(s[0]);
  }

  lemma ParseQuoted(s: Text, rest: Text)
    ensures ParseValue(Quote(s) + rest) == Some((Str(s), rest))
  {
    hide ReadString, Escape;
    var t := Quote(s) + rest;
    assert t[1..] == Escape(s) + ([QUOTE] + rest);
    ReadEscaped(s, rest);
  }

  lemma ParseStringifiedWord(v: Json, rest: Text)
    requires v.Null? || v.Bool?
    ensures ParseValue(Stringify(v) + rest) == Some((v, rest))
  {
    var word := Stringify(v);
    assert word <= word + rest && (word + rest)[|word|..] == rest;
  }

  lemma {:induction false} ParseStringify(v: Json, rest: Text)
    requires Defined(v) && Boundary(rest)
    ensures ParseValue(Stringify(v) + rest) == Some((v, rest))
    decreases v, 0
  {
    hide ParseValue, ParseItems, ParseFields, Join;
    match v {
      case Null => ParseStringifiedWord(v, rest);
      case Bool(b) => ParseStringifiedWord(v, rest);
      case Num(n) => ParseStringifiedNumber(n, rest);
      case Str(s) => ParseQuoted(s, rest);
      case Arr(items) =>
        if items != [] { ParseStringifiedItems(items, rest); }
        ParseBracketed(items, rest);
      case Obj(fields) =>
        if fields != [] { ParseStringifiedFields(fields, rest); }
        ParseBraced(fields, rest);
    }
  }

  lemma ParseBracketed(items: seq<Json>, rest: Text)
    requires items != [] ==> ParseItems(Join(StringifyItems(items)) + ([CLOSE_BRACKET] + rest)) == Some((items, rest))
    ensures ParseValue(Stringify(Arr(items)) + rest) == Some((Arr(items), rest))
  {
    hide ParseItems, ParseValue, Join;
    var body := Join(StringifyItems(items)) + ([CLOSE_BRACKET] + rest);
    assert Stringify(Arr(items)) + rest == [OPEN_BRACKET] + body;
    if items == [] {
      JoinNothing();
      assert body == [CLOSE_BRACKET] + rest;
    } else {
      FirstItem(items, [CLOSE_BRACKET] + rest);
    }
    OpenBracket(body, items, rest);
  }

  lemma OpenBracket(body: Text, items: seq<Json>, rest: Text)
    requires body != []
    requires if items == [] then body == [CLOSE_BRACKET] + rest
             else body[0] != CLOSE_BRACKET && ParseItems(body) == Some((items, rest))
    ensures ParseValue([OPEN_BRACKET] + body) == Some((Arr(items), rest))
  {
    hide ParseItems, ParseFields, ReadNat, ReadString;
    var t := [OPEN_BRACKET] + body;
    assert t[1..] == body && t[2..] == body[1..];
    if items == [] { assert body[1..] == rest; }
  }

  lemma ParseBraced(fields: seq<Field>, rest: Text)
    requires fields != [] ==> Defined(fields[0].value)
    requires fields != [] ==>
      ParseFields(Join(Members(StringifyFields(fields))) + ([CLOSE_BRACE] + rest)) == Some((fields, rest))
    ensures ParseValue(Stringify(Obj(fields)) + rest) == Some((Obj(fields), rest))
  {
    hide ParseFields, ParseValue, Join, Defined;
    var body := Join(Members(StringifyFields(fields))) + ([CLOSE_BRACE] + rest);
    assert Stringify(Obj(fields)) + rest == [OPEN_BRACE] + body;
    if fields == [] {
      JoinNothing();
      assert body == [CLOSE_BRACE] + rest;
    } else {
      FirstMember(fields, [CLOSE_BRACE] + rest);
    }
    OpenBrace(body, fields, rest);
  }

  lemma OpenBrace(body: Text, fields: seq<Field>, rest: Text)
    requires body != []
    requires if fields == [] then body == [CLOSE_BRACE] + rest
             else body[0] != CLOSE_BRACE && ParseFields(body) == Some((fields, rest))
    ensures ParseValue([OPEN_BRACE] + body) == Some((Obj(fields), rest))
  {
    hide ParseItems, ParseFields, ReadNat, ReadString;
    var t := [OPEN_BRACE] + body;
    assert t[1..] == body && t[2..] == body[1..];
    if fields == [] { assert body[1..] == rest; }
  }

  lemma JoinNothing()
    ensures Join([]) == []
  {
  }

  lemma FirstItem(items: seq<Json>, rest: Text)
    requires items != []
    ensures var t := Join(StringifyItems(items)) + rest; t != [] && t[0] != CLOSE_BRACKET
  {
    FirstUnit(items[0]);
  }

  lemma FirstMember(fields: seq<Field>, rest: Text)
    requires fields != [] && Defined(fields[0].value)
    ensures var t := Join(Members(StringifyFields(fields))) + rest; t != [] && t[0] == QUOTE
  {
  }

  /** `Join` of one part and the rest, followed by an end marker. */
  function Rest(later: seq<Text>, end: Text): Text {
    if later == [] then end else [COMMA] + (Join(later) + end)
  }

  lemma JoinFirst(first: Text, later: seq<Text>, end: Text)
    ensures Join([first] + later) + end == first + Rest(later, end)
  {
    assert ([first] + later)[1..] == later;
  }

  lemma {:induction false} ParseStringifiedItems(items: seq<Json>, rest: Text)
    requires items != [] && forall i | 0 <= i < |items| :: Defined(items[i])
    ensures ParseItems(Join(StringifyItems(items)) + ([CLOSE_BRACKET] + rest)) == Some((items, rest))
    decreases items, 1
  {
    hide Join, Stringify, ParseValue;
    var end, later := [CLOSE_BRACKET] + rest, StringifyItems(items[1..]);
    JoinFirst(Stringify(items[0]), later, end);
    ParseStringify(items[0], Rest(later, end));
    assert items == [items[0]] + items[1..];
    if |items| == 1 {
      assert items == [items[0]] && later == [];
      assert end[1..] == rest;
    } else {
      assert Rest(later, end)[1..] == Join(later) + end;
      ParseStringifiedItems(items[1..], rest);
    }
  }

  lemma NotUndefined(v: Json)
    requires Defined(v)
    ensures !v.Undefined?
  {
  }

  lemma {:induction false} ParseStringifiedFields(fields: seq<Field>, rest: Text)
    requires fields != [] && forall i | 0 <= i < |fields| :: Defined(fields[i].value)
    ensures ParseFields(Join(Members(StringifyFields(fields))) + ([CLOSE_BRACE] + rest)) == Some((fields, rest))
    decreases fields, 1
  {
    hide Join, Stringify, ParseValue, Escape, ReadString, Defined;
    var key, v := fields[0].key, fields[0].value;
    var end, later := [CLOSE_BRACE] + rest, Members(StringifyFields(fields[1..]));
    var member := Quote(key) + [COLON] + Stringify(v);
    NotUndefined(v);
    assert Members(StringifyFields(fields)) == [member] + later;
    JoinFirst(member, later, end);
    var body := [COLON] + (Stringify(v) + Rest(later, end));
    var t := member + Rest(later, end);
    assert t[1..] == Escape(key) + ([QUOTE] + body);
    ReadEscaped(key, body);
    assert body[1..] == Stringify(v) + Rest(later, end);
    ParseStringify(v, Rest(later, end));
    assert fields == [fields[0]] + fields[1..];
    if |fields| == 1 {
      assert fields == [fields[0]] && later == [];
      assert end[1..] == rest;
    } else {
      NotUndefined(fields[1].value);
      assert Rest(later, end)[1..] == Join(later) + end;
      ParseStringifiedFields(fields[1..], rest);
    }
  }

  /** Printing is injective: the text determines the value, key order included. */
  lemma StringifyInjective(v: Json, w: Json)
    requires Defined(v) && Defined(w) && Stringify(v) == Stringify(w)
    ensures v == w
  {
    ParseStringify(v, []);
    ParseStringify(w, []);
    assert Stringify(v) + [] == Stringify(v);
  }
}
