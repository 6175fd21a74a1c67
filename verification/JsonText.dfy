/**
 * The exact characters of a canonical report, spelled out: what makes it JSON text in the form of
 * section 3.2 of RFC 8785, and not merely something that can be read back.
 */
module JsonText {
  import opened Decimals
  import opened Json
  import opened Canonical

  /** A literal's code units. */
  function Units(s: string): (t: Text)
    requires forall i | 0 <= i < |s| :: s[i] < '\U{80}'
    ensures |t| == |s| && forall i | 0 <= i < |s| :: t[i] == s[i] as int
  {
    seq(|s|, i requires 0 <= i < |s| => s[i] as int)
  }

  // ----- words and numbers

  lemma WordsText()
    ensures CanonicalJson(Null) == CanonicalJson(Undefined) == Units("null")
    ensures CanonicalJson(Bool(true)) == Units("true") && CanonicalJson(Bool(false)) == Units("false")
  {
  }

  /** Numerals are decimal, most significant digit first, without leading zeros. */
  lemma {:induction false} DecimalText(n: nat, d: nat)
    requires d < 10
    ensures Decimal(d) == ["0123456789"[d]]
    ensures n > 0 ==> Decimal(10 * n + d) == Decimal(n) + ["0123456789"[d]]
  {
    assert (10 * n + d) / 10 == n && (10 * n + d) % 10 == d;
  }

  lemma NumbersText(n: nat)
    ensures forall i | 0 <= i < |Decimal(n)| :: Decimal(n)[i] < '\U{80}'
    ensures CanonicalJson(Num(n)) == Units(Decimal(n))
    ensures n > 0 ==> CanonicalJson(Num(-(n as int))) == Units("-") + Units(Decimal(n))
  {
    assert forall i | 0 <= i < |Decimal(n)| :: IsDigit(Decimal(n)[i]);
  }

  // ----- strings

  lemma StringsText(s: Text)
    ensures CanonicalJson(Str(s)) == Units("\"") + Escape(s) + Units("\"")
  {
  }

  function HexUnit(d: nat): Unit
    requires d < 16
  {
    "0123456789abcdef"[d] as int
  }

  lemma HexDigitText(d: nat)
    requires d < 16
    ensures HexDigit(d) == HexUnit(d)
  {
  }

  predicate Surrogate(u: int) { 0xD800 <= u <= 0xDFFF }

  lemma EscapeStep(u: Unit, s: Text)
    requires !(High(u) && s != [] && Low(s[0]))
    ensures Escape([u] + s) == EscapeUnit(u) + Escape(s)
  {
    assert ([u] + s)[1..] == s;
  }

  /** Letters, digits and all other printable characters stand for themselves, and so does a surrogate pair. */
  lemma PlainText(u: Unit, v: Unit, s: Text)
    ensures Escape([]) == []
    ensures u >= 0x20 && u != '\"' as int && u != '\\' as int && !Surrogate(u) ==> Escape([u] + s) == [u] + Escape(s)
    ensures 0xD800 <= u <= 0xDBFF && 0xDC00 <= v <= 0xDFFF ==> Escape([u, v] + s) == [u, v] + Escape(s)
  {
    if 0xD800 <= u <= 0xDBFF && 0xDC00 <= v <= 0xDFFF {
      assert ([u, v] + s)[2..] == s && ([u, v] + s)[..2] == [u, v];
    } else if u >= 0x20 && !Surrogate(u) {
      EscapeStep(u, s);
    }
  }

  /** Quotes, backslashes and five control characters have two-character escapes. */
  lemma ShortEscapesText(s: Text)
    ensures Escape(Units("\"") + s) == Units("\\\"") + Escape(s)
    ensures Escape(Units("\\") + s) == Units("\\\\") + Escape(s)
    ensures Escape([0x08] + s) == Units("\\b") + Escape(s)
    ensures Escape([0x09] + s) == Units("\\t") + Escape(s)
    ensures Escape([0x0A] + s) == Units("\\n") + Escape(s)
    ensures Escape([0x0C] + s) == Units("\\f") + Escape(s)
    ensures Escape([0x0D] + s) == Units("\\r") + Escape(s)
  {
    hide Escape;
    assert Units("\"") == [0x22] && Units("\\") == [0x5C];
    EscapeStep(0x22, s);
    EscapeStep(0x5C, s);
    EscapeStep(0x08, s);
    EscapeStep(0x09, s);
    EscapeStep(0x0A, s);
    EscapeStep(0x0C, s);
    EscapeStep(0x0D, s);
  }

  /** Other control characters and lone surrogates are four lower-case hex digits after `\u`. */
  lemma LongEscapesText(u: Unit, s: Text)
    requires Surrogate(u) || (u < 0x20 && u !in {0x08, 0x09, 0x0A, 0x0C, 0x0D})
    requires !(0xD800 <= u <= 0xDBFF && s != [] && 0xDC00 <= s[0] <= 0xDFFF)
    ensures Escape([u] + s) == Units("\\u")
      + [HexUnit(u / 0x1000), HexUnit(u / 0x100 % 16), HexUnit(u / 16 % 16), HexUnit(u % 16)] + Escape(s)
  {
    hide Escape, HexDigit, HexUnit;
    EscapeStep(u, s);
    NestedQuotients(u);
    HexDigitText(u / 0x1000);
    HexDigitText(u / 0x100 % 16);
    HexDigitText(u / 16 % 16);
    HexDigitText(u % 16);
  }

  lemma NestedQuotients(u: Unit)
    ensures u / 16 / 16 == u / 0x100 && u / 16 / 16 / 16 == u / 0x1000 < 16
  {
  }

  // ----- arrays and objects

  /** Items between brackets, with commas: no item, one item, and one item before others. */
  lemma ArraysText(x: Json, y: Json, rest: seq<Json>)
    ensures CanonicalJson(Arr([])) == Units("[]")
    ensures CanonicalJson(Arr([x])) == Units("[") + CanonicalJson(x) + Units("]")
    ensures CanonicalJson(Arr([x, y] + rest))
      == Units("[") + CanonicalJson(x) + Units(",") + CanonicalJson(Arr([y] + rest))[1..]
  {
    hide CanonicalJson;
    ArrayText([]);
    ArrayText([x]);
    ArrayText([y] + rest);
    ArrayText([x, y] + rest);
    assert [x][1..] == [] && ([x, y] + rest)[1..] == [y] + rest && ([y] + rest)[1..] == rest;
    JoinText(CanonicalJson(x), CanonicalItems([y] + rest));
  }

  lemma ArrayText(items: seq<Json>)
    ensures CanonicalJson(Arr(items)) == Units("[") + Join(CanonicalItems(items)) + Units("]")
  {
  }

  /** A member: quoted key, colon, value. */
  function MemberText(f: Field): Text { Units("\"") + Escape(f.key) + Units("\":") + Stringify(f.value) }

  lemma ObjectText(fields: seq<Field>)
    ensures Stringify(Obj(fields)) == Units("{") + Join(Members(StringifyFields(fields))) + Units("}")
  {
  }

  lemma FirstMemberText(f: Field, later: seq<Field>)
    requires !f.value.Undefined?
    ensures Members(StringifyFields([f] + later)) == [MemberText(f)] + Members(StringifyFields(later))
  {
    hide Stringify, Escape;
    assert ([f] + later)[1..] == later;
    var entries := StringifyFields([f] + later);
    assert entries == [(f.key, Stringify(f.value))] + StringifyFields(later);
    assert entries[1..] == StringifyFields(later);
    assert Quote(f.key) + [COLON] + Stringify(f.value) == MemberText(f);
  }

  /** Members between braces, with commas: no member, one member, and one member before others. */
  lemma ObjectsText(f: Field, g: Field, rest: seq<Field>)
    requires !f.value.Undefined? && !g.value.Undefined?
    ensures Stringify(Obj([])) == Units("{}")
    ensures Stringify(Obj([f])) == Units("{") + MemberText(f) + Units("}")
    ensures Stringify(Obj([f, g] + rest)) == Units("{") + MemberText(f) + Units(",") + Stringify(Obj([g] + rest))[1..]
  {
    hide Stringify, MemberText, Join, Members, StringifyFields;
    var later := Members(StringifyFields(rest));
    ObjectText([]);
    ObjectText([f]);
    ObjectText([g] + rest);
    ObjectText([f, g] + rest);
    assert [f] == [f] + [] && [f, g] + rest == [f] + ([g] + rest);
    FirstMemberText(f, []);
    FirstMemberText(g, rest);
    FirstMemberText(f, [g] + rest);
    JoinText(MemberText(f), [MemberText(g)] + later);
    NoMembers();
    assert [MemberText(f)] + [] == [MemberText(f)];
  }

  lemma NoMembers()
    ensures Members(StringifyFields([])) == [] && Join([]) == []
  {
  }

  lemma JoinText(first: Text, later: seq<Text>)
    ensures Join([]) == [] && Join([first]) == first
    ensures later != [] ==> Join([first] + later) == first + [0x2C] + Join(later)
  {
    assert ([first] + later)[1..] == later;
  }

  /** An undefined member is left out. */
  lemma UndefinedText(f: Field, rest: seq<Field>)
    requires f.value.Undefined?
    ensures Stringify(Obj([f] + rest)) == Stringify(Obj(rest))
  {
    ObjectText(rest);
    ObjectText([f] + rest);
    assert ([f] + rest)[1..] == rest;
  }

  // ----- the order of keys (section 3.2.3 of RFC 8785)

  predicate PrecedesAt(a: Text, b: Text, n: nat) {
    n <= |a| && n <= |b| && a[..n] == b[..n] && (n == |a| || (n < |b| && a[n] < b[n]))
  }

  /** The first key is a prefix of the second, or has the smaller unit where they first differ. */
  ghost predicate Precedes(a: Text, b: Text) { exists n: nat :: PrecedesAt(a, b, n) }

  lemma {:induction false} LeqPrecedes(a: Text, b: Text)
    requires Leq(a, b)
    ensures exists n: nat :: PrecedesAt(a, b, n)
  {
    if a == [] || a[0] < b[0] {
      assert PrecedesAt(a, b, 0);
    } else {
      LeqPrecedes(a[1..], b[1..]);
      var n: nat :| PrecedesAt(a[1..], b[1..], n);
      assert a[..n + 1] == [a[0]] + a[1..][..n] && b[..n + 1] == [b[0]] + b[1..][..n];
      assert PrecedesAt(a, b, n + 1);
    }
  }

  lemma {:induction false} PrecedesLeq(a: Text, b: Text, n: nat)
    requires PrecedesAt(a, b, n)
    ensures Leq(a, b)
  {
    if n > 0 {
      assert a[0] == a[..n][0] == b[..n][0] == b[0];
      assert a[1..][..n - 1] == a[..n][1..] && b[1..][..n - 1] == b[..n][1..];
      PrecedesLeq(a[1..], b[1..], n - 1);
    }
  }

  /** Keys are compared by their code units. */
  lemma LeqIsPrecedes(a: Text, b: Text)
    ensures Leq(a, b) <==> Precedes(a, b)
  {
    hide Leq, PrecedesAt;
    if Leq(a, b) { LeqPrecedes(a, b); }
    if n: nat :| PrecedesAt(a, b, n) { PrecedesLeq(a, b, n); }
  }

  /** An object prints as one whose defined members stand in that order, each value canonical itself. */
  lemma SortedText(fields: seq<Field>)
    ensures exists gs: seq<Field> ::
      && CanonicalJson(Obj(fields)) == Stringify(Obj(gs))
      && multiset(gs) == multiset(NormalizeFields(fields))
      && forall i, j | 0 <= i < j < |gs| :: Precedes(gs[i].key, gs[j].key)
  {
    hide Leq, Sort, NormalizeFields, Stringify;
    CanonicalIsNormalized(Obj(fields));
    var gs := Sort(NormalizeFields(fields), KeyOf, Leq);
    SortElements(NormalizeFields(fields), KeyOf, Leq);
    SortOrdered(NormalizeFields(fields));
    forall i, j | 0 <= i < j < |gs| ensures Precedes(gs[i].key, gs[j].key) {
      LeqIsPrecedes(gs[i].key, gs[j].key);
    }
    assert CanonicalJson(Obj(fields)) == Stringify(Obj(gs));
  }

  /** The members it prints are the defined ones. */
  lemma {:induction false} MembersKept(fields: seq<Field>)
    ensures forall i | 0 <= i < |fields| && !fields[i].value.Undefined? ::
      exists g | g in NormalizeFields(fields) ::
        g.key == fields[i].key && Stringify(g.value) == CanonicalJson(fields[i].value)
  {
    hide Normalize, Stringify, CanonicalJson;
    if fields != [] {
      MembersKept(fields[1..]);
      var later := NormalizeFields(fields[1..]);
      assert forall g | g in later :: g in NormalizeFields(fields);
      CanonicalIsNormalized(fields[0].value);
      if !fields[0].value.Undefined? {
        assert Field(fields[0].key, Normalize(fields[0].value)) in NormalizeFields(fields);
      }
      forall i | 0 <= i < |fields| && !fields[i].value.Undefined?
        ensures exists g | g in NormalizeFields(fields) ::
          g.key == fields[i].key && Stringify(g.value) == CanonicalJson(fields[i].value)
      {
        if i > 0 { assert fields[i] == fields[1..][i - 1]; }
      }
    }
  }
}
