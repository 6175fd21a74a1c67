/**
 * `canonicalizeRiskReport`: the second serializer, which sorts with a locale comparison and rebuilds
 * the object, so that JavaScript's own key order applies; and when it agrees with `canonicalJson`.
 */
module StableReport {
  import opened Decimals
  import opened Json
  import opened Canonical

  type Comparison = (Text, Text) -> bool

  /** An array index, which JavaScript objects list before every other key. */
  predicate IsIndex(t: Text) {
    && t != [] && (forall i | 0 <= i < |t| :: DigitUnit(t[i]))
    && (t[0] != 0x30 || |t| == 1)
    && Value(Digits(t)) < 0xFFFF_FFFF
  }

  /** Numeric order of numerals without leading zeros. */
  predicate NumericLeq(a: Text, b: Text) { |a| < |b| || (|a| == |b| && Leq(a, b)) }

  function Only<T>(s: seq<T>, key: T -> Text, index: bool): seq<T> {
    if s == [] then []
    else (if IsIndex(key(s[0])) == index then [s[0]] else []) + Only(s[1..], key, index)
  }

  /** Own-property order of an object built from these entries. */
  function JsOrder<T>(s: seq<T>, key: T -> Text): seq<T> {
    Sort(Only(s, key, true), key, NumericLeq) + Only(s, key, false)
  }

  function Stable(v: Json, locale: Comparison): Json
    decreases v
  {
    match v
    case Arr(items) => Arr(StableItems(items, locale))
    case Obj(fields) => Obj(JsOrder(Sort(StableFields(fields, locale), KeyOf, locale), KeyOf))
    case _ => v
  }

  function StableItems(items: seq<Json>, locale: Comparison): (r: seq<Json>)
    ensures |r| == |items| && forall i | 0 <= i < |r| :: r[i] == Stable(items[i], locale)
    decreases items
  {
    if items == [] then [] else [Stable(items[0], locale)] + StableItems(items[1..], locale)
  }

  function StableFields(fields: seq<Field>, locale: Comparison): (r: seq<Field>)
    ensures |r| == |fields|
    ensures forall i | 0 <= i < |r| :: r[i] == Field(fields[i].key, Stable(fields[i].value, locale))
    decreases fields
  {
    if fields == [] then []
    else [Field(fields[0].key, Stable(fields[0].value, locale))] + StableFields(fields[1..], locale)
  }

  function CanonicalizeRiskReport(v: Json, locale: Comparison): Text { Stringify(Stable(v, locale)) }

  // ----- sorting fields sorts their keys

  function KeysOf(fields: seq<Field>): (r: seq<Text>)
    ensures |r| == |fields| && forall i | 0 <= i < |r| :: r[i] == fields[i].key
  {
    if fields == [] then [] else [fields[0].key] + KeysOf(fields[1..])
  }

  lemma {:induction false} KeysInsert(f: Field, fields: seq<Field>, leq: Comparison)
    ensures KeysOf(Insert(f, fields, KeyOf, leq)) == Insert(f.key, KeysOf(fields), Itself, leq)
  {
    if fields != [] && !leq(f.key, fields[0].key) {
      KeysInsert(f, fields[1..], leq);
      assert KeysOf(fields)[1..] == KeysOf(fields[1..]);
    }
  }

  lemma {:induction false} KeysSort(fields: seq<Field>, leq: Comparison)
    ensures KeysOf(Sort(fields, KeyOf, leq)) == Sort(KeysOf(fields), Itself, leq)
  {
    if fields != [] {
      KeysSort(fields[1..], leq);
      KeysInsert(fields[0], Sort(fields[1..], KeyOf, leq), leq);
      assert KeysOf(fields)[1..] == KeysOf(fields[1..]);
    }
  }

  lemma {:induction false} KeysOnly(fields: seq<Field>, index: bool)
    ensures KeysOf(Only(fields, KeyOf, index)) == Only(KeysOf(fields), Itself, index)
  {
    hide IsIndex;
    if fields != [] {
      KeysOnly(fields[1..], index);
      assert KeysOf(fields)[1..] == KeysOf(fields[1..]);
    }
  }

  lemma KeysAppend(a: seq<Field>, b: seq<Field>)
    ensures KeysOf(a + b) == KeysOf(a) + KeysOf(b)
  {
  }

  lemma KeysJsOrder(fields: seq<Field>)
    ensures KeysOf(JsOrder(fields, KeyOf)) == JsOrder(KeysOf(fields), Itself)
  {
    hide Only, Sort, KeysOf;
    KeysAppend(Sort(Only(fields, KeyOf, true), KeyOf, NumericLeq), Only(fields, KeyOf, false));
    KeysOnly(fields, true);
    KeysOnly(fields, false);
    KeysSort(Only(fields, KeyOf, true), NumericLeq);
  }

  lemma {:induction false} OnlySplits<T>(s: seq<T>, key: T -> Text)
    ensures multiset(Only(s, key, true)) + multiset(Only(s, key, false)) == multiset(s)
  {
    hide IsIndex;
    if s != [] {
      OnlySplits(s[1..], key);
      assert s == [s[0]] + s[1..];
    }
  }

  lemma JsOrderElements<T>(s: seq<T>, key: T -> Text)
    ensures multiset(JsOrder(s, key)) == multiset(s)
  {
    OnlySplits(s, key);
    SortElements(Only(s, key, true), key, NumericLeq);
  }

  /** The order in which `stable` lists an object's keys. */
  function OwnOrder(keys: seq<Text>, locale: Comparison): seq<Text> {
    JsOrder(Sort(keys, Itself, locale), Itself)
  }

  /** At every object, the locale's key order as JavaScript keeps it is the code-unit order. */
  predicate KeyOrdersAgree(v: Json, locale: Comparison)
    decreases v
  {
    match v
    case Arr(items) => forall i | 0 <= i < |items| :: KeyOrdersAgree(items[i], locale)
    case Obj(fields) =>
      && OwnOrder(KeysOf(fields), locale) == Sort(KeysOf(fields), Itself, Leq)
      && forall i | 0 <= i < |fields| :: KeyOrdersAgree(fields[i].value, locale)
    case _ => true
  }

  lemma SameKeySequence(s: seq<Field>, t: seq<Field>)
    requires KeysOf(s) == KeysOf(t) && DistinctKeys(s) && SameElements(s, t)
    ensures s == t
  {
    assert |KeysOf(s)| == |s| && |KeysOf(t)| == |t|;
    forall i | 0 <= i < |s| ensures s[i] == t[i] {
      assert s[i] in t;
      var j :| 0 <= j < |t| && t[j] == s[i];
      assert KeysOf(s)[j] == KeysOf(t)[j] && KeysOf(s)[i] == s[i].key;
      assert s[j].key == s[i].key;
    }
  }

  lemma ReorderedFields(nf: seq<Field>, sf: seq<Field>, locale: Comparison)
    requires DistinctKeys(nf) && DistinctKeys(sf) && KeysOf(nf) == KeysOf(sf)
    ensures var a, b := Sort(nf, KeyOf, Leq), JsOrder(Sort(sf, KeyOf, locale), KeyOf);
      a == b <==> nf == sf && OwnOrder(KeysOf(sf), locale) == Sort(KeysOf(sf), Itself, Leq)
  {
    hide Sort, JsOrder, KeysOf, Leq;
    var a, b := Sort(nf, KeyOf, Leq), JsOrder(Sort(sf, KeyOf, locale), KeyOf);
    SortElements(nf, KeyOf, Leq);
    SortElements(sf, KeyOf, locale);
    JsOrderElements(Sort(sf, KeyOf, locale), KeyOf);
    SameMembers(a, nf);
    SameMembers(b, sf);
    KeysSort(nf, Leq);
    KeysSort(sf, locale);
    KeysJsOrder(Sort(sf, KeyOf, locale));
    PermutedDistinct(nf, a);
    if a == b {
      SameKeySequence(nf, sf);
    }
    if nf == sf && OwnOrder(KeysOf(sf), locale) == Sort(KeysOf(sf), Itself, Leq) {
      SameKeySequence(a, b);
    }
  }

  lemma {:induction false} AgreesNormalized(v: Json, locale: Comparison)
    requires Defined(v) && WellFormed(v)
    ensures Normalize(v) == Stable(v, locale) <==> KeyOrdersAgree(v, locale)
    decreases v
  {
    hide Sort, JsOrder, NormalizeFields, OwnOrder;
    match v {
      case Arr(items) =>
        forall i | 0 <= i < |items| ensures
          Normalize(items[i]) == Stable(items[i], locale) <==> KeyOrdersAgree(items[i], locale)
        {
          AgreesNormalized(items[i], locale);
        }
        AgreeingItems(items, locale);
      case Obj(fields) =>
        forall i | 0 <= i < |fields| ensures
          Normalize(fields[i].value) == Stable(fields[i].value, locale) <==> KeyOrdersAgree(fields[i].value, locale)
        {
          AgreesNormalized(fields[i].value, locale);
        }
        var nf, sf := NormalizeFields(fields), StableFields(fields, locale);
        NormalizedFieldAt(fields);
        assert KeysOf(nf) == KeysOf(sf) == KeysOf(fields);
        DistinctCarries(fields, nf);
        DistinctCarries(fields, sf);
        ReorderedFields(nf, sf, locale);
        assert nf == sf <==> forall i | 0 <= i < |fields| :: nf[i] == sf[i];
      case _ =>
    }
  }

  lemma AgreeingItems(items: seq<Json>, locale: Comparison)
    ensures NormalizeItems(items) == StableItems(items, locale)
      <==> forall i | 0 <= i < |items| :: Normalize(items[i]) == Stable(items[i], locale)
  {
    var n, s := NormalizeItems(items), StableItems(items, locale);
    assert n == s <==> forall i | 0 <= i < |items| :: n[i] == s[i];
  }

  lemma {:induction false} StableDefined(v: Json, locale: Comparison)
    requires Defined(v)
    ensures Defined(Stable(v, locale))
    decreases v
  {
    hide Sort, JsOrder;
    match v {
      case Arr(items) =>
        forall i | 0 <= i < |items| ensures Defined(Stable(items[i], locale)) { StableDefined(items[i], locale); }
      case Obj(fields) =>
        forall i | 0 <= i < |fields| ensures Defined(Stable(fields[i].value, locale)) {
          StableDefined(fields[i].value, locale);
        }
        var sf := StableFields(fields, locale);
        var sorted := Sort(sf, KeyOf, locale);
        var final := JsOrder(sorted, KeyOf);
        SortElements(sf, KeyOf, locale);
        JsOrderElements(sorted, KeyOf);
        SameMembers(final, sf);
        assert forall i | 0 <= i < |final| :: final[i] in sf;
      case _ =>
    }
  }

  /** The two serializers give one hash input for a report exactly when its key orders agree. */
  lemma SerializersAgree(v: Json, locale: Comparison)
    requires Defined(v) && WellFormed(v)
    ensures CanonicalJson(v) == CanonicalizeRiskReport(v, locale) <==> KeyOrdersAgree(v, locale)
  {
    hide Normalize, Stable, Stringify, CanonicalJson, KeyOrdersAgree;
    CanonicalIsNormalized(v);
    NormalizedDefined(v);
    StableDefined(v, locale);
    AgreesNormalized(v, locale);
    if Stringify(Normalize(v)) == Stringify(Stable(v, locale)) {
      StringifyInjective(Normalize(v), Stable(v, locale));
    }
  }

  // ----- the usual case

  /** No key is an array index and the locale orders an object's keys as code units do. */
  predicate PlainKeys(v: Json, locale: Comparison)
    decreases v
  {
    match v
    case Arr(items) => forall i | 0 <= i < |items| :: PlainKeys(items[i], locale)
    case Obj(fields) =>
      && (forall f | f in fields :: !IsIndex(f.key))
      && (forall f, g | f in fields && g in fields :: locale(f.key, g.key) == Leq(f.key, g.key))
      && forall i | 0 <= i < |fields| :: PlainKeys(fields[i].value, locale)
    case _ => true
  }

  lemma {:induction false} InsertAlike(t: Text, keys: seq<Text>, locale: Comparison)
    requires forall k | k in keys :: locale(t, k) == Leq(t, k)
    ensures Insert(t, keys, Itself, locale) == Insert(t, keys, Itself, Leq)
  {
    hide Leq;
    if keys != [] {
      assert keys[0] in keys && forall k | k in keys[1..] :: k in keys;
      InsertAlike(t, keys[1..], locale);
    }
  }

  lemma {:induction false} SortAlike(keys: seq<Text>, locale: Comparison)
    requires forall a, b | a in keys && b in keys :: locale(a, b) == Leq(a, b)
    ensures Sort(keys, Itself, locale) == Sort(keys, Itself, Leq)
  {
    hide Leq;
    if keys != [] {
      assert keys[0] in keys && forall k | k in keys[1..] :: k in keys;
      SortAlike(keys[1..], locale);
      SortElements(keys[1..], Itself, Leq);
      SameMembers(Sort(keys[1..], Itself, Leq), keys[1..]);
      InsertAlike(keys[0], Sort(keys[1..], Itself, Leq), locale);
    }
  }

  lemma {:induction false} NoIndices(keys: seq<Text>)
    requires forall i | 0 <= i < |keys| :: !IsIndex(keys[i])
    ensures Only(keys, Itself, true) == [] && Only(keys, Itself, false) == keys
  {
    hide IsIndex;
    if keys != [] {
      NoIndices(keys[1..]);
      assert keys == [keys[0]] + keys[1..];
    }
  }

  lemma {:induction false} PlainKeysAgree(v: Json, locale: Comparison)
    requires PlainKeys(v, locale)
    ensures KeyOrdersAgree(v, locale)
    decreases v
  {
    hide IsIndex, Leq, Sort;
    match v {
      case Arr(items) => forall i | 0 <= i < |items| { PlainKeysAgree(items[i], locale); }
      case Obj(fields) =>
        forall i | 0 <= i < |fields| { PlainKeysAgree(fields[i].value, locale); }
        var keys := KeysOf(fields);
        forall k | k in keys ensures exists f :: f in fields && f.key == k {
          var i :| 0 <= i < |keys| && keys[i] == k;
          assert fields[i] in fields;
        }
        SortAlike(keys, locale);
        var sorted := Sort(keys, Itself, locale);
        SortElements(keys, Itself, locale);
        SameMembers(sorted, keys);
        forall i | 0 <= i < |sorted| ensures !IsIndex(sorted[i]) { assert sorted[i] in keys; }
        NoIndices(sorted);
        SortNothing();
      case _ =>
    }
  }

  lemma SortNothing()
    ensures Sort<Text>([], Itself, NumericLeq) == []
  {
  }

  const NINE: Text := [0x39]
  const TEN: Text := [0x31, 0x30]

  /** Numeric keys break the agreement whatever the locale: code units put "10" before "9". */
  lemma NumericKeysDisagree(locale: Comparison)
    ensures !KeyOrdersAgree(Obj([Field(NINE, Null), Field(TEN, Null)]), locale)
  {
    hide Only, Sort, IsIndex;
    var keys := [NINE, TEN];
    KeysOfTwo(NINE, TEN);
    IndexSamples();
    SortTwo(NINE, TEN, locale);
    SortTwo(NINE, TEN, Leq);
    SortTwo(NINE, TEN, NumericLeq);
    SortTwo(TEN, NINE, NumericLeq);
    OnlyIndices(NINE, TEN);
    OnlyIndices(TEN, NINE);
    assert !Leq(NINE, TEN);
    assert OwnOrder(keys, locale) == [NINE, TEN];
  }

  lemma KeysOfTwo(a: Text, b: Text)
    ensures KeysOf([Field(a, Null), Field(b, Null)]) == [a, b]
  {
  }

  lemma SortTwo(a: Text, b: Text, leq: Comparison)
    ensures Sort([a, b], Itself, leq) == if leq(a, b) then [a, b] else [b, a]
  {
    assert [a, b][1..] == [b] && [b][1..] == [];
    assert Sort([b], Itself, leq) == [b];
    assert Insert(a, [b][1..], Itself, leq) == [a];
  }

  lemma IndexSamples()
    ensures IsIndex(NINE) && IsIndex(TEN)
  {
    assert Digits(NINE) == "9" && Digits(TEN) == "10";
    assert "9"[..0] == "" && "10"[..1] == "1" && "1"[..0] == "";
  }

  lemma OnlyIndices(a: Text, b: Text)
    requires IsIndex(a) && IsIndex(b)
    ensures Only([a, b], Itself, true) == [a, b] && Only([a, b], Itself, false) == []
  {
    hide IsIndex;
    assert [a, b][1..] == [b] && [b][1..] == [];
    assert Only([b], Itself, true) == [b] && Only([b], Itself, false) == [];
  }

  // ----- the order itself

  /** An index is the decimal form of a number below 2^32 - 1. */
  lemma IndexExactly(t: Text)
    ensures IsIndex(t) <==> exists n: nat :: n < 4_294_967_295 && t == Ascii(Decimal(n))
  {
    if IsIndex(t) {
      var s := Digits(t);
      DecimalOfValue(s);
      assert t == Ascii(Decimal(Value(s)));
    }
    if exists n: nat :: n < 4_294_967_295 && t == Ascii(Decimal(n)) {
      var n: nat :| n < 4_294_967_295 && t == Ascii(Decimal(n));
      DecimalIsNumeral(n);
      ValueOfDecimal(n);
      AsciiUnits(Decimal(n));
      assert Digits(t) == Decimal(n);
    }
  }

  lemma AsciiUnits(s: string)
    requires AllDigits(s)
    ensures forall i | 0 <= i < |s| :: DigitUnit(Ascii(s)[i])
  {
    assert forall i | 0 <= i < |s| :: IsDigit(s[i]);
  }

  lemma {:induction false} LeqLast(a: Text, x: Unit, b: Text, y: Unit)
    requires |a| == |b|
    ensures Leq(a + [x], b + [y]) <==> (Leq(a, b) && a != b) || (a == b && x <= y)
  {
    if a == [] {
      assert a + [x] == [x] && b + [y] == [y];
    } else {
      LeqLast(a[1..], x, b[1..], y);
      assert (a + [x])[1..] == a[1..] + [x] && (b + [y])[1..] == b[1..] + [y];
      assert a == [a[0]] + a[1..] && b == [b[0]] + b[1..];
    }
  }

  lemma {:induction false} LongerIsLarger(m: nat, n: nat)
    requires m <= n
    ensures |Decimal(m)| <= |Decimal(n)|
  {
    if m >= 10 { LongerIsLarger(m / 10, n / 10); }
  }

  lemma AsciiLast(s: string, c: char)
    requires AllDigits(s) && IsDigit(c)
    ensures AllDigits(s + [c]) && Ascii(s + [c]) == Ascii(s) + [c as int] && |Ascii(s)| == |s|
  {
  }

  lemma OneDigit(m: nat, n: nat)
    requires m < 10 && |Decimal(n)| == 1
    ensures n < 10 && (Leq(Ascii(Decimal(m)), Ascii(Decimal(n))) <==> m <= n)
  {
    var a, b := Ascii(Decimal(m)), Ascii(Decimal(n));
    assert n < 10 && |a| == |b| == 1 && a[1..] == [];
  }

  lemma {:induction false} SameLengthOrder(m: nat, n: nat)
    requires |Decimal(m)| == |Decimal(n)|
    ensures Leq(Ascii(Decimal(m)), Ascii(Decimal(n))) <==> m <= n
  {
    hide Leq, Ascii;
    if m < 10 {
      OneDigit(m, n);
    } else {
      var a, b := Decimal(m / 10), Decimal(n / 10);
      SameLengthOrder(m / 10, n / 10);
      ValueOfDecimal(m / 10);
      ValueOfDecimal(n / 10);
      if Ascii(a) == Ascii(b) { SameAscii(a, b); }
      var x, y := DigitChar(m % 10), DigitChar(n % 10);
      AsciiLast(a, x);
      AsciiLast(b, y);
      LeqLast(Ascii(a), x as int, Ascii(b), y as int);
    }
  }

  lemma SameAscii(a: string, b: string)
    requires AllDigits(a) && AllDigits(b) && Ascii(a) == Ascii(b)
    ensures a == b
  {
    forall i | 0 <= i < |a| ensures a[i] == b[i] { assert Ascii(a)[i] == Ascii(b)[i]; }
  }

  /** Indices are compared as numbers. */
  lemma NumericLeqExactly(m: nat, n: nat)
    ensures NumericLeq(Ascii(Decimal(m)), Ascii(Decimal(n))) <==> m <= n
  {
    if m <= n { LongerIsLarger(m, n); } else { LongerIsLarger(n, m); }
    if |Decimal(m)| == |Decimal(n)| { SameLengthOrder(m, n); }
  }

  ghost predicate TotalOrder(leq: Comparison) {
    && (forall a, b :: leq(a, b) || leq(b, a))
    && forall a, b, c :: leq(a, b) && leq(b, c) ==> leq(a, c)
  }

  predicate SortedBy(s: seq<Text>, leq: Comparison) { forall i, j | 0 <= i < j < |s| :: leq(s[i], s[j]) }

  lemma {:induction false} InsertSorted(t: Text, s: seq<Text>, leq: Comparison)
    requires TotalOrder(leq) && SortedBy(s, leq)
    ensures SortedBy(Insert(t, s, Itself, leq), leq)
  {
    if s != [] {
      if leq(t, s[0]) {
        forall j | 0 <= j < |s| ensures leq(t, s[j]) {
          if j > 0 { assert leq(s[0], s[j]); }
        }
      } else {
        InsertSorted(t, s[1..], leq);
        InsertElements(t, s[1..], Itself, leq);
        var r := Insert(t, s[1..], Itself, leq);
        forall j | 0 <= j < |r| ensures leq(s[0], r[j]) {
          assert r[j] in multiset(s[1..]) + multiset{t};
          if r[j] != t { assert r[j] in s[1..]; }
        }
      }
    }
  }

  lemma {:induction false} SortSorts(s: seq<Text>, leq: Comparison)
    requires TotalOrder(leq)
    ensures SortedBy(Sort(s, Itself, leq), leq)
  {
    if s != [] {
      SortSorts(s[1..], leq);
      InsertSorted(s[0], Sort(s[1..], Itself, leq), leq);
    }
  }

  lemma {:induction false} OnlyKeeps(s: seq<Text>, index: bool, leq: Comparison)
    requires SortedBy(s, leq)
    ensures SortedBy(Only(s, Itself, index), leq)
    ensures forall t | t in Only(s, Itself, index) :: t in s && IsIndex(t) == index
  {
    hide IsIndex;
    if s != [] {
      OnlyKeeps(s[1..], index, leq);
      forall t | t in Only(s[1..], Itself, index) ensures leq(s[0], t) && t in s {
        var j :| 0 <= j < |s[1..]| && s[1..][j] == t;
        assert s[j + 1] == t;
      }
    }
  }

  lemma NumericIsTotal()
    ensures TotalOrder(NumericLeq)
  {
    hide Leq;
    forall a: Text, b: Text ensures NumericLeq(a, b) || NumericLeq(b, a) { LeqTotal(a, b); }
    forall a: Text, b: Text, c: Text | NumericLeq(a, b) && NumericLeq(b, c) ensures NumericLeq(a, c) {
      if |a| == |b| == |c| { LeqTransitive(a, b, c); }
    }
  }

  /** The keys of a stable object: its indices in numeric order, then the other keys in the locale's order. */
  lemma OwnOrderIs(keys: seq<Text>, locale: Comparison)
    requires TotalOrder(locale)
    ensures exists indices: seq<Text>, others: seq<Text> ::
      && OwnOrder(keys, locale) == indices + others && multiset(indices + others) == multiset(keys)
      && SortedBy(indices, NumericLeq) && SortedBy(others, locale)
      && (forall t | t in indices :: IsIndex(t)) && (forall t | t in others :: !IsIndex(t))
  {
    hide IsIndex, Only, Sort, NumericLeq;
    var sorted := Sort(keys, Itself, locale);
    SortSorts(keys, locale);
    SortElements(keys, Itself, locale);
    OnlyKeeps(sorted, true, locale);
    OnlyKeeps(sorted, false, locale);
    OnlySplits(sorted, Itself);
    var ascending := Sort(Only(sorted, Itself, true), Itself, NumericLeq);
    NumericIsTotal();
    SortSorts(Only(sorted, Itself, true), NumericLeq);
    SortElements(Only(sorted, Itself, true), Itself, NumericLeq);
    SameMembers(ascending, Only(sorted, Itself, true));
    assert multiset(ascending + Only(sorted, Itself, false)) == multiset(keys);
  }

  /** A stable object lists its keys in that order, each with its own stable value. */
  lemma StableObject(fields: seq<Field>, locale: Comparison)
    ensures KeysOf(Stable(Obj(fields), locale).fields) == OwnOrder(KeysOf(fields), locale)
    ensures multiset(Stable(Obj(fields), locale).fields) == multiset(StableFields(fields, locale))
  {
    hide Sort, JsOrder, KeysOf;
    var sf := StableFields(fields, locale);
    var sorted := Sort(sf, KeyOf, locale);
    SameKeys(fields, sf);
    KeysSort(sf, locale);
    KeysJsOrder(sorted);
    SortElements(sf, KeyOf, locale);
    JsOrderElements(sorted, KeyOf);
  }

  lemma SameKeys(s: seq<Field>, t: seq<Field>)
    requires |s| == |t| && forall i | 0 <= i < |s| :: s[i].key == t[i].key
    ensures KeysOf(s) == KeysOf(t)
  {
  }
}
