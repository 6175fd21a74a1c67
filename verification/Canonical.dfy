/** Canonical report text: the worker's `canonicalJson`. */
module Canonical {
  import opened Collections
  import opened Json

  // ----- sorting by key

  /** Code-unit order, as `Array.prototype.sort` compares strings. */
  predicate Leq(a: Text, b: Text) {
    a == [] || (b != [] && (a[0] < b[0] || (a[0] == b[0] && Leq(a[1..], b[1..]))))
  }

  function Insert<T>(x: T, s: seq<T>, key: T -> Text, leq: (Text, Text) -> bool): seq<T> {
    if s == [] then [x]
    else if leq(key(x), key(s[0])) then [x] + s
    else [s[0]] + Insert(x, s[1..], key, leq)
  }

  /** A stable sort. */
  function Sort<T>(s: seq<T>, key: T -> Text, leq: (Text, Text) -> bool): seq<T> {
    if s == [] then [] else Insert(s[0], Sort(s[1..], key, leq), key, leq)
  }

  function KeyOf(f: Field): Text { f.key }

  function NameOf(p: (Text, Text)): Text { p.0 }

  function Itself(t: Text): Text { t }

  // ----- canonicalJson

  function CanonicalJson(v: Json): Text
    decreases v
  {
    match v
    case Undefined => NULL
    case Null => NULL
    case Bool(b) => if b then TRUE else FALSE
    case Num(n) => NumberText(n)
    case Str(s) => Quote(s)
    case Arr(items) => [OPEN_BRACKET] + Join(CanonicalItems(items)) + [CLOSE_BRACKET]
    case Obj(fields) => [OPEN_BRACE] + Join(Members(Sort(CanonicalFields(fields), NameOf, Leq))) + [CLOSE_BRACE]
  }

  function CanonicalItems(items: seq<Json>): seq<Text>
    decreases items
  {
    if items == [] then [] else [CanonicalJson(items[0])] + CanonicalItems(items[1..])
  }

  function CanonicalFields(fields: seq<Field>): seq<(Text, Text)>
    decreases fields
  {
    if fields == [] then []
    else
      var later := CanonicalFields(fields[1..]);
      if fields[0].value.Undefined? then later else [(fields[0].key, CanonicalJson(fields[0].value))] + later
  }

  // ----- the value whose plain text it is

  /** Keys sorted at every depth, undefined fields dropped, undefined elsewhere read as null. */
  function Normalize(v: Json): Json
    decreases v
  {
    match v
    case Undefined => Null
    case Arr(items) => Arr(NormalizeItems(items))
    case Obj(fields) => Obj(Sort(NormalizeFields(fields), KeyOf, Leq))
    case _ => v
  }

  function NormalizeItems(items: seq<Json>): (r: seq<Json>)
    ensures |r| == |items| && forall i | 0 <= i < |r| :: r[i] == Normalize(items[i])
    decreases items
  {
    if items == [] then [] else [Normalize(items[0])] + NormalizeItems(items[1..])
  }

  function NormalizeFields(fields: seq<Field>): (r: seq<Field>)
    ensures forall f | f in r :: !f.value.Undefined?
    decreases fields
  {
    if fields == [] then []
    else
      var later := NormalizeFields(fields[1..]);
      if fields[0].value.Undefined? then later else [Field(fields[0].key, Normalize(fields[0].value))] + later
  }

  lemma {:induction false} InsertElements<T>(x: T, s: seq<T>, key: T -> Text, leq: (Text, Text) -> bool)
    ensures multiset(Insert(x, s, key, leq)) == multiset(s) + multiset{x}
  {
    if s != [] && !leq(key(x), key(s[0])) {
      InsertElements(x, s[1..], key, leq);
      assert s == [s[0]] + s[1..];
    }
  }

  lemma {:induction false} SortElements<T>(s: seq<T>, key: T -> Text, leq: (Text, Text) -> bool)
    ensures multiset(Sort(s, key, leq)) == multiset(s)
  {
    if s != [] {
      SortElements(s[1..], key, leq);
      InsertElements(s[0], Sort(s[1..], key, leq), key, leq);
      assert s == [s[0]] + s[1..];
    }
  }

  lemma SameMembers<T>(s: seq<T>, t: seq<T>)
    requires multiset(s) == multiset(t)
    ensures |s| == |t| && forall x :: x in s <==> x in t
  {
    assert |multiset(s)| == |s| && |multiset(t)| == |t|;
    assert forall x :: x in s <==> x in multiset(s);
    assert forall x :: x in t <==> x in multiset(t);
  }

  lemma {:induction false} StringifyInsert(f: Field, fields: seq<Field>, leq: (Text, Text) -> bool)
    requires !f.value.Undefined? && forall g | g in fields :: !g.value.Undefined?
    ensures StringifyFields(Insert(f, fields, KeyOf, leq))
      == Insert((f.key, Stringify(f.value)), StringifyFields(fields), NameOf, leq)
  {
    hide Stringify;
    if fields == [] {
      assert [f][1..] == [];
    } else {
      assert fields[0] in fields && forall g | g in fields[1..] :: g in fields;
      var printed := StringifyFields(fields);
      assert printed == [(fields[0].key, Stringify(fields[0].value))] + StringifyFields(fields[1..]);
      assert printed[1..] == StringifyFields(fields[1..]);
      if leq(f.key, fields[0].key) {
        assert ([f] + fields)[1..] == fields;
      } else {
        StringifyInsert(f, fields[1..], leq);
        var inserted := Insert(f, fields[1..], KeyOf, leq);
        assert ([fields[0]] + inserted)[1..] == inserted;
      }
    }
  }

  lemma {:induction false} StringifySorted(fields: seq<Field>, leq: (Text, Text) -> bool)
    requires forall f | f in fields :: !f.value.Undefined?
    ensures StringifyFields(Sort(fields, KeyOf, leq)) == Sort(StringifyFields(fields), NameOf, leq)
  {
    hide Stringify;
    if fields != [] {
      var sorted, printed := Sort(fields[1..], KeyOf, leq), StringifyFields(fields);
      assert fields[0] in fields && forall g | g in fields[1..] :: g in fields;
      StringifySorted(fields[1..], leq);
      SortElements(fields[1..], KeyOf, leq);
      SameMembers(sorted, fields[1..]);
      StringifyInsert(fields[0], sorted, leq);
      assert printed[1..] == StringifyFields(fields[1..]);
    }
  }

  /** `canonicalJson` prints the normalized value. */
  lemma {:induction false} CanonicalIsNormalized(v: Json)
    ensures CanonicalJson(v) == Stringify(Normalize(v))
    decreases v, 0
  {
    match v {
      case Arr(items) => CanonicalItemsNormalized(items);
      case Obj(fields) =>
        CanonicalFieldsNormalized(fields);
        StringifySorted(NormalizeFields(fields), Leq);
      case _ =>
    }
  }

  lemma {:induction false} CanonicalItemsNormalized(items: seq<Json>)
    ensures CanonicalItems(items) == StringifyItems(NormalizeItems(items))
    decreases items, 1
  {
    if items != [] {
      CanonicalIsNormalized(items[0]);
      CanonicalItemsNormalized(items[1..]);
      assert NormalizeItems(items)[1..] == NormalizeItems(items[1..]);
    }
  }

  lemma {:induction false} CanonicalFieldsNormalized(fields: seq<Field>)
    ensures CanonicalFields(fields) == StringifyFields(NormalizeFields(fields))
    decreases fields, 1
  {
    if fields != [] {
      CanonicalFieldsNormalized(fields[1..]);
      if !fields[0].value.Undefined? {
        CanonicalIsNormalized(fields[0].value);
        assert NormalizeFields(fields)[1..] == NormalizeFields(fields[1..]);
        assert !Normalize(fields[0].value).Undefined?;
      }
    }
  }

  lemma {:induction false} NormalizedDefined(v: Json)
    ensures Defined(Normalize(v))
    decreases v, 0
  {
    match v {
      case Arr(items) =>
        forall i | 0 <= i < |items| ensures Defined(Normalize(items[i])) { NormalizedDefined(items[i]); }
      case Obj(fields) =>
        NormalizedFieldsDefined(fields);
        SortElements(NormalizeFields(fields), KeyOf, Leq);
        var sorted := Sort(NormalizeFields(fields), KeyOf, Leq);
        SameMembers(sorted, NormalizeFields(fields));
        assert forall i | 0 <= i < |sorted| :: sorted[i] in NormalizeFields(fields);
      case _ =>
    }
  }

  lemma {:induction false} NormalizedFieldsDefined(fields: seq<Field>)
    ensures forall f | f in NormalizeFields(fields) :: Defined(f.value)
    decreases fields, 1
  {
    if fields != [] {
      NormalizedFieldsDefined(fields[1..]);
      NormalizedDefined(fields[0].value);
    }
  }

  /** A parser recovers the value from the canonical text, up to the order of keys. */
  lemma CanonicalIsReadable(v: Json)
    ensures ParseValue(CanonicalJson(v)) == Some((Normalize(v), []))
  {
    CanonicalIsNormalized(v);
    NormalizedDefined(v);
    ParseStringify(Normalize(v), []);
    assert Stringify(Normalize(v)) + [] == Stringify(Normalize(v));
  }

  // ----- equal text means equal value up to key order

  lemma {:induction false} LeqTotal(a: Text, b: Text)
    ensures Leq(a, b) || Leq(b, a)
    ensures Leq(a, b) && Leq(b, a) ==> a == b
  {
    if a != [] && b != [] {
      LeqTotal(a[1..], b[1..]);
      assert a == [a[0]] + a[1..] && b == [b[0]] + b[1..];
    }
  }

  lemma {:induction false} LeqTransitive(a: Text, b: Text, c: Text)
    requires Leq(a, b) && Leq(b, c)
    ensures Leq(a, c)
  {
    if a != [] && a[0] == b[0] == c[0] { LeqTransitive(a[1..], b[1..], c[1..]); }
  }

  predicate Ordered(fields: seq<Field>) {
    forall i, j | 0 <= i < j < |fields| :: Leq(fields[i].key, fields[j].key)
  }

  predicate DistinctKeys(fields: seq<Field>) {
    forall i, j | 0 <= i < j < |fields| :: fields[i].key != fields[j].key
  }

  /** What every JavaScript value satisfies: an object's keys are distinct. */
  predicate WellFormed(v: Json)
    decreases v
  {
    match v
    case Arr(items) => forall i | 0 <= i < |items| :: WellFormed(items[i])
    case Obj(fields) => DistinctKeys(fields) && forall i | 0 <= i < |fields| :: WellFormed(fields[i].value)
    case _ => true
  }

  lemma {:induction false} InsertOrdered(f: Field, fields: seq<Field>)
    requires Ordered(fields)
    ensures Ordered(Insert(f, fields, KeyOf, Leq))
  {
    hide Leq;
    if fields != [] {
      LeqTotal(f.key, fields[0].key);
      if Leq(f.key, fields[0].key) {
        forall j | 0 <= j < |fields| ensures Leq(f.key, fields[j].key) {
          if j > 0 { LeqTransitive(f.key, fields[0].key, fields[j].key); }
        }
      } else {
        InsertOrdered(f, fields[1..]);
        var r := Insert(f, fields[1..], KeyOf, Leq);
        InsertElements(f, fields[1..], KeyOf, Leq);
        forall j | 0 <= j < |r| ensures Leq(fields[0].key, r[j].key) {
          assert r[j] in multiset(fields[1..]) + multiset{f};
          if r[j] != f {
            assert r[j] in fields[1..];
          }
        }
      }
    }
  }

  lemma {:induction false} SortOrdered(fields: seq<Field>)
    ensures Ordered(Sort(fields, KeyOf, Leq))
  {
    if fields != [] {
      SortOrdered(fields[1..]);
      InsertOrdered(fields[0], Sort(fields[1..], KeyOf, Leq));
    }
  }

  ghost predicate SameElements(s: seq<Field>, t: seq<Field>) { forall f :: f in s <==> f in t }

  lemma AnElement(s: seq<Field>) returns (f: Field)
    requires s != []
    ensures f == s[0] && f in s
  {
    f := s[0];
  }

  lemma {:induction false} OrderedUnique(s: seq<Field>, t: seq<Field>)
    requires Ordered(s) && Ordered(t) && DistinctKeys(s) && DistinctKeys(t) && SameElements(s, t)
    ensures s == t
  {
    hide Leq;
    if s == [] {
      if t != [] { var f := AnElement(t); }
    } else {
      assert s[0] in t;
      var f := AnElement(t);
      var j :| 0 <= j < |t| && t[j] == s[0];
      var i :| 0 <= i < |s| && s[i] == t[0];
      LeqTotal(s[0].key, t[0].key);
      assert i == 0;
      assert SameElements(s[1..], t[1..]) by {
        forall f ensures f in s[1..] <==> f in t[1..] {
          assert f in s <==> f == s[0] || f in s[1..];
          assert f in t <==> f == t[0] || f in t[1..];
        }
      }
      OrderedUnique(s[1..], t[1..]);
      assert s == [s[0]] + s[1..] && t == [t[0]] + t[1..];
    }
  }

  lemma PermutedDistinct(s: seq<Field>, t: seq<Field>)
    requires multiset(s) == multiset(t) && DistinctKeys(s)
    ensures DistinctKeys(t)
  {
    SameMembers(s, t);
    forall i, j | 0 <= i < j < |t| ensures t[i].key != t[j].key {
      if t[i].key == t[j].key {
        assert t[i] in s && t[j] in s && t[i] == t[j];
        var others := t[..i] + t[i + 1..];
        assert others[j - 1] == t[j];
        MultisetRemove(t, i);
        assert multiset(t)[t[j]] >= 2;
        SingleOccurrence(s, t[j]);
      }
    }
  }

  lemma {:induction false} SingleOccurrence(s: seq<Field>, f: Field)
    requires DistinctKeys(s)
    ensures multiset(s)[f] <= 1
  {
    if s != [] {
      SingleOccurrence(s[1..], f);
      assert s == [s[0]] + s[1..];
    }
  }

  lemma SortIsCanonical(s: seq<Field>, t: seq<Field>)
    requires DistinctKeys(s) && DistinctKeys(t)
    ensures SameElements(s, t) <==> Sort(s, KeyOf, Leq) == Sort(t, KeyOf, Leq)
  {
    var u, v := Sort(s, KeyOf, Leq), Sort(t, KeyOf, Leq);
    SortElements(s, KeyOf, Leq);
    SortElements(t, KeyOf, Leq);
    SameMembers(u, s);
    SameMembers(v, t);
    if SameElements(s, t) {
      SortOrdered(s);
      SortOrdered(t);
      PermutedDistinct(s, u);
      PermutedDistinct(t, v);
      OrderedUnique(u, v);
    }
  }

  /** The same value up to the order of keys, at every depth. */
  ghost predicate SameValue(v: Json, w: Json)
    decreases v
  {
    match v
    case Arr(items) =>
      w.Arr? && |items| == |w.items| && forall i | 0 <= i < |items| :: SameValue(items[i], w.items[i])
    case Obj(fields) => w.Obj? && SameFields(fields, w.fields)
    case _ => v == w
  }

  /** Each field of either object has its counterpart in the other. */
  ghost predicate SameFields(f: seq<Field>, g: seq<Field>)
    decreases f, 1
  {
    Covered(f, g) && Covers(f, g)
  }

  ghost predicate Covered(f: seq<Field>, g: seq<Field>)
    decreases f, 0
  {
    forall i | 0 <= i < |f| :: exists j :: 0 <= j < |g| && SameField(f[i], g[j])
  }

  ghost predicate Covers(f: seq<Field>, g: seq<Field>)
    decreases f, 0
  {
    forall j | 0 <= j < |g| :: exists i :: 0 <= i < |f| && SameField(f[i], g[j])
  }

  ghost predicate SameField(f: Field, g: Field)
    decreases f
  {
    f.key == g.key && SameValue(f.value, g.value)
  }

  lemma {:induction false} NormalizedFieldAt(fields: seq<Field>)
    requires forall i | 0 <= i < |fields| :: Defined(fields[i].value)
    ensures var r := NormalizeFields(fields);
      |r| == |fields| && forall i | 0 <= i < |r| :: r[i] == Field(fields[i].key, Normalize(fields[i].value))
  {
    if fields != [] {
      NotUndefined(fields[0].value);
      NormalizedFieldAt(fields[1..]);
    }
  }

  lemma {:induction false} SameValueNormalizes(v: Json, w: Json)
    requires Defined(v) && Defined(w) && WellFormed(v) && WellFormed(w)
    ensures SameValue(v, w) <==> Normalize(v) == Normalize(w)
    decreases v
  {
    hide Sort, NormalizeFields, Covered, Covers;
    if v.Arr? && w.Arr? {
      if |v.items| == |w.items| {
        forall i | 0 <= i < |v.items| { SameValueNormalizes(v.items[i], w.items[i]); }
        if SameValue(v, w) {
          assert NormalizeItems(v.items) == NormalizeItems(w.items);
        }
      }
    } else if v.Obj? && w.Obj? {
      var f, g := v.fields, w.fields;
      var nf, ng := NormalizeFields(f), NormalizeFields(g);
      NormalizedFieldAt(f);
      NormalizedFieldAt(g);
      forall i, j | 0 <= i < |f| && 0 <= j < |g| ensures SameField(f[i], g[j]) <==> nf[i] == ng[j] {
        SameValueNormalizes(f[i].value, g[j].value);
      }
      MatchingFields(f, g, nf, ng);
      DistinctCarries(f, nf);
      DistinctCarries(g, ng);
      SortIsCanonical(nf, ng);
    }
  }

  lemma DistinctCarries(f: seq<Field>, g: seq<Field>)
    requires |f| == |g| && DistinctKeys(f) && forall i | 0 <= i < |f| :: f[i].key == g[i].key
    ensures DistinctKeys(g)
  {
  }

  ghost predicate Matches(f: seq<Field>, g: seq<Field>, nf: seq<Field>, ng: seq<Field>) {
    && |f| == |nf| && |g| == |ng|
    && forall i, j | 0 <= i < |f| && 0 <= j < |g| :: SameField(f[i], g[j]) <==> nf[i] == ng[j]
  }

  lemma CoveredElements(f: seq<Field>, g: seq<Field>, nf: seq<Field>, ng: seq<Field>)
    requires Matches(f, g, nf, ng)
    ensures Covered(f, g) <==> forall x | x in nf :: x in ng
  {
    hide SameField;
    if Covered(f, g) {
      forall i | 0 <= i < |nf| ensures nf[i] in ng {
        var field := f[i];
        var j :| 0 <= j < |g| && SameField(field, g[j]);
      }
    }
    if forall x | x in nf :: x in ng {
      forall i | 0 <= i < |f| ensures exists j :: 0 <= j < |g| && SameField(f[i], g[j]) {
        assert nf[i] in ng;
        var j :| 0 <= j < |ng| && ng[j] == nf[i];
        assert SameField(f[i], g[j]);
      }
    }
  }

  lemma CoveringElements(f: seq<Field>, g: seq<Field>, nf: seq<Field>, ng: seq<Field>)
    requires Matches(f, g, nf, ng)
    ensures Covers(f, g) <==> forall x | x in ng :: x in nf
  {
    hide SameField;
    if Covers(f, g) {
      forall j | 0 <= j < |ng| ensures ng[j] in nf {
        var field := g[j];
        var i :| 0 <= i < |f| && SameField(f[i], field);
      }
    }
    if forall x | x in ng :: x in nf {
      forall j | 0 <= j < |g| ensures exists i :: 0 <= i < |f| && SameField(f[i], g[j]) {
        assert ng[j] in nf;
        var i :| 0 <= i < |nf| && nf[i] == ng[j];
        assert SameField(f[i], g[j]);
      }
    }
  }

  lemma MatchingFields(f: seq<Field>, g: seq<Field>, nf: seq<Field>, ng: seq<Field>)
    requires Matches(f, g, nf, ng)
    ensures SameElements(nf, ng) <==> SameFields(f, g)
  {
    hide Covered, Covers, Matches;
    CoveredElements(f, g, nf, ng);
    CoveringElements(f, g, nf, ng);
  }

  /** Two reports have the same hash input exactly when they are the same value up to key order. */
  lemma CanonicalIdentifies(v: Json, w: Json)
    requires Defined(v) && Defined(w) && WellFormed(v) && WellFormed(w)
    ensures CanonicalJson(v) == CanonicalJson(w) <==> SameValue(v, w)
  {
    hide Normalize, CanonicalJson, SameValue;
    SameValueNormalizes(v, w);
    CanonicalIsReadable(v);
    CanonicalIsReadable(w);
    CanonicalIsNormalized(v);
    CanonicalIsNormalized(w);
  }

  // ----- a fixpoint

  lemma {:induction false} NormalizeTwice(v: Json)
    requires WellFormed(v)
    ensures Normalize(Normalize(v)) == Normalize(v)
    decreases v, 0
  {
    match v {
      case Arr(items) =>
        forall i | 0 <= i < |items| ensures Normalize(Normalize(items[i])) == Normalize(items[i]) {
          NormalizeTwice(items[i]);
        }
        assert NormalizeItems(NormalizeItems(items)) == NormalizeItems(items);
      case Obj(fields) =>
        NormalizeFieldsTwice(fields);
        var once := NormalizeFields(fields);
        var sorted := Sort(once, KeyOf, Leq);
        SortElements(once, KeyOf, Leq);
        SameMembers(sorted, once);
        NormalFieldsStay(sorted);
        SortOrdered(once);
        SortOrdered(sorted);
        SortElements(sorted, KeyOf, Leq);
        PermutedDistinct(once, sorted);
        PermutedDistinct(sorted, Sort(sorted, KeyOf, Leq));
        SameMembers(Sort(sorted, KeyOf, Leq), sorted);
        OrderedUnique(Sort(sorted, KeyOf, Leq), sorted);
      case _ =>
    }
  }

  lemma {:induction false} NormalizeFieldsTwice(fields: seq<Field>)
    requires DistinctKeys(fields) && forall i | 0 <= i < |fields| :: WellFormed(fields[i].value)
    ensures DistinctKeys(NormalizeFields(fields))
    ensures forall f | f in NormalizeFields(fields) :: Normalize(f.value) == f.value
    decreases fields, 1
  {
    hide Normalize, WellFormed;
    if fields != [] {
      NormalizeFieldsTwice(fields[1..]);
      NormalizeTwice(fields[0].value);
      KeyStaysAbsent(fields[1..], fields[0].key);
    }
  }

  lemma {:induction false} KeyStaysAbsent(fields: seq<Field>, key: Text)
    requires forall i | 0 <= i < |fields| :: fields[i].key != key
    ensures forall i | 0 <= i < |NormalizeFields(fields)| :: NormalizeFields(fields)[i].key != key
  {
    hide Normalize;
    if fields != [] { KeyStaysAbsent(fields[1..], key); }
  }

  lemma {:induction false} NormalFieldsStay(fields: seq<Field>)
    requires forall i | 0 <= i < |fields| ::
      Normalize(fields[i].value) == fields[i].value && !fields[i].value.Undefined?
    ensures NormalizeFields(fields) == fields
  {
    hide Normalize;
    if fields != [] {
      NormalFieldsStay(fields[1..]);
      assert NormalizeFields(fields) == [fields[0]] + fields[1..];
    }
  }

  /** Serializing what the parser reads back gives the same text. */
  lemma CanonicalIsFixpoint(v: Json)
    requires WellFormed(v)
    ensures ParseValue(CanonicalJson(v)).Some?
    ensures CanonicalJson(ParseValue(CanonicalJson(v)).value.0) == CanonicalJson(v)
  {
    CanonicalIsReadable(v);
    NormalizeTwice(v);
    CanonicalIsNormalized(v);
    CanonicalIsNormalized(Normalize(v));
  }
}
