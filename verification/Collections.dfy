/** Sums, minima and insertion-ordered tallies over sequences, and why order does not matter to them. */
module Collections {
  datatype Option<+T> = None | Some(value: T)

  function Sum<T>(f: T -> int, s: seq<T>): int {
    if s == [] then 0 else Sum(f, s[..|s| - 1]) + f(s[|s| - 1])
  }

  lemma {:induction false} SumAppend<T>(f: T -> int, a: seq<T>, b: seq<T>)
    ensures Sum(f, a + b) == Sum(f, a) + Sum(f, b)
  {
    if b == [] {
      assert a + b == a;
    } else {
      assert (a + b)[..|a + b| - 1] == a + b[..|b| - 1];
      SumAppend(f, a, b[..|b| - 1]);
    }
  }

  lemma SumSingleton<T>(f: T -> int, x: T)
    ensures Sum(f, [x]) == f(x)
  {
    assert [x][..0] == [];
  }

  lemma SumStep<T>(f: T -> int, s: seq<T>, i: nat)
    requires i < |s|
    ensures Sum(f, s[..i + 1]) == Sum(f, s[..i]) + f(s[i])
  {
    assert s[..i + 1][..i] == s[..i];
  }

  lemma SumRemove<T>(f: T -> int, s: seq<T>, i: nat)
    requires i < |s|
    ensures Sum(f, s) == Sum(f, s[..i] + s[i + 1..]) + f(s[i])
  {
    hide Sum;
    SumStep(f, s, i);
    SumAppend(f, s[..i], s[i + 1..]);
    SumAppend(f, s[..i + 1], s[i + 1..]);
    assert s[..i + 1] + s[i + 1..] == s;
  }

  lemma MultisetRemove<T>(s: seq<T>, i: nat)
    requires i < |s|
    ensures multiset(s[..i] + s[i + 1..]) == multiset(s) - multiset{s[i]}
  {
    assert s == s[..i] + [s[i]] + s[i + 1..];
  }

  lemma {:induction false} SumPermutation<T>(f: T -> int, a: seq<T>, b: seq<T>)
    requires multiset(a) == multiset(b)
    ensures Sum(f, a) == Sum(f, b)
  {
    if a == [] {
      assert |multiset(b)| == 0;
    } else {
      var last := |a| - 1;
      SumRemove(f, a, last);
      MultisetRemove(a, last);
      assert a[last] in multiset(b);
      var i :| 0 <= i < |b| && b[i] == a[last];
      SumRemove(f, b, i);
      MultisetRemove(b, i);
      SumPermutation(f, a[..last] + a[last + 1..], b[..i] + b[i + 1..]);
    }
  }

  lemma {:induction false} SumNonNegative<T>(f: T -> int, s: seq<T>)
    requires forall x | x in s :: f(x) >= 0
    ensures Sum(f, s) >= 0
  {
    if s != [] { SumNonNegative(f, s[..|s| - 1]); }
  }

  lemma {:induction false} SumMonotone<T>(f: T -> int, g: T -> int, s: seq<T>)
    requires forall x | x in s :: f(x) <= g(x)
    ensures Sum(f, s) <= Sum(g, s)
  {
    if s != [] { SumMonotone(f, g, s[..|s| - 1]); }
  }

  // ----- minima of optional measurements

  function Least(a: Option<int>, b: Option<int>): Option<int> {
    if a.None? then b
    else if b.None? then a
    else if b.value < a.value then b else a
  }

  function MinOver<T>(f: T -> Option<int>, s: seq<T>): Option<int> {
    if s == [] then None else Least(MinOver(f, s[..|s| - 1]), f(s[|s| - 1]))
  }

  lemma {:induction false} MinOverSpec<T>(f: T -> Option<int>, s: seq<T>)
    ensures MinOver(f, s).None? <==> forall x | x in s :: f(x).None?
    ensures MinOver(f, s).Some? ==> exists x :: x in s && f(x) == MinOver(f, s)
    ensures MinOver(f, s).Some? ==> forall x | x in s && f(x).Some? :: MinOver(f, s).value <= f(x).value
  {
    if s != [] {
      var s', last := s[..|s| - 1], s[|s| - 1];
      assert s == s' + [last];
      MinOverSpec(f, s');
      if MinOver(f, s) == f(last) {
        assert last in s;
      }
    }
  }

  /** Giving a measurement to an element that had none. */
  lemma {:induction false} MinOverUpdate<T>(f: T -> Option<int>, s: seq<T>, i: nat, x: T)
    requires i < |s| && f(s[i]).None?
    ensures MinOver(f, s[i := x]) == Least(MinOver(f, s), f(x))
  {
    var n := |s| - 1;
    if i < n {
      MinOverUpdate(f, s[..n], i, x);
      assert s[i := x][..n] == s[..n][i := x];
    } else {
      assert s[i := x][..n] == s[..n];
    }
  }

  lemma MinOverPermutation<T>(f: T -> Option<int>, a: seq<T>, b: seq<T>)
    requires multiset(a) == multiset(b)
    ensures MinOver(f, a) == MinOver(f, b)
  {
    MinOverSpec(f, a);
    MinOverSpec(f, b);
    assert forall x :: x in a <==> x in multiset(a);
    assert forall x :: x in b <==> x in multiset(b);
  }

  // ----- tallies: a JavaScript Map from keys to running totals, in insertion order

  type Tally = seq<(string, int)>

  function Get(t: Tally, key: string): int {
    if t == [] then 0 else if t[|t| - 1].0 == key then t[|t| - 1].1 else Get(t[..|t| - 1], key)
  }

  /** `map.set(key, (map.get(key) ?? 0) + v)`. */
  function Add(t: Tally, key: string, v: int): Tally {
    if t == [] then [(key, v)]
    else if t[|t| - 1].0 == key then t[..|t| - 1] + [(key, t[|t| - 1].1 + v)]
    else Add(t[..|t| - 1], key, v) + [t[|t| - 1]]
  }

  function Total(t: Tally): int {
    if t == [] then 0 else Total(t[..|t| - 1]) + t[|t| - 1].1
  }

  function Keys(t: Tally): set<string> {
    set e | e in t :: e.0
  }

  predicate Distinct(t: Tally) {
    forall i, j | 0 <= i < j < |t| :: t[i].0 != t[j].0
  }

  lemma {:induction false} AddTotals(t: Tally, key: string, v: int)
    ensures Total(Add(t, key, v)) == Total(t) + v
    ensures forall k :: Get(Add(t, key, v), k) == Get(t, k) + (if k == key then v else 0)
  {
    var r := Add(t, key, v);
    if t == [] {
      assert r[..0] == [];
    } else if t[|t| - 1].0 == key {
      assert r[..|r| - 1] == t[..|t| - 1];
    } else {
      assert r[..|r| - 1] == Add(t[..|t| - 1], key, v);
      AddTotals(t[..|t| - 1], key, v);
    }
  }

  lemma {:induction false} AddKeys(t: Tally, key: string, v: int)
    ensures forall k :: k in Keys(Add(t, key, v)) <==> k in Keys(t) || k == key
  {
    if t != [] {
      var t', last := t[..|t| - 1], t[|t| - 1];
      AddKeys(t', key, v);
      KeysAppend(t', last);
      KeysAppend(t', (key, last.1 + v));
      KeysAppend(Add(t', key, v), last);
      assert t == t' + [last];
    } else {
      KeysAppend([], (key, v));
      assert [] + [(key, v)] == [(key, v)];
    }
  }

  lemma KeysAppend(t: Tally, e: (string, int))
    ensures forall k :: k in Keys(t + [e]) <==> k in Keys(t) || k == e.0
  {
    assert forall x :: x in t + [e] <==> x in t || x == e;
    forall k | k in Keys(t) || k == e.0 ensures k in Keys(t + [e]) {
      if k == e.0 {
        assert e in t + [e];
      } else {
        var x :| x in t && x.0 == k;
        assert x in t + [e];
      }
    }
  }

  lemma {:induction false} AddDistinct(t: Tally, key: string, v: int)
    requires Distinct(t)
    ensures Distinct(Add(t, key, v))
  {
    if t != [] && t[|t| - 1].0 != key {
      var t', last := t[..|t| - 1], t[|t| - 1];
      AddDistinct(t', key, v);
      AddKeys(t', key, v);
      var r' := Add(t', key, v);
      forall i | 0 <= i < |r'| ensures r'[i].0 != last.0 {
        assert r'[i].0 in Keys(r');
      }
    }
  }

  function MaxValue(t: Tally): int {
    if t == [] then 0
    else var m := MaxValue(t[..|t| - 1]); if m >= t[|t| - 1].1 then m else t[|t| - 1].1
  }

  lemma {:induction false} GetMember(t: Tally, e: (string, int))
    requires Distinct(t) && e in t
    ensures Get(t, e.0) == e.1
  {
    var t', last := t[..|t| - 1], t[|t| - 1];
    assert t == t' + [last];
    if last != e { GetMember(t', e); }
  }

  lemma {:induction false} MaxValueSpec(t: Tally)
    requires Distinct(t)
    ensures MaxValue(t) >= 0
    ensures MaxValue(t) == 0 || exists k :: Get(t, k) == MaxValue(t)
    ensures forall e | e in t :: e.1 <= MaxValue(t)
    ensures (forall e | e in t :: e.1 >= 0) ==> MaxValue(t) <= Total(t)
  {
    if t != [] {
      var t', last := t[..|t| - 1], t[|t| - 1];
      assert t == t' + [last];
      MaxValueSpec(t');
      TotalNonNegative(t');
      if MaxValue(t) == last.1 {
        assert Get(t, last.0) == MaxValue(t);
      } else if MaxValue(t') != 0 {
        var k :| Get(t', k) == MaxValue(t');
        if k == last.0 {
          assert k !in Keys(t');
          GetAbsent(t', k);
        }
        assert Get(t, k) == MaxValue(t);
      }
    }
  }

  lemma {:induction false} TotalNonNegative(t: Tally)
    ensures (forall e | e in t :: e.1 >= 0) ==> Total(t) >= 0
  {
    if t != [] { TotalNonNegative(t[..|t| - 1]); }
  }

  lemma {:induction false} GetAbsent(t: Tally, key: string)
    requires key !in Keys(t)
    ensures Get(t, key) == 0
  {
    if t != [] {
      var t' := t[..|t| - 1];
      assert t[|t| - 1] in t && forall e | e in t' :: e in t;
      GetAbsent(t', key);
    }
  }

  /** The largest running total depends only on what the tally maps each key to. */
  lemma MaxValueUnique(s: Tally, t: Tally)
    requires Distinct(s) && Distinct(t)
    requires forall k :: Get(s, k) == Get(t, k)
    ensures MaxValue(s) <= MaxValue(t)
  {
    MaxValueSpec(s);
    MaxValueSpec(t);
    if MaxValue(s) > 0 {
      var k :| Get(s, k) == MaxValue(s);
      if k in Keys(t) {
        var e :| e in t && e.0 == k;
        GetMember(t, e);
      } else {
        GetAbsent(t, k);
      }
    }
  }
}
