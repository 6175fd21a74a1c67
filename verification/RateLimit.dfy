/** The Redis-backed fixed-window limiter, shared by every replica (rate-limit.guard.ts). */
module RateLimit {
  import opened Collections
  import opened Rounding

  datatype Options = Options(limit: nat, windowSeconds: nat)

  /** One caller on one route, in one window. */
  datatype Key = Key(caller: nat, bucket: nat)

  datatype Counter = Counter(count: nat, expiresAt: Option<nat>)

  function WindowMs(o: Options): nat { 1000 * o.windowSeconds }

  function BucketAt(o: Options, ms: nat): nat
    requires o.windowSeconds > 0
  {
    Quotient(ms, WindowMs(o));
    ms / WindowMs(o)
  }

  predicate IsLive(c: Counter, now: nat) { c.expiresAt.None? || now < c.expiresAt.value }

  function Incremented(store: map<Key, Counter>, key: Key, now: nat): map<Key, Counter> {
    if key in store && IsLive(store[key], now) then store[key := store[key].(count := store[key].count + 1)]
    else store[key := Counter(1, None)]
  }

  function Expiring(store: map<Key, Counter>, key: Key, now: nat, ttlMs: nat): map<Key, Counter> {
    if key in store && IsLive(store[key], now) then store[key := store[key].(expiresAt := Some(now + ttlMs))] else store
  }

  class Redis {
    var counters: map<Key, Counter>

    constructor ()
      ensures counters == map[]
    {
      counters := map[];
    }

    method Incr(key: Key, now: nat) returns (used: nat)
      modifies this
      ensures counters == Incremented(old(counters), key, now) && used == counters[key].count
    {
      if key in counters && IsLive(counters[key], now) {
        counters := counters[key := counters[key].(count := counters[key].count + 1)];
      } else {
        counters := counters[key := Counter(1, None)];
      }
      used := counters[key].count;
    }

    method Expire(key: Key, now: nat, ttlMs: nat)
      modifies this
      ensures counters == Expiring(old(counters), key, now, ttlMs)
    {
      if key in counters && IsLive(counters[key], now) {
        counters := counters[key := counters[key].(expiresAt := Some(now + ttlMs))];
      }
    }

    /**
     * `canActivate` up to its verdict; the caller still owes the EXPIRE when `first`. It admits when INCR
     * fails (`!reachable`), and when the EXPIRE it would owe fails (`!expires`).
     */
    method CanActivate(o: Options, caller: nat, readAt: nat, now: nat, reachable: bool, expires: bool)
      returns (admitted: bool, first: bool)
      requires o.windowSeconds > 0
      modifies this
      ensures !reachable ==> admitted && !first && counters == old(counters)
      ensures reachable ==>
        && counters == Incremented(old(counters), Key(caller, BucketAt(o, readAt)), now)
        && var used := counters[Key(caller, BucketAt(o, readAt))].count;
           && first == (used == 1 && expires)
           && admitted == (used <= o.limit || (used == 1 && !expires))
    {
      if !reachable { return true, false; }
      var used := Incr(Key(caller, BucketAt(o, readAt)), now);
      if used == 1 && !expires { return true, false; }
      first := used == 1;
      admitted := !(used > o.limit);
    }
  }

  // ----- traces: replicas interleave between reading the clock, INCR and EXPIRE

  datatype Event =
    | Hit(caller: nat, readAt: nat, at: nat)
    | SetExpiry(key: Key, at: nat)

  datatype Entry = Entry(key: Key, readAt: nat, admitted: bool)

  datatype State = State(store: map<Key, Counter>, owed: set<Key>, now: nat, log: seq<Entry>)

  function Step(o: Options, s: State, e: Event): State
    requires o.windowSeconds > 0
  {
    match e
    case Hit(caller, readAt, at) =>
      var key := Key(caller, BucketAt(o, readAt));
      var store := Incremented(s.store, key, at);
      State(store, if store[key].count == 1 then s.owed + {key} else s.owed, at,
            s.log + [Entry(key, readAt, store[key].count <= o.limit)])
    case SetExpiry(key, at) =>
      if key !in s.owed then s.(now := at)
      else s.(store := Expiring(s.store, key, at, WindowMs(o)), owed := s.owed - {key}, now := at)
  }

  function Run(o: Options, events: seq<Event>): State
    requires o.windowSeconds > 0
  {
    if events == [] then State(map[], {}, 0, []) else Step(o, Run(o, events[..|events| - 1]), events[|events| - 1])
  }

  function HitOn(key: Key): Entry -> int { (e: Entry) => if e.key == key then 1 else 0 }

  function AdmittedOn(key: Key): Entry -> int { (e: Entry) => if e.key == key && e.admitted then 1 else 0 }

  lemma BucketBounds(o: Options, ms: nat)
    requires o.windowSeconds > 0
    ensures BucketAt(o, ms) * WindowMs(o) <= ms < (BucketAt(o, ms) + 1) * WindowMs(o)
  {
    Quotient(ms, WindowMs(o));
    var b := BucketAt(o, ms);
    assert (b + 1) * WindowMs(o) == b * WindowMs(o) + WindowMs(o);
  }

  lemma LogGrows(f: Entry -> int, log: seq<Entry>, e: Entry)
    ensures Sum(f, log + [e]) == Sum(f, log) + f(e)
  {
    assert (log + [e])[..|log|] == log;
  }

  /** The event is a hit on the key that finds the key's counter expired. */
  predicate Restarts(o: Options, s: State, e: Event, key: Key)
    requires o.windowSeconds > 0
  {
    e.Hit? && Key(e.caller, BucketAt(o, e.readAt)) == key && key in s.store && !IsLive(s.store[key], e.at)
  }

  /** No hit on the key finds its counter expired. */
  predicate NoRestart(o: Options, events: seq<Event>, key: Key)
    requires o.windowSeconds > 0
  {
    events == [] ||
    var before, e := events[..|events| - 1], events[|events| - 1];
    NoRestart(o, before, key) && !Restarts(o, Run(o, before), e, key)
  }

  /** What a key's counter and verdicts say of its hits, as long as it was never restarted and after it was. */
  ghost predicate Counting(o: Options, s: State, key: Key, unbroken: bool) {
    var hits, admitted := Sum(HitOn(key), s.log), Sum(AdmittedOn(key), s.log);
    && 0 <= admitted <= hits
    && (key in s.store <==> hits > 0)
    && (key in s.store && unbroken ==> s.store[key].count == hits)
    && (unbroken ==> admitted == Min(hits, o.limit))
    && (!unbroken ==>
          key in s.store && 0 < s.store[key].count < hits && (o.limit > 0 ==> admitted >= Min(hits, o.limit + 1)))
    && (o.limit == 0 ==> admitted == 0)
  }

  lemma StepKeepsCounting(o: Options, s: State, e: Event, key: Key, unbroken: bool)
    requires o.windowSeconds > 0 && Counting(o, s, key, unbroken)
    ensures Counting(o, Step(o, s, e), key, unbroken && !Restarts(o, s, e, key))
  {
    hide Sum, BucketAt;
    if e.Hit? {
      var entry := Step(o, s, e).log[|s.log|];
      LogGrows(HitOn(key), s.log, entry);
      LogGrows(AdmittedOn(key), s.log, entry);
    }
  }

  lemma {:induction false} EveryKeyCounts(o: Options, events: seq<Event>, key: Key)
    requires o.windowSeconds > 0
    ensures Counting(o, Run(o, events), key, NoRestart(o, events, key))
  {
    hide Counting, Restarts;
    if events == [] {
      StartCounting(o, key);
    } else {
      var before := events[..|events| - 1];
      EveryKeyCounts(o, before, key);
      StepKeepsCounting(o, Run(o, before), events[|events| - 1], key, NoRestart(o, before, key));
    }
  }

  lemma StartCounting(o: Options, key: Key)
    ensures Counting(o, State(map[], {}, 0, []), key, true)
  {
  }

  /** No hit on the key finds its counter expired, or all its hits are within the limit, or the limit is 0. */
  predicate NoHarmfulRestart(o: Options, events: seq<Event>, key: Key)
    requires o.windowSeconds > 0
  {
    NoRestart(o, events, key) || Sum(HitOn(key), Run(o, events).log) <= o.limit || o.limit == 0
  }

  /** For any interleaving of replicas and any clocks, a window keeps to the limit exactly without a harmful restart. */
  lemma WindowAdmitsExactly(o: Options, events: seq<Event>, key: Key)
    requires o.windowSeconds > 0
    ensures Sum(AdmittedOn(key), Run(o, events).log) <= o.limit <==> NoHarmfulRestart(o, events, key)
  {
    EveryKeyCounts(o, events, key);
  }

  /** Without a restart, a window admits the first `limit` of a caller's requests and no more. */
  lemma WindowAdmitsTheLimit(o: Options, events: seq<Event>, key: Key)
    requires o.windowSeconds > 0 && NoRestart(o, events, key)
    ensures var log := Run(o, events).log;
      Sum(AdmittedOn(key), log) == Min(Sum(HitOn(key), log), o.limit) <= o.limit
  {
    EveryKeyCounts(o, events, key);
  }

  // ----- when counters cannot be restarted

  /** One clock, and every INCR reaches Redis within the window whose clock reading it carries. */
  ghost predicate Timely(o: Options, events: seq<Event>)
    requires o.windowSeconds > 0
  {
    events == [] ||
    var before, e := events[..|events| - 1], events[|events| - 1];
    && Timely(o, before) && e.at >= Run(o, before).now
    && (e.Hit? ==> e.readAt <= e.at && BucketAt(o, e.readAt) == BucketAt(o, e.at))
  }

  function BucketEnd(o: Options, key: Key): nat { (key.bucket + 1) * WindowMs(o) }

  /** A key exists only from its window's start on, so it does not expire before its window's end. */
  ghost predicate OutlastsWindow(o: Options, s: State, key: Key) {
    key in s.store ==>
      && s.now >= key.bucket * WindowMs(o)
      && (s.store[key].expiresAt.Some? ==> s.store[key].expiresAt.value >= BucketEnd(o, key))
  }

  lemma StepOutlasts(o: Options, s: State, e: Event, key: Key)
    requires o.windowSeconds > 0 && OutlastsWindow(o, s, key) && s.now <= e.at
    requires e.Hit? ==> e.readAt <= e.at && BucketAt(o, e.readAt) == BucketAt(o, e.at)
    ensures OutlastsWindow(o, Step(o, s, e), key) && !Restarts(o, s, e, key)
  {
    hide BucketAt;
    BucketBounds(o, e.at);
    assert BucketEnd(o, key) == key.bucket * WindowMs(o) + WindowMs(o);
  }

  /** The TTL then never resets a live window: timely requests restart no counter. */
  lemma {:induction false} TimelyNeverRestarts(o: Options, events: seq<Event>, key: Key)
    requires o.windowSeconds > 0 && Timely(o, events)
    ensures NoRestart(o, events, key) && OutlastsWindow(o, Run(o, events), key)
  {
    hide BucketAt, Restarts;
    if events != [] {
      TimelyNeverRestarts(o, events[..|events| - 1], key);
      StepOutlasts(o, Run(o, events[..|events| - 1]), events[|events| - 1], key);
    }
  }

  // ----- intervals

  function AdmittedWithin(caller: nat, first: int, last: int): Entry -> int {
    (e: Entry) => if e.key.caller == caller && first <= e.key.bucket <= last && e.admitted then 1 else 0
  }

  /** Admitted requests of a caller whose clock reading falls in an interval. */
  function AdmittedDuring(caller: nat, from: nat, until: nat): Entry -> int {
    (e: Entry) => if e.key.caller == caller && from <= e.readAt < until && e.admitted then 1 else 0
  }

  lemma {:induction false} SumsSplit(f: Entry -> int, g: Entry -> int, h: Entry -> int, log: seq<Entry>)
    requires forall e :: f(e) == g(e) + h(e)
    ensures Sum(f, log) == Sum(g, log) + Sum(h, log)
  {
    if log != [] { SumsSplit(f, g, h, log[..|log| - 1]); }
  }

  ghost predicate CallerNeverHarmed(o: Options, events: seq<Event>, caller: nat)
    requires o.windowSeconds > 0
  {
    forall bucket: nat :: NoHarmfulRestart(o, events, Key(caller, bucket))
  }

  lemma {:induction false} WindowsAdd(o: Options, events: seq<Event>, caller: nat, first: nat, count: nat)
    requires o.windowSeconds > 0 && CallerNeverHarmed(o, events, caller) && count > 0
    ensures Sum(AdmittedWithin(caller, first, first + count - 1), Run(o, events).log) <= count * o.limit
  {
    hide Run, NoHarmfulRestart, Sum;
    var log := Run(o, events).log;
    var last := first + count - 1;
    WindowAdmitsExactly(o, events, Key(caller, last));
    SumsSplit(AdmittedWithin(caller, first, last), AdmittedWithin(caller, first, last - 1),
               AdmittedOn(Key(caller, last)), log);
    if count == 1 {
      SumsSplit(AdmittedWithin(caller, first, last - 1), Nothing, Nothing, log);
      SumsSplit(Nothing, Nothing, Nothing, log);
    } else {
      WindowsAdd(o, events, caller, first, count - 1);
      assert count * o.limit == (count - 1) * o.limit + o.limit;
    }
  }

  function Nothing(e: Entry): int { 0 }

  lemma {:induction false} LogKeepsBuckets(o: Options, events: seq<Event>)
    requires o.windowSeconds > 0
    ensures forall e | e in Run(o, events).log :: e.key.bucket == BucketAt(o, e.readAt)
  {
    hide BucketAt;
    if events != [] { LogKeepsBuckets(o, events[..|events| - 1]); }
  }

  /** Any stretch of k windows, wherever it starts, admits at most (k + 1) times the limit. */
  lemma IntervalAdmits(o: Options, events: seq<Event>, caller: nat, from: nat, k: nat)
    requires o.windowSeconds > 0 && CallerNeverHarmed(o, events, caller)
    ensures Sum(AdmittedDuring(caller, from, from + k * WindowMs(o)), Run(o, events).log) <= (k + 1) * o.limit
  {
    hide Run, CallerNeverHarmed, Sum, BucketAt;
    var log, first := Run(o, events).log, BucketAt(o, from);
    WindowsAdd(o, events, caller, first, k + 1);
    LogKeepsBuckets(o, events);
    var during, within := AdmittedDuring(caller, from, from + k * WindowMs(o)),
        AdmittedWithin(caller, first, first + k);
    forall e | e in log ensures during(e) <= within(e) {
      if from <= e.readAt < from + k * WindowMs(o) {
        TouchedBuckets(o, from, k, e.readAt);
      }
    }
    SumMonotone(during, within, log);
  }

  lemma TouchedBuckets(o: Options, from: nat, k: nat, ms: nat)
    requires o.windowSeconds > 0 && from <= ms < from + k * WindowMs(o)
    ensures BucketAt(o, from) <= BucketAt(o, ms) <= BucketAt(o, from) + k
  {
    hide BucketAt;
    BucketBounds(o, from);
    BucketBounds(o, ms);
    var w, a, b := WindowMs(o), BucketAt(o, from), BucketAt(o, ms);
    assert (a + 1) * w + k * w == (a + k + 1) * w;
    Ordered(w, a, b + 1);
    Ordered(w, b, a + k + 1);
  }

  lemma Ordered(w: int, a: int, b: int)
    requires w > 0 && a * w < b * w
    ensures a < b
  {
    if a >= b { Scale(w, b, a); }
  }

  // ----- Retry-After

  function RetryAfter(o: Options, bucket: nat, ms: nat): int {
    (bucket + 1) * o.windowSeconds - ms / 1000
  }

  /** Waiting as long as the header says reaches a later window. */
  lemma RetryAfterReachesNextWindow(o: Options, bucket: nat, refusedAt: nat, retryAt: nat)
    requires o.windowSeconds > 0
    requires retryAt >= refusedAt + 1000 * Max(0, RetryAfter(o, bucket, refusedAt))
    ensures BucketAt(o, retryAt) >= bucket + 1
  {
    hide BucketAt;
    BucketBounds(o, retryAt);
    assert refusedAt >= 1000 * (refusedAt / 1000);
    assert (bucket + 1) * WindowMs(o) == 1000 * ((bucket + 1) * o.windowSeconds);
    Ordered(WindowMs(o), bucket + 1, BucketAt(o, retryAt) + 1);
  }

  /** And no whole number of seconds less does, within the window of the refusal. */
  lemma RetryAfterIsLeast(o: Options, refusedAt: nat, seconds: nat)
    requires o.windowSeconds > 0
    ensures var bucket := BucketAt(o, refusedAt);
      BucketAt(o, refusedAt + 1000 * seconds) > bucket <==> seconds >= RetryAfter(o, bucket, refusedAt)
  {
    hide BucketAt;
    var bucket, retryAt := BucketAt(o, refusedAt), refusedAt + 1000 * seconds;
    BucketBounds(o, refusedAt);
    BucketBounds(o, retryAt);
    var end := (bucket + 1) * WindowMs(o);
    assert end == 1000 * ((bucket + 1) * o.windowSeconds);
    assert refusedAt == 1000 * (refusedAt / 1000) + refusedAt % 1000;
    if seconds >= RetryAfter(o, bucket, refusedAt) {
      Ordered(WindowMs(o), bucket + 1, BucketAt(o, retryAt) + 1);
    } else {
      Ordered(WindowMs(o), BucketAt(o, retryAt), bucket + 1);
    }
  }

  // ----- a restarted counter

  /** An INCR that lands after its key expired is counted afresh: the window admits one more than the limit. */
  lemma LateIncrementAdmitsMore()
    ensures var o, key := Options(1, 1), Key(0, 0);
      var events := [Hit(0, 0, 0), SetExpiry(key, 0), Hit(0, 999, 1000)];
      Sum(AdmittedOn(key), Run(o, events).log) == 2
  {
    var o, key := Options(1, 1), Key(0, 0);
    var e0, e1, e2 := Hit(0, 0, 0), SetExpiry(key, 0), Hit(0, 999, 1000);
    var s0 := State(map[], {}, 0, []);
    assert [e0, e1, e2][..2] == [e0, e1] && [e0, e1][..1] == [e0] && [e0][..0] == [];
    assert BucketAt(o, 0) == 0 && BucketAt(o, 999) == 0;
    var s1 := Step(o, s0, e0);
    assert Run(o, [e0]) == s1;
    var s2 := Step(o, s1, e1);
    assert Run(o, [e0, e1]) == s2;
    var s3 := Step(o, s2, e2);
    assert Run(o, [e0, e1, e2]) == s3;
    var a, b := Entry(key, 0, true), Entry(key, 999, true);
    assert s3.log == [a] + [b];
    SumAppend(AdmittedOn(key), [a], [b]);
    SumSingleton(AdmittedOn(key), a);
    SumSingleton(AdmittedOn(key), b);
  }
}
