/** The SDK's wallet session: one refresh for any number of concurrent 401s (client.ts). */
module Session {
  import opened Collections
  import Http = HttpRetry

  datatype Tokens = Tokens(accessToken: string, refreshToken: string)

  datatype AuthSession = AuthSession(address: string, tokens: Tokens)

  /** The client's fields; `refreshing` names the refresh in flight, `started` counts them. */
  datatype ClientState = ClientState(session: Option<AuthSession>, refreshing: Option<nat>, started: nat)

  predicate CanRefresh(s: ClientState) { s.session.Some? && s.session.value.tokens.refreshToken != "" }

  /** `refreshSession` up to its first await: join the refresh in flight or start one. */
  function Begin(s: ClientState): ClientState {
    if CanRefresh(s) && s.refreshing.None? then s.(refreshing := Some(s.started), started := s.started + 1) else s
  }

  /** The rest of it, once the refresh request has settled. */
  function Settle(s: ClientState, result: Option<Tokens>): ClientState {
    s.(refreshing := None,
       session := if result.None? then None
                  else if s.session.Some? then Some(s.session.value.(tokens := result.value))
                  else None)
  }

  /** The end of an `auth.refresh` that could start: it spreads whatever session there is by then. */
  function FinishManual(s: ClientState, tokens: Tokens): ClientState {
    s.(session := Some(AuthSession(if s.session.Some? then s.session.value.address else "", tokens)))
  }

  class RiviskClient {
    var session: Option<AuthSession>
    var refreshing: Option<nat>
    var started: nat

    function State(): ClientState
      reads this
    {
      ClientState(session, refreshing, started)
    }

    constructor (session: Option<AuthSession>)
      ensures State() == ClientState(session, None, 0)
    {
      this.session, refreshing, started := session, None, 0;
    }

    method SetSession(session: Option<AuthSession>)
      modifies this
      ensures State() == old(State()).(session := session)
    {
      this.session := session;
    }

    /** Answers false at once, or names the refresh to wait for. */
    method RefreshSession() returns (promise: Option<nat>)
      modifies this
      ensures State() == Begin(old(State()))
      ensures promise == if CanRefresh(old(State())) then Begin(old(State())).refreshing else None
    {
      if session.None? || session.value.tokens.refreshToken == "" { return None; }
      if refreshing.None? {
        refreshing := Some(started);
        started := started + 1;
      }
      promise := refreshing;
    }

    method SettleRefresh(result: Option<Tokens>) returns (ok: bool)
      modifies this
      ensures State() == Settle(old(State()), result) && ok == result.Some?
    {
      if result.Some? {
        if session.Some? { SetSession(Some(session.value.(tokens := result.value))); }
        ok := true;
      } else {
        SetSession(None);
        ok := false;
      }
      refreshing := None;
    }

    /** `auth.refresh` up to its request: the refresh token to send, or its error when there is none. */
    method StartManualRefresh() returns (token: Option<string>)
      ensures token.Some? <==> CanRefresh(State())
      ensures token.Some? ==> token.value == session.value.tokens.refreshToken
    {
      if session.None? || session.value.tokens.refreshToken == "" { return None; }
      token := Some(session.value.tokens.refreshToken);
    }

    method FinishManualRefresh(tokens: Tokens)
      modifies this
      ensures State() == FinishManual(old(State()), tokens)
    {
      SetSession(Some(AuthSession(if session.Some? then session.value.address else "", tokens)));
    }

    method SignOut()
      modifies this
      ensures State() == old(State()).(session := None)
    {
      SetSession(None);
    }
  }

  // ----- runs

  datatype Event =
    | Unauthorized(request: nat)
    | Settled(result: Option<Tokens>)
    | ManualStarted
    | ManualEnded(result: Option<Tokens>)
    | SignIn(session: AuthSession)
    | SignOut

  /**
   * `joined` remembers which refresh each request waited for, `results` and `answers` what came of it;
   * `manual` counts the explicit refreshes whose answer is still to come.
   */
  datatype World = World(
    client: ClientState,
    inFlight: set<nat>,
    joined: map<nat, nat>,
    results: map<nat, bool>,
    answers: map<nat, bool>,
    manual: nat)

  function Waiting(w: World, id: nat): set<nat> {
    set r | r in w.joined.Keys && w.joined[r] == id && r !in w.answers
  }

  function Step(w: World, e: Event): World {
    match e
    case Unauthorized(r) =>
      if r in w.joined || r in w.answers then w
      else if !CanRefresh(w.client) then w.(answers := w.answers[r := false])
      else
        var client := Begin(w.client);
        w.(client := client, inFlight := w.inFlight + {client.refreshing.value},
           joined := w.joined[r := client.refreshing.value])
    case Settled(result) =>
      if w.client.refreshing.None? then w
      else
        var id := w.client.refreshing.value;
        World(Settle(w.client, result), w.inFlight - {id}, w.joined, w.results[id := result.Some?],
              map r | r in w.answers.Keys + Waiting(w, id) :: if r in w.answers then w.answers[r] else result.Some?,
              w.manual)
    case ManualStarted => if CanRefresh(w.client) then w.(manual := w.manual + 1) else w
    case ManualEnded(result) =>
      if w.manual == 0 then w
      else w.(client := if result.Some? then FinishManual(w.client, result.value) else w.client, manual := w.manual - 1)
    case SignIn(session) => w.(client := w.client.(session := Some(session)))
    case SignOut => w.(client := w.client.(session := None))
  }

  function Run(w: World, events: seq<Event>): World {
    if events == [] then w else Step(Run(w, events[..|events| - 1]), events[|events| - 1])
  }

  function Opened(session: Option<AuthSession>): World {
    World(ClientState(session, None, 0), {}, map[], map[], map[], 0)
  }

  ghost predicate SingleFlight(w: World) {
    // exactly the refresh the client remembers is in flight
    && w.inFlight == (if w.client.refreshing.Some? then {w.client.refreshing.value} else {})
    && (forall id | id in w.inFlight :: id < w.client.started && id !in w.results)
    && (forall id | id in w.results :: id < w.client.started)
    // every waiting request waits for it, and every answered one got its refresh's result
    && (forall r | r in w.joined :: r !in w.answers ==> w.joined[r] in w.inFlight)
    && (forall r | r in w.joined && r in w.answers ::
          w.joined[r] in w.results && w.answers[r] == w.results[w.joined[r]])
  }

  lemma StepKeepsSingleFlight(w: World, e: Event)
    requires SingleFlight(w)
    ensures SingleFlight(Step(w, e))
  {
  }

  /** In every run at most one automatic refresh is in flight and all its waiters get its one result. */
  lemma {:induction false} RefreshIsSingleFlight(session: Option<AuthSession>, events: seq<Event>)
    ensures SingleFlight(Run(Opened(session), events))
    ensures |Run(Opened(session), events).inFlight| <= 1
  {
    hide SingleFlight;
    if events != [] {
      RefreshIsSingleFlight(session, events[..|events| - 1]);
      StepKeepsSingleFlight(Run(Opened(session), events[..|events| - 1]), events[|events| - 1]);
    } else {
      OpenedSingleFlight(session);
    }
    AtMostOne(Run(Opened(session), events));
  }

  lemma OpenedSingleFlight(session: Option<AuthSession>)
    ensures SingleFlight(Opened(session))
  {
  }

  lemma AtMostOne(w: World)
    requires SingleFlight(w)
    ensures |w.inFlight| <= 1
  {
  }

  /**
   * A 401 without a refresh token is answered at once and starts nothing; any other waits for the refresh in
   * flight, which it starts if there is none.
   */
  lemma UnauthorizedAnswers(w: World, request: nat)
    requires request !in w.joined && request !in w.answers
    ensures var after, client := Step(w, Unauthorized(request)), w.client;
      if client.session.None? || client.session.value.tokens.refreshToken == "" then
        after == w.(answers := w.answers[request := false])
      else
        && after.client.session == client.session && after.answers == w.answers
        && after.client.refreshing.Some? && after.joined == w.joined[request := after.client.refreshing.value]
        && (if client.refreshing.Some? then after.client == client
            else after.client.refreshing == Some(client.started) && after.client.started == client.started + 1)
  {
  }

  function Burst(requests: seq<nat>): seq<Event> {
    if requests == [] then [] else Burst(requests[..|requests| - 1]) + [Unauthorized(requests[|requests| - 1])]
  }

  /** A burst of 401s starts exactly one refresh, and every request of the burst waits for that one. */
  lemma {:induction false} BurstStartsOneRefresh(w: World, requests: seq<nat>)
    requires CanRefresh(w.client) && w.client.refreshing.None? && requests != []
    requires forall i | 0 <= i < |requests| :: requests[i] !in w.joined && requests[i] !in w.answers
    ensures var after := Run(w, Burst(requests));
      && after.client == Begin(w.client) && after.answers == w.answers
      && (forall i | 0 <= i < |requests| ::
            requests[i] in after.joined && after.joined[requests[i]] == w.client.started)
      && (forall r | r in w.joined :: r in after.joined && after.joined[r] == w.joined[r])
      && (forall r | r in after.joined :: r in w.joined || r in requests)
  {
    var n := |requests| - 1;
    var burst := Burst(requests);
    assert burst[..|burst| - 1] == Burst(requests[..n]);
    if n > 0 {
      BurstStartsOneRefresh(w, requests[..n]);
    } else {
      assert burst == [Unauthorized(requests[0])];
      assert Run(w, burst[..0]) == w;
    }
  }

  /** The refresh request itself: it must not re-enter the hook, or it would wait for itself. */
  function RefreshCall(retry: Option<Http.RetryPolicy>): Http.Call { Http.Call(false, true, true, retry) }

  lemma RefreshNeverWaitsOnItself(retry: Option<Http.RetryPolicy>, w: Http.World, e: Http.Event)
    requires e in Http.Run(RefreshCall(retry), w, 0, false).events
    ensures !e.Refreshed?
  {
    Http.NoRefreshEvent(RefreshCall(retry), w, 0, false);
  }

  // ----- signing out

  predicate MaySignIn(e: Event) { e.SignIn? || (e.ManualEnded? && e.result.Some?) }

  /** Once signed out, no automatic refresh already under way brings the session back. */
  lemma {:induction false} SignedOutStaysOut(w: World, events: seq<Event>)
    requires w.client.session.None?
    requires forall e | e in events :: !MaySignIn(e)
    ensures Run(w, events).client.session.None?
  {
    if events != [] {
      assert events[|events| - 1] in events && forall e | e in events[..|events| - 1] :: e in events;
      SignedOutStaysOut(w, events[..|events| - 1]);
    }
  }

  predicate NoSignIn(events: seq<Event>) { forall i | 0 <= i < |events| :: !events[i].SignIn? }

  /** Whatever happens short of a new sign-in, the client stays signed out. */
  ghost predicate StaysOut(w: World) {
    forall events | NoSignIn(events) :: Run(w, events).client.session.None?
  }

  lemma {:induction false} NothingPendingStaysOut(w: World, events: seq<Event>)
    requires w.client.session.None? && w.manual == 0 && NoSignIn(events)
    ensures Run(w, events).client.session.None? && Run(w, events).manual == 0
  {
    if events != [] { NothingPendingStaysOut(w, events[..|events| - 1]); }
  }

  lemma RunOne(w: World, e: Event)
    ensures Run(w, [e]) == Step(w, e)
  {
    assert [e][..0] == [];
  }

  /** Signing out is final, in every later run without a sign-in, exactly when no explicit refresh was pending then. */
  lemma ResurrectsExactly(w: World)
    ensures var out := Step(w, SignOut); StaysOut(out) <==> w.manual == 0
  {
    hide Run;
    var out := Step(w, SignOut);
    if w.manual == 0 {
      forall events | NoSignIn(events) ensures Run(out, events).client.session.None? {
        NothingPendingStaysOut(out, events);
      }
    } else {
      var late := ManualEnded(Some(Tokens("", "")));
      assert NoSignIn([late]);
      RunOne(out, late);
    }
  }

  /** Signed in, refreshing explicitly, signed out, refreshed: the client ends up with a session, and no address. */
  lemma LateRefreshResurrects(session: AuthSession, tokens: Tokens)
    requires session.tokens.refreshToken != ""
    ensures Run(Opened(None), [SignIn(session), ManualStarted, SignOut, ManualEnded(Some(tokens))]).client.session
      == Some(AuthSession("", tokens))
  {
    var a, b, c, d := SignIn(session), ManualStarted, SignOut, ManualEnded(Some(tokens));
    assert [a, b, c, d][..3] == [a, b, c] && [a, b, c][..2] == [a, b] && [a, b][..1] == [a];
    RunOne(Opened(None), a);
    assert Run(Opened(None), [a, b, c]).manual == 1;
  }

  /** An explicit refresh keeps the address and replaces the tokens, when nothing ends the session meanwhile. */
  lemma ManualRefreshKeepsAddress(w: World, session: AuthSession, tokens: Tokens)
    requires w.client.session == Some(session) && session.tokens.refreshToken != ""
    ensures var after := Run(w, [ManualStarted, ManualEnded(Some(tokens))]);
      && after.client.session == Some(AuthSession(session.address, tokens)) && after.manual == w.manual
      && Run(w, [ManualStarted, ManualEnded(None)]).client == w.client
  {
    RunTwo(w, ManualStarted, ManualEnded(Some(tokens)));
    RunTwo(w, ManualStarted, ManualEnded(None));
  }

  lemma RunTwo(w: World, a: Event, b: Event)
    ensures Run(w, [a, b]) == Step(Step(w, a), b)
  {
    assert [a, b][..1] == [a];
    RunOne(w, a);
  }

  /** An automatic one does the same, and frees the slot either way; its failure ends the session. */
  lemma SettlingKeepsAddress(w: World, session: AuthSession, tokens: Tokens)
    requires w.client.session == Some(session) && w.client.refreshing.Some?
    ensures Step(w, Settled(Some(tokens))).client
      == ClientState(Some(AuthSession(session.address, tokens)), None, w.client.started)
    ensures Step(w, Settled(None)).client == ClientState(None, None, w.client.started)
  {
  }

  // ----- signing in again

  /** A session signed in during a refresh does not survive it: failure drops it, success replaces its tokens. */
  lemma LateSettleOverwrites(w: World, newer: AuthSession, result: Option<Tokens>)
    requires w.client.refreshing.Some?
    ensures Run(w, [SignIn(newer), Settled(result)]).client.session
      == if result.Some? then Some(newer.(tokens := result.value)) else None
  {
    assert [SignIn(newer), Settled(result)][..1] == [SignIn(newer)];
    assert [SignIn(newer)][..0] == [];
    assert Run(w, [SignIn(newer)]) == Step(w, SignIn(newer));
  }

  predicate IsEnding(e: Event) { e.Settled? || e.ManualEnded? }

  predicate OnlyEndings(events: seq<Event>) { forall i | 0 <= i < |events| :: IsEnding(events[i]) }

  /** The session outlives whatever refreshes started before it. */
  ghost predicate SurvivesEndings(w: World, session: AuthSession) {
    forall events | OnlyEndings(events) :: Run(w, events).client.session == Some(session)
  }

  lemma {:induction false} NothingToEnd(w: World, events: seq<Event>)
    requires w.client.refreshing.None? && w.manual == 0 && OnlyEndings(events)
    ensures Run(w, events) == w
  {
    if events != [] { NothingToEnd(w, events[..|events| - 1]); }
  }

  /** A new sign-in survives the refreshes of the session before it exactly when none of either kind is pending. */
  lemma SignInSurvivesExactly(w: World, newer: AuthSession)
    ensures SurvivesEndings(Step(w, SignIn(newer)), newer) <==> w.client.refreshing.None? && w.manual == 0
  {
    hide Run;
    var signedIn := Step(w, SignIn(newer));
    if w.client.refreshing.Some? {
      RunOne(signedIn, Settled(None));
    } else if w.manual > 0 {
      var late := ManualEnded(Some(Tokens(newer.tokens.accessToken + "'", "")));
      RunOne(signedIn, late);
    } else {
      forall events | OnlyEndings(events) ensures Run(signedIn, events).client.session == Some(newer) {
        NothingToEnd(signedIn, events);
      }
    }
  }
}
