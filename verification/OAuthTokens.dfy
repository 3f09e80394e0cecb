/**
 The single-flight refresh of a Linear OAuth token (section 6 of RFC 6749).  Callers, answers of the
 token endpoint and the clean-up of a finished refresh interleave in any order.
 */
module OAuthTokens {
  import opened Options

  type Caller = nat

  // When the access token expires: not recorded, not a date, or a time in milliseconds.
  datatype Expiry = Missing | Unreadable | At(milliseconds: int)

  datatype Response = Response(
    accessToken: string,
    refreshToken: Option<string>,
    expiresIn: Option<int>,                            // seconds, when it is a finite number
    scope: Option<string>)

  // How persisting a response ends: written, not applicable any more, or reading or writing throws.
  datatype Persisted = Written | NotApplicable | Throws

  // How a refresh ends: with a response, at a time in milliseconds, or without.
  datatype Ending = Answered(response: Response, now: int, persisted: Persisted) | Failed

  // What a caller gets in the end.
  datatype Outcome = Resolved(token: Option<string>) | Rejected

  // The times that a JavaScript date can hold; toISOString throws for others.
  const MAX_TIME := 8_640_000_000_000_000

  predicate Dated(response: Response, now: int) {
    response.expiresIn.Some? ==> -MAX_TIME <= now + response.expiresIn.value * 1000 <= MAX_TIME
  }

  // A refresh succeeds when it is answered with an expiry that is a date and persisting does not throw.
  function OutcomeOf(ending: Ending): Outcome {
    if ending.Answered? && Dated(ending.response, ending.now) && !ending.persisted.Throws? then
      Resolved(Some(ending.response.accessToken))
    else Rejected
  }

  // A call that waits for a refresh, and what it got once that refresh settled.
  datatype Waiting = Waiting(caller: Caller, refresh: nat, delivered: Option<Outcome>)

  datatype Cached = Cached(caller: Caller, token: Option<string>, expiresAt: Expiry, now: int)

  // The closure's variables, and what happened so far: the refresh token sent by each refresh, the
  // answers, what the promise of each answered refresh holds, the waiting calls and the cached returns.
  datatype State = State(
    accessToken: Option<string>,
    refreshToken: string,
    expiresAt: Expiry,
    scopes: Option<string>,
    inFlight: Option<nat>,
    sent: seq<string>,
    answers: map<nat, Ending>,
    promises: map<nat, Outcome>,
    joined: seq<Waiting>,
    cached: seq<Cached>)

  datatype Event =
    | Call(caller: Caller, now: int)
    | Arrive(ending: Ending)                           // the outstanding refresh is answered
    | Settle                                           // the clean-up of an answered refresh runs
    | Deliver(k: nat)                                  // the k-th waiting call resumes

  // shouldRefreshLinearOAuthToken
  predicate ShouldRefresh(expiresAt: Expiry, now: int, skew: int) {
    !expiresAt.At? || expiresAt.milliseconds <= now + skew
  }

  function NewerRefreshToken(response: Response, current: string): string {
    if response.refreshToken.Some? && response.refreshToken.value != "" then response.refreshToken.value else current
  }

  // linearAccessTokenExpiresAt(...) ?? accessTokenExpiresAt
  function NewerExpiry(response: Response, current: Expiry, now: int): Expiry {
    if response.expiresIn.Some? then At(now + response.expiresIn.value * 1000) else current
  }

  // persistRefreshedToken up to persisting: both tokens first, then the expiry, which may throw.
  function Absorb(s: State, response: Response, now: int): State {
    var tokens := s.(
      accessToken := Some(response.accessToken),
      refreshToken := NewerRefreshToken(response, s.refreshToken));
    if !Dated(response, now) then tokens
    else
      tokens.(
        expiresAt := NewerExpiry(response, s.expiresAt, now),
        scopes := if response.scope.Some? then response.scope else s.scopes)
  }

  // The promise of the refresh in flight: the token held when persisting is done, or a rejection.
  function Promised(s: State, ending: Ending): Outcome {
    if ending.Failed? || !Dated(ending.response, ending.now) || ending.persisted.Throws? then Rejected
    else Resolved(s.accessToken)
  }

  // Events that cannot happen now change nothing.
  function Step(s: State, event: Event, skew: int): State {
    match event
    case Call(caller, now) =>
      if !ShouldRefresh(s.expiresAt, now, skew) then
        s.(cached := s.cached + [Cached(caller, s.accessToken, s.expiresAt, now)])
      else if s.inFlight.Some? then s.(joined := s.joined + [Waiting(caller, s.inFlight.value, None)])
      else
        s.(inFlight := Some(|s.sent|), sent := s.sent + [s.refreshToken],
           joined := s.joined + [Waiting(caller, |s.sent|, None)])
    case Arrive(ending) =>
      if s.inFlight.None? || s.inFlight.value in s.answers then s
      else
        var held := if ending.Answered? then Absorb(s, ending.response, ending.now) else s;
        held.(answers := s.answers[s.inFlight.value := ending],
              promises := s.promises[s.inFlight.value := Promised(held, ending)])
    case Settle =>
      if s.inFlight.Some? && s.inFlight.value in s.answers then s.(inFlight := None) else s
    case Deliver(k) =>
      if CanDeliver(s, k) then
        s.(joined := s.joined[k := s.joined[k].(delivered := Some(s.promises[s.joined[k].refresh]))])
      else s
  }

  // The promise callers wait for settles after the clean-up.
  predicate CanDeliver(s: State, k: nat) {
    && k < |s.joined| && s.joined[k].delivered.None?
    && s.joined[k].refresh in s.promises && s.inFlight != Some(s.joined[k].refresh)
  }

  function Run(s: State, events: seq<Event>, skew: int): State
    decreases |events|
  {
    if events == [] then s else Run(Step(s, events[0], skew), events[1..], skew)
  }

  // What createLinearOAuthTokenProvider starts from.
  function Initial(accessToken: Option<string>, refreshToken: string, expiresAt: Expiry, scopes: Option<string>)
    : State
  {
    State(accessToken, refreshToken, expiresAt, scopes, None, [], map[], map[], [], [])
  }

  // ----- The provider -----

  class TokenProvider {
    const skew: int
    var accessToken: Option<string>
    var refreshToken: string
    var expiresAt: Expiry
    var scopes: Option<string>
    var inFlight: Option<nat>
    var sent: seq<string>
    ghost var answers: map<nat, Ending>
    var promises: map<nat, Outcome>
    ghost var joined: seq<Waiting>
    ghost var cached: seq<Cached>

    ghost function Abstract(): State
      reads this
    {
      State(accessToken, refreshToken, expiresAt, scopes, inFlight, sent, answers, promises, joined, cached)
    }

    constructor (
      accessToken: Option<string>, refreshToken: string, expiresAt: Expiry, scopes: Option<string>, skew: int)
      ensures Abstract() == Initial(accessToken, refreshToken, expiresAt, scopes) && this.skew == skew
    {
      this.accessToken, this.refreshToken, this.expiresAt, this.scopes := accessToken, refreshToken, expiresAt, scopes;
      this.inFlight, this.sent, this.skew := None, [], skew;
      this.answers, this.promises, this.joined, this.cached := map[], map[], [], [];
    }

    // The cached token, or the refresh to wait for.
    method GetToken(caller: Caller, now: int) returns (token: Option<string>, waitFor: Option<nat>)
      modifies this
      ensures Abstract() == Step(old(Abstract()), Call(caller, now), skew)
      ensures waitFor.None? ==> !ShouldRefresh(expiresAt, now, skew) && token == old(accessToken)
      ensures waitFor.Some? ==> waitFor == inFlight
    {
      if !ShouldRefresh(expiresAt, now, skew) {
        cached := cached + [Cached(caller, accessToken, expiresAt, now)];
        return accessToken, None;
      }
      if inFlight.None? {
        inFlight := Some(|sent|);
        sent := sent + [refreshToken];
      }
      joined := joined + [Waiting(caller, inFlight.value, None)];
      return None, inFlight;
    }

    // The closure's variables after a response; false when its expiry is not a date and the code throws.
    method TakeResponse(response: Response, now: int) returns (dated: bool)
      modifies this`accessToken, this`refreshToken, this`expiresAt, this`scopes
      ensures Abstract() == Absorb(old(Abstract()), response, now) && dated == Dated(response, now)
    {
      accessToken := Some(response.accessToken);
      if response.refreshToken.Some? && response.refreshToken.value != "" {
        refreshToken := response.refreshToken.value;
      }
      dated := Dated(response, now);
      if !dated { return; }
      if response.expiresIn.Some? {
        expiresAt := At(now + response.expiresIn.value * 1000);
      }
      if response.scope.Some? {
        scopes := response.scope;
      }
    }

    // persistRefreshedToken, reached when the endpoint answers the refresh in flight.
    method PersistRefreshedToken(response: Response, now: int, persisted: Persisted) returns (outcome: Outcome)
      requires inFlight.Some? && inFlight.value !in answers
      modifies this
      ensures Abstract() == Step(old(Abstract()), Arrive(Answered(response, now, persisted)), skew)
      ensures outcome == OutcomeOf(Answered(response, now, persisted))
    {
      hide Dated, NewerRefreshToken, NewerExpiry;
      var dated := TakeResponse(response, now);
      outcome := if dated && !persisted.Throws? then Resolved(accessToken) else Rejected;
      answers := answers[inFlight.value := Answered(response, now, persisted)];
      promises := promises[inFlight.value := outcome];
    }

    method RefreshFailed() returns (outcome: Outcome)
      requires inFlight.Some? && inFlight.value !in answers
      modifies this
      ensures Abstract() == Step(old(Abstract()), Arrive(Failed), skew) && outcome == Rejected
    {
      answers := answers[inFlight.value := Failed];
      outcome := Rejected;
      promises := promises[inFlight.value := outcome];
    }

    // The finally clause.
    method ClearInFlight()
      requires inFlight.Some? && inFlight.value in answers
      modifies this
      ensures Abstract() == Step(old(Abstract()), Settle, skew)
    {
      inFlight := None;
    }

    // A waiting call resumes with what the promise it waits for holds.
    method Resume(ghost k: nat, waitFor: nat) returns (outcome: Outcome)
      requires CanDeliver(Abstract(), k) && joined[k].refresh == waitFor
      modifies this
      ensures Abstract() == Step(old(Abstract()), Deliver(k), skew)
      ensures joined[k].delivered == Some(outcome)
    {
      outcome := promises[waitFor];
      joined := joined[k := joined[k].(delivered := Some(outcome))];
    }
  }

  // ----- Every interleaving -----

  // The refresh token known once a refresh that sent this one has ended.
  function TokenAfter(token: string, ending: Ending): string {
    if ending.Answered? then NewerRefreshToken(ending.response, token) else token
  }

  // The access token of the newest answered refresh.
  function NewestAccess(answers: map<nat, Ending>, n: nat, initial: Option<string>): Option<string> {
    if n == 0 then initial
    else if n - 1 in answers && answers[n - 1].Answered? then Some(answers[n - 1].response.accessToken)
    else NewestAccess(answers, n - 1, initial)
  }

  // When the newest response that told an expiry said the token expires; the initial one before that.
  function NewestExpiry(answers: map<nat, Ending>, n: nat, initial: Expiry): Expiry {
    if n == 0 then initial
    else
      match ExpiryTold(answers, n - 1)
      case Some(milliseconds) => At(milliseconds)
      case None => NewestExpiry(answers, n - 1, initial)
  }

  // A number of seconds after the answer, if that is a date.
  function ExpiryTold(answers: map<nat, Ending>, i: nat): Option<int> {
    if i !in answers || answers[i].Failed? || answers[i].response.expiresIn == None then None
    else
      var milliseconds := answers[i].now + 1000 * answers[i].response.expiresIn.value;
      if -8_640_000_000_000_000 <= milliseconds <= 8_640_000_000_000_000 then Some(milliseconds) else None
  }

  // The newest scope told by a response that was taken whole.
  function NewestScopes(answers: map<nat, Ending>, n: nat, initial: Option<string>): Option<string> {
    if n == 0 then initial
    else if n - 1 in answers && answers[n - 1].Answered? && answers[n - 1].response.scope != None
      && (answers[n - 1].response.expiresIn != None ==> ExpiryTold(answers, n - 1) != None)
    then answers[n - 1].response.scope
    else NewestScopes(answers, n - 1, initial)
  }

  // Refreshes are answered one after another; at most the last is open, and then it is in flight.
  ghost predicate OneAtATime(s: State) {
    && (forall i :: i in s.answers ==> i < |s.sent|)
    && (forall i :: 0 <= i < |s.sent| - 1 ==> i in s.answers)
    && (s.inFlight.Some? ==> |s.sent| > 0 && s.inFlight.value == |s.sent| - 1)
    && (s.inFlight.None? && |s.sent| > 0 ==> |s.sent| - 1 in s.answers)
  }

  ghost predicate TokensChain(s: State, initial: string)
    requires OneAtATime(s)
  {
    && (forall i :: 0 < i < |s.sent| ==> s.sent[i] == TokenAfter(s.sent[i - 1], s.answers[i - 1]))
    && (|s.sent| > 0 ==> s.sent[0] == initial)
    && s.refreshToken == if |s.sent| == 0 then initial
                         else
                           var last := |s.sent| - 1;
                           if last in s.answers then TokenAfter(s.sent[last], s.answers[last]) else s.sent[last]
  }

  ghost predicate LogsOk(s: State, skew: int) {
    && (forall k :: 0 <= k < |s.joined| ==> s.joined[k].refresh < |s.sent|)
    && (forall k :: 0 <= k < |s.cached| ==>
          s.cached[k].expiresAt.At? && s.cached[k].expiresAt.milliseconds > s.cached[k].now + skew)
  }

  // Promises hold the outcomes of the answers, and so does what was delivered.
  ghost predicate PromisesKept(s: State) {
    && s.promises.Keys == s.answers.Keys
    && (forall i :: i in s.promises ==> s.promises[i] == OutcomeOf(s.answers[i]))
    && forall k :: 0 <= k < |s.joined| && s.joined[k].delivered.Some? ==>
         s.joined[k].refresh in s.promises && s.joined[k].delivered.value == s.promises[s.joined[k].refresh]
  }

  ghost predicate Inv(s: State, start: State, skew: int) {
    && OneAtATime(s)
    && PromisesKept(s)
    && TokensChain(s, start.refreshToken)
    && LogsOk(s, skew)
    && NewestHeld(s, start.accessToken)
    && ExpiryHeld(s, start)
  }

  ghost predicate ExpiryHeld(s: State, start: State) {
    && s.expiresAt == NewestExpiry(s.answers, |s.sent|, start.expiresAt)
    && s.scopes == NewestScopes(s.answers, |s.sent|, start.scopes)
  }

  ghost predicate NewestHeld(s: State, initial: Option<string>) {
    s.accessToken == NewestAccess(s.answers, |s.sent|, initial)
  }

  lemma {:induction false} NewestAccessFrame(
    before: map<nat, Ending>, n: nat, i: nat, ending: Ending, initial: Option<string>)
    requires n <= i
    ensures NewestAccess(before[i := ending], n, initial) == NewestAccess(before, n, initial)
  {
    if n > 0 { NewestAccessFrame(before, n - 1, i, ending, initial); }
  }

  lemma {:induction false} NewestExpiryFrame(before: map<nat, Ending>, n: nat, i: nat, ending: Ending, start: State)
    requires n <= i
    ensures NewestExpiry(before[i := ending], n, start.expiresAt) == NewestExpiry(before, n, start.expiresAt)
    ensures NewestScopes(before[i := ending], n, start.scopes) == NewestScopes(before, n, start.scopes)
  {
    if n > 0 { NewestExpiryFrame(before, n - 1, i, ending, start); }
  }

  lemma CallExpiry(s: State, caller: Caller, now: int, skew: int, start: State)
    requires OneAtATime(s) && ExpiryHeld(s, start)
    ensures ExpiryHeld(Step(s, Call(caller, now), skew), start)
  {}

  lemma ArriveExpiry(s: State, ending: Ending, skew: int, start: State)
    requires OneAtATime(s) && ExpiryHeld(s, start)
    ensures ExpiryHeld(Step(s, Arrive(ending), skew), start)
  {
    hide NewerRefreshToken, Promised;
    if |s.sent| > 0 {
      NewestExpiryFrame(s.answers, |s.sent| - 1, |s.sent| - 1, ending, start);
    }
  }

  lemma CallTokens(s: State, caller: Caller, now: int, skew: int, initial: string)
    requires OneAtATime(s) && TokensChain(s, initial) && OneAtATime(Step(s, Call(caller, now), skew))
    ensures TokensChain(Step(s, Call(caller, now), skew), initial)
  {
    hide TokenAfter, ShouldRefresh;
  }

  lemma CallOrder(s: State, caller: Caller, now: int, skew: int)
    requires OneAtATime(s) && LogsOk(s, skew) && PromisesKept(s)
    ensures var t := Step(s, Call(caller, now), skew); OneAtATime(t) && LogsOk(t, skew) && PromisesKept(t)
  {
    hide OutcomeOf;
  }

  lemma CallAccess(s: State, caller: Caller, now: int, skew: int, initial: Option<string>)
    requires OneAtATime(s) && NewestHeld(s, initial)
    ensures NewestHeld(Step(s, Call(caller, now), skew), initial)
  {}

  lemma CallKeeps(s: State, caller: Caller, now: int, start: State, skew: int)
    requires Inv(s, start, skew)
    ensures Inv(Step(s, Call(caller, now), skew), start, skew)
  {
    hide Step, OneAtATime, TokensChain, LogsOk, PromisesKept, NewestHeld, ExpiryHeld;
    CallOrder(s, caller, now, skew);
    CallTokens(s, caller, now, skew, start.refreshToken);
    CallAccess(s, caller, now, skew, start.accessToken);
    CallExpiry(s, caller, now, skew, start);
  }

  lemma ArriveOrder(s: State, ending: Ending, skew: int)
    requires OneAtATime(s) && LogsOk(s, skew)
    ensures OneAtATime(Step(s, Arrive(ending), skew)) && LogsOk(Step(s, Arrive(ending), skew), skew)
  {
    hide NewerRefreshToken, NewerExpiry;
  }

  lemma ArriveTokens(s: State, ending: Ending, skew: int, initial: string)
    requires OneAtATime(s) && TokensChain(s, initial) && OneAtATime(Step(s, Arrive(ending), skew))
    ensures TokensChain(Step(s, Arrive(ending), skew), initial)
  {
    hide NewerRefreshToken, NewerExpiry;
  }

  lemma ArrivePromises(s: State, ending: Ending, skew: int)
    requires OneAtATime(s) && PromisesKept(s)
    ensures PromisesKept(Step(s, Arrive(ending), skew))
  {
    hide NewerRefreshToken, NewerExpiry;
  }

  lemma ArriveAccess(s: State, ending: Ending, skew: int, initial: Option<string>)
    requires OneAtATime(s) && NewestHeld(s, initial)
    ensures NewestHeld(Step(s, Arrive(ending), skew), initial)
  {
    hide NewerRefreshToken, NewerExpiry, Promised;
    if |s.sent| > 0 {
      NewestAccessFrame(s.answers, |s.sent| - 1, |s.sent| - 1, ending, initial);
    }
  }

  lemma ArriveKeeps(s: State, ending: Ending, start: State, skew: int)
    requires Inv(s, start, skew)
    ensures Inv(Step(s, Arrive(ending), skew), start, skew)
  {
    hide Step, OneAtATime, TokensChain, LogsOk, PromisesKept, NewestHeld, ExpiryHeld;
    ArriveOrder(s, ending, skew);
    ArriveTokens(s, ending, skew, start.refreshToken);
    ArrivePromises(s, ending, skew);
    ArriveAccess(s, ending, skew, start.accessToken);
    ArriveExpiry(s, ending, skew, start);
  }

  lemma SettleKeeps(s: State, start: State, skew: int)
    requires Inv(s, start, skew)
    ensures Inv(Step(s, Settle, skew), start, skew)
  {
    hide TokenAfter;
  }

  lemma DeliverKeeps(s: State, k: nat, start: State, skew: int)
    requires Inv(s, start, skew)
    ensures Inv(Step(s, Deliver(k), skew), start, skew)
  {
    hide TokenAfter, OutcomeOf;
  }

  lemma {:induction false} RunKeeps(s: State, events: seq<Event>, start: State, skew: int)
    requires Inv(s, start, skew)
    ensures Inv(Run(s, events, skew), start, skew)
    decreases |events|
  {
    hide Inv, Step;
    if events != [] {
      match events[0]
      case Call(caller, now) => CallKeeps(s, caller, now, start, skew);
        RunKeeps(Step(s, events[0], skew), events[1..], start, skew);
      case Arrive(ending) => ArriveKeeps(s, ending, start, skew);
        RunKeeps(Step(s, events[0], skew), events[1..], start, skew);
      case Settle => SettleKeeps(s, start, skew);
        RunKeeps(Step(s, events[0], skew), events[1..], start, skew);
      case Deliver(k) => DeliverKeeps(s, k, start, skew);
        RunKeeps(Step(s, events[0], skew), events[1..], start, skew);
    }
  }

  ghost predicate IsStart(s: State) {
    s.inFlight.None? && s.sent == [] && s.answers == map[] && s.promises == map[] && s.joined == [] && s.cached == []
  }

  lemma StartInv(start: State, skew: int)
    requires IsStart(start)
    ensures Inv(start, start, skew)
  {}

  /** At most one refresh is outstanding, and it is the one in flight. */
  lemma AtMostOneOutstanding(start: State, events: seq<Event>, skew: int, i: nat, j: nat)
    requires IsStart(start)
    requires var s := Run(start, events, skew); i < |s.sent| && j < |s.sent| && i !in s.answers && j !in s.answers
    ensures i == j && Run(start, events, skew).inFlight == Some(i)
  {
    RunKeeps(start, events, start, skew);
  }

  /**
   Each refresh sends the newest refresh token received, even when persisting it failed: the token the
   previous answer carried if it carried one, else the token sent before.
   */
  lemma RefreshSendsNewestToken(start: State, events: seq<Event>, skew: int, i: nat)
    requires IsStart(start) && i < |Run(start, events, skew).sent|
    ensures var s := Run(start, events, skew);
            if i == 0 then s.sent[0] == start.refreshToken
            else
              && i - 1 in s.answers
              && s.sent[i] == match s.answers[i - 1]
                              case Failed => s.sent[i - 1]
                              case Answered(response, _, _) =>
                                match response.refreshToken
                                case Some(token) => if token != "" then token else s.sent[i - 1]
                                case None => s.sent[i - 1]
  {
    RunKeeps(start, events, start, skew);
  }

  /** A cached token is the newest one received and was handed out before its recorded expiry less the skew. */
  lemma CachedTokenIsLive(start: State, events: seq<Event>, skew: int, caller: Caller, now: int)
    requires IsStart(start)
    ensures var s := Run(start, events, skew);
            var t := Step(s, Call(caller, now), skew);
            |t.cached| > |s.cached| ==>
              && s.expiresAt.At? && s.expiresAt.milliseconds > now + skew
              && t.cached[|s.cached|].token == NewestAccess(s.answers, |s.sent|, start.accessToken)
              && t.sent == s.sent
    ensures LogsOk(Run(start, events, skew), skew)
  {
    RunKeeps(start, events, start, skew);
  }

  /** The recorded expiry is the one that the newest response to tell one told, and so is the scope. */
  lemma RecordsWhatWasTold(start: State, events: seq<Event>, skew: int)
    requires IsStart(start)
    ensures var s := Run(start, events, skew);
            && s.expiresAt == NewestExpiry(s.answers, |s.sent|, start.expiresAt)
            && s.scopes == NewestScopes(s.answers, |s.sent|, start.scopes)
  {
    hide OneAtATime, TokensChain, LogsOk, PromisesKept, NewestHeld;
    StartInv(start, skew);
    RunKeeps(start, events, start, skew);
  }

  /**
   A call is served from the cache, with the newest token and without any refresh, exactly when the expiry
   told last lies beyond now plus the skew; otherwise it waits for a refresh, sent now if none is in flight.
   */
  lemma ServedExactlyWhileLive(start: State, events: seq<Event>, skew: int, caller: Caller, now: int)
    requires IsStart(start)
    ensures var s := Run(start, events, skew);
            var t := Run(start, events + [Call(caller, now)], skew);
            var expiry := NewestExpiry(s.answers, |s.sent|, start.expiresAt);
            if expiry.At? && expiry.milliseconds > now + skew then
              var token := NewestAccess(s.answers, |s.sent|, start.accessToken);
              t == s.(cached := s.cached + [Cached(caller, token, expiry, now)])
            else
              && t.cached == s.cached && |t.joined| == |s.joined| + 1
              && t.inFlight == Some(t.joined[|s.joined|].refresh)
              && |t.sent| == if s.inFlight == None then |s.sent| + 1 else |s.sent|
  {
    hide OneAtATime, TokensChain, LogsOk, PromisesKept;
    StartInv(start, skew);
    RunKeeps(start, events, start, skew);
    RunAppend(start, events, [Call(caller, now)], skew);
    RunOne(Run(start, events, skew), Call(caller, now), skew);
  }

  // ----- Callers -----

  function CallCount(events: seq<Event>): nat {
    if events == [] then 0 else (if events[0].Call? then 1 else 0) + CallCount(events[1..])
  }

  lemma {:induction false} CallsAccounted(s: State, events: seq<Event>, skew: int)
    ensures var t := Run(s, events, skew); |t.joined| + |t.cached| == |s.joined| + |s.cached| + CallCount(events)
    decreases |events|
  {
    if events != [] {
      CallsAccounted(Step(s, events[0], skew), events[1..], skew);
    }
  }

  /** A refresh succeeds, with the response's token, exactly when its expiry is a date and persisting did not throw. */
  lemma ResolvesExactly(ending: Ending, token: Option<string>)
    ensures OutcomeOf(ending) == Resolved(token) <==>
              && ending.Answered? && ending.persisted != Throws && token == Some(ending.response.accessToken)
              && (ending.response.expiresIn != None ==> ExpiryTold(map[0 := ending], 0) != None)
    ensures OutcomeOf(ending) == Rejected <==> forall other :: OutcomeOf(ending) != Resolved(other)
  {
    if OutcomeOf(ending).Resolved? {
      assert OutcomeOf(ending) == Resolved(OutcomeOf(ending).token);
    }
  }

  lemma {:induction false} RunAppend(s: State, before: seq<Event>, after: seq<Event>, skew: int)
    ensures Run(s, before + after, skew) == Run(Run(s, before, skew), after, skew)
    decreases |before|
  {
    if before == [] {
      assert before + after == after;
    } else {
      assert (before + after)[1..] == before[1..] + after;
      RunAppend(Step(s, before[0], skew), before[1..], after, skew);
    }
  }

  // What never changes: answers, promises, who waits for what, and what was delivered.
  ghost predicate Extends(s: State, t: State) {
    && |s.sent| <= |t.sent| && |s.joined| <= |t.joined|
    && (forall i :: 0 <= i < |s.sent| ==> t.sent[i] == s.sent[i])
    && (forall i :: i in s.answers ==> i in t.answers && t.answers[i] == s.answers[i])
    && (forall i :: i in s.promises ==> i in t.promises && t.promises[i] == s.promises[i])
    && forall k :: 0 <= k < |s.joined| ==>
         && t.joined[k].caller == s.joined[k].caller && t.joined[k].refresh == s.joined[k].refresh
         && (s.joined[k].delivered.Some? ==> t.joined[k] == s.joined[k])
  }

  lemma StepExtends(s: State, event: Event, skew: int)
    requires s.promises.Keys == s.answers.Keys
    ensures Extends(s, Step(s, event, skew))
  {
    hide NewerRefreshToken, NewerExpiry, Promised;
  }

  /** An answer, once given, is never replaced; a waiting call never changes what it waits for or got. */
  lemma {:induction false} NothingIsReplaced(s: State, events: seq<Event>, start: State, skew: int)
    requires Inv(s, start, skew)
    ensures Extends(s, Run(s, events, skew))
    decreases |events|
  {
    if events != [] {
      hide Inv, Step, Extends;
      var next := Step(s, events[0], skew);
      KeysAgree(s, start, skew);
      StepExtends(s, events[0], skew);
      RunOne(s, events[0], skew);
      RunKeeps(s, [events[0]], start, skew);
      NothingIsReplaced(next, events[1..], start, skew);
      ExtendsTransitive(s, next, Run(s, events, skew));
    } else {
      assert Run(s, events, skew) == s;
    }
  }

  lemma RunOne(s: State, event: Event, skew: int)
    ensures Run(s, [event], skew) == Step(s, event, skew)
  {
    assert [event][1..] == [];
  }

  lemma KeysAgree(s: State, start: State, skew: int)
    requires Inv(s, start, skew)
    ensures s.promises.Keys == s.answers.Keys
  {}

  lemma ExtendsTransitive(s: State, t: State, u: State)
    requires Extends(s, t) && Extends(t, u)
    ensures Extends(s, u)
  {}

  /**
   All callers share the outcome of the refresh they joined.  Over every interleaving, every call
   returned a cached token or waits for one refresh; whatever was delivered to a caller of a refresh is
   the outcome of that refresh's one answer, so any two callers of a refresh got the same.
   */
  lemma CallersGetOneOutcome(start: State, events: seq<Event>, skew: int, k: nat, l: nat)
    requires IsStart(start)
    requires k < |Run(start, events, skew).joined| && l < |Run(start, events, skew).joined|
    ensures var s := Run(start, events, skew);
            && |s.joined| + |s.cached| == CallCount(events)
            && (s.joined[k].delivered.Some? ==>
                  && s.joined[k].refresh in s.answers
                  && s.joined[k].delivered.value == OutcomeOf(s.answers[s.joined[k].refresh]))
            && (s.joined[k].refresh == s.joined[l].refresh
                && s.joined[k].delivered.Some? && s.joined[l].delivered.Some? ==>
                  s.joined[k].delivered == s.joined[l].delivered)
            && (s.joined[k].delivered.None? ==> CanDeliver(s, k) || s.inFlight == Some(s.joined[k].refresh))
  {
    hide OutcomeOf, TokensChain;
    StartInv(start, skew);
    RunKeeps(start, events, start, skew);
    CallsAccounted(start, events, skew);
  }

  /**
   A call that needs a refresh joins the one in flight, or else sends the only one; it joins no refresh
   that had settled before.  Whatever follows, it stays with that refresh and gets its outcome.
   */
  lemma CallStaysWithRefresh(start: State, before: seq<Event>, caller: Caller, now: int, after: seq<Event>, skew: int)
    requires IsStart(start) && ShouldRefresh(Run(start, before, skew).expiresAt, now, skew)
    ensures var s := Run(start, before, skew);
            var t := Run(start, before + ([Call(caller, now)] + after), skew);
            var k := |s.joined|;
            && k < |t.joined| && t.joined[k].caller == caller
            && (t.joined[k].refresh in s.answers ==> s.inFlight == Some(t.joined[k].refresh))
            && (s.inFlight.Some? ==>
                  t.joined[k].refresh == s.inFlight.value && Step(s, Call(caller, now), skew).sent == s.sent)
            && (s.inFlight.None? ==>
                  |s.sent| < |t.sent| && t.joined[k].refresh == |s.sent| && t.sent[|s.sent|] == s.refreshToken)
            && (t.joined[k].delivered.Some? ==>
                  && t.joined[k].refresh in t.answers
                  && t.joined[k].delivered.value == OutcomeOf(t.answers[t.joined[k].refresh]))
  {
    hide OutcomeOf, TokensChain, LogsOk, NewestHeld, TokenAfter;
    var s := Run(start, before, skew);
    StartInv(start, skew);
    var next := Step(s, Call(caller, now), skew);
    RunAppend(start, before, [Call(caller, now)] + after, skew);
    assert ([Call(caller, now)] + after)[1..] == after;
    assert Run(s, [Call(caller, now)] + after, skew) == Run(next, after, skew);
    RunKeeps(start, before, start, skew);
    CallKeeps(s, caller, now, start, skew);
    NothingIsReplaced(next, after, start, skew);
    RunKeeps(next, after, start, skew);
    hide Run;
  }
}
