/** The token refresh protocol of the web client as a machine of atomic steps.

    A step is what the browser runs between two `await`s. The page's storage keys, the
    module variable `refreshPromise`, every API call and every refresh live in one `State`;
    the environment chooses which response arrives next. A refresh ("flight") is named by
    its position in `flights`, so `slot` is a reference to a promise, settled or not. */
module RefreshProtocol {
  import opened Common

  type Token = string

  datatype Pair = Pair(access: Token, refresh: Token)

  /** The callers of the client: `apiFetch` with its `auth` option, `downloadFile`, and the
      three operations of the auth context. */
  datatype Kind = Api(auth: bool) | Download | Login | Logout | Boot

  /** The Authorization header of one request; a download's retry may send `Bearer null`. */
  datatype Header = NoHeader | Bearer(token: Option<Token>)

  datatype Phase =
    | FirstSent
    | Waiting(flight: nat)
    | SecondSent
    | Settling(ok: bool)  // final response in hand, its body and the caller's continuation to come
    | Done

  /** What awaiting a flight gave to a call. */
  datatype Verdict = Verdict(flight: nat, refreshed: bool)

  datatype Call = Call(kind: Kind, phase: Phase, sent: seq<Header>, refused: bool, verdict: Option<Verdict>)

  datatype FlightPhase = Posted | Reading | Settled(ok: bool)

  /** `token` is the value posted to /auth/refresh; None is the return without a stored token. */
  datatype Flight = Flight(token: Option<Token>, phase: FlightPhase)

  datatype Reply = Success | Unauthorized | Failure | Lost

  datatype Body = Unreadable | Data | Tokens(pair: Pair)

  datatype Event =
    | Start(kind: Kind)
    | Answer(call: nat, reply: Reply)
    | Resume(call: nat)
    | Finish(call: nat, body: Body)
    | FlightAnswer(flight: nat, ok: bool)
    | FlightBody(flight: nat, body: Body)

  /** `issued` and `seen` are history: the pairs that ever reached the page, and every
      refresh token it ever held. */
  datatype State = State(
    access: Option<Token>,
    refresh: Option<Token>,
    slot: Option<nat>,
    flights: seq<Flight>,
    calls: seq<Call>,
    issued: set<Pair>,
    seen: set<Token>)

  // ---------- The client's code, step by step ----------

  /** JavaScript truthiness of a stored token. */
  predicate Present(t: Option<Token>) {
    t.Some? && t.value != ""
  }

  predicate Authenticated(kind: Kind) {
    kind == Api(true) || kind.Boot? || kind.Download?
  }

  function AuthHeader(s: State): Header {
    if Present(s.access) then Bearer(s.access) else NoHeader
  }

  function FirstHeader(s: State, kind: Kind): Header {
    if Authenticated(kind) then AuthHeader(s) else NoHeader
  }

  function RetryHeader(s: State, kind: Kind): Header {
    if kind.Download? then Bearer(s.access) else AuthHeader(s)
  }

  function Store(s: State, pair: Pair): State {
    s.(access := Some(pair.access), refresh := Some(pair.refresh),
       issued := s.issued + {pair}, seen := s.seen + {pair.refresh})
  }

  function Clear(s: State): State {
    s.(access := None, refresh := None)
  }

  /** The flight that `refreshTokens` makes its caller await, and the state it leaves. */
  function RefreshTokens(s: State): (State, nat) {
    if s.slot.Some? then (s, s.slot.value)
    else
      var flight := if Present(s.refresh) then Flight(s.refresh, Posted) else Flight(None, Settled(false));
      (s.(flights := s.flights + [flight], slot := Some(|s.flights|)), |s.flights|)
  }

  function StartCall(s: State, kind: Kind): State {
    if kind.Boot? && !(Present(s.access) && Present(s.refresh)) then
      s.(calls := s.calls + [Call(kind, Done, [], false, None)])
    else if kind.Logout? && !Present(s.refresh) then
      Clear(s).(calls := s.calls + [Call(kind, Done, [], false, None)])
    else
      s.(calls := s.calls + [Call(kind, FirstSent, [FirstHeader(s, kind)], false, None)])
  }

  /** Whether a 401 on the first request leads to `refreshTokens`. */
  predicate MayRefresh(s: State, kind: Kind) {
    kind == Api(true) || kind.Boot? || (kind.Download? && Present(s.refresh))
  }

  function AnswerCall(s: State, c: nat, reply: Reply): State
    requires c < |s.calls|
  {
    var call := s.calls[c];
    if call.phase.FirstSent? && reply.Unauthorized? && MayRefresh(s, call.kind) then
      var (s', f) := RefreshTokens(s);
      s'.(calls := s.calls[c := call.(phase := Waiting(f), refused := true)])
    else if call.phase.FirstSent? then
      s.(calls := s.calls[c := call.(phase := Settling(reply.Success?),
                                     refused := call.refused || (reply.Unauthorized? && Authenticated(call.kind)))])
    else
      s.(calls := s.calls[c := call.(phase := Settling(reply.Success?))])
  }

  function ResumeCall(s: State, c: nat): State
    requires Enabled(s, Resume(c))
  {
    var call := s.calls[c];
    var f := call.phase.flight;
    var refreshed := s.flights[f].phase.ok;
    var verdict := Some(Verdict(f, refreshed));
    if refreshed then
      s.(calls := s.calls[c := call.(phase := SecondSent, verdict := verdict,
                                     sent := call.sent + [RetryHeader(s, call.kind)])])
    else
      s.(calls := s.calls[c := call.(phase := Settling(false), verdict := verdict)])
  }

  function FinishCall(s: State, c: nat, body: Body): State
    requires Enabled(s, Finish(c, body))
  {
    var call := s.calls[c];
    var ok := call.phase.ok && !body.Unreadable?;
    var s' := s.(calls := s.calls[c := call.(phase := Done)]);
    if call.kind.Login? && body.Tokens? then Store(s', body.pair)
    else if call.kind.Logout? || (call.kind.Boot? && !ok) then Clear(s')
    else s'
  }

  /** The `return` of a flight together with its `finally`. */
  function Land(s: State, f: nat, ok: bool): State
    requires f < |s.flights|
  {
    s.(flights := s.flights[f := s.flights[f].(phase := Settled(ok))], slot := None)
  }

  function AnswerFlight(s: State, f: nat, ok: bool): State
    requires f < |s.flights|
  {
    if ok then s.(flights := s.flights[f := s.flights[f].(phase := Reading)])
    else Land(Clear(s), f, false)
  }

  function ReadFlight(s: State, f: nat, body: Body): State
    requires f < |s.flights|
  {
    if body.Tokens? then Land(Store(s, body.pair), f, true) else Land(Clear(s), f, false)
  }

  // ---------- Runs ----------

  /** The server never hands out a refresh token the page has held before. */
  predicate Fresh(s: State, body: Body) {
    body.Tokens? ==> body.pair.refresh !in s.seen
  }

  predicate Enabled(s: State, e: Event) {
    match e
    case Start(_) => true
    case Answer(c, _) => c < |s.calls| && (s.calls[c].phase.FirstSent? || s.calls[c].phase.SecondSent?)
    case Resume(c) =>
      c < |s.calls| && s.calls[c].phase.Waiting? &&
      var f := s.calls[c].phase.flight;
      f < |s.flights| && s.flights[f].phase.Settled?
    case Finish(c, body) =>
      c < |s.calls| && s.calls[c].phase.Settling? && Fresh(s, body) &&
      var signedIn := s.calls[c].kind.Login? && s.calls[c].phase.ok;
      if signedIn then !body.Data? else !body.Tokens?
    case FlightAnswer(f, _) => f < |s.flights| && s.flights[f].phase.Posted?
    case FlightBody(f, body) => f < |s.flights| && s.flights[f].phase.Reading? && Fresh(s, body) && !body.Data?
  }

  function Step(s: State, e: Event): State
    requires Enabled(s, e)
  {
    match e
    case Start(kind) => StartCall(s, kind)
    case Answer(c, reply) => AnswerCall(s, c, reply)
    case Resume(c) => ResumeCall(s, c)
    case Finish(c, body) => FinishCall(s, c, body)
    case FlightAnswer(f, ok) => AnswerFlight(s, f, ok)
    case FlightBody(f, body) => ReadFlight(s, f, body)
  }

  predicate IsRun(s: State, es: seq<Event>)
    decreases |es|
  {
    es == [] || (Enabled(s, es[0]) && IsRun(Step(s, es[0]), es[1..]))
  }

  function Exec(s: State, es: seq<Event>): State
    requires IsRun(s, es)
    decreases |es|
  {
    if es == [] then s else Exec(Step(s, es[0]), es[1..])
  }

  /** A page that has just been loaded, over whatever the storage held. */
  predicate Initial(s: State) {
    s.slot == None && s.flights == [] && s.calls == [] &&
    (s.refresh.Some? ==> s.refresh.value in s.seen) &&
    (s.access.Some? && s.refresh.Some? ==> Pair(s.access.value, s.refresh.value) in s.issued)
  }

  // ---------- The invariant ----------

  ghost predicate Unfinished(s: State, f: nat) {
    f < |s.flights| && !s.flights[f].phase.Settled?
  }

  /** The no-token return has been taken: a settled `false` sits in `refreshPromise`. */
  ghost predicate Stuck(s: State) {
    exists f :: 0 <= f < |s.flights| && s.flights[f].token.None?
  }

  ghost predicate SlotInv(s: State) {
    && (s.slot.Some? ==> s.slot.value < |s.flights|)
    && (forall f :: 0 <= f < |s.flights| ==>
          (!s.flights[f].phase.Settled? || s.flights[f].token.None?) ==> s.slot == Some(f))
    && (s.slot.Some? && s.flights[s.slot.value].phase.Settled? ==>
          s.flights[s.slot.value] == Flight(None, Settled(false)))
    && (forall f :: 0 <= f < |s.flights| ==> s.flights[f].token.None? ==> s.flights[f].phase == Settled(false))
  }

  ghost predicate TokenInv(s: State) {
    && (s.refresh.Some? ==> s.refresh.value in s.seen)
    && (forall f :: 0 <= f < |s.flights| ==> s.flights[f].token.Some? ==> s.flights[f].token.value in s.seen)
    && (forall f, g :: 0 <= f < g < |s.flights| ==> s.flights[f].token.Some? ==> s.flights[f].token != s.flights[g].token)
    && (forall f :: 0 <= f < |s.flights| ==>
          s.flights[f].token.Some? && s.flights[f].phase.Settled? ==> s.flights[f].token != s.refresh)
  }

  ghost predicate CallInv(s: State, call: Call) {
    && (call.phase.Waiting? ==> call.phase.flight < |s.flights|)
    && (call.phase.FirstSent? || call.phase.Waiting? ==> |call.sent| == 1 && call.verdict.None?)
    && (call.verdict.Some? ==>
          call.verdict.value.flight < |s.flights| &&
          s.flights[call.verdict.value.flight].phase == Settled(call.verdict.value.refreshed))
    && |call.sent| <= 2
    && (|call.sent| == 2 <==> call.verdict.Some? && call.verdict.value.refreshed)
    && (call.verdict.Some? || call.phase.Waiting? ==> call.refused)
    && (call.phase.FirstSent? ==> !call.refused)
  }

  ghost predicate Inv(s: State) {
    SlotInv(s) && TokenInv(s) && forall c :: 0 <= c < |s.calls| ==> CallInv(s, s.calls[c])
  }

  /** A step that starts and ends no flight, and leaves the stored refresh token, removes it or
      replaces it by one not seen before. */
  lemma SameFlightsKeep(s: State, s': State)
    requires SlotInv(s) && TokenInv(s) && s'.flights == s.flights && s'.slot == s.slot && s.seen <= s'.seen
    requires s'.refresh.Some? ==>
      s'.refresh.value in s'.seen && (s'.refresh == s.refresh || s'.refresh.value !in s.seen)
    ensures SlotInv(s') && TokenInv(s')
  {
  }

  lemma RefreshKeeps(s: State)
    requires SlotInv(s) && TokenInv(s)
    ensures SlotInv(RefreshTokens(s).0) && TokenInv(RefreshTokens(s).0)
  {
  }

  lemma AnswerFlightKeeps(s: State, f: nat, ok: bool)
    requires Enabled(s, FlightAnswer(f, ok)) && SlotInv(s) && TokenInv(s)
    ensures SlotInv(AnswerFlight(s, f, ok)) && TokenInv(AnswerFlight(s, f, ok))
  {
  }

  lemma ReadFlightKeeps(s: State, f: nat, body: Body)
    requires Enabled(s, FlightBody(f, body)) && SlotInv(s) && TokenInv(s)
    ensures SlotInv(ReadFlight(s, f, body)) && TokenInv(ReadFlight(s, f, body))
  {
  }

  lemma StepKeepsFlights(s: State, e: Event)
    requires Enabled(s, e) && SlotInv(s) && TokenInv(s)
    ensures SlotInv(Step(s, e)) && TokenInv(Step(s, e))
  {
    match e {
      case Start(kind) => SameFlightsKeep(s, StartCall(s, kind));
      case Answer(c, reply) =>
        RefreshKeeps(s);
        var s' := AnswerCall(s, c, reply);
        if s'.flights == s.flights && s'.slot == s.slot {
          SameFlightsKeep(s, s');
        } else {
          SameFlightsKeep(RefreshTokens(s).0, s');
        }
      case Resume(c) => SameFlightsKeep(s, ResumeCall(s, c));
      case Finish(c, body) => SameFlightsKeep(s, FinishCall(s, c, body));
      case FlightAnswer(f, ok) => AnswerFlightKeeps(s, f, ok);
      case FlightBody(f, body) => ReadFlightKeeps(s, f, body);
    }
  }

  /** Flights are only added, keep their token, and once settled never change. */
  ghost predicate FlightsEvolve(s: State, s': State) {
    |s.flights| <= |s'.flights| &&
    forall f :: 0 <= f < |s.flights| ==>
      s'.flights[f].token == s.flights[f].token && (s.flights[f].phase.Settled? ==> s'.flights[f] == s.flights[f])
  }

  lemma StepEvolvesFlights(s: State, e: Event)
    requires Enabled(s, e)
    ensures FlightsEvolve(s, Step(s, e))
  {
  }

  lemma CallInvCarries(s: State, s': State, call: Call)
    requires FlightsEvolve(s, s') && CallInv(s, call)
    ensures CallInv(s', call)
  {
  }

  /** The call a step works on; the others are untouched. */
  function Touched(s: State, e: Event): nat {
    match e
    case Start(_) => |s.calls|
    case Answer(c, _) => c
    case Resume(c) => c
    case Finish(c, _) => c
    case FlightAnswer(_, _) => |s.calls|
    case FlightBody(_, _) => |s.calls|
  }

  lemma TouchedCallKeeps(s: State, e: Event)
    requires Enabled(s, e) && Inv(s)
    ensures Touched(s, e) < |Step(s, e).calls| ==> CallInv(Step(s, e), Step(s, e).calls[Touched(s, e)])
  {
    if Touched(s, e) < |s.calls| {
      assert CallInv(s, s.calls[Touched(s, e)]);
    }
  }

  lemma OthersUntouched(s: State, e: Event, c: nat)
    requires Enabled(s, e) && c < |Step(s, e).calls| && c != Touched(s, e)
    ensures c < |s.calls| && Step(s, e).calls[c] == s.calls[c]
  {
  }

  lemma StepKeepsInv(s: State, e: Event)
    requires Enabled(s, e) && Inv(s)
    ensures Inv(Step(s, e))
  {
    var s' := Step(s, e);
    StepKeepsFlights(s, e);
    StepEvolvesFlights(s, e);
    TouchedCallKeeps(s, e);
    forall c | 0 <= c < |s'.calls| ensures CallInv(s', s'.calls[c]) {
      if c != Touched(s, e) {
        OthersUntouched(s, e, c);
        CallInvCarries(s, s', s.calls[c]);
      }
    }
  }

  lemma {:induction false} RunKeepsInv(s: State, es: seq<Event>)
    requires IsRun(s, es) && Inv(s)
    ensures Inv(Exec(s, es))
    decreases |es|
  {
    if es != [] {
      StepKeepsInv(s, es[0]);
      RunKeepsInv(Step(s, es[0]), es[1..]);
    }
  }

  // ---------- Safety over whole runs ----------

  /** No refresh token is ever posted to /auth/refresh twice. */
  lemma NoReplay(s: State, es: seq<Event>, f: nat, g: nat)
    requires Initial(s) && IsRun(s, es)
    requires f < |Exec(s, es).flights| && g < |Exec(s, es).flights| && f != g
    requires Exec(s, es).flights[f].token.Some?
    ensures Exec(s, es).flights[f].token != Exec(s, es).flights[g].token
  {
    RunKeepsInv(s, es);
  }

  /** At most one refresh is unfinished, and `refreshPromise` is set exactly while one is,
      unless the no-token return has left a settled promise in it. */
  lemma SingleFlight(s: State, es: seq<Event>)
    requires Initial(s) && IsRun(s, es)
    ensures var t := Exec(s, es);
      && (forall f: nat, g: nat :: Unfinished(t, f) && Unfinished(t, g) ==> f == g)
      && (t.slot.Some? <==> Stuck(t) || exists f: nat :: Unfinished(t, f))
      && !(Stuck(t) && exists f: nat :: Unfinished(t, f))
      && (forall f: nat :: Unfinished(t, f) ==> t.slot == Some(f))
  {
    RunKeepsInv(s, es);
    var t := Exec(s, es);
    if t.slot.Some? && !Stuck(t) {
      assert Unfinished(t, t.slot.value);
    }
  }

  /** Calls that awaited the same flight got the same outcome, the one the flight settled with. */
  lemma SharedOutcome(s: State, es: seq<Event>, c: nat, d: nat)
    requires Initial(s) && IsRun(s, es)
    requires c < |Exec(s, es).calls| && d < |Exec(s, es).calls|
    requires Exec(s, es).calls[c].verdict.Some? && Exec(s, es).calls[d].verdict.Some?
    requires Exec(s, es).calls[c].verdict.value.flight == Exec(s, es).calls[d].verdict.value.flight
    ensures Exec(s, es).calls[c].verdict == Exec(s, es).calls[d].verdict
  {
    RunKeepsInv(s, es);
    var t := Exec(s, es);
    assert CallInv(t, t.calls[c]) && CallInv(t, t.calls[d]);
  }

  /** Both keys are set or neither is, and what is set came in one server result. */
  ghost predicate Paired(s: State) {
    s.access.Some? == s.refresh.Some? &&
    (s.access.Some? ==> Pair(s.access.value, s.refresh.value) in s.issued)
  }

  lemma {:induction false} StoredPair(s: State, es: seq<Event>)
    requires Paired(s) && IsRun(s, es)
    ensures Paired(Exec(s, es))
    decreases |es|
  {
    if es != [] {
      StoredPair(Step(s, es[0]), es[1..]);
    }
  }

  /** A bearer token goes out only on authenticated calls and is the access token of a server
      result; `Bearer null` goes out only on the retry of a download. */
  ghost predicate Legitimate(s: State, call: Call) {
    && (call.phase.Waiting? ==> Authenticated(call.kind))
    && forall k :: 0 <= k < |call.sent| && call.sent[k].Bearer? ==>
      && Authenticated(call.kind)
      && if call.sent[k].token.Some? then exists pair :: pair in s.issued && pair.access == call.sent[k].token.value
         else call.kind.Download? && k == 1
  }

  ghost predicate AllLegitimate(s: State) {
    forall c :: 0 <= c < |s.calls| ==> Legitimate(s, s.calls[c])
  }

  lemma LegitimateCarries(s: State, s': State, call: Call)
    requires Legitimate(s, call) && s.issued <= s'.issued
    ensures Legitimate(s', call)
  {
  }

  lemma StartedLegitimate(s: State, kind: Kind)
    requires Paired(s)
    ensures var s' := StartCall(s, kind); Legitimate(s', s'.calls[|s.calls|])
  {
    if s.access.Some? {
      assert Pair(s.access.value, s.refresh.value) in s.issued;
    }
  }

  lemma ResumedLegitimate(s: State, c: nat)
    requires Enabled(s, Resume(c)) && CallInv(s, s.calls[c]) && Paired(s) && Legitimate(s, s.calls[c])
    ensures Legitimate(ResumeCall(s, c), ResumeCall(s, c).calls[c])
  {
    if s.access.Some? {
      assert Pair(s.access.value, s.refresh.value) in s.issued;
    }
  }

  lemma TouchedCallLegitimate(s: State, e: Event)
    requires Enabled(s, e) && Inv(s) && Paired(s)
    requires AllLegitimate(s)
    ensures var c, s' := Touched(s, e), Step(s, e);
      c < |s'.calls| ==> Legitimate(s', s'.calls[c])
  {
    if e.Start? {
      StartedLegitimate(s, e.kind);
    } else if e.Resume? {
      assert CallInv(s, s.calls[e.call]) && Legitimate(s, s.calls[e.call]);
      ResumedLegitimate(s, e.call);
    } else if e.Answer? || e.Finish? {
      assert Legitimate(s, s.calls[e.call]);
      assert Step(s, e).calls[e.call].sent == s.calls[e.call].sent;
    }
  }

  lemma StepKeepsLegitimate(s: State, e: Event)
    requires Enabled(s, e) && Inv(s) && Paired(s)
    requires AllLegitimate(s)
    ensures AllLegitimate(Step(s, e))
  {
    var s' := Step(s, e);
    TouchedCallLegitimate(s, e);
    forall c | 0 <= c < |s'.calls| && c != Touched(s, e) ensures Legitimate(s', s'.calls[c]) {
      OthersUntouched(s, e, c);
      LegitimateCarries(s, s', s.calls[c]);
    }
  }

  lemma {:induction false} HeadersLegitimate(s: State, es: seq<Event>)
    requires IsRun(s, es) && Inv(s) && Paired(s)
    requires AllLegitimate(s)
    ensures AllLegitimate(Exec(s, es))
    decreases |es|
  {
    if es != [] {
      StepKeepsInv(s, es[0]);
      StepKeepsLegitimate(s, es[0]);
      assert Paired(Step(s, es[0]));
      HeadersLegitimate(Step(s, es[0]), es[1..]);
    }
  }

  // ---------- The no-token return ----------

  /** An authenticated call meets a 401 with no refresh under way and no token to refresh with. */
  predicate TakesNoTokenReturn(s: State, e: Event) {
    e.Answer? && Enabled(s, e) && e.reply.Unauthorized? && s.calls[e.call].phase.FirstSent? &&
    MayRefresh(s, s.calls[e.call].kind) && s.slot.None? && !Present(s.refresh)
  }

  lemma StuckExactly(s: State, e: Event)
    requires Enabled(s, e)
    ensures Stuck(Step(s, e)) <==> Stuck(s) || TakesNoTokenReturn(s, e)
  {
    var s' := Step(s, e);
    StepEvolvesFlights(s, e);
    if Stuck(s) {
      var f :| 0 <= f < |s.flights| && s.flights[f].token.None?;
      assert s'.flights[f].token.None?;
    }
    if TakesNoTokenReturn(s, e) {
      assert s'.flights[|s.flights|].token.None?;
    }
  }

  /** A page is stuck after a run exactly when some step of the run took the no-token return. */
  lemma {:induction false} StuckIffTaken(s: State, es: seq<Event>)
    requires IsRun(s, es)
    ensures Stuck(Exec(s, es)) <==>
            Stuck(s) || exists k | 0 <= k < |es| :: IsRun(s, es[..k]) && TakesNoTokenReturn(Exec(s, es[..k]), es[k])
    decreases |es|
  {
    if es != [] {
      var s', rest := Step(s, es[0]), es[1..];
      StuckExactly(s, es[0]);
      StuckIffTaken(s', rest);
      assert es[..0] == [];
      forall k | 1 <= k <= |es|
        ensures es[..k][1..] == rest[..k - 1] && IsRun(s, es[..k]) == IsRun(s', rest[..k - 1])
        ensures IsRun(s, es[..k]) ==> Exec(s, es[..k]) == Exec(s', rest[..k - 1])
      {
        assert es[..k][1..] == rest[..k - 1];
      }
      if k :| 0 <= k < |rest| && IsRun(s', rest[..k]) && TakesNoTokenReturn(Exec(s', rest[..k]), rest[k]) {
        assert es[k + 1] == rest[k] && IsRun(s, es[..k + 1]);
      }
      if k :| 0 < k < |es| && IsRun(s, es[..k]) && TakesNoTokenReturn(Exec(s, es[..k]), es[k]) {
        assert rest[k - 1] == es[k] && IsRun(s', rest[..k - 1]);
      }
    }
  }

  /** Once stuck, no step of any continuation sends a refresh, whatever is stored later, and no
      call started from then on is ever retried. */
  lemma {:induction false} StuckForever(s: State, es: seq<Event>)
    requires Inv(s) && Stuck(s) && IsRun(s, es)
    ensures Exec(s, es).flights == s.flights
    ensures forall c :: |s.calls| <= c < |Exec(s, es).calls| ==> |Exec(s, es).calls[c].sent| <= 1
    decreases |es|
  {
    StuckLoop(s, es, |s.calls|);
  }

  lemma StuckStep(s: State, e: Event)
    requires Enabled(s, e) && Inv(s) && Stuck(s)
    ensures Step(s, e).flights == s.flights && Step(s, e).slot == s.slot
    ensures var c := Touched(s, e);
      c < |Step(s, e).calls| && (c == |s.calls| || JoinedStuck(s, s.calls[c])) ==> JoinedStuck(Step(s, e), Step(s, e).calls[c])
  {
    assert s.slot.Some? && s.flights[s.slot.value].phase == Settled(false);
    if Touched(s, e) < |s.calls| {
      assert CallInv(s, s.calls[Touched(s, e)]);
    }
  }

  lemma {:induction false} StuckLoop(s: State, es: seq<Event>, n: nat)
    requires Inv(s) && Stuck(s) && IsRun(s, es) && n <= |s.calls|
    requires forall c :: n <= c < |s.calls| ==> JoinedStuck(s, s.calls[c])
    ensures Exec(s, es).flights == s.flights && n <= |Exec(s, es).calls|
    ensures forall c :: n <= c < |Exec(s, es).calls| ==> JoinedStuck(Exec(s, es), Exec(s, es).calls[c])
    decreases |es|
  {
    if es != [] {
      var s' := Step(s, es[0]);
      StepKeepsInv(s, es[0]);
      StuckStep(s, es[0]);
      forall c | n <= c < |s'.calls| ensures JoinedStuck(s', s'.calls[c]) {
        if c != Touched(s, es[0]) {
          OthersUntouched(s, es[0], c);
        }
      }
      StuckLoop(s', es[1..], n);
    }
  }

  /** A call that can only be waiting for the settled `false`, and was never retried. */
  ghost predicate JoinedStuck(s: State, call: Call) {
    (call.phase.Waiting? ==> s.slot == Some(call.phase.flight)) && |call.sent| <= 1 && !call.phase.SecondSent?
  }

  lemma ExecCons(s: State, e: Event, es: seq<Event>)
    requires Enabled(s, e) && IsRun(Step(s, e), es)
    ensures IsRun(s, [e] + es) && Exec(s, [e] + es) == Exec(Step(s, e), es)
  {
    assert ([e] + es)[1..] == es;
  }

  /** A call of a signed-out page meets a 401 and fails. */
  lemma SignedOutCallSticks() returns (es: seq<Event>)
    ensures var s := State(None, None, None, [], [], {}, {});
      && Initial(s) && IsRun(s, es)
      && Exec(s, es) == State(None, None, Some(0), [Flight(None, Settled(false))],
                              [Call(Api(true), Waiting(0), [NoHeader], true, None)], {}, {})
  {
    var s := State(None, None, None, [], [], {}, {});
    ExecOne(Step(s, Start(Api(true))), Answer(0, Unauthorized));
    ExecCons(s, Start(Api(true)), [Answer(0, Unauthorized)]);
    es := [Start(Api(true))] + [Answer(0, Unauthorized)];
  }

  /** From there the user signs in; the next call that meets a 401 fails although a refresh token
      is stored, and nothing was ever posted. */
  lemma StuckAfterSignIn(s: State) returns (es: seq<Event>)
    requires s == State(None, None, Some(0), [Flight(None, Settled(false))],
                        [Call(Api(true), Waiting(0), [NoHeader], true, None)], {}, {})
    ensures IsRun(s, es)
    ensures var t := Exec(s, es);
      && Present(t.access) && Present(t.refresh) && t.flights == s.flights && |t.calls| == 3
      && t.calls[2] == Call(Api(true), Settling(false), [Bearer(Some("a"))], true, Some(Verdict(0, false)))
  {
    var s3 := Step(s, Start(Login));
    var s4 := Step(s3, Answer(1, Success));
    var signIn := Finish(1, Tokens(Pair("a", "r")));
    var s5 := Step(s4, signIn);
    var s6 := Step(s5, Start(Api(true)));
    var s7 := Step(s6, Answer(2, Unauthorized));
    ExecOne(s7, Resume(2));
    es := [Resume(2)];
    ExecCons(s6, Answer(2, Unauthorized), es); es := [Answer(2, Unauthorized)] + es;
    ExecCons(s5, Start(Api(true)), es); es := [Start(Api(true))] + es;
    ExecCons(s4, signIn, es); es := [signIn] + es;
    ExecCons(s3, Answer(1, Success), es); es := [Answer(1, Success)] + es;
    ExecCons(s, Start(Login), es); es := [Start(Login)] + es;
  }

  // ---------- Signing in and out ----------

  predicate LoggedOut(s: State) {
    s.access.None? && s.refresh.None?
  }

  predicate SignsIn(e: Event) {
    e.Finish? && e.body.Tokens?
  }

  lemma StepStaysLoggedOut(s: State, e: Event)
    requires Enabled(s, e) && Inv(s) && LoggedOut(s) && !SignsIn(e)
    requires forall f: nat :: !Unfinished(s, f)
    ensures LoggedOut(Step(s, e)) && forall f: nat :: !Unfinished(Step(s, e), f)
  {
    if e.FlightAnswer? || e.FlightBody? {
      assert Unfinished(s, e.flight);
    }
    forall f: nat | f < |s.flights| ensures !Unfinished(Step(s, e), f) {
      assert !Unfinished(s, f);
      StepEvolvesFlights(s, e);
    }
  }

  lemma {:induction false} StaysLoggedOut(s: State, es: seq<Event>)
    requires Inv(s) && LoggedOut(s) && IsRun(s, es)
    requires forall f: nat :: !Unfinished(s, f)
    requires forall e :: e in es ==> !SignsIn(e)
    ensures LoggedOut(Exec(s, es))
    decreases |es|
  {
    if es != [] {
      StepKeepsInv(s, es[0]);
      StepStaysLoggedOut(s, es[0]);
      StaysLoggedOut(Step(s, es[0]), es[1..]);
    }
  }

  lemma ExecOne(s: State, e: Event)
    requires Enabled(s, e)
    ensures IsRun(s, [e]) && Exec(s, [e]) == Step(s, e)
  {
    assert [e][1..] == [];
    assert Exec(Step(s, e), []) == Step(s, e);
  }

  /** An unfinished refresh can store its tokens without a sign-in. */
  lemma UnfinishedCanStore(s: State, f: nat, unseen: Token) returns (es: seq<Event>)
    requires Unfinished(s, f) && unseen !in s.seen
    ensures IsRun(s, es) && !LoggedOut(Exec(s, es)) && forall e :: e in es ==> !SignsIn(e)
  {
    var body := FlightBody(f, Tokens(Pair("access", unseen)));
    es := [body];
    if s.flights[f].phase.Reading? {
      ExecOne(s, body);
    } else {
      ExecOne(Step(s, FlightAnswer(f, true)), body);
      ExecCons(s, FlightAnswer(f, true), es);
      es := [FlightAnswer(f, true)] + es;
    }
  }

  /** After a logout the storage stays empty until the next sign-in exactly when no refresh is
      unfinished: a refresh that outlives the logout can store its tokens again. */
  lemma LogoutIsFinalIff(s: State, unseen: Token)
    requires Inv(s) && LoggedOut(s) && unseen !in s.seen
    ensures (forall f: nat :: !Unfinished(s, f)) <==>
            (forall es: seq<Event> :: IsRun(s, es) && (forall e :: e in es ==> !SignsIn(e)) ==> LoggedOut(Exec(s, es)))
  {
    if f: nat :| Unfinished(s, f) {
      var es := UnfinishedCanStore(s, f, unseen);
      assert IsRun(s, es) && !LoggedOut(Exec(s, es));
    } else {
      forall es: seq<Event> | IsRun(s, es) && (forall e :: e in es ==> !SignsIn(e)) ensures LoggedOut(Exec(s, es)) {
        StaysLoggedOut(s, es);
      }
    }
  }

  /** A page over a stored pair: a call meets a 401 and its refresh goes out; the user signs out,
      and the storage is empty while the refresh is still under way. */
  lemma RefreshOutlivesSignOut(s: State) returns (es: seq<Event>)
    requires s == State(Some("a"), Some("r"), None, [], [], {Pair("a", "r")}, {"r"})
    ensures Initial(s) && IsRun(s, es)
    ensures Exec(s, es)
         == State(None, None, Some(0), [Flight(Some("r"), Posted)],
                  [Call(Api(true), Waiting(0), [Bearer(Some("a"))], true, None), Call(Logout, Done, [NoHeader], false, None)],
                  {Pair("a", "r")}, {"r"})
    ensures LoggedOut(Exec(s, es)) && Unfinished(Exec(s, es), 0)
  {
    var s1 := Step(s, Start(Api(true)));
    var s2 := Step(s1, Start(Logout));
    var s3 := Step(s2, Answer(0, Unauthorized));
    var s4 := Step(s3, Answer(1, Success));
    ExecOne(s4, Finish(1, Data));
    es := [Finish(1, Data)];
    ExecCons(s3, Answer(1, Success), es); es := [Answer(1, Success)] + es;
    ExecCons(s2, Answer(0, Unauthorized), es); es := [Answer(0, Unauthorized)] + es;
    ExecCons(s1, Start(Logout), es); es := [Start(Logout)] + es;
    ExecCons(s, Start(Api(true)), es); es := [Start(Api(true))] + es;
  }

  /** And from there the refresh stores its tokens, with nobody signed in since. */
  lemma SignOutUndone(s: State) returns (es: seq<Event>, more: seq<Event>)
    requires s == State(Some("a"), Some("r"), None, [], [], {Pair("a", "r")}, {"r"})
    ensures Initial(s) && IsRun(s, es) && LoggedOut(Exec(s, es))
    ensures IsRun(Exec(s, es), more) && !LoggedOut(Exec(Exec(s, es), more)) && forall e :: e in more ==> !SignsIn(e)
  {
    es := RefreshOutlivesSignOut(s);
    more := UnfinishedCanStore(Exec(s, es), 0, "r1");
  }

  lemma {:induction false} ExecAppend(s: State, es: seq<Event>, more: seq<Event>)
    requires IsRun(s, es) && IsRun(Exec(s, es), more)
    ensures IsRun(s, es + more) && Exec(s, es + more) == Exec(Exec(s, es), more)
    decreases |es|
  {
    if es == [] {
      assert es + more == more;
    } else {
      ExecAppend(Step(s, es[0]), es[1..], more);
      ExecCons(s, es[0], es[1..] + more);
      assert [es[0]] + (es[1..] + more) == es + more;
    }
  }

  // ---------- Bounded work ----------

  ghost function Posts(s: State): set<nat> {
    set f: nat | f < |s.flights| && s.flights[f].token.Some?
  }

  ghost function Refusals(s: State): set<nat> {
    set c: nat | c < |s.calls| && s.calls[c].refused
  }

  lemma RefusalsGrow(s: State, e: Event)
    requires Enabled(s, e) && Inv(s)
    ensures Refusals(s) <= Refusals(Step(s, e))
  {
    forall c: nat | c in Refusals(s) ensures Step(s, e).calls[c].refused {
      assert CallInv(s, s.calls[c]);
    }
  }

  /** A flight starts only in the step that answers a call's first request with 401. */
  lemma OnlyRefusalsPost(s: State, e: Event)
    requires Enabled(s, e) && Inv(s)
    ensures Posts(Step(s, e)) == Posts(s) ||
            (&& Posts(Step(s, e)) == Posts(s) + {|s.flights|}
             && e.Answer? && e.call !in Refusals(s) && e.call in Refusals(Step(s, e)))
  {
    StepEvolvesFlights(s, e);
    if |Step(s, e).flights| > |s.flights| {
      assert CallInv(s, s.calls[e.call]);
    }
  }

  lemma StepCounts(s: State, e: Event)
    requires Enabled(s, e) && Inv(s) && |Posts(s)| <= |Refusals(s)|
    ensures |Posts(Step(s, e))| <= |Refusals(Step(s, e))|
  {
    RefusalsGrow(s, e);
    OnlyRefusalsPost(s, e);
    if Posts(Step(s, e)) == Posts(s) {
      SubsetSize(Refusals(s), Refusals(Step(s, e)));
    } else {
      SubsetSize(Refusals(s) + {e.call}, Refusals(Step(s, e)));
    }
  }

  lemma {:induction false} SubsetSize(a: set<nat>, b: set<nat>)
    requires a <= b
    ensures |a| <= |b|
  {
    if x :| x in a {
      SubsetSize(a - {x}, b - {x});
    }
  }

  lemma {:induction false} RunCounts(s: State, es: seq<Event>)
    requires IsRun(s, es) && Inv(s) && |Posts(s)| <= |Refusals(s)|
    ensures |Posts(Exec(s, es))| <= |Refusals(Exec(s, es))|
    decreases |es|
  {
    if es != [] {
      StepKeepsInv(s, es[0]);
      StepCounts(s, es[0]);
      RunCounts(Step(s, es[0]), es[1..]);
    }
  }

  /** Every call sends its request at most twice, the second time only after a refresh that
      succeeded; and refreshes never outnumber the calls whose first response was 401. */
  lemma BoundedRequests(s: State, es: seq<Event>)
    requires Initial(s) && IsRun(s, es)
    ensures var t := Exec(s, es);
      && (forall c :: 0 <= c < |t.calls| ==> |t.calls[c].sent| <= 2)
      && (forall c :: 0 <= c < |t.calls| ==>
            (|t.calls[c].sent| == 2 <==> t.calls[c].verdict.Some? && t.calls[c].verdict.value.refreshed))
      && |Posts(t)| <= |Refusals(t)|
  {
    RunKeepsInv(s, es);
    RunCounts(s, es);
    var t := Exec(s, es);
    forall c | 0 <= c < |t.calls| ensures CallInv(t, t.calls[c]) {}
  }

  function CallWork(call: Call): nat {
    match call.phase
    case FirstSent => 6
    case Waiting(_) => 3
    case SecondSent => 2
    case Settling(_) => 1
    case Done => 0
  }

  function FlightWork(flight: Flight): nat {
    match flight.phase
    case Posted => 2
    case Reading => 1
    case Settled(_) => 0
  }

  function CallsWork(calls: seq<Call>): nat {
    if calls == [] then 0 else CallsWork(calls[..|calls| - 1]) + CallWork(calls[|calls| - 1])
  }

  function FlightsWork(flights: seq<Flight>): nat {
    if flights == [] then 0 else FlightsWork(flights[..|flights| - 1]) + FlightWork(flights[|flights| - 1])
  }

  /** What is still to happen: the requests and flights under way, weighted by their phase. */
  function Work(s: State): nat {
    CallsWork(s.calls) + FlightsWork(s.flights)
  }

  lemma {:induction false} CallsWorkUpdate(calls: seq<Call>, c: nat, call: Call)
    requires c < |calls|
    ensures CallsWork(calls[c := call]) == CallsWork(calls) - CallWork(calls[c]) + CallWork(call)
    ensures CallsWork(calls) >= CallWork(calls[c])
  {
    var n := |calls| - 1;
    if c == n {
      assert calls[c := call][..n] == calls[..n];
    } else {
      CallsWorkUpdate(calls[..n], c, call);
      assert calls[c := call][..n] == calls[..n][c := call];
    }
  }

  lemma {:induction false} FlightsWorkUpdate(flights: seq<Flight>, f: nat, flight: Flight)
    requires f < |flights|
    ensures FlightsWork(flights[f := flight]) == FlightsWork(flights) - FlightWork(flights[f]) + FlightWork(flight)
    ensures FlightsWork(flights) >= FlightWork(flights[f])
  {
    var n := |flights| - 1;
    if f == n {
      assert flights[f := flight][..n] == flights[..n];
    } else {
      FlightsWorkUpdate(flights[..n], f, flight);
      assert flights[f := flight][..n] == flights[..n][f := flight];
    }
  }

  lemma FlightStepWorks(s: State, e: Event)
    requires Enabled(s, e) && (e.FlightAnswer? || e.FlightBody?)
    ensures Work(Step(s, e)) < Work(s)
  {
    var f := e.flight;
    var s' := Step(s, e);
    assert s'.flights == s.flights[f := s'.flights[f]] && s'.calls == s.calls;
    FlightsWorkUpdate(s.flights, f, s'.flights[f]);
  }

  lemma RefreshAddsWork(s: State)
    ensures FlightsWork(RefreshTokens(s).0.flights) <= FlightsWork(s.flights) + 2
  {
    if s.slot.None? {
      assert RefreshTokens(s).0.flights[..|s.flights|] == s.flights;
    }
  }

  lemma AnswerWorks(s: State, c: nat, reply: Reply)
    requires Enabled(s, Answer(c, reply))
    ensures Work(AnswerCall(s, c, reply)) < Work(s)
  {
    var s' := AnswerCall(s, c, reply);
    assert s'.calls == s.calls[c := s'.calls[c]];
    CallsWorkUpdate(s.calls, c, s'.calls[c]);
    RefreshAddsWork(s);
  }

  lemma CallStepWorks(s: State, e: Event)
    requires Enabled(s, e) && (e.Resume? || e.Finish?)
    ensures Work(Step(s, e)) < Work(s)
  {
    var s' := Step(s, e);
    assert s'.calls == s.calls[e.call := s'.calls[e.call]] && s'.flights == s.flights;
    CallsWorkUpdate(s.calls, e.call, s'.calls[e.call]);
  }

  /** Every step but a new call leaves strictly less to do. */
  lemma WorkDecreases(s: State, e: Event)
    requires Enabled(s, e) && !e.Start?
    ensures Work(Step(s, e)) < Work(s)
  {
    if e.FlightAnswer? || e.FlightBody? {
      FlightStepWorks(s, e);
    } else if e.Answer? {
      AnswerWorks(s, e.call, e.reply);
    } else {
      CallStepWorks(s, e);
    }
  }

  lemma StartAddsWork(s: State, kind: Kind)
    ensures Work(StartCall(s, kind)) <= Work(s) + 6
  {
    assert StartCall(s, kind).calls[..|s.calls|] == s.calls;
  }

  function Starts(es: seq<Event>): nat {
    if es == [] then 0 else (if es[0].Start? then 1 else 0) + Starts(es[1..])
  }

  /** A run is no longer than seven steps a call: with finitely many calls everything ends. */
  lemma {:induction false} RunsAreShort(s: State, es: seq<Event>)
    requires IsRun(s, es)
    ensures |es| + Work(Exec(s, es)) <= Work(s) + 7 * Starts(es)
    decreases |es|
  {
    if es != [] {
      if es[0].Start? {
        StartAddsWork(s, es[0].kind);
      } else {
        WorkDecreases(s, es[0]);
      }
      RunsAreShort(Step(s, es[0]), es[1..]);
    }
  }

  /** No call is stranded: while one is not done or a flight is unfinished, some step other
      than a new call can be taken. */
  lemma NoCallIsStranded(s: State, es: seq<Event>)
    requires Initial(s) && IsRun(s, es)
    requires var t := Exec(s, es);
      (exists c :: 0 <= c < |t.calls| && !t.calls[c].phase.Done?) || exists f: nat :: Unfinished(t, f)
    ensures exists e: Event :: !e.Start? && Enabled(Exec(s, es), e)
  {
    RunKeepsInv(s, es);
    var t := Exec(s, es);
    if f: nat :| Unfinished(t, f) {
      assert Enabled(t, FlightAnswer(f, true)) || Enabled(t, FlightBody(f, Unreadable));
    } else {
      var c :| 0 <= c < |t.calls| && !t.calls[c].phase.Done?;
      assert CallInv(t, t.calls[c]);
      if t.calls[c].phase.Waiting? {
        assert !Unfinished(t, t.calls[c].phase.flight);
      }
      assert Enabled(t, Answer(c, Lost)) || Enabled(t, Resume(c)) || Enabled(t, Finish(c, Unreadable));
    }
  }
}
