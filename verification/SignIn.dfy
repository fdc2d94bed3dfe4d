/** What becomes of a sign-in: the pairs refreshed from it are its session, and the theorem says
    when nothing older than the sign-in can touch the storage any more. */
module SignIn {
  import opened Common
  import opened RefreshProtocol

  // ---------- The session of a sign-in ----------

  /** The refresh token of one of the session's pairs. */
  ghost predicate Kin(session: set<Pair>, token: Option<Token>) {
    exists pair :: pair in session && token == Some(pair.refresh)
  }

  /** A flight that posted a token of the session. */
  ghost predicate Own(s: State, session: set<Pair>, f: nat) {
    f < |s.flights| && Kin(session, s.flights[f].token)
  }

  /** The session after a step: the result of one of its own flights belongs to it. */
  ghost function Session(s: State, e: Event, session: set<Pair>): set<Pair> {
    if e.FlightBody? && e.body.Tokens? && Own(s, session, e.flight) then session + {e.body.pair} else session
  }

  ghost predicate Holds(s: State, session: set<Pair>) {
    exists pair :: pair in session && s.access == Some(pair.access) && s.refresh == Some(pair.refresh)
  }

  /** A boot check ends badly: without a success, or with a body that cannot be read. */
  predicate FailsBoot(call: Call, body: Body) {
    !(call.phase.Settling? && call.phase.ok) || body.Unreadable?
  }

  /** A step that ends the session from within: one of its own flights, or a failed boot check
      that is one of the calls from number `from` on. */
  ghost predicate EndsFromWithin(s: State, e: Event, session: set<Pair>, from: nat) {
    || ((e.FlightAnswer? || e.FlightBody?) && Own(s, session, e.flight))
    || (e.Finish? && from <= e.call < |s.calls| && s.calls[e.call].kind.Boot? && FailsBoot(s.calls[e.call], e.body))
  }

  ghost predicate LoyalStep(s: State, e: Event, session: set<Pair>, from: nat)
    requires Enabled(s, e)
  {
    var s' := Step(s, e);
    || (s'.access == s.access && s'.refresh == s.refresh)
    || Holds(s', Session(s, e, session))
    || (LoggedOut(s') && EndsFromWithin(s, e, session, from))
  }

  /** Along the run, what the storage holds is a pair of the session, and only the session or a
      failed boot check from number `from` on empties it. */
  ghost predicate Loyal(s: State, es: seq<Event>, session: set<Pair>, from: nat)
    requires IsRun(s, es)
    decreases |es|
  {
    es == [] || (LoyalStep(s, es[0], session, from) && Loyal(Step(s, es[0]), es[1..], Session(s, es[0], session), from))
  }

  /** Neither another sign-in nor a sign-out. */
  predicate Stays(e: Event) {
    !SignsIn(e) && e != Start(Logout)
  }

  /** A call whose end can empty the storage. */
  predicate Clears(call: Call) {
    call.kind.Logout? || call.kind.Boot?
  }

  /** No refresh, sign-out or boot check is unfinished. */
  ghost predicate NothingOlder(s: State) {
    && (forall f: nat :: !Unfinished(s, f))
    && (forall c :: 0 <= c < |s.calls| && Clears(s.calls[c]) ==> s.calls[c].phase.Done?)
  }

  // ---------- With nothing older, the session lasts ----------

  ghost predicate LoyalInv(s: State, session: set<Pair>, from: nat) {
    && Inv(s) && from <= |s.calls|
    && (LoggedOut(s) || Holds(s, session))
    && (forall f: nat :: Unfinished(s, f) ==> Own(s, session, f))
    && (forall c :: 0 <= c < |s.calls| && (s.calls[c].kind.Logout? || (c < from && s.calls[c].kind.Boot?)) ==>
          s.calls[c].phase.Done?)
  }

  lemma StorageStaysLoyal(s: State, e: Event, session: set<Pair>, from: nat)
    requires Enabled(s, e) && LoyalInv(s, session, from) && Stays(e)
    ensures LoyalStep(s, e, session, from)
    ensures LoggedOut(Step(s, e)) || Holds(Step(s, e), Session(s, e, session))
  {
    if e.FlightAnswer? || e.FlightBody? {
      assert Unfinished(s, e.flight);
      if e.FlightBody? && e.body.Tokens? {
        assert e.body.pair in Session(s, e, session);
      }
    }
  }

  lemma FlightsStayOwn(s: State, e: Event, session: set<Pair>, from: nat, f: nat)
    requires Enabled(s, e) && LoyalInv(s, session, from) && Stays(e) && Unfinished(Step(s, e), f)
    ensures Own(Step(s, e), Session(s, e, session), f)
  {
    StepEvolvesFlights(s, e);
    if f < |s.flights| {
      assert Unfinished(s, f);
      var pair :| pair in session && s.flights[f].token == Some(pair.refresh);
      assert pair in Session(s, e, session);
    } else {
      assert Step(s, e).flights[f].token == s.refresh;
      assert Holds(s, session);
    }
  }

  lemma StepStaysLoyal(s: State, e: Event, session: set<Pair>, from: nat)
    requires Enabled(s, e) && LoyalInv(s, session, from) && Stays(e)
    ensures LoyalInv(Step(s, e), Session(s, e, session), from)
  {
    var s' := Step(s, e);
    StepKeepsInv(s, e);
    StorageStaysLoyal(s, e, session, from);
    forall f: nat | Unfinished(s', f) ensures Own(s', Session(s, e, session), f) {
      FlightsStayOwn(s, e, session, from, f);
    }
    forall c | 0 <= c < |s'.calls| && (s'.calls[c].kind.Logout? || (c < from && s'.calls[c].kind.Boot?))
      ensures s'.calls[c].phase.Done?
    {
      if c != Touched(s, e) {
        OthersUntouched(s, e, c);
      }
    }
  }

  lemma {:induction false} RunStaysLoyal(s: State, es: seq<Event>, session: set<Pair>, from: nat)
    requires IsRun(s, es) && LoyalInv(s, session, from) && forall e :: e in es ==> Stays(e)
    ensures Loyal(s, es, session, from)
    decreases |es|
  {
    if es != [] {
      StorageStaysLoyal(s, es[0], session, from);
      StepStaysLoyal(s, es[0], session, from);
      RunStaysLoyal(Step(s, es[0]), es[1..], Session(s, es[0], session), from);
    }
  }

  // ---------- Something older can end it ----------

  lemma DisloyalOne(s: State, e: Event, session: set<Pair>, from: nat)
    requires Enabled(s, e) && !LoyalStep(s, e, session, from)
    ensures IsRun(s, [e]) && !Loyal(s, [e], session, from)
  {
    ExecOne(s, e);
  }

  lemma DisloyalCons(s: State, e: Event, es: seq<Event>, session: set<Pair>, from: nat)
    requires Enabled(s, e) && IsRun(Step(s, e), es) && !Loyal(Step(s, e), es, Session(s, e, session), from)
    ensures IsRun(s, [e] + es) && !Loyal(s, [e] + es, session, from)
  {
    ExecCons(s, e, es);
    assert ([e] + es)[1..] == es;
  }

  /** An older flight is refused or unreadable, and empties the storage. */
  lemma OlderFlightEnds(s: State, f: nat, session: set<Pair>, from: nat) returns (es: seq<Event>)
    requires Unfinished(s, f) && !Own(s, session, f) && s.access.Some?
    ensures IsRun(s, es) && (forall e :: e in es ==> Stays(e)) && !Loyal(s, es, session, from)
  {
    var e := if s.flights[f].phase.Posted? then FlightAnswer(f, false) else FlightBody(f, Unreadable);
    DisloyalOne(s, e, session, from);
    es := [e];
  }

  /** An older sign-out or boot check comes to its end, and empties the storage. */
  lemma {:induction false} OlderCallEnds(s: State, c: nat, session: set<Pair>, from: nat) returns (es: seq<Event>)
    requires Inv(s) && c < |s.calls| && c < from && Clears(s.calls[c]) && !s.calls[c].phase.Done?
    requires s.access.Some? && forall f: nat :: !Unfinished(s, f)
    ensures IsRun(s, es) && (forall e :: e in es ==> Stays(e)) && !Loyal(s, es, session, from)
    decreases CallWork(s.calls[c])
  {
    var phase := s.calls[c].phase;
    if phase.Settling? {
      DisloyalOne(s, Finish(c, Unreadable), session, from);
      es := [Finish(c, Unreadable)];
    } else {
      assert CallInv(s, s.calls[c]);
      if phase.Waiting? {
        assert !Unfinished(s, phase.flight);
      }
      var e := if phase.Waiting? then Resume(c) else Answer(c, Lost);
      StepKeepsInv(s, e);
      forall f: nat ensures !Unfinished(Step(s, e), f) {
        assert !Unfinished(s, f);
      }
      es := OlderCallEnds(Step(s, e), c, session, from);
      DisloyalCons(s, e, es, session, from);
      es := [e] + es;
    }
  }

  // ---------- The theorem ----------

  lemma SignedIn(s: State, c: nat, pair: Pair)
    requires Inv(s) && Enabled(s, Finish(c, Tokens(pair)))
    ensures var t := Step(s, Finish(c, Tokens(pair)));
      Inv(t) && Holds(t, {pair}) && forall f: nat :: Unfinished(t, f) ==> !Own(t, {pair}, f)
  {
    StepKeepsInv(s, Finish(c, Tokens(pair)));
    assert pair in {pair};
  }

  /** From the step that stores a sign-in until the next sign-in or sign-out, the storage holds
      only that sign-in's pair or pairs refreshed from it, and only one of its own refreshes or a
      later, failed boot check empties it. That is so in every run exactly when no refresh, sign-out or
      boot check was unfinished at that step: any of these can end the new session. */
  lemma SignInLastsIff(s: State, c: nat, pair: Pair)
    requires Inv(s) && Enabled(s, Finish(c, Tokens(pair)))
    ensures var t := Step(s, Finish(c, Tokens(pair)));
      NothingOlder(t) <==>
      forall es: seq<Event> :: IsRun(t, es) && (forall e :: e in es ==> Stays(e)) ==> Loyal(t, es, {pair}, |t.calls|)
  {
    var t := Step(s, Finish(c, Tokens(pair)));
    SignedIn(s, c, pair);
    if f: nat :| Unfinished(t, f) {
      var es := OlderFlightEnds(t, f, {pair}, |t.calls|);
    } else if d: nat :| d < |t.calls| && Clears(t.calls[d]) && !t.calls[d].phase.Done? {
      var es := OlderCallEnds(t, d, {pair}, |t.calls|);
    } else {
      forall es: seq<Event> | IsRun(t, es) && (forall e :: e in es ==> Stays(e))
        ensures Loyal(t, es, {pair}, |t.calls|)
      {
        RunStaysLoyal(t, es, {pair}, |t.calls|);
      }
    }
  }

  /** From there the user signs in, with the refresh of the old session still under way. */
  lemma SignInMeetsOldRefresh(s: State) returns (es: seq<Event>)
    requires s == State(None, None, Some(0), [Flight(Some("r"), Posted)],
                        [Call(Api(true), Waiting(0), [Bearer(Some("a"))], true, None), Call(Logout, Done, [NoHeader], false, None)],
                        {Pair("a", "r")}, {"r"})
    ensures IsRun(s, es) && es != [] && es[|es| - 1] == Finish(2, Tokens(Pair("b", "q")))
    ensures var t := Exec(s, es);
      && t.access == Some("b") && t.refresh == Some("q") && t.flights == s.flights
      && |t.calls| == 3 && t.seen == {"r", "q"}
  {
    var s1 := Step(s, Start(Login));
    var s2 := Step(s1, Answer(2, Success));
    var signIn := Finish(2, Tokens(Pair("b", "q")));
    ExecOne(s2, signIn);
    es := [signIn];
    ExecCons(s1, Answer(2, Success), es); es := [Answer(2, Success)] + es;
    ExecCons(s, Start(Login), es); es := [Start(Login)] + es;
  }

  /** The two ways the old refresh then ends: it is refused and signs the new user out, or it
      succeeds and puts a pair of the old session over the new one. */
  lemma OldRefreshLands(t: State) returns (refused: seq<Event>, landed: seq<Event>)
    requires t.access == Some("b") && t.refresh == Some("q") && t.flights == [Flight(Some("r"), Posted)]
    requires t.seen == {"r", "q"} && |t.calls| == 3
    ensures IsRun(t, refused) && LoggedOut(Exec(t, refused)) && !Loyal(t, refused, {Pair("b", "q")}, 3)
    ensures IsRun(t, landed) && Exec(t, landed).access == Some("c") && !Loyal(t, landed, {Pair("b", "q")}, 3)
    ensures forall e :: e in refused + landed ==> Stays(e)
  {
    var session := {Pair("b", "q")};
    ExecOne(t, FlightAnswer(0, false));
    DisloyalOne(t, FlightAnswer(0, false), session, 3);
    refused := [FlightAnswer(0, false)];
    var t' := Step(t, FlightAnswer(0, true));
    var body := FlightBody(0, Tokens(Pair("c", "r1")));
    ExecOne(t', body);
    DisloyalOne(t', body, session, 3);
    ExecCons(t, FlightAnswer(0, true), [body]);
    DisloyalCons(t, FlightAnswer(0, true), [body], session, 3);
    landed := [FlightAnswer(0, true)] + [body];
  }

  /** A run from a loaded page in which a completed sign-in is undone by a refresh of the session
      before it. */
  lemma SignInUndone(s: State) returns (es: seq<Event>, refused: seq<Event>, landed: seq<Event>)
    requires s == State(Some("a"), Some("r"), None, [], [], {Pair("a", "r")}, {"r"})
    ensures Initial(s) && IsRun(s, es) && IsRun(Exec(s, es), refused) && IsRun(Exec(s, es), landed)
    ensures es != [] && es[|es| - 1] == Finish(2, Tokens(Pair("b", "q")))
    ensures Exec(s, es).access == Some("b") && Exec(s, es).refresh == Some("q")
    ensures LoggedOut(Exec(Exec(s, es), refused)) && Exec(Exec(s, es), landed).access == Some("c")
    ensures forall e :: e in refused + landed ==> Stays(e)
  {
    var before := RefreshOutlivesSignOut(s);
    var after := SignInMeetsOldRefresh(Exec(s, before));
    ExecAppend(s, before, after);
    es := before + after;
    refused, landed := OldRefreshLands(Exec(s, es));
  }
}
