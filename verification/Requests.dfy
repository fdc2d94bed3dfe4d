/** What goes out on the wire and what comes of it, along whole runs: the header of every
    request, the outcome of every refresh, and the storage at the end of a call. */
module Requests {
  import opened Common
  import opened RefreshProtocol

  // ---------- Positions of a run ----------

  lemma {:induction false} PrefixRuns(s: State, es: seq<Event>, k: nat)
    requires IsRun(s, es) && k <= |es|
    ensures IsRun(s, es[..k])
    ensures k < |es| ==> Enabled(Exec(s, es[..k]), es[k]) && IsRun(s, es[..k + 1])
    ensures k < |es| ==> Exec(s, es[..k + 1]) == Step(Exec(s, es[..k]), es[k])
    decreases |es|
  {
    if k == 0 {
      assert es[..0] == [];
      if es != [] {
        assert es[..1] == [es[0]];
        ExecOne(s, es[0]);
      }
    } else {
      PrefixRuns(Step(s, es[0]), es[1..], k - 1);
      assert es[..k][1..] == es[1..][..k - 1];
      if k < |es| {
        assert es[..k + 1][1..] == es[1..][..k];
      }
    }
  }

  /** The state after the first `k` events. */
  ghost function At(s: State, es: seq<Event>, k: nat): State
    requires IsRun(s, es) && k <= |es|
  {
    PrefixRuns(s, es, k);
    Exec(s, es[..k])
  }

  lemma AtNext(s: State, es: seq<Event>, k: nat)
    requires IsRun(s, es) && k < |es|
    ensures Enabled(At(s, es, k), es[k]) && At(s, es, k + 1) == Step(At(s, es, k), es[k])
  {
    PrefixRuns(s, es, k);
  }

  lemma AtEnds(s: State, es: seq<Event>)
    requires IsRun(s, es)
    ensures At(s, es, 0) == s && At(s, es, |es|) == Exec(s, es)
  {
    assert es[..0] == [] && es[..|es|] == es;
  }

  lemma AtInv(s: State, es: seq<Event>, k: nat)
    requires Inv(s) && IsRun(s, es) && k <= |es|
    ensures Inv(At(s, es, k))
  {
    PrefixRuns(s, es, k);
    RunKeepsInv(s, es[..k]);
  }

  // ---------- Requests are only added ----------

  /** The call has sent all it will ever send. */
  predicate Past(call: Call) {
    call.phase.SecondSent? || call.phase.Settling? || call.phase.Done?
  }

  ghost predicate CallEvolves(a: Call, b: Call) {
    a.kind == b.kind && a.sent <= b.sent && (Past(a) ==> Past(b) && b.sent == a.sent)
  }

  lemma StepEvolvesCall(s: State, e: Event, c: nat)
    requires Enabled(s, e) && c < |s.calls|
    ensures c < |Step(s, e).calls| && CallEvolves(s.calls[c], Step(s, e).calls[c])
  {
    if c != Touched(s, e) {
      OthersUntouched(s, e, c);
    }
  }

  lemma {:induction false} CallEvolvesOn(s: State, es: seq<Event>, i: nat, k: nat, c: nat)
    requires IsRun(s, es) && i <= k <= |es| && c < |At(s, es, i).calls|
    ensures c < |At(s, es, k).calls| && CallEvolves(At(s, es, i).calls[c], At(s, es, k).calls[c])
    decreases k
  {
    if i < k {
      CallEvolvesOn(s, es, i, k - 1, c);
      AtNext(s, es, k - 1);
      StepEvolvesCall(At(s, es, k - 1), es[k - 1], c);
    }
  }

  // ---------- The headers ----------

  lemma SentAtStart(s: State, kind: Kind)
    ensures var t := Step(s, Start(kind)); var stored := s.access.Some? && s.access.value != "";
      var known := s.refresh.Some? && s.refresh.value != "";
      && |t.calls| == |s.calls| + 1 && t.calls[|s.calls|].kind == kind
      && var call := t.calls[|s.calls|];
      && (kind == Api(true) || kind.Download? || (kind.Boot? && stored && known) ==>
            call.sent == [if stored then Bearer(s.access) else NoHeader])
      && (kind == Api(false) || kind.Login? || (kind.Logout? && known) ==> call.sent == [NoHeader])
      && ((kind.Boot? && !(stored && known)) || (kind.Logout? && !known) ==> call.sent == [] && call.phase.Done?)
  {
  }

  /** The first request of an authenticated call carries exactly the access token stored when it
      starts, or none when none is stored; the others carry none. A boot check without both
      tokens and a sign-out without a refresh token send no request at all. */
  lemma FirstRequest(s: State, es: seq<Event>, k: nat)
    requires IsRun(s, es) && k < |es| && es[k].Start?
    ensures var now, kind := At(s, es, k), es[k].kind;
      var stored := now.access.Some? && now.access.value != "";
      var known := now.refresh.Some? && now.refresh.value != "";
      && |now.calls| < |Exec(s, es).calls|
      && var call := Exec(s, es).calls[|now.calls|];
      && call.kind == kind
      && (kind == Api(true) || kind.Download? || (kind.Boot? && stored && known) ==>
            |call.sent| > 0 && call.sent[0] == if stored then Bearer(now.access) else NoHeader)
      && (kind == Api(false) || kind.Login? || (kind.Logout? && known) ==> |call.sent| > 0 && call.sent[0] == NoHeader)
      && ((kind.Boot? && !(stored && known)) || (kind.Logout? && !known) ==> call.sent == [])
  {
    AtNext(s, es, k);
    SentAtStart(At(s, es, k), es[k].kind);
    CallEvolvesOn(s, es, k + 1, |es|, |At(s, es, k).calls|);
    AtEnds(s, es);
  }

  lemma SentAtResume(s: State, c: nat)
    requires Enabled(s, Resume(c)) && CallInv(s, s.calls[c])
    ensures var call, call' := s.calls[c], Step(s, Resume(c)).calls[c];
      && Past(call') && |call.sent| == 1 && call.sent <= call'.sent
      && if s.flights[call.phase.flight].phase == Settled(true) then
           |call'.sent| == 2 &&
           call'.sent[1] == (if call.kind.Download? || (s.access.Some? && s.access.value != "") then Bearer(s.access) else NoHeader)
         else call'.sent == call.sent
  {
  }

  /** The second request goes out exactly when the awaited refresh succeeded, and carries exactly
      the access token stored at that moment; a download sends what is stored even if that is
      nothing. */
  lemma SecondRequest(s: State, es: seq<Event>, k: nat)
    requires Inv(s) && IsRun(s, es) && k < |es| && es[k].Resume?
    ensures var now, c := At(s, es, k), es[k].call;
      && c < |now.calls| && c < |Exec(s, es).calls| && now.calls[c].phase.Waiting? && now.calls[c].phase.flight < |now.flights|
      && var call := Exec(s, es).calls[c];
      && (|call.sent| == 2 <==> now.flights[now.calls[c].phase.flight].phase == Settled(true))
      && (|call.sent| == 2 ==>
            call.sent[1] == if call.kind.Download? || (now.access.Some? && now.access.value != "") then Bearer(now.access) else NoHeader)
  {
    AtNext(s, es, k);
    AtInv(s, es, k);
    var now, c := At(s, es, k), es[k].call;
    assert CallInv(now, now.calls[c]);
    SentAtResume(now, c);
    StepEvolvesCall(now, es[k], c);
    CallEvolvesOn(s, es, k + 1, |es|, c);
    AtEnds(s, es);
  }

  /** An event that writes the storage: the end of a sign-in that brought tokens, of a sign-out or
      of a failed boot check, a sign-out with nothing to post, or the end of a refresh. */
  predicate Writes(s: State, e: Event)
    requires Enabled(s, e)
  {
    match e
    case Start(kind) => kind.Logout? && !(s.refresh.Some? && s.refresh.value != "")
    case Finish(c, body) =>
      var call := s.calls[c];
      || (call.kind.Login? && body.Tokens?) || call.kind.Logout?
      || (call.kind.Boot? && (!call.phase.ok || body.Unreadable?))
    case FlightAnswer(_, ok) => !ok
    case FlightBody(_, _) => true
    case _ => false
  }

  lemma OthersKeepStorage(s: State, e: Event)
    requires Enabled(s, e) && !Writes(s, e)
    ensures Step(s, e).access == s.access && Step(s, e).refresh == s.refresh
  {
  }

  ghost predicate NoWrites(s: State, es: seq<Event>, i: nat, k: nat)
    requires IsRun(s, es) && i <= k <= |es|
  {
    forall m :: i <= m < k ==> Enabled(At(s, es, m), es[m]) && !Writes(At(s, es, m), es[m])
  }

  lemma {:induction false} StorageKept(s: State, es: seq<Event>, i: nat, k: nat)
    requires IsRun(s, es) && i <= k <= |es| && NoWrites(s, es, i, k)
    ensures At(s, es, k).access == At(s, es, i).access && At(s, es, k).refresh == At(s, es, i).refresh
    decreases k
  {
    if i < k {
      StorageKept(s, es, i, k - 1);
      AtNext(s, es, k - 1);
      OthersKeepStorage(At(s, es, k - 1), es[k - 1]);
    }
  }

  lemma {:induction false} SettledStays(s: State, es: seq<Event>, i: nat, k: nat, f: nat)
    requires IsRun(s, es) && i <= k <= |es| && f < |At(s, es, i).flights| && At(s, es, i).flights[f].phase.Settled?
    ensures f < |At(s, es, k).flights| && At(s, es, k).flights[f] == At(s, es, i).flights[f]
    decreases k
  {
    if i < k {
      SettledStays(s, es, i, k - 1, f);
      AtNext(s, es, k - 1);
      StepEvolvesFlights(At(s, es, k - 1), es[k - 1]);
    }
  }

  lemma LandedPair(s: State, f: nat, pair: Pair)
    requires Enabled(s, FlightBody(f, Tokens(pair)))
    ensures var t := Step(s, FlightBody(f, Tokens(pair)));
      t.access == Some(pair.access) && t.refresh == Some(pair.refresh) && t.flights[f].phase == Settled(true)
  {
  }

  /** A call that awaited a refresh which received a pair is retried with the access token of that
      pair, when nothing else wrote the storage between the two. */
  lemma RetryCarriesNewToken(s: State, es: seq<Event>, j: nat, k: nat, pair: Pair)
    requires Inv(s) && IsRun(s, es) && j < k < |es| && es[j].FlightBody? && es[j].body == Tokens(pair)
    requires es[k].Resume? && es[k].call < |At(s, es, k).calls| && At(s, es, k).calls[es[k].call].phase == Waiting(es[j].flight)
    requires pair.access != "" && NoWrites(s, es, j + 1, k)
    ensures var c := es[k].call;
      c < |Exec(s, es).calls| && |Exec(s, es).calls[c].sent| == 2 && Exec(s, es).calls[c].sent[1] == Bearer(Some(pair.access))
  {
    AtNext(s, es, j);
    LandedPair(At(s, es, j), es[j].flight, pair);
    SettledStays(s, es, j + 1, k, es[j].flight);
    StorageKept(s, es, j + 1, k);
    SecondRequest(s, es, k);
  }

  /** The refresh brings (b, q), and the call that awaits it goes out again with b. */
  lemma AwaitedCallRetries(s: State) returns (es: seq<Event>)
    requires s == State(Some("a"), Some("r"), Some(0), [Flight(Some("r"), Posted)],
                        [Call(Api(true), Waiting(0), [Bearer(Some("a"))], true, None)], {Pair("a", "r")}, {"r"})
    ensures IsRun(s, es) && |Exec(s, es).calls| == 1
    ensures Exec(s, es).calls[0].phase == SecondSent && Exec(s, es).calls[0].sent == [Bearer(Some("a")), Bearer(Some("b"))]
  {
    var body := FlightBody(0, Tokens(Pair("b", "q")));
    var s1 := Step(s, FlightAnswer(0, true));
    var s2 := Step(s1, body);
    ExecOne(s2, Resume(0));
    es := [Resume(0)];
    ExecCons(s1, body, es); es := [body] + es;
    ExecCons(s, FlightAnswer(0, true), es); es := [FlightAnswer(0, true)] + es;
  }

  /** A run from a loaded page: the call is refused, its refresh succeeds, and it goes out again
      with the new token. */
  lemma RefusedCallRetries(s: State) returns (es: seq<Event>)
    requires s == State(Some("a"), Some("r"), None, [], [], {Pair("a", "r")}, {"r"})
    ensures Initial(s) && IsRun(s, es) && |Exec(s, es).calls| == 1
    ensures Exec(s, es).calls[0].phase == SecondSent && Exec(s, es).calls[0].sent == [Bearer(Some("a")), Bearer(Some("b"))]
  {
    var s1 := Step(s, Start(Api(true)));
    var s2 := Step(s1, Answer(0, Unauthorized));
    es := AwaitedCallRetries(s2);
    ExecCons(s1, Answer(0, Unauthorized), es); es := [Answer(0, Unauthorized)] + es;
    ExecCons(s, Start(Api(true)), es); es := [Start(Api(true))] + es;
  }

  // ---------- The outcome of a refresh ----------

  predicate Lands(e: Event, f: nat) {
    e.FlightBody? && e.flight == f && e.body.Tokens?
  }

  /** The flight settled with true. */
  predicate Succeeded(s: State, f: nat) {
    f < |s.flights| && s.flights[f].phase == Settled(true)
  }

  lemma StepSettles(s: State, e: Event, f: nat)
    requires Enabled(s, e) && SlotInv(s)
    ensures Succeeded(Step(s, e), f) <==> Succeeded(s, f) || Lands(e, f)
  {
  }

  lemma {:induction false} OutcomeAt(s: State, es: seq<Event>, k: nat, f: nat)
    requires Initial(s) && IsRun(s, es) && k <= |es|
    ensures Succeeded(At(s, es, k), f) <==> exists j :: 0 <= j < k && Lands(es[j], f)
    decreases k
  {
    AtEnds(s, es);
    if k > 0 {
      OutcomeAt(s, es, k - 1, f);
      AtNext(s, es, k - 1);
      AtInv(s, es, k - 1);
      StepSettles(At(s, es, k - 1), es[k - 1], f);
    }
  }

  /** A refresh succeeds for those who await it exactly when it received tokens. */
  lemma RefreshOutcomeIff(s: State, es: seq<Event>, f: nat)
    requires Initial(s) && IsRun(s, es)
    ensures Succeeded(Exec(s, es), f) <==> exists j :: 0 <= j < |es| && Lands(es[j], f)
  {
    OutcomeAt(s, es, |es|, f);
    AtEnds(s, es);
  }

  /** A call refused on its first request awaits a refresh exactly when it is authenticated, and a
      download only with a refresh token stored. It joins the refresh under way; with none under
      way it posts the stored token, unless the page is stuck. */
  lemma RefusedCallJoins(s: State, c: nat)
    requires Inv(s) && Enabled(s, Answer(c, Unauthorized)) && s.calls[c].phase.FirstSent?
    ensures var t := Step(s, Answer(c, Unauthorized)); var kind := s.calls[c].kind;
      var known := s.refresh.Some? && s.refresh.value != "";
      && (t.calls[c].phase.Waiting? <==> kind == Api(true) || kind.Boot? || (kind.Download? && known))
      && (!t.calls[c].phase.Waiting? ==> t.calls[c].phase == Settling(false) && t.flights == s.flights)
      && (forall f: nat :: Unfinished(s, f) && t.calls[c].phase.Waiting? ==>
            t.calls[c].phase == Waiting(f) && t.flights == s.flights)
      && ((forall f: nat :: !Unfinished(s, f)) && !Stuck(s) && known && t.calls[c].phase.Waiting? ==>
            t.calls[c].phase == Waiting(|s.flights|) && t.flights == s.flights + [Flight(s.refresh, Posted)])
  {
    if s.slot.Some? && !Stuck(s) {
      assert Unfinished(s, s.slot.value);
    }
  }

  // ---------- The storage at the end of a call ----------

  /** The last response the call got in the run. */
  function LastReply(es: seq<Event>, c: nat): Option<Reply> {
    if es == [] then None
    else
      var last := es[|es| - 1];
      if last.Answer? && last.call == c then Some(last.reply) else LastReply(es[..|es| - 1], c)
  }

  ghost predicate Replied(call: Call, last: Option<Reply>) {
    && (call.phase.Settling? ==> last.Some? && call.phase.ok == last.value.Success?)
    && (call.phase.Waiting? ==> last == Some(Unauthorized))
  }

  lemma StepReplied(s: State, e: Event, c: nat, last: Option<Reply>)
    requires Enabled(s, e) && c < |s.calls| && Replied(s.calls[c], last)
    ensures c < |Step(s, e).calls|
    ensures Replied(Step(s, e).calls[c], if e.Answer? && e.call == c then Some(e.reply) else last)
  {
    if c != Touched(s, e) {
      OthersUntouched(s, e, c);
    }
  }

  lemma {:induction false} RepliedAt(s: State, es: seq<Event>, k: nat, c: nat)
    requires Initial(s) && IsRun(s, es) && k <= |es| && c < |At(s, es, k).calls|
    ensures Replied(At(s, es, k).calls[c], LastReply(es[..k], c))
    decreases k
  {
    AtEnds(s, es);
    if k > 0 {
      var before := At(s, es, k - 1);
      AtNext(s, es, k - 1);
      assert es[..k][..k - 1] == es[..k - 1];
      if c < |before.calls| {
        RepliedAt(s, es, k - 1, c);
        StepReplied(before, es[k - 1], c, LastReply(es[..k - 1], c));
      }
    }
  }

  /** A boot check that got its profile leaves the storage as it was; one whose last response was
      not a success, or could not be read, empties it. */
  lemma BootCheckStorage(s: State, es: seq<Event>, k: nat)
    requires Initial(s) && IsRun(s, es) && k < |es| && es[k].Finish?
    requires es[k].call < |At(s, es, k).calls| && At(s, es, k).calls[es[k].call].kind.Boot?
    ensures var before, after := At(s, es, k), At(s, es, k + 1);
      if LastReply(es[..k], es[k].call) == Some(Success) && !es[k].body.Unreadable?
      then after.access == before.access && after.refresh == before.refresh
      else LoggedOut(after)
  {
    AtNext(s, es, k);
    RepliedAt(s, es, k, es[k].call);
  }

  /** A page over a stored pair that checks its user at boot and stays signed in. */
  lemma BootKeepsSession(s: State) returns (es: seq<Event>)
    requires s == State(Some("a"), Some("r"), None, [], [], {Pair("a", "r")}, {"r"})
    ensures Initial(s) && IsRun(s, es) && |Exec(s, es).calls| == 1
    ensures Exec(s, es).calls[0] == Call(Boot, Done, [Bearer(Some("a"))], false, None)
    ensures Exec(s, es).access == Some("a") && Exec(s, es).refresh == Some("r")
  {
    var s1 := Step(s, Start(Boot));
    var s2 := Step(s1, Answer(0, Success));
    ExecOne(s2, Finish(0, Data));
    es := [Finish(0, Data)];
    ExecCons(s1, Answer(0, Success), es); es := [Answer(0, Success)] + es;
    ExecCons(s, Start(Boot), es); es := [Start(Boot)] + es;
  }

  /** The step that ends a sign-out leaves the storage empty, whatever the server said. */
  lemma SignOutStep(s: State, e: Event, c: nat)
    requires Enabled(s, e) && c < |Step(s, e).calls| && Step(s, e).calls[c].kind.Logout? && Step(s, e).calls[c].phase.Done?
    requires c < |s.calls| ==> !s.calls[c].phase.Done?
    ensures LoggedOut(Step(s, e))
  {
    if c != Touched(s, e) {
      OthersUntouched(s, e, c);
    }
  }

  /** A sign-out that is done has emptied the storage in the step that ended it. */
  lemma {:induction false} SignOutEmpties(s: State, es: seq<Event>, k: nat, c: nat) returns (m: nat)
    requires Initial(s) && IsRun(s, es) && k <= |es| && c < |At(s, es, k).calls|
    requires At(s, es, k).calls[c].kind.Logout? && At(s, es, k).calls[c].phase.Done?
    ensures m < k && LoggedOut(At(s, es, m + 1))
    ensures c < |At(s, es, m + 1).calls| && At(s, es, m + 1).calls[c].phase.Done?
    ensures c < |At(s, es, m).calls| ==> !At(s, es, m).calls[c].phase.Done?
    decreases k
  {
    AtEnds(s, es);
    var before := At(s, es, k - 1);
    AtNext(s, es, k - 1);
    if c < |before.calls| && before.calls[c].phase.Done? {
      StepEvolvesCall(before, es[k - 1], c);
      m := SignOutEmpties(s, es, k - 1, c);
    } else {
      SignOutStep(before, es[k - 1], c);
      m := k - 1;
    }
  }

  // ---------- Refreshes and refusals ----------

  function Unauthorizeds(es: seq<Event>): nat {
    if es == [] then 0
    else (if es[0].Answer? && es[0].reply.Unauthorized? then 1 else 0) + Unauthorizeds(es[1..])
  }

  lemma StepPosts(s: State, e: Event)
    requires Enabled(s, e)
    ensures Posts(Step(s, e)) == Posts(s) ||
            (e.Answer? && e.reply.Unauthorized? && Posts(Step(s, e)) == Posts(s) + {|s.flights|})
  {
    StepEvolvesFlights(s, e);
  }

  /** No more refreshes go out than 401 responses come in. */
  lemma {:induction false} PostsBounded(s: State, es: seq<Event>)
    requires IsRun(s, es)
    ensures |Posts(Exec(s, es))| <= |Posts(s)| + Unauthorizeds(es)
    decreases |es|
  {
    if es != [] {
      StepPosts(s, es[0]);
      PostsBounded(Step(s, es[0]), es[1..]);
    }
  }
}
