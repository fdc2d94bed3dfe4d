/** The page's client with its mutable parts: the two storage keys, `refreshPromise`, the
    refreshes and the calls under way. Each method is the code between two `await`s and is
    proved to make exactly the step of the protocol machine. */
module ApiClient {
  import opened Common
  import opened RefreshProtocol

  class Client {
    var access: Option<Token>
    var refresh: Option<Token>
    var refreshPromise: Option<nat>
    var flights: seq<Flight>
    var calls: seq<Call>
    ghost var issued: set<Pair>
    ghost var seen: set<Token>

    ghost function View(): State
      reads this
    {
      State(access, refresh, refreshPromise, flights, calls, issued, seen)
    }

    constructor (access: Option<Token>, refresh: Option<Token>)
      ensures Initial(View()) && Inv(View())
      ensures this.access == access && this.refresh == refresh
    {
      this.access, this.refresh := access, refresh;
      refreshPromise, flights, calls := None, [], [];
      issued := if access.Some? && refresh.Some? then {Pair(access.value, refresh.value)} else {};
      seen := if refresh.Some? then {refresh.value} else {};
    }

    method StoreTokens(pair: Pair)
      modifies this`access, this`refresh, this`issued, this`seen
      ensures View() == Store(old(View()), pair)
    {
      access := Some(pair.access);
      refresh := Some(pair.refresh);
      issued, seen := issued + {pair}, seen + {pair.refresh};
    }

    method ClearTokens()
      modifies this`access, this`refresh
      ensures View() == Clear(old(View()))
    {
      access := None;
      refresh := None;
    }

    /** Returns the promise to await; posts the stored token only when none is under way. */
    method RefreshTokens() returns (promise: nat)
      modifies this`refreshPromise, this`flights
      ensures (View(), promise) == RefreshProtocol.RefreshTokens(old(View()))
    {
      if refreshPromise.Some? {
        return refreshPromise.value;
      }
      promise := |flights|;
      if !Present(refresh) {
        flights := flights + [Flight(None, Settled(false))];
      } else {
        flights := flights + [Flight(refresh, Posted)];
      }
      refreshPromise := Some(promise);
    }

    method StartCall(kind: Kind) returns (c: nat)
      modifies this
      ensures c == |old(calls)| && View() == Step(old(View()), Start(kind))
    {
      c := |calls|;
      if kind.Boot? && (!Present(access) || !Present(refresh)) {
        calls := calls + [Call(kind, Done, [], false, None)];
        return;
      }
      if kind.Logout? && !Present(refresh) {
        ClearTokens();
        calls := calls + [Call(kind, Done, [], false, None)];
        return;
      }
      var header := NoHeader;
      if Authenticated(kind) && Present(access) {
        header := Bearer(access);
      }
      calls := calls + [Call(kind, FirstSent, [header], false, None)];
    }

    method AnswerCall(c: nat, reply: Reply)
      requires Enabled(View(), Answer(c, reply))
      modifies this
      ensures View() == Step(old(View()), Answer(c, reply))
    {
      var call := calls[c];
      if call.phase.FirstSent? && reply.Unauthorized? && Authenticated(call.kind) {
        call := call.(refused := true);
        if !call.kind.Download? || Present(refresh) {
          var promise := RefreshTokens();
          calls := calls[c := call.(phase := Waiting(promise))];
          return;
        }
      }
      calls := calls[c := call.(phase := Settling(reply.Success?))];
    }

    method ResumeCall(c: nat)
      requires Enabled(View(), Resume(c))
      modifies this`calls
      ensures View() == Step(old(View()), Resume(c))
    {
      var call := calls[c];
      var promise := call.phase.flight;
      var refreshed := flights[promise].phase.ok;
      call := call.(verdict := Some(Verdict(promise, refreshed)), phase := Settling(false));
      if refreshed {
        var header := NoHeader;
        if call.kind.Download? || Present(access) {
          header := Bearer(access);
        }
        call := call.(sent := call.sent + [header], phase := SecondSent);
      }
      calls := calls[c := call];
    }

    method FinishCall(c: nat, body: Body)
      requires Enabled(View(), Finish(c, body))
      modifies this
      ensures View() == Step(old(View()), Finish(c, body))
    {
      var call := calls[c];
      var failed := !call.phase.ok || body.Unreadable?;
      calls := calls[c := call.(phase := Done)];
      match call.kind {
        case Login =>
          if !failed {
            StoreTokens(body.pair);
          }
        case Logout =>
          ClearTokens();
        case Boot =>
          if failed {
            ClearTokens();
          }
        case _ =>
      }
    }

    method AnswerFlight(f: nat, ok: bool)
      requires Enabled(View(), FlightAnswer(f, ok))
      modifies this
      ensures View() == Step(old(View()), FlightAnswer(f, ok))
    {
      if ok {
        flights := flights[f := flights[f].(phase := Reading)];
      } else {
        ClearTokens();
        flights := flights[f := flights[f].(phase := Settled(false))];
        refreshPromise := None;
      }
    }

    method ReadFlight(f: nat, body: Body)
      requires Enabled(View(), FlightBody(f, body))
      modifies this
      ensures View() == Step(old(View()), FlightBody(f, body))
    {
      var refreshed := body.Tokens?;
      if refreshed {
        StoreTokens(body.pair);
      } else {
        ClearTokens();
      }
      flights := flights[f := flights[f].(phase := Settled(refreshed))];
      refreshPromise := None;
    }
  }
}
