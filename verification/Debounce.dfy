/** The search debounce of the list pages: an effect that runs on every change of the query,
    its cleanup, and the timer it leaves with the browser. */
module Debounce {
  import opened Common

  const SEARCH_DEBOUNCE_MS := 300

  datatype Timer = Timer(query: string, due: int)

  /** `timers` are the browser's pending timers; `changedAt` is when the effect last ran. */
  datatype State = State(
    mounted: bool,
    query: string,
    debouncedQuery: string,
    debounceRef: Option<nat>,
    timers: map<nat, Timer>,
    nextTimer: nat,
    now: int,
    changedAt: int)

  datatype Event = Change(query: Option<string>) | Fire(timer: nat) | Wait(ms: nat) | Unmount

  function OrEmpty(query: Option<string>): string {
    if query.Some? then query.value else ""
  }

  function ClearRef(s: State): State {
    if s.debounceRef.Some? then s.(timers := s.timers - {s.debounceRef.value}) else s
  }

  function RunEffect(s: State, query: string): State {
    var s' := ClearRef(s);
    s'.(query := query,
        debounceRef := Some(s'.nextTimer),
        timers := s'.timers[s'.nextTimer := Timer(query, s'.now + SEARCH_DEBOUNCE_MS)],
        nextTimer := s'.nextTimer + 1,
        changedAt := s'.now)
  }

  function Mount(query: Option<string>, now: int): State {
    RunEffect(State(true, OrEmpty(query), OrEmpty(query), None, map[], 0, now, now), OrEmpty(query))
  }

  /** A timer fires at its due time or later. */
  predicate Enabled(s: State, e: Event) {
    && (e.Fire? ==> e.timer in s.timers && s.timers[e.timer].due <= s.now)
    && (e.Change? || e.Unmount? ==> s.mounted)
  }

  /** On a change React runs the cleanup of the previous effect and then the effect. */
  function Step(s: State, e: Event): State
    requires Enabled(s, e)
  {
    match e
    case Change(query) => RunEffect(ClearRef(s), OrEmpty(query))
    case Fire(t) => s.(debouncedQuery := s.timers[t].query, debounceRef := None, timers := s.timers - {t})
    case Wait(ms) => s.(now := s.now + ms)
    case Unmount => ClearRef(s).(mounted := false)
  }

  predicate IsRun(s: State, es: seq<Event>)
    decreases |es|
  {
    es == [] || (Enabled(s, es[0]) && IsRun(Step(s, es[0]), es[1..]))
  }

  function Exec(s: State, es: seq<Event>): State
    requires IsRun(s, es)
    decreases |es|
  {
    if es == [] then s else Exec(Step(s, es[0]), es[1..])
  }

  ghost predicate Inv(s: State) {
    if !s.mounted then s.timers == map[]
    else
      && s.timers.Keys == (if s.debounceRef.Some? then {s.debounceRef.value} else {})
      && (s.debounceRef.Some? ==>
            s.timers[s.debounceRef.value] == Timer(s.query, s.changedAt + SEARCH_DEBOUNCE_MS))
      && (s.debounceRef.None? ==> s.debouncedQuery == s.query && s.changedAt + SEARCH_DEBOUNCE_MS <= s.now)
  }

  lemma StepKeepsInv(s: State, e: Event)
    requires Enabled(s, e) && Inv(s)
    ensures Inv(Step(s, e))
  {
  }

  lemma {:induction false} RunKeepsInv(s: State, es: seq<Event>)
    requires Inv(s) && IsRun(s, es)
    ensures Inv(Exec(s, es))
    decreases |es|
  {
    if es != [] {
      StepKeepsInv(s, es[0]);
      RunKeepsInv(Step(s, es[0]), es[1..]);
    }
  }

  /** The query last given to the hook, after a run. */
  function LastQuery(query: Option<string>, es: seq<Event>): string {
    if es == [] then (match query case Some(text) => text case None => "")
    else if es[|es| - 1].Change? then (match es[|es| - 1].query case Some(text) => text case None => "")
    else LastQuery(query, es[..|es| - 1])
  }

  /** The time since the query was last given, after a run. */
  function QuietTime(es: seq<Event>): nat {
    if es == [] || es[|es| - 1].Change? then 0
    else QuietTime(es[..|es| - 1]) + if es[|es| - 1].Wait? then es[|es| - 1].ms else 0
  }

  lemma {:induction false} ExecSnoc(s: State, es: seq<Event>)
    requires es != [] && IsRun(s, es)
    ensures var n := |es| - 1;
      IsRun(s, es[..n]) && Enabled(Exec(s, es[..n]), es[n]) && Exec(s, es) == Step(Exec(s, es[..n]), es[n])
    decreases |es|
  {
    var n := |es| - 1;
    if n == 0 {
      assert Exec(Step(s, es[0]), es[1..]) == Step(s, es[0]);
    } else {
      ExecSnoc(Step(s, es[0]), es[1..]);
      assert es[1..][..n - 1] == es[..n][1..];
    }
  }

  lemma {:induction false} RunTracks(query: Option<string>, start: int, es: seq<Event>)
    requires IsRun(Mount(query, start), es)
    ensures var s := Exec(Mount(query, start), es);
      s.query == LastQuery(query, es) && s.now - s.changedAt == QuietTime(es)
    decreases |es|
  {
    if es != [] {
      ExecSnoc(Mount(query, start), es);
      RunTracks(query, start, es[..|es| - 1]);
    }
  }

  /** At most one timer is ever pending, and none once the hook is unmounted. While it is mounted,
      with no timer pending the debounced query is the latest one; and it is so after 300 ms
      without a change, once no timer is overdue. */
  lemma DebounceConverges(query: Option<string>, start: int, es: seq<Event>)
    requires IsRun(Mount(query, start), es)
    ensures var s := Exec(Mount(query, start), es);
      && |s.timers| <= 1
      && (!s.mounted ==> s.timers == map[])
      && (s.mounted && s.timers == map[] ==> s.debouncedQuery == LastQuery(query, es))
      && (s.mounted && QuietTime(es) >= 300 && (forall t :: t in s.timers ==> s.timers[t].due > s.now) ==>
            s.debouncedQuery == LastQuery(query, es))
  {
    RunKeepsInv(Mount(query, start), es);
    RunTracks(query, start, es);
    var s := Exec(Mount(query, start), es);
    assert |s.timers| == |s.timers.Keys|;
    if s.mounted && s.debounceRef.Some? {
      assert s.debounceRef.value in s.timers;
    }
  }

  /** A timer only fires with the latest query, and only after 300 ms without a change. */
  lemma FiresOnlyWhenQuiet(query: Option<string>, start: int, es: seq<Event>, t: nat)
    requires IsRun(Mount(query, start), es) && Enabled(Exec(Mount(query, start), es), Fire(t))
    ensures QuietTime(es) >= 300
    ensures Step(Exec(Mount(query, start), es), Fire(t)).debouncedQuery == LastQuery(query, es)
  {
    RunKeepsInv(Mount(query, start), es);
    RunTracks(query, start, es);
    assert t in Exec(Mount(query, start), es).timers.Keys;
  }

  /** The query that was the latest when a timer last fired; the first one before any has. */
  function LastFired(query: Option<string>, es: seq<Event>): string {
    if es == [] then (match query case Some(text) => text case None => "")
    else if es[|es| - 1].Fire? then LastQuery(query, es[..|es| - 1])
    else LastFired(query, es[..|es| - 1])
  }

  /** At every moment the debounced query is the latest one as of the last timer that fired. */
  lemma {:induction false} DebouncedIsLastFired(query: Option<string>, start: int, es: seq<Event>)
    requires IsRun(Mount(query, start), es)
    ensures Exec(Mount(query, start), es).debouncedQuery == LastFired(query, es)
    decreases |es|
  {
    if es != [] {
      var before := es[..|es| - 1];
      ExecSnoc(Mount(query, start), es);
      DebouncedIsLastFired(query, start, before);
      if es[|es| - 1].Fire? {
        FiresOnlyWhenQuiet(query, start, before, es[|es| - 1].timer);
      }
    }
  }

  class Hook {
    var mounted: bool
    var query: string
    var debouncedQuery: string
    var debounceRef: Option<nat>
    var timers: map<nat, Timer>
    var nextTimer: nat
    var now: int
    ghost var changedAt: int

    ghost function View(): State
      reads this
    {
      State(mounted, query, debouncedQuery, debounceRef, timers, nextTimer, now, changedAt)
    }

    /** At most one timer is pending, the referenced one, and it carries the query. */
    ghost predicate Valid()
      reads this
    {
      Inv(View())
    }

    constructor (query: Option<string>, now: int)
      ensures View() == Mount(query, now) && Valid()
    {
      mounted := true;
      this.query, debouncedQuery := OrEmpty(query), OrEmpty(query);
      debounceRef, timers, nextTimer := None, map[], 0;
      this.now, changedAt := now, now;
      new;
      Effect(query);
    }

    method Cleanup()
      modifies this`timers
      ensures View() == ClearRef(old(View()))
      ensures old(Valid()) ==> timers == map[]
    {
      if debounceRef.Some? {
        timers := timers - {debounceRef.value};
      }
    }

    /** With at most the referenced timer pending, exactly the new one is. */
    method Effect(query: Option<string>)
      modifies this
      ensures View() == RunEffect(old(View()), OrEmpty(query))
      ensures debouncedQuery == old(debouncedQuery) && mounted == old(mounted) && now == old(now)
      ensures old(timers).Keys <= (if old(debounceRef).Some? then {old(debounceRef).value} else {}) ==>
        timers == map[old(nextTimer) := Timer(OrEmpty(query), now + SEARCH_DEBOUNCE_MS)] &&
        debounceRef == Some(old(nextTimer)) && (mounted ==> Valid())
    {
      if debounceRef.Some? {
        timers := timers - {debounceRef.value};
      }
      this.query := OrEmpty(query);
      debounceRef := Some(nextTimer);
      timers := timers[nextTimer := Timer(this.query, now + SEARCH_DEBOUNCE_MS)];
      nextTimer, changedAt := nextTimer + 1, now;
    }

    method OnChange(query: Option<string>)
      requires mounted && Valid()
      modifies this
      ensures View() == Step(old(View()), Change(query)) && Valid()
      ensures debouncedQuery == old(debouncedQuery) && |timers| == 1
    {
      Cleanup();
      Effect(query);
    }

    method OnUnmount()
      requires mounted && Valid()
      modifies this
      ensures View() == Step(old(View()), Unmount) && Valid()
      ensures timers == map[] && query == old(query) && debouncedQuery == old(debouncedQuery)
    {
      Cleanup();
      mounted := false;
    }

    method OnTimer(t: nat)
      requires Enabled(View(), Fire(t)) && Valid()
      modifies this
      ensures View() == Step(old(View()), Fire(t)) && Valid()
      ensures timers == map[] && query == old(query) && debouncedQuery == query
    {
      assert t in timers.Keys;
      debouncedQuery := timers[t].query;
      debounceRef := None;
      timers := timers - {t};
    }
  }
}
