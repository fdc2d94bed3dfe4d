/** US sales tax: how a configuration resolves to a rate, what the server stores, and what the
    settings form makes of a configuration that is loaded and saved again. */
module SalesTax {
  import opened Common
  import opened Texts

  type Rates = map<string, real>

  datatype TaxConfig = TaxConfig(nexusStates: seq<string>, rates: Option<Rates>)

  /** The table of states with their default rates; every code is written as it is looked up. */
  predicate IsStateTable(table: Rates) {
    forall code :: code in table ==> code != "" && Canonical(code)
  }

  function Canon(code: string): string {
    Upper(Trim(code))
  }

  predicate Canonical(code: string) {
    Canon(code) == code
  }

  function UpperAll(codes: seq<string>): seq<string> {
    seq(|codes|, i requires 0 <= i < |codes| => Upper(codes[i]))
  }

  function ResolveRate(table: Rates, config: Option<TaxConfig>, customerState: Option<string>, taxExempt: bool): real {
    if taxExempt || customerState.None? || customerState.value == "" then 0.0
    else
      var state := Canon(customerState.value);
      if config.None? || config.value.nexusStates == [] then 0.0
      else if state !in UpperAll(config.value.nexusStates) then 0.0
      else if state !in table then 0.0
      else if config.value.rates.Some? && state in config.value.rates.value then config.value.rates.value[state]
      else table[state]
  }

  // ---------- The settings form on values ----------

  /** The text of one override input, read as a number. */
  datatype Entry = Blank | Percent(value: real) | NotANumber

  datatype Form = Form(nexus: set<string>, overrides: map<string, Entry>)

  datatype Update = Update(nexusStates: seq<string>, rates: Rates)

  function Members(codes: seq<string>): (s: set<string>)
    ensures forall c :: c in s <==> c in codes
  {
    set c | c in codes
  }

  function LoadForm(nexusStates: seq<string>, rates: Rates): Form {
    Form(Members(nexusStates), map c | c in rates :: Percent(rates[c] * 100.0))
  }

  /** `Math.round(percent * 100) / 10000`. */
  function SavedRate(percent: real): real {
    (percent * 100.0 + 0.5).Floor as real / 10000.0
  }

  predicate Filled(form: Form, code: string) {
    code in form.overrides && !form.overrides[code].Blank?
  }

  predicate Invalid(form: Form, code: string) {
    Filled(form, code) && !(form.overrides[code].Percent? && 0.0 <= form.overrides[code].value <= 50.0)
  }

  /** JavaScript's order on strings, by characters. */
  predicate Before(a: string, b: string) {
    if b == "" then false
    else if a == "" then true
    else if a[0] == b[0] then Before(a[1..], b[1..])
    else a[0] < b[0]
  }

  predicate Increasing(codes: seq<string>) {
    forall i, j :: 0 <= i < j < |codes| ==> Before(codes[i], codes[j])
  }

  function RatesOf(form: Form, codes: seq<string>): Rates {
    map c | c in codes && Filled(form, c) && form.overrides[c].Percent? :: SavedRate(form.overrides[c].value)
  }

  /** What saving the form gives: the sorted nexus with the rates of its codes, or the first
      code in that order whose override is not a percentage from 0 to 50. */
  ghost predicate Saves(form: Form, r: Result<Update, string>) {
    match r
    case Ok(u) =>
      && Increasing(u.nexusStates) && Members(u.nexusStates) == form.nexus
      && (forall c :: c in form.nexus ==> !Invalid(form, c))
      && u.rates == RatesOf(form, u.nexusStates)
    case Err(code) =>
      && code in form.nexus && Invalid(form, code)
      && (forall c :: c in form.nexus && Before(c, code) ==> !Invalid(form, c))
  }

  // ---------- The server's normalisation ----------

  /** `Math.round(rate * 10000) / 10000`. */
  function RoundRate(rate: real): real {
    (rate * 10000.0 + 0.5).Floor as real / 10000.0
  }

  function CanonAll(codes: seq<string>): seq<string> {
    seq(|codes|, i requires 0 <= i < |codes| => Canon(codes[i]))
  }

  /** The first occurrence of each code, in order. */
  function Dedup(codes: seq<string>): (out: seq<string>)
    ensures forall c :: c in out <==> c in codes
    ensures Distinct(out)
  {
    if codes == [] then []
    else
      var n := |codes| - 1;
      var before := Dedup(codes[..n]);
      assert codes == codes[..n] + [codes[n]];
      if codes[n] in before then before else before + [codes[n]]
  }

  function NormalStates(states: seq<string>): seq<string> {
    Dedup(CanonAll(states))
  }

  predicate Distinct(codes: seq<string>) {
    forall i, j :: 0 <= i < j < |codes| ==> codes[i] != codes[j]
  }

  predicate AllKnown(table: Rates, states: seq<string>) {
    forall i :: 0 <= i < |states| ==> Canon(states[i]) in table
  }

  predicate RateInRange(rate: real) {
    0.0 <= rate <= 0.5
  }

  predicate PostedAs(rates: Rates, s: string, code: string, rate: real) {
    s in rates && Canon(s) == code && rate == RoundRate(rates[s])
  }

  /** The rates kept for a nexus: each comes from a posted code that normalises to it. When
      several do, the order of the posted entries decides between them. */
  ghost predicate NormalRates(rates: Rates, nexus: seq<string>, out: Rates) {
    && (forall code :: code in out ==> code in UpperAll(nexus) && exists s :: PostedAs(rates, s, code, out[code]))
    && (forall s :: s in rates && Canon(s) in UpperAll(nexus) ==> Canon(s) in out)
  }

  ghost predicate AcceptsRates(table: Rates, rates: Rates) {
    forall s :: s in rates ==> Canon(s) in table && RateInRange(rates[s])
  }

  /** `updateConfig`: the configuration stored in place of `current`. */
  ghost predicate Stores(table: Rates, current: TaxConfig, posted: Update, postsRates: bool, stored: TaxConfig) {
    && AllKnown(table, posted.nexusStates)
    && stored.nexusStates == NormalStates(posted.nexusStates)
    && stored.rates.Some?
    && if postsRates
       then AcceptsRates(table, posted.rates) && NormalRates(posted.rates, stored.nexusStates, stored.rates.value)
       else stored.rates.value == (if current.rates.Some? then current.rates.value else map[])
  }

  // ---------- The grid ----------

  predicate OnGrid(rate: real) {
    (rate * 10000.0).Floor as real == rate * 10000.0
  }

  lemma RoundRateOnGrid(rate: real)
    ensures OnGrid(RoundRate(rate))
    ensures RateInRange(rate) ==> RateInRange(RoundRate(rate))
  {
    var k := (rate * 10000.0 + 0.5).Floor;
    assert RoundRate(rate) * 10000.0 == k as real;
  }

  /** A rate read as a percentage and saved, or rounded by the server, comes back unchanged
      exactly when it is on the grid, and otherwise moves to the nearest rate on it. */
  lemma RateSurvivesIff(rate: real)
    ensures SavedRate(rate * 100.0) == RoundRate(rate)
    ensures RoundRate(rate) == rate <==> OnGrid(rate)
    ensures rate - 0.00005 < RoundRate(rate) <= rate + 0.00005
  {
    assert rate * 100.0 * 100.0 == rate * 10000.0;
    if OnGrid(rate) {
      var k := (rate * 10000.0).Floor;
      assert (k as real + 0.5).Floor == k;
      assert k as real / 10000.0 == rate;
    } else {
      RoundRateOnGrid(rate);
    }
  }

  // ---------- The rate of a customer ----------

  predicate Blanks(s: string) {
    forall i :: 0 <= i < |s| ==> s[i] == ' '
  }

  lemma {:induction false} TrimStartOf(before: string, text: string)
    requires Blanks(before) && text != "" && !IsSpace(text[0])
    ensures TrimStart(before + text) == text
    decreases |before|
  {
    if before == "" {
      assert before + text == text;
    } else {
      TailOfAppend(before, text);
      TrimStartOf(before[1..], text);
    }
  }

  lemma {:induction false} TrimEndOf(text: string, after: string)
    requires Blanks(after) && text != "" && !IsSpace(text[|text| - 1])
    ensures TrimEnd(text + after) == text
    decreases |after|
  {
    var n := |after| - 1;
    if after == "" {
      assert text + after == text;
    } else {
      assert (text + after)[..|text| + n] == text + after[..n];
      TrimEndOf(text, after[..n]);
    }
  }

  /** Some nexus entry is the code, in whatever case it is written. */
  predicate InNexus(config: TaxConfig, code: string) {
    exists i :: 0 <= i < |config.nexusStates| && Upper(config.nexusStates[i]) == code
  }

  lemma InNexusIff(config: TaxConfig, code: string)
    ensures code in UpperAll(config.nexusStates) <==> InNexus(config, code)
  {
    if code in UpperAll(config.nexusStates) {
      var i :| 0 <= i < |config.nexusStates| && UpperAll(config.nexusStates)[i] == code;
      assert Upper(config.nexusStates[i]) == code;
    }
    if i :| 0 <= i < |config.nexusStates| && Upper(config.nexusStates[i]) == code {
      assert UpperAll(config.nexusStates)[i] == code;
    }
  }

  lemma CanonOf(before: string, text: string, after: string)
    requires Blanks(before) && Blanks(after)
    requires text != "" && !IsSpace(text[0]) && !IsSpace(text[|text| - 1])
    ensures Canon(before + text + after) == Upper(text)
  {
    AppendAssoc(before, text, after);
    TailOfAppend(text, after);
    TrimStartOf(before, text + after);
    TrimEndOf(text, after);
  }

  /** What a customer pays whose state reads as the code. */
  lemma PaysAt(table: Rates, config: TaxConfig, state: string, exempt: bool)
    requires state != ""
    ensures var code := Canon(state);
      ResolveRate(table, Some(config), Some(state), exempt)
      == if exempt || !InNexus(config, code) || code !in table then 0.0
         else match config.rates
              case Some(rates) => (if code in rates then rates[code] else table[code])
              case None => table[code]
  {
    InNexusIff(config, Canon(state));
  }

  /** A customer whose state is written in any case and with blanks around it pays the override of
      the state when the seller has nexus there, the default rate when there is none, and nothing
      without nexus, in an unknown state or when exempt. */
  lemma CustomerPays(
      table: Rates, config: TaxConfig, before: string, text: string, after: string, code: string, exempt: bool)
    requires Blanks(before) && Blanks(after) && Upper(text) == code
    requires text != "" && !IsSpace(text[0]) && !IsSpace(text[|text| - 1])
    ensures ResolveRate(table, Some(config), Some(before + text + after), exempt)
         == if exempt || !InNexus(config, code) || code !in table then 0.0
            else match config.rates
                 case Some(rates) => (if code in rates then rates[code] else table[code])
                 case None => table[code]
    ensures ResolveRate(table, None, Some(before + text + after), exempt) == 0.0
    ensures ResolveRate(table, Some(config), None, exempt) == 0.0
  {
    CanonOf(before, text, after);
    PaysAt(table, config, before + text + after, exempt);
  }

  /** The capital of a lower-case letter. */
  lemma LowerCaseState(a: char, b: char)
    requires 'a' <= a <= 'z' && 'a' <= b <= 'z'
    ensures Upper([a, b]) == [(a as int - 32) as char, (b as int - 32) as char]
  {
    assert [a, b] == [a] + [b];
    UpperOne(a);
    UpperOne(b);
    UpperAppend([a], [b]);
  }

  // ---------- Saving any form ----------

  /** A form is saved exactly when each override in its nexus is empty or from 0 to 50 percent. */
  lemma SavesIff(form: Form, r: Result<Update, string>)
    requires Saves(form, r)
    ensures r.Ok? <==> forall c :: c in form.nexus && c in form.overrides ==>
              match form.overrides[c]
              case Blank => true
              case Percent(value) => 0.0 <= value <= 50.0
              case NotANumber => false
  {
    if r.Ok? {
      forall c | c in form.nexus && c in form.overrides ensures !Invalid(form, c) {}
    } else {
      assert r.error in form.nexus && Invalid(form, r.error);
    }
  }

  /** A saved form posts exactly its nexus, and a rate for exactly the codes in it with a
      percentage: that percentage to the nearest 1/100. A cleared override goes back to the
      default rate. */
  lemma SavedRates(form: Form, saved: Update, c: string)
    requires Saves(form, Ok(saved))
    ensures c in saved.nexusStates <==> c in form.nexus
    ensures c in saved.rates <==> c in form.nexus && c in form.overrides && form.overrides[c].Percent?
    ensures c in saved.rates ==>
              var percent := form.overrides[c].value;
              (percent - 0.005) / 100.0 < saved.rates[c] <= (percent + 0.005) / 100.0
  {
    assert c in saved.nexusStates <==> c in Members(saved.nexusStates);
  }

  // ---------- Meaning ----------

  ghost predicate SameMeaning(table: Rates, a: TaxConfig, b: TaxConfig) {
    forall state, exempt :: ResolveRate(table, Some(a), state, exempt) == ResolveRate(table, Some(b), state, exempt)
  }

  /** A caller's check on a configuration: its overrides in nexus are on the grid, and an
      override that only a differently written nexus code selects is the default anyway. */
  predicate FormSafe(table: Rates, nexusStates: seq<string>, rates: Rates) {
    forall code :: code in table ==> CodeSafe(table, nexusStates, rates, code)
  }

  predicate CodeSafe(table: Rates, nexusStates: seq<string>, rates: Rates, code: string)
    requires code in table
  {
    code in UpperAll(nexusStates) && code in rates ==>
      if code in nexusStates then OnGrid(rates[code]) else rates[code] == table[code]
  }

  lemma UpperAllOfSet(a: seq<string>, b: seq<string>, code: string)
    requires Members(a) == Members(b)
    ensures code in UpperAll(a) <==> code in UpperAll(b)
  {
    forall x, y | (x == a && y == b) || (x == b && y == a) ensures code in UpperAll(x) ==> code in UpperAll(y) {
      if code in UpperAll(x) {
        var i :| 0 <= i < |x| && UpperAll(x)[i] == code;
        assert x[i] in Members(x) && x[i] in Members(y);
        var j :| 0 <= j < |y| && y[j] == x[i];
        assert UpperAll(y)[j] == code;
      }
    }
  }

  /** The rate a canonical, known code resolves to. */
  function RateAt(table: Rates, config: TaxConfig, code: string): real
    requires code in table
  {
    if code !in UpperAll(config.nexusStates) then 0.0
    else if config.rates.Some? && code in config.rates.value then config.rates.value[code]
    else table[code]
  }

  lemma SameMeaningIff(table: Rates, a: TaxConfig, b: TaxConfig)
    requires IsStateTable(table)
    ensures SameMeaning(table, a, b) <==> forall code :: code in table ==> RateAt(table, a, code) == RateAt(table, b, code)
  {
    forall code | code in table
      ensures ResolveRate(table, Some(a), Some(code), false) == RateAt(table, a, code)
      ensures ResolveRate(table, Some(b), Some(code), false) == RateAt(table, b, code)
    {
      assert Canonical(code);
    }
    if SameMeaning(table, a, b) {
      forall code | code in table ensures RateAt(table, a, code) == RateAt(table, b, code) {
        assert ResolveRate(table, Some(a), Some(code), false) == ResolveRate(table, Some(b), Some(code), false);
      }
    }
  }

  /** Saving an untouched form succeeds exactly when every override in nexus is at most 50 percent
      and not negative; the first offending code is reported otherwise. */
  lemma UntouchedSaveIff(nexusStates: seq<string>, rates: Rates, r: Result<Update, string>)
    requires Saves(LoadForm(nexusStates, rates), r)
    ensures r.Ok? <==> forall c :: c in nexusStates && c in rates ==> RateInRange(rates[c])
  {
    var form := LoadForm(nexusStates, rates);
    forall c | c in nexusStates ensures c in form.nexus {}
    forall c | c in nexusStates && c in rates ensures Invalid(form, c) <==> !RateInRange(rates[c]) {}
  }

  lemma SavedRateAt(table: Rates, nexusStates: seq<string>, rates: Rates, saved: Update, code: string)
    requires code in table && Saves(LoadForm(nexusStates, rates), Ok(saved))
    ensures RateAt(table, TaxConfig(nexusStates, Some(rates)), code)
            == RateAt(table, TaxConfig(saved.nexusStates, Some(saved.rates)), code)
            <==> CodeSafe(table, nexusStates, rates, code)
  {
    var form := LoadForm(nexusStates, rates);
    UpperAllOfSet(nexusStates, saved.nexusStates, code);
    assert code in saved.nexusStates <==> code in form.nexus;
    if code in rates {
      RateSurvivesIff(rates[code]);
      if code in nexusStates {
        assert saved.rates[code] == SavedRate(rates[code] * 100.0);
      }
    }
  }

  /** The saved configuration charges every customer what the loaded one did, exactly when the
      loaded one is safe. */
  lemma FormKeepsMeaningIff(table: Rates, nexusStates: seq<string>, rates: Rates, saved: Update)
    requires IsStateTable(table) && Saves(LoadForm(nexusStates, rates), Ok(saved))
    ensures SameMeaning(table, TaxConfig(nexusStates, Some(rates)), TaxConfig(saved.nexusStates, Some(saved.rates)))
            <==> FormSafe(table, nexusStates, rates)
  {
    SameMeaningIff(table, TaxConfig(nexusStates, Some(rates)), TaxConfig(saved.nexusStates, Some(saved.rates)));
    forall code | code in table
      ensures RateAt(table, TaxConfig(nexusStates, Some(rates)), code)
              == RateAt(table, TaxConfig(saved.nexusStates, Some(saved.rates)), code)
              <==> CodeSafe(table, nexusStates, rates, code)
    {
      SavedRateAt(table, nexusStates, rates, saved, code);
    }
  }

  // ---------- Through the server ----------

  /** What every stored configuration satisfies. */
  predicate Stored(table: Rates, config: TaxConfig) {
    && (forall i :: 0 <= i < |config.nexusStates| ==> config.nexusStates[i] in table)
    && Distinct(config.nexusStates)
    && config.rates.Some?
    && (forall c :: c in config.rates.value ==>
          c in table && OnGrid(config.rates.value[c]) && RateInRange(config.rates.value[c]))
  }

  lemma NormalStatesKnown(table: Rates, states: seq<string>)
    requires AllKnown(table, states)
    ensures forall i :: 0 <= i < |NormalStates(states)| ==> NormalStates(states)[i] in table
  {
    forall i | 0 <= i < |NormalStates(states)| ensures NormalStates(states)[i] in table {
      assert NormalStates(states)[i] in CanonAll(states);
    }
  }

  lemma NormalRatesStored(table: Rates, rates: Rates, nexus: seq<string>, out: Rates)
    requires AcceptsRates(table, rates) && NormalRates(rates, nexus, out)
    ensures forall c :: c in out ==> c in table && OnGrid(out[c]) && RateInRange(out[c])
  {
    forall c | c in out ensures c in table && OnGrid(out[c]) && RateInRange(out[c]) {
      var s :| PostedAs(rates, s, c, out[c]);
      RoundRateOnGrid(rates[s]);
    }
  }

  lemma StoresKeepsStored(table: Rates, current: TaxConfig, posted: Update, postsRates: bool, stored: TaxConfig)
    requires Stored(table, current) && Stores(table, current, posted, postsRates, stored)
    ensures Stored(table, stored)
  {
    NormalStatesKnown(table, posted.nexusStates);
    if postsRates {
      NormalRatesStored(table, posted.rates, stored.nexusStates, stored.rates.value);
    }
  }

  /** An update that posts no rates leaves what a customer pays as it was in every state that was
      and stays in the nexus. */
  lemma NexusOnlyUpdate(table: Rates, current: TaxConfig, posted: Update, stored: TaxConfig, state: string, exempt: bool)
    requires Stores(table, current, posted, false, stored) && state != ""
    requires InNexus(current, Canon(state)) && InNexus(stored, Canon(state))
    ensures ResolveRate(table, Some(stored), Some(state), exempt) == ResolveRate(table, Some(current), Some(state), exempt)
  {
    PaysAt(table, stored, state, exempt);
    PaysAt(table, current, state, exempt);
  }

  ghost predicate Updates(table: Rates, current: TaxConfig, stored: TaxConfig) {
    exists posted: Update, postsRates: bool :: Stores(table, current, posted, postsRates, stored)
  }

  /** Every configuration reached by updates from one in stored form, such as the empty one or
      the one a tenant is seeded with, is in stored form. */
  lemma {:induction false} HistoryStored(table: Rates, configs: seq<TaxConfig>)
    requires configs != [] && Stored(table, configs[0])
    requires forall i :: 0 <= i < |configs| - 1 ==> Updates(table, configs[i], configs[i + 1])
    ensures Stored(table, configs[|configs| - 1])
    decreases |configs|
  {
    var n := |configs| - 1;
    if n > 0 {
      HistoryStored(table, configs[..n]);
      assert Updates(table, configs[n - 1], configs[n - 1 + 1]);
      var posted: Update, postsRates: bool :| Stores(table, configs[n - 1], posted, postsRates, configs[n]);
      StoresKeepsStored(table, configs[n - 1], posted, postsRates, configs[n]);
    }
  }

  lemma UpperAllCanonical(table: Rates, codes: seq<string>)
    requires IsStateTable(table) && forall i :: 0 <= i < |codes| ==> codes[i] in table
    ensures UpperAll(codes) == codes
  {
    forall i | 0 <= i < |codes| ensures Upper(codes[i]) == codes[i] {
      assert Canonical(codes[i]);
      UpperIdempotent(Trim(codes[i]));
    }
  }

  /** The same nexus, and the same rate for every code in it. */
  ghost predicate SameRates(config: TaxConfig, saved: Update)
    requires config.rates.Some?
  {
    && (forall c :: c in saved.nexusStates <==> c in config.nexusStates)
    && (forall c :: c in saved.rates <==> c in config.nexusStates && c in config.rates.value)
    && (forall c :: c in saved.rates ==> saved.rates[c] == config.rates.value[c])
  }

  lemma UntouchedSaveSameRates(table: Rates, config: TaxConfig, saved: Update)
    requires Stored(table, config) && Saves(LoadForm(config.nexusStates, config.rates.value), Ok(saved))
    ensures SameRates(config, saved)
  {
    forall c ensures c in saved.nexusStates <==> c in config.nexusStates {
      assert c in saved.nexusStates <==> c in Members(saved.nexusStates);
    }
    forall c | c in saved.rates ensures c in config.rates.value && saved.rates[c] == config.rates.value[c] {
      RateSurvivesIff(config.rates.value[c]);
    }
  }

  /** A stored configuration can always be loaded and saved untouched: the form accepts it and
      the server accepts what the form posts. */
  lemma UntouchedSaveAccepted(table: Rates, config: TaxConfig, r: Result<Update, string>)
    requires IsStateTable(table) && Stored(table, config)
    requires Saves(LoadForm(config.nexusStates, config.rates.value), r)
    ensures r.Ok? && AllKnown(table, r.value.nexusStates) && AcceptsRates(table, r.value.rates)
  {
    UntouchedSaveIff(config.nexusStates, config.rates.value, r);
    UntouchedSaveSameRates(table, config, r.value);
    var states := r.value.nexusStates;
    forall i | 0 <= i < |states| ensures Canon(states[i]) in table {
      assert states[i] in config.nexusStates && Canonical(states[i]);
    }
    forall c | c in r.value.rates ensures Canon(c) in table {
      assert Canonical(c);
    }
  }

  lemma StoredNexusSame(table: Rates, config: TaxConfig, saved: Update, c: string)
    requires IsStateTable(table) && Stored(table, config) && SameRates(config, saved)
    ensures c in NormalStates(saved.nexusStates) <==> c in config.nexusStates
  {
    var states := saved.nexusStates;
    forall i | 0 <= i < |states| ensures CanonAll(states)[i] == states[i] {
      assert states[i] in config.nexusStates && Canonical(states[i]);
    }
    assert CanonAll(states) == states;
  }

  lemma StoredRateSame(table: Rates, config: TaxConfig, saved: Update, stored: TaxConfig, code: string)
    requires IsStateTable(table) && Stored(table, config) && Stored(table, stored) && SameRates(config, saved)
    requires Stores(table, config, saved, true, stored) && code in table
    ensures RateAt(table, config, code) == RateAt(table, stored, code)
  {
    UpperAllCanonical(table, config.nexusStates);
    UpperAllCanonical(table, stored.nexusStates);
    StoredNexusSame(table, config, saved, code);
    assert Canonical(code);
    if code in saved.rates {
      assert Canon(code) in UpperAll(stored.nexusStates);
    }
    if code in stored.rates.value {
      var s :| PostedAs(saved.rates, s, code, stored.rates.value[code]);
      assert Canonical(s);
      RateSurvivesIff(saved.rates[s]);
    }
  }

  /** Loading a stored configuration and saving it untouched leaves every customer's rate as it
      was, although overrides outside the nexus are dropped. */
  lemma UntouchedSaveKeepsMeaning(table: Rates, config: TaxConfig, saved: Update, stored: TaxConfig)
    requires IsStateTable(table) && Stored(table, config)
    requires Saves(LoadForm(config.nexusStates, config.rates.value), Ok(saved))
    requires Stores(table, config, saved, true, stored)
    ensures SameMeaning(table, config, stored)
  {
    UntouchedSaveSameRates(table, config, saved);
    StoresKeepsStored(table, config, saved, true, stored);
    SameMeaningIff(table, config, stored);
    forall code | code in table ensures RateAt(table, config, code) == RateAt(table, stored, code) {
      StoredRateSame(table, config, saved, stored, code);
    }
  }
}
