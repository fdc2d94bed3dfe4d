/** The settings form with its state updated in place, proved against the form on values. */
module SettingsForm {
  import opened Common
  import opened SalesTax

  lemma {:induction false} BeforeTotal(a: string, b: string)
    ensures a == b || Before(a, b) || Before(b, a)
    decreases |a|
  {
    if a != "" && b != "" && a[0] == b[0] {
      BeforeTotal(a[1..], b[1..]);
      assert a == [a[0]] + a[1..] && b == [b[0]] + b[1..];
    }
  }

  lemma {:induction false} BeforeTransitive(a: string, b: string, c: string)
    requires Before(a, b) && Before(b, c)
    ensures Before(a, c) && a != b
    decreases |a|
  {
    if a != "" {
      if a[0] == b[0] == c[0] {
        BeforeTransitive(a[1..], b[1..], c[1..]);
      } else if a[0] == b[0] {
        BeforeIrreflexive(a, b);
      }
    }
  }

  lemma {:induction false} BeforeIrreflexive(a: string, b: string)
    requires Before(a, b)
    ensures a != b
    decreases |a|
  {
    if a != "" && a[0] == b[0] {
      BeforeIrreflexive(a[1..], b[1..]);
    }
  }

  /** The order is the dictionary's: at the first place where two strings differ the smaller
      character comes first, and a proper prefix comes before the whole. */
  lemma {:induction false} BeforeIff(a: string, b: string)
    ensures Before(a, b) <==>
            exists k :: 0 <= k <= |a| && k < |b| && a[..k] == b[..k] && (k == |a| || a[k] < b[k])
    decreases |a|
  {
    if a == "" || b == "" {
      assert b != "" ==> a[..0] == b[..0];
    } else if a[0] == b[0] {
      BeforeIff(a[1..], b[1..]);
      if k :| 0 <= k <= |a| - 1 && k < |b| - 1 && a[1..][..k] == b[1..][..k] && (k == |a| - 1 || a[1..][k] < b[1..][k]) {
        assert a[..k + 1] == [a[0]] + a[1..][..k] && b[..k + 1] == [b[0]] + b[1..][..k];
      }
      if k :| 0 <= k <= |a| && k < |b| && a[..k] == b[..k] && (k == |a| || a[k] < b[k]) {
        assert k > 0;
        assert a[1..][..k - 1] == a[..k][1..] && b[1..][..k - 1] == b[..k][1..];
      }
    } else {
      assert a[..0] == b[..0];
      if k :| 0 <= k <= |a| && k < |b| && a[..k] == b[..k] && (k == |a| || a[k] < b[k]) {
        assert k > 0 ==> a[..k][0] == b[..k][0];
      }
    }
  }

  /** `Array.from(codes).sort()`. */
  method SortedCodes(codes: set<string>) returns (q: seq<string>)
    ensures Increasing(q) && Members(q) == codes
  {
    q := [];
    var rest := codes;
    while rest != {}
      invariant Increasing(q) && Members(q) == codes - rest && rest <= codes
      decreases rest
    {
      var c :| c in rest;
      q := InsertCode(q, c);
      rest := rest - {c};
    }
  }

  method InsertCode(q: seq<string>, c: string) returns (r: seq<string>)
    requires Increasing(q) && c !in q
    ensures Increasing(r) && Members(r) == Members(q) + {c}
  {
    var i := 0;
    while i < |q| && Before(q[i], c)
      invariant 0 <= i <= |q|
      invariant forall k :: 0 <= k < i ==> Before(q[k], c)
    {
      i := i + 1;
    }
    r := q[..i] + [c] + q[i..];
    forall k | i <= k < |q| ensures Before(c, q[k]) {
      BeforeTotal(q[i], c);
      if k > i {
        BeforeTransitive(c, q[i], q[k]);
      }
    }
  }

  class SettingsPage {
    var nexus: set<string>
    var overrides: map<string, Entry>

    constructor ()
      ensures nexus == {} && overrides == map[]
    {
      nexus, overrides := {}, map[];
    }

    ghost function View(): Form
      reads this
    {
      Form(nexus, overrides)
    }

    /** The load effect: fills the form from the configuration, entry by entry. */
    method Load(nexusStates: seq<string>, rates: Rates)
      modifies this
      ensures View() == LoadForm(nexusStates, rates)
    {
      nexus := set c | c in nexusStates;
      var percentOverrides: map<string, Entry> := map[];
      var rest := rates.Keys;
      while rest != {}
        invariant rest <= rates.Keys
        invariant percentOverrides == map c | c in rates && c !in rest :: Percent(rates[c] * 100.0)
        decreases rest
      {
        var code :| code in rest;
        percentOverrides := percentOverrides[code := Percent(rates[code] * 100.0)];
        rest := rest - {code};
      }
      overrides := percentOverrides;
    }

    method ToggleNexus(code: string)
      modifies this`nexus
      ensures code in nexus <==> code !in old(nexus)
      ensures forall c :: c != code ==> (c in nexus <==> c in old(nexus))
    {
      if code in nexus {
        nexus := nexus - {code};
      } else {
        nexus := nexus + {code};
      }
    }

    method SetOverride(code: string, value: Entry)
      modifies this`overrides
      ensures overrides == old(overrides)[code := value]
    {
      overrides := overrides[code := value];
    }

    method Save() returns (r: Result<Update, string>)
      ensures Saves(View(), r)
    {
      ghost var form := View();
      var nexusStates := SortedCodes(nexus);
      var rates: Rates := map[];
      for i := 0 to |nexusStates|
        invariant rates == RatesOf(form, nexusStates[..i])
        invariant forall k :: 0 <= k < i ==> !Invalid(form, nexusStates[k])
      {
        var code := nexusStates[i];
        RatesExtend(form, nexusStates, i);
        if code in overrides && !overrides[code].Blank? {
          var raw := overrides[code];
          if raw.NotANumber? || raw.value < 0.0 || raw.value > 50.0 {
            FirstInvalid(form, nexusStates, i);
            return Err(code);
          }
          rates := rates[code := (raw.value * 100.0 + 0.5).Floor as real / 10000.0];
        }
      }
      AllValid(form, nexusStates);
      r := Ok(Update(nexusStates, rates));
    }
  }

  lemma RatesExtend(form: Form, codes: seq<string>, i: nat)
    requires i < |codes|
    ensures var code := codes[i];
      RatesOf(form, codes[..i + 1]) ==
      if Filled(form, code) && form.overrides[code].Percent?
      then RatesOf(form, codes[..i])[code := SavedRate(form.overrides[code].value)]
      else RatesOf(form, codes[..i])
  {
    assert codes[..i + 1] == codes[..i] + [codes[i]];
  }

  lemma AllValid(form: Form, codes: seq<string>)
    requires Increasing(codes) && Members(codes) == form.nexus
    requires forall k :: 0 <= k < |codes| ==> !Invalid(form, codes[k])
    ensures Saves(form, Ok(Update(codes, RatesOf(form, codes[..|codes|]))))
  {
    assert codes[..|codes|] == codes;
    forall c | c in form.nexus ensures !Invalid(form, c) {
      assert c in Members(codes);
    }
  }

  lemma FirstInvalid(form: Form, codes: seq<string>, i: nat)
    requires i < |codes| && Increasing(codes) && Members(codes) == form.nexus && Invalid(form, codes[i])
    requires forall k :: 0 <= k < i ==> !Invalid(form, codes[k])
    ensures Saves(form, Err(codes[i]))
  {
    assert codes[i] in Members(codes);
    forall c | c in form.nexus && Before(c, codes[i]) ensures !Invalid(form, c) {
      assert c in Members(codes);
      var k :| 0 <= k < |codes| && codes[k] == c;
      if k > i {
        BeforeTransitive(c, codes[i], c);
        BeforeIrreflexive(c, c);
      } else if k == i {
        BeforeIrreflexive(c, codes[i]);
      }
    }
  }
}
