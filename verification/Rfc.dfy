/** The validator of Mexican tax identifiers (RFC) and the grammar it accepts. */
module Rfc {
  import opened Common
  import opened Texts

  const GENERIC_RFC_FISICA := "XAXX010101000"
  const GENERIC_RFC_MORAL := "XEXX010101000"

  predicate IsSeparator(c: char) {
    IsSpace(c) || c == '.' || c == '-'
  }

  function RemoveSeparators(s: string): string {
    if s == "" then ""
    else (if IsSeparator(s[0]) then "" else s[..1]) + RemoveSeparators(s[1..])
  }

  function NormalizeRfc(value: string): string {
    Trim(RemoveSeparators(Upper(value)))
  }

  predicate IsHead(c: char) {
    IsUpper(c) || c == '\U{00D1}' || c == '&'
  }

  predicate IsAlphanumeric(c: char) {
    IsDigit(c) || IsUpper(c)
  }

  predicate All(s: string, p: char -> bool) {
    forall i :: 0 <= i < |s| ==> p(s[i])
  }

  /** `Number` of a string of digits. */
  function ToNumber(s: string): nat
    requires All(s, IsDigit)
  {
    if s == "" then 0 else 10 * ToNumber(s[..|s| - 1]) + (s[|s| - 1] as int - '0' as int)
  }

  predicate IsLeap(year: nat) {
    year % 4 == 0 && (year % 100 != 0 || year % 400 == 0)
  }

  /** The day of `new Date(year, month, 0)`: the length of the month counted from 1. */
  function DaysInMonth(year: nat, month: nat): nat {
    if month == 2 then (if IsLeap(year) then 29 else 28)
    else if month in {4, 6, 9, 11} then 30
    else 31
  }

  predicate ValidateRfc(value: string) {
    Accepts(NormalizeRfc(value))
  }

  /** The checks of `validateRfc` on the normalised string. */
  predicate Accepts(rfc: string) {
    if rfc == GENERIC_RFC_FISICA || rfc == GENERIC_RFC_MORAL then true
    else if |rfc| != 12 && |rfc| != 13 then false
    else
      var n := if |rfc| == 12 then 3 else 4;
      All(rfc[..n], IsHead) && AcceptsDate(rfc[n..n + 6]) && All(rfc[n + 6..], IsAlphanumeric)
  }

  predicate AcceptsDate(date: string)
    requires |date| == 6
  {
    if !All(date, IsDigit) then false
    else
      var year, month, day := ToNumber(date[..2]), ToNumber(date[2..4]), ToNumber(date[4..6]);
      if month < 1 || month > 12 then false
      else 1 <= day <= DaysInMonth(2000 + year, month)
  }

  // ---------- The grammar ----------

  /** An identifier in its parts: initials, a date of two-digit year, and the homoclave. */
  datatype Parts = Parts(head: string, year: nat, month: nat, day: nat, homoclave: string)

  /** Three or four initials out of A to Z, \U{00D1} and the ampersand, a real date, and three letters or
      digits. */
  predicate WellFormed(p: Parts) {
    && 3 <= |p.head| <= 4
    && (forall i :: 0 <= i < |p.head| ==> 'A' <= p.head[i] <= 'Z' || p.head[i] == '\U{00D1}' || p.head[i] == '&')
    && RealDate(p.year, p.month, p.day)
    && |p.homoclave| == 3
    && (forall i :: 0 <= i < 3 ==> 'A' <= p.homoclave[i] <= 'Z' || '0' <= p.homoclave[i] <= '9')
  }

  predicate RealDate(year: nat, month: nat, day: nat) {
    && year <= 99 && 1 <= month <= 12 && 1 <= day
    && day <= (if month == 2 then (if year % 4 == 0 then 29 else 28) else if month in {4, 6, 9, 11} then 30 else 31)
  }

  function Digit(n: nat): char
    requires n < 10
  {
    ('0' as int + n) as char
  }

  function TwoDigits(n: nat): string
    requires n < 100
  {
    [Digit(n / 10), Digit(n % 10)]
  }

  function RenderDate(year: nat, month: nat, day: nat): string
    requires RealDate(year, month, day)
  {
    TwoDigits(year) + TwoDigits(month) + TwoDigits(day)
  }

  function Render(p: Parts): string
    requires WellFormed(p)
  {
    p.head + RenderDate(p.year, p.month, p.day) + p.homoclave
  }

  lemma TwoDigitsRead(s: string)
    requires |s| == 2 && All(s, IsDigit)
    ensures ToNumber(s) < 100 && TwoDigits(ToNumber(s)) == s
  {
    assert s[..1][..0] == "";
    var a, b := s[0] as int - '0' as int, s[1] as int - '0' as int;
    assert ToNumber(s[..1]) == a;
    assert ToNumber(s) == 10 * a + b;
  }

  lemma TwoDigitsWritten(n: nat)
    requires n < 100
    ensures All(TwoDigits(n), IsDigit) && ToNumber(TwoDigits(n)) == n
  {
    var s := TwoDigits(n);
    assert ToNumber(s[..1]) == n / 10 by {
      assert s[..1][..0] == "";
    }
  }

  lemma LeapRule(year: nat)
    requires year <= 99
    ensures IsLeap(2000 + year) <==> year % 4 == 0
  {
  }

  lemma DateRead(date: string)
    requires |date| == 6 && AcceptsDate(date)
    ensures exists y, m, d :: RealDate(y, m, d) && date == RenderDate(y, m, d)
  {
    TwoDigitsRead(date[..2]);
    TwoDigitsRead(date[2..4]);
    TwoDigitsRead(date[4..6]);
    var y, m, d := ToNumber(date[..2]), ToNumber(date[2..4]), ToNumber(date[4..6]);
    LeapRule(y);
    assert date == date[..2] + date[2..4] + date[4..6];
    assert RealDate(y, m, d) && date == RenderDate(y, m, d);
  }

  lemma DateWritten(y: nat, m: nat, d: nat)
    requires RealDate(y, m, d)
    ensures var date := RenderDate(y, m, d);
      AcceptsDate(date) && ToNumber(date[..2]) == y && ToNumber(date[2..4]) == m && ToNumber(date[4..6]) == d
  {
    var date := RenderDate(y, m, d);
    TwoDigitsWritten(y);
    TwoDigitsWritten(m);
    TwoDigitsWritten(d);
    LeapRule(y);
    assert date[..2] == TwoDigits(y) && date[2..4] == TwoDigits(m) && date[4..6] == TwoDigits(d);
  }

  lemma PartsWellFormed(p: Parts)
    requires 3 <= |p.head| <= 4 && All(p.head, IsHead) && RealDate(p.year, p.month, p.day)
    requires |p.homoclave| == 3 && All(p.homoclave, IsAlphanumeric)
    ensures WellFormed(p)
  {
    forall i | 0 <= i < |p.head| ensures 'A' <= p.head[i] <= 'Z' || p.head[i] == '\U{00D1}' || p.head[i] == '&' {
      assert IsHead(p.head[i]);
    }
    forall i | 0 <= i < 3 ensures 'A' <= p.homoclave[i] <= 'Z' || '0' <= p.homoclave[i] <= '9' {
      assert IsAlphanumeric(p.homoclave[i]);
    }
  }

  lemma AcceptedHasParts(rfc: string)
    requires Accepts(rfc) && rfc != GENERIC_RFC_FISICA && rfc != GENERIC_RFC_MORAL
    ensures exists p :: WellFormed(p) && rfc == Render(p)
  {
    var n := |rfc| - 9;
    DateRead(rfc[n..n + 6]);
    var y, m, d :| RealDate(y, m, d) && rfc[n..n + 6] == RenderDate(y, m, d);
    var p := Parts(rfc[..n], y, m, d, rfc[n + 6..]);
    PartsWellFormed(p);
    assert rfc == rfc[..n] + rfc[n..n + 6] + rfc[n + 6..];
    assert WellFormed(p) && rfc == Render(p);
  }

  /** The two generic identifiers need no special case: they satisfy the grammar. */
  lemma GenericHasParts(rfc: string)
    requires rfc == GENERIC_RFC_FISICA || rfc == GENERIC_RFC_MORAL
    ensures exists p :: WellFormed(p) && rfc == Render(p)
  {
    var p := Parts(rfc[..4], 1, 1, 1, "000");
    assert WellFormed(p) && Render(p) == rfc;
  }

  lemma PartsAreAccepted(p: Parts)
    requires WellFormed(p)
    ensures Accepts(Render(p))
  {
    var rfc := Render(p);
    var n := |p.head|;
    DateWritten(p.year, p.month, p.day);
    assert rfc[..n] == p.head && rfc[n..n + 6] == RenderDate(p.year, p.month, p.day) && rfc[n + 6..] == p.homoclave;
  }

  /** A string is accepted exactly when its normalised form is three or four initials, a real
      date and three alphanumerics. */
  lemma GrammarIff(value: string)
    ensures ValidateRfc(value) <==> exists p :: WellFormed(p) && NormalizeRfc(value) == Render(p)
  {
    var rfc := NormalizeRfc(value);
    if rfc == GENERIC_RFC_FISICA || rfc == GENERIC_RFC_MORAL {
      GenericHasParts(rfc);
    } else if Accepts(rfc) {
      AcceptedHasParts(rfc);
    }
    if p :| WellFormed(p) && rfc == Render(p) {
      PartsAreAccepted(p);
    }
  }

  /** An identifier has one decomposition. */
  lemma RenderInjective(p: Parts, q: Parts)
    requires WellFormed(p) && WellFormed(q) && Render(p) == Render(q)
    ensures p == q
  {
    var rfc := Render(p);
    var n := |rfc| - 9;
    DateWritten(p.year, p.month, p.day);
    DateWritten(q.year, q.month, q.day);
    assert rfc[..n] == p.head && rfc[n..n + 6] == RenderDate(p.year, p.month, p.day) && rfc[n + 6..] == p.homoclave;
    assert rfc[..n] == q.head && rfc[n..n + 6] == RenderDate(q.year, q.month, q.day) && rfc[n + 6..] == q.homoclave;
  }

  // ---------- Spelling ----------

  lemma {:induction false} RemoveAppend(a: string, b: string)
    ensures RemoveSeparators(a + b) == RemoveSeparators(a) + RemoveSeparators(b)
    decreases |a|
  {
    if a == "" {
      assert a + b == b;
    } else {
      TailOfAppend(a, b);
      assert (a + b)[..1] == a[..1];
      RemoveAppend(a[1..], b);
      AppendAssoc(if IsSeparator(a[0]) then "" else a[..1], RemoveSeparators(a[1..]), RemoveSeparators(b));
    }
  }

  lemma {:induction false} RemoveLeavesNone(s: string)
    ensures forall i :: 0 <= i < |RemoveSeparators(s)| ==> !IsSeparator(RemoveSeparators(s)[i])
    decreases |s|
  {
    if s != "" {
      RemoveLeavesNone(s[1..]);
    }
  }

  /** The final `trim` finds nothing to do, so normalising goes character by character. */
  lemma NormalizeAppend(a: string, b: string)
    ensures NormalizeRfc(a + b) == NormalizeRfc(a) + NormalizeRfc(b)
  {
    UpperAppend(a, b);
    RemoveAppend(Upper(a), Upper(b));
    RemoveLeavesNone(Upper(a + b));
    RemoveLeavesNone(Upper(a));
    RemoveLeavesNone(Upper(b));
    TrimNoSpace(RemoveSeparators(Upper(a + b)));
    TrimNoSpace(RemoveSeparators(Upper(a)));
    TrimNoSpace(RemoveSeparators(Upper(b)));
  }

  /** One change of spelling: insert a separator, write a letter small, or replace a stretch of
      characters by anything with the same upper case. */
  datatype Edit = Insert(at: nat, separator: char) | Lower(at: nat) | Recase(at: nat, len: nat, text: string)

  /** The small form of a capital. */
  function SmallLetter(c: char): char
    requires 'A' <= c <= 'Z' || c == '\U{00D1}'
  {
    if c == '\U{00D1}' then '\U{00F1}' else (c as int + 32) as char
  }

  predicate Applies(s: string, e: Edit) {
    match e
    case Insert(at, c) => at <= |s| && (c in " \t\r\n.-" || IsSpace(c))
    case Lower(at) => at < |s| && ('A' <= s[at] <= 'Z' || s[at] == '\U{00D1}')
    case Recase(at, len, text) => at + len <= |s| && Upper(text) == Upper(s[at..at + len])
  }

  function Apply(s: string, e: Edit): string
    requires Applies(s, e)
  {
    match e
    case Insert(at, c) => s[..at] + [c] + s[at..]
    case Lower(at) => s[..at] + [SmallLetter(s[at])] + s[at + 1..]
    case Recase(at, len, text) => s[..at] + text + s[at + len..]
  }

  predicate AllApply(s: string, edits: seq<Edit>)
    decreases |edits|
  {
    edits == [] || (Applies(s, edits[0]) && AllApply(Apply(s, edits[0]), edits[1..]))
  }

  function ApplyAll(s: string, edits: seq<Edit>): string
    requires AllApply(s, edits)
    decreases |edits|
  {
    if edits == [] then s else ApplyAll(Apply(s, edits[0]), edits[1..])
  }

  lemma NormalizeAround(a: string, b: string, b': string, c: string)
    requires NormalizeRfc(b) == NormalizeRfc(b')
    ensures NormalizeRfc(a + b + c) == NormalizeRfc(a + b' + c)
  {
    NormalizeAppend(a + b, c);
    NormalizeAppend(a, b);
    NormalizeAppend(a + b', c);
    NormalizeAppend(a, b');
  }

  lemma SeparatorVanishes(c: char)
    requires IsSeparator(c)
    ensures NormalizeRfc([c]) == NormalizeRfc("")
  {
    UpperOne(c);
    assert RemoveSeparators([c]) == "" + RemoveSeparators([c][1..]);
  }

  lemma RecasedNormalizes(text: string, text': string)
    requires Upper(text) == Upper(text')
    ensures NormalizeRfc(text) == NormalizeRfc(text')
  {
  }

  lemma SmallLetterUpper(c: char)
    requires 'A' <= c <= 'Z' || c == '\U{00D1}'
    ensures Upper([SmallLetter(c)]) == Upper([c])
  {
    UpperOne(c);
    UpperOne(SmallLetter(c));
  }

  lemma SplitAround(s: string, at: nat, len: nat)
    requires at + len <= |s|
    ensures s == s[..at] + s[at..at + len] + s[at + len..]
  {
  }

  lemma EditKeepsNormal(s: string, e: Edit)
    requires Applies(s, e)
    ensures NormalizeRfc(Apply(s, e)) == NormalizeRfc(s)
  {
    match e {
      case Insert(at, c) =>
        SplitAround(s, at, 0);
        SeparatorVanishes(c);
        NormalizeAround(s[..at], s[at..at], [c], s[at..]);
      case Lower(at) =>
        SplitAround(s, at, 1);
        SmallLetterUpper(s[at]);
        assert s[at..at + 1] == [s[at]];
        RecasedNormalizes([s[at]], [SmallLetter(s[at])]);
        NormalizeAround(s[..at], s[at..at + 1], [SmallLetter(s[at])], s[at + 1..]);
      case Recase(at, len, text) =>
        SplitAround(s, at, len);
        RecasedNormalizes(s[at..at + len], text);
        NormalizeAround(s[..at], s[at..at + len], text, s[at + len..]);
    }
  }

  /** Inserting separators and changing case, any number of times and in any order, leaves the
      verdict as it was. */
  lemma {:induction false} SpellingDoesNotMatter(s: string, edits: seq<Edit>)
    requires AllApply(s, edits)
    ensures NormalizeRfc(ApplyAll(s, edits)) == NormalizeRfc(s)
    ensures ValidateRfc(ApplyAll(s, edits)) == ValidateRfc(s)
    decreases |edits|
  {
    if edits != [] {
      EditKeepsNormal(s, edits[0]);
      SpellingDoesNotMatter(Apply(s, edits[0]), edits[1..]);
    }
  }

  // ---------- Every spelling of an identifier ----------

  lemma {:induction false} RemoveNothing(s: string)
    requires forall i :: 0 <= i < |s| ==> !IsSeparator(s[i])
    ensures RemoveSeparators(s) == s
    decreases |s|
  {
    if s != "" {
      RemoveNothing(s[1..]);
      assert s == s[..1] + s[1..];
    }
  }

  /** Normalising leaves a string of capitals, digits and other characters that are no separators
      as it is. */
  lemma NormalIsFixed(s: string)
    requires forall i :: 0 <= i < |s| ==> s[i] !in " \t\r\n.-" && !IsSpace(s[i]) && UpperOf(s[i]) == [s[i]]
    ensures NormalizeRfc(s) == s
  {
    UpperFixed(s);
    RemoveNothing(s);
    TrimNoSpace(s);
  }

  /** The characters of identifiers. */
  predicate Plain(c: char) {
    'A' <= c <= 'Z' || '0' <= c <= '9' || c == '\U{00D1}' || c == '&'
  }

  lemma PlainIsFixed(c: char)
    requires Plain(c)
    ensures c !in " \t\r\n.-" && !IsSpace(c) && UpperOf(c) == [c]
  {
  }

  lemma DateIsPlain(year: nat, month: nat, day: nat, i: nat)
    requires RealDate(year, month, day) && i < 6
    ensures Plain(RenderDate(year, month, day)[i])
  {
  }

  lemma RenderIsPlain(p: Parts, i: nat)
    requires WellFormed(p) && i < |Render(p)|
    ensures Plain(Render(p)[i])
  {
    var n := |p.head|;
    var date := RenderDate(p.year, p.month, p.day);
    if i < n {
      assert Render(p)[i] == p.head[i];
    } else if i < n + 6 {
      assert Render(p)[i] == date[i - n];
      DateIsPlain(p.year, p.month, p.day, i - n);
    } else {
      assert Render(p)[i] == p.homoclave[i - n - 6];
    }
  }

  lemma RenderIsNormal(p: Parts)
    requires WellFormed(p)
    ensures NormalizeRfc(Render(p)) == Render(p)
  {
    var rfc := Render(p);
    forall i | 0 <= i < |rfc| ensures rfc[i] !in " \t\r\n.-" && !IsSpace(rfc[i]) && UpperOf(rfc[i]) == [rfc[i]] {
      RenderIsPlain(p, i);
      PlainIsFixed(rfc[i]);
    }
    NormalIsFixed(rfc);
  }

  /** One character of a string out of its normal form: a separator is inserted, any other
      character is put for its upper case. */
  lemma FirstEdit(done: string, c: char, rest: string) returns (e: Edit)
    ensures Applies(done + NormalizeRfc([c]) + rest, e)
    ensures Apply(done + NormalizeRfc([c]) + rest, e) == done + [c] + rest
  {
    var s := done + NormalizeRfc([c]) + rest;
    UpperOne(c);
    if IsSeparator(c) {
      SeparatorVanishes(c);
      assert NormalizeRfc("") == "";
      e := Insert(|done|, c);
      assert s[..|done|] == done && s[|done|..] == rest;
    } else {
      NormalOfOther(c);
      UpperOfFixed(c);
      var n := |UpperOf(c)|;
      e := Recase(|done|, n, [c]);
      assert s[..|done|] == done && s[|done|..|done| + n] == UpperOf(c) && s[|done| + n..] == rest;
    }
  }

  lemma NormalOfOther(c: char)
    requires !IsSeparator(c)
    ensures NormalizeRfc([c]) == UpperOf(c)
  {
    UpperOne(c);
    RemoveNothing(UpperOf(c));
    TrimNoSpace(UpperOf(c));
  }

  lemma ApplyCons(s: string, e: Edit, edits: seq<Edit>)
    requires Applies(s, e) && AllApply(Apply(s, e), edits)
    ensures AllApply(s, [e] + edits) && ApplyAll(s, [e] + edits) == ApplyAll(Apply(s, e), edits)
  {
    assert ([e] + edits)[1..] == edits;
  }

  lemma NormalCons(done: string, value: string)
    requires value != ""
    ensures done + NormalizeRfc(value) == done + NormalizeRfc([value[0]]) + NormalizeRfc(value[1..])
    ensures done + value == done + [value[0]] + value[1..]
  {
    assert value == [value[0]] + value[1..];
    NormalizeAppend([value[0]], value[1..]);
    AppendAssoc(done, NormalizeRfc([value[0]]), NormalizeRfc(value[1..]));
  }

  /** Every string is a spelling of its normal form. */
  lemma {:induction false} SpellOut(done: string, value: string) returns (edits: seq<Edit>)
    ensures AllApply(done + NormalizeRfc(value), edits)
    ensures ApplyAll(done + NormalizeRfc(value), edits) == done + value
    decreases |value|
  {
    if value == "" {
      edits := [];
    } else {
      NormalCons(done, value);
      var e := FirstEdit(done, value[0], NormalizeRfc(value[1..]));
      edits := SpellOut(done + [value[0]], value[1..]);
      ApplyCons(done + NormalizeRfc(value), e, edits);
      edits := [e] + edits;
    }
  }

  /** A string is accepted exactly when it is a spelling of a well-formed identifier: one that
      separators and letter case alone make out of it. */
  lemma AcceptedIffSpelling(value: string)
    ensures ValidateRfc(value) <==>
            exists p, edits :: WellFormed(p) && AllApply(Render(p), edits) && ApplyAll(Render(p), edits) == value
  {
    GrammarIff(value);
    if ValidateRfc(value) {
      var p :| WellFormed(p) && NormalizeRfc(value) == Render(p);
      var edits := SpellOut("", value);
      assert "" + NormalizeRfc(value) == Render(p) && "" + value == value;
      assert WellFormed(p) && AllApply(Render(p), edits) && ApplyAll(Render(p), edits) == value;
    }
    if p, edits :| WellFormed(p) && AllApply(Render(p), edits) && ApplyAll(Render(p), edits) == value {
      SpellingDoesNotMatter(Render(p), edits);
      RenderIsNormal(p);
    }
  }
}
