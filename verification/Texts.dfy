/** The JavaScript string operations the core logic uses: white space, `trim` and `toUpperCase`. */
module Texts {
  import opened Common

  /** The characters of `\s`, which are also the ones `trim` removes. */
  predicate IsSpace(c: char) {
    || '\t' <= c <= '\r' || c == ' ' || c == '\U{00A0}' || c == '\U{1680}' || '\U{2000}' <= c <= '\U{200A}'
    || c == '\U{2028}' || c == '\U{2029}' || c == '\U{202F}' || c == '\U{205F}' || c == '\U{3000}' || c == '\U{FEFF}'
  }

  predicate IsLower(c: char) {
    'a' <= c <= 'z'
  }

  predicate IsUpper(c: char) {
    'A' <= c <= 'Z'
  }

  predicate IsDigit(c: char) {
    '0' <= c <= '9'
  }

  /** The upper-case form of a character. Every character whose upper case is made of the letters
      A to Z and \U{00D1} is listed, the expanding ones included; the others stand for themselves. */
  function UpperOf(c: char): string {
    if IsLower(c) then [(c as int - 32) as char]
    else if c == '\U{00F1}' then ['\U{00D1}']
    else if c == '\U{0131}' then "I"
    else if c == '\U{017F}' then "S"
    else if c == '\U{00DF}' then "SS"
    else if c == '\U{FB00}' then "FF"
    else if c == '\U{FB01}' then "FI"
    else if c == '\U{FB02}' then "FL"
    else if c == '\U{FB03}' then "FFI"
    else if c == '\U{FB04}' then "FFL"
    else if c == '\U{FB05}' || c == '\U{FB06}' then "ST"
    else [c]
  }

  function Upper(s: string): string {
    if s == "" then "" else UpperOf(s[0]) + Upper(s[1..])
  }

  function TrimStart(s: string): string {
    if s != "" && IsSpace(s[0]) then TrimStart(s[1..]) else s
  }

  function TrimEnd(s: string): string {
    if s != "" && IsSpace(s[|s| - 1]) then TrimEnd(s[..|s| - 1]) else s
  }

  function Trim(s: string): string {
    TrimEnd(TrimStart(s))
  }

  /** Nothing to trim. */
  lemma TrimNoSpace(s: string)
    requires forall i :: 0 <= i < |s| ==> !IsSpace(s[i])
    ensures Trim(s) == s
  {
  }

  lemma UpperOne(c: char)
    ensures Upper([c]) == UpperOf(c)
  {
    assert [c][1..] == "";
  }

  lemma {:induction false} UpperAppend(a: string, b: string)
    ensures Upper(a + b) == Upper(a) + Upper(b)
    decreases |a|
  {
    if a == "" {
      assert a + b == b;
    } else {
      TailOfAppend(a, b);
      UpperAppend(a[1..], b);
      AppendAssoc(UpperOf(a[0]), Upper(a[1..]), Upper(b));
    }
  }

  lemma {:induction false} UpperIdempotent(s: string)
    ensures Upper(Upper(s)) == Upper(s)
    decreases |s|
  {
    if s != "" {
      UpperIdempotent(s[1..]);
      UpperAppend(UpperOf(s[0]), Upper(s[1..]));
      UpperOfFixed(s[0]);
    }
  }

  lemma UpperOfFixed(c: char)
    ensures Upper(UpperOf(c)) == UpperOf(c)
  {
    var u := UpperOf(c);
    assert forall i :: 0 <= i < |u| ==> UpperOf(u[i]) == [u[i]];
    UpperFixed(u);
  }

  lemma {:induction false} UpperFixed(s: string)
    requires forall i :: 0 <= i < |s| ==> UpperOf(s[i]) == [s[i]]
    ensures Upper(s) == s
    decreases |s|
  {
    if s != "" {
      UpperFixed(s[1..]);
    }
  }
}
