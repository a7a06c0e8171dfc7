/**
 * The pieces of Ruby's String and Integer behaviour that the two attachment
 * validators depend on: ActiveSupport's `String#blank?`, the first field of
 * `String#split('/')`, and `Integer#to_s` (with a parser as its inverse).
 */
module RubyText {
  import opened Wrappers

  /** Whitespace as `blank?` sees it (the ASCII members of `[[:space:]]`). */
  predicate IsSpace(c: char) {
    c == ' ' || c == '\t' || c == '\n' || c == '\r' || c == '\U{000B}' || c == '\U{000C}'
  }

  /** `String#blank?`: empty, or nothing but whitespace. */
  predicate IsBlank(s: string) {
    forall i | 0 <= i < |s| :: IsSpace(s[i])
  }

  /** The empty string and whitespace-only strings are blank; one visible character is enough not to be. */
  lemma BlankStrings()
    ensures IsBlank("") && IsBlank(" \t\r\n")
    ensures !IsBlank("  video/mp4")
  {
    assert !IsSpace("  video/mp4"[2]);
  }

  predicate AllSlashes(s: string) {
    forall i | 0 <= i < |s| :: s[i] == '/'
  }

  /** The text in front of the first '/', or all of `s` when it has none. */
  function BeforeSlash(s: string): (p: string)
    ensures p <= s && '/' !in p
    ensures |p| < |s| ==> s[|p|] == '/'
  {
    if s == [] || s[0] == '/' then [] else [s[0]] + BeforeSlash(s[1..])
  }

  /**
   * `s.split('/').first`. Ruby's split drops trailing empty fields, so a
   * string made only of slashes splits into `[]` and `.first` is `nil`;
   * otherwise the first field is everything before the first slash.
   */
  function SplitFirst(s: string): (r: Option<string>)
    ensures r.None? <==> AllSlashes(s)
    ensures r.Some? ==> r.value <= s && '/' !in r.value
    ensures r.Some? && |r.value| < |s| ==> s[|r.value|] == '/'
  {
    if AllSlashes(s) then None else Some(BeforeSlash(s))
  }

  /** The primary token of a MIME type `type/subtype` is `type`. */
  lemma {:induction false} SplitFirstOfMimeType(kind: string, subtype: string)
    requires kind != [] && '/' !in kind
    ensures SplitFirst(kind + "/" + subtype) == Some(kind)
  {
    var s := kind + "/" + subtype;
    assert s[0] == kind[0] && s[0] != '/';
    assert !AllSlashes(s);
    BeforeSlashOfPrefix(kind, "/" + subtype);
    assert s == kind + ("/" + subtype);
  }

  lemma {:induction false} BeforeSlashOfPrefix(kind: string, rest: string)
    requires '/' !in kind && rest != [] && rest[0] == '/'
    ensures BeforeSlash(kind + rest) == kind
  {
    if kind == [] {
      assert kind + rest == rest;
    } else {
      assert (kind + rest)[1..] == kind[1..] + rest;
      assert kind[0] in kind;
      assert forall c | c in kind[1..] :: c in kind;
      BeforeSlashOfPrefix(kind[1..], rest);
      assert [kind[0]] + kind[1..] == kind;
    }
  }

  function DigitChar(d: nat): char
    requires d < 10
  {
    "0123456789"[d]
  }

  /** `Integer#to_s` for a natural number: decimal digits, most significant first. */
  function NatToS(n: nat): (s: string)
    ensures |s| >= 1
    decreases n
  {
    if n < 10 then [DigitChar(n)] else NatToS(n / 10) + [DigitChar(n % 10)]
  }

  /** `Integer#to_s`: a leading '-' for negatives. */
  function IntToS(i: int): (r: string)
    ensures |r| >= 1
    ensures r[0] == '-' <==> i < 0
  {
    if i < 0 then "-" + NatToS(-i)
    else
      NatToSDigits(i);
      NatToS(i)
  }

  predicate IsDigit(c: char) {
    '0' <= c <= '9'
  }

  predicate IsDigits(s: string) {
    s != [] && forall i | 0 <= i < |s| :: IsDigit(s[i])
  }

  function DigitsValue(s: string): nat
    requires IsDigits(s) || s == []
    decreases |s|
  {
    if s == [] then 0
    else DigitsValue(s[..|s| - 1]) * 10 + (s[|s| - 1] as int - '0' as int)
  }

  /** Reads back a decimal integer, the inverse of `IntToS`. */
  function ParseInt(s: string): Option<int> {
    if IsDigits(s) then Some(DigitsValue(s))
    else if |s| >= 2 && s[0] == '-' && IsDigits(s[1..]) then Some(-(DigitsValue(s[1..]) as int))
    else None
  }

  lemma {:induction false} NatToSDigits(n: nat)
    ensures IsDigits(NatToS(n)) && DigitsValue(NatToS(n)) == n
    ensures NatToS(n)[0] != '0' || n == 0
    decreases n
  {
    if n >= 10 {
      NatToSDigits(n / 10);
      var s := NatToS(n);
      assert s[..|s| - 1] == NatToS(n / 10);
    }
  }

  lemma ParseNegative(digits: string)
    requires IsDigits(digits)
    ensures ParseInt("-" + digits) == Some(-(DigitsValue(digits) as int))
  {
    var s := "-" + digits;
    assert s[0] == '-' && !IsDigit(s[0]);
    assert s[1..] == digits;
  }

  /** Rendering an integer and parsing it back gives the same integer. */
  lemma IntToSRoundTrip(i: int)
    ensures ParseInt(IntToS(i)) == Some(i)
  {
    NatToSDigits(if i < 0 then -i else i);
    if i < 0 {
      ParseNegative(NatToS(-i));
    }
  }

  /** Distinct limits give distinct message texts. */
  lemma IntToSInjective(a: int, b: int)
    ensures IntToS(a) == IntToS(b) <==> a == b
  {
    IntToSRoundTrip(a);
    IntToSRoundTrip(b);
  }
}
