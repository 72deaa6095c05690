/** Character classes and string primitives of JavaScript, as the crawler's regular
    expressions and `String.prototype` calls use them. Strings are sequences of Unicode
    scalar values; JavaScript's UTF-16 code units are not modelled. */
module Text {
  import opened Wrappers

  /** JavaScript's `\s` class: the WhiteSpace and LineTerminator code points. `trim()` strips
      exactly the same set. */
  predicate IsSpace(c: char) {
    c == '\t' || c == '\n' || c == '\U{000B}' || c == '\U{000C}' || c == '\r' || c == ' '
    || c == '\U{00A0}' || c == '\U{1680}' || ('\U{2000}' <= c <= '\U{200A}')
    || c == '\U{2028}' || c == '\U{2029}' || c == '\U{202F}' || c == '\U{205F}'
    || c == '\U{3000}' || c == '\U{FEFF}'
  }

  /** The characters that a regular-expression `.` does not match. */
  predicate IsLineTerminator(c: char) {
    c == '\n' || c == '\r' || c == '\U{2028}' || c == '\U{2029}'
  }

  /** The characters on the word side of `\b` (without the `u` flag). */
  predicate IsWordChar(c: char) {
    ('a' <= c <= 'z') || ('A' <= c <= 'Z') || ('0' <= c <= '9') || c == '_'
  }

  /** No character that `.` refuses to match (a line terminator of ECMAScript). */
  predicate NoLineTerminator(s: string) {
    forall k :: 0 <= k < |s| ==> !IsLineTerminator(s[k])
  }

  /** ASCII case folding: the `i` flag without `u` never maps a non-ASCII character to an
      ASCII one, so for the ASCII patterns of the crawler this is exactly its effect. */
  function Lower(c: char): (r: char)
    ensures ('A' <= c <= 'Z') ==> r as int == c as int + 32
    ensures !('A' <= c <= 'Z') ==> r == c
  {
    if 'A' <= c <= 'Z' then (c as int + 32) as char else c
  }

  /** `pat` (written in lower case when `ci`) occurs in `s` at index `i`. */
  predicate Occurs(s: string, i: nat, pat: string, ci: bool) {
    i + |pat| <= |s|
    && forall k :: 0 <= k < |pat| ==> (if ci then Lower(s[i + k]) else s[i + k]) == pat[k]
  }

  /** The first occurrence of `pat` in `s` at or after `from`, as `indexOf` finds it. */
  function Find(s: string, pat: string, from: nat, ci: bool): (r: Option<nat>)
    ensures r.Some? ==> from <= r.value && r.value + |pat| <= |s|
    decreases |s| - from
  {
    if from + |pat| > |s| then None
    else if Occurs(s, from, pat, ci) then Some(from)
    else Find(s, pat, from + 1, ci)
  }

  /** `Find` gives the first occurrence, and none when there is none. */
  lemma {:induction false} FindIsFirst(s: string, pat: string, from: nat, ci: bool)
    ensures var r := Find(s, pat, from, ci);
      && (r.Some? ==> Occurs(s, r.value, pat, ci))
      && (r.Some? ==> forall j :: from <= j < r.value ==> !Occurs(s, j, pat, ci))
      && (r.None? ==> forall j :: from <= j ==> !Occurs(s, j, pat, ci))
    decreases |s| - from
  {
    if from + |pat| <= |s| && !Occurs(s, from, pat, ci) {
      FindIsFirst(s, pat, from + 1, ci);
    }
  }

  /** `s.startsWith(prefix)` */
  predicate StartsWith(s: string, prefix: string) {
    |prefix| <= |s| && s[..|prefix|] == prefix
  }

  /** `s.endsWith(suffix)` */
  predicate EndsWith(s: string, suffix: string) {
    |suffix| <= |s| && s[|s| - |suffix|..] == suffix
  }

  /** Number of whitespace characters at the front of `s`. */
  function LeadingSpaces(s: string): (a: nat)
    ensures a <= |s|
    ensures forall k :: 0 <= k < a ==> IsSpace(s[k])
    ensures a < |s| ==> !IsSpace(s[a])
  {
    if s == [] || !IsSpace(s[0]) then 0 else 1 + LeadingSpaces(s[1..])
  }

  /** Length of `s` without its trailing whitespace. */
  function TrailingStart(s: string): (b: nat)
    ensures b <= |s|
    ensures forall k :: b <= k < |s| ==> IsSpace(s[k])
    ensures 0 < b ==> !IsSpace(s[b - 1])
  {
    if s == [] || !IsSpace(s[|s| - 1]) then |s| else TrailingStart(s[..|s| - 1])
  }

  /** `String.prototype.trim`: the infix of `s` left after removing the whitespace at both
      ends; it neither starts nor ends with whitespace. */
  function Trim(s: string): (r: string)
    ensures LeadingSpaces(s) + |r| <= |s|
    ensures r == s[LeadingSpaces(s)..LeadingSpaces(s) + |r|]
    ensures forall k :: 0 <= k < LeadingSpaces(s) ==> IsSpace(s[k])
    ensures forall k :: LeadingSpaces(s) + |r| <= k < |s| ==> IsSpace(s[k])
    ensures r != [] ==> !IsSpace(r[0]) && !IsSpace(r[|r| - 1])
  {
    var t := s[LeadingSpaces(s)..];
    t[..TrailingStart(t)]
  }

  /** A text that starts and ends its first `n` characters with non-whitespace and has only
      whitespace after them trims to those `n` characters. */
  lemma TrimToPrefix(s: string, n: nat)
    requires 0 < n <= |s|
    requires !IsSpace(s[0]) && !IsSpace(s[n - 1])
    requires forall k :: n <= k < |s| ==> IsSpace(s[k])
    ensures Trim(s) == s[..n]
  {
    assert LeadingSpaces(s) == 0;
  }

  /** The decimal digit of a value below ten. */
  function DigitChar(d: nat): (c: char)
    requires d < 10
    ensures '0' <= c <= '9' && c as int - '0' as int == d
  {
    (d + '0' as int) as char
  }

  /** The decimal rendering of a counter, as a template literal `${n}` prints it. */
  function Decimal(n: nat): (r: string)
    ensures |r| >= 1
    ensures forall k :: 0 <= k < |r| ==> '0' <= r[k] <= '9'
    ensures r[0] == '0' ==> n == 0
  {
    if n < 10 then [DigitChar(n)] else Decimal(n / 10) + [DigitChar(n % 10)]
  }

  /** The value of a string of decimal digits: the reference reading of `Decimal`. */
  function DecimalValue(s: string): nat
    requires forall k :: 0 <= k < |s| ==> '0' <= s[k] <= '9'
  {
    if s == [] then 0
    else DecimalValue(s[..|s| - 1]) * 10 + (s[|s| - 1] as int - '0' as int)
  }

  /** Reading back the decimal rendering gives the counter again. */
  lemma {:induction false} DecimalRoundTrip(n: nat)
    ensures DecimalValue(Decimal(n)) == n
  {
    var r := Decimal(n);
    if n < 10 {
      assert r[..|r| - 1] == [];
    } else {
      DecimalRoundTrip(n / 10);
      assert r[..|r| - 1] == Decimal(n / 10);
      assert r[|r| - 1] as int - '0' as int == n % 10;
    }
  }
}
