/** The few pieces of `java.lang.String`, `java.lang.Character` and
    `java.util.regex` semantics the core relies on. Strings are sequences of
    Unicode scalar values. */
module JavaText {
  import opened Wrappers

  /** The regex class `\d` (without UNICODE_CHARACTER_CLASS): ASCII digits only. */
  predicate IsDigit(c: char) {
    '0' <= c <= '9'
  }

  predicate AllDigits(s: string) {
    forall i :: 0 <= i < |s| ==> IsDigit(s[i])
  }

  /** Numeric value of an ASCII digit, `c - '0'` in Java. */
  function DigitValue(c: char): (v: int)
    requires IsDigit(c)
    ensures 0 <= v <= 9
  {
    c as int - '0' as int
  }

  /** Java's `%` on `int`: the remainder truncates toward zero, so it takes the
      sign of the dividend (Dafny's `%` is Euclidean). */
  function JavaRem(a: int, b: int): (r: int)
    requires b != 0
    ensures a >= 0 && b > 0 ==> r == a % b
    ensures -(if b < 0 then -b else b) < r < (if b < 0 then -b else b)
    ensures r != 0 ==> (r < 0 <==> a < 0)
  {
    var m := if b < 0 then -b else b;
    if a >= 0 then a % m else -((-a) % m)
  }

  /** Leading characters `<= U+0020` removed, as `String.trim` does at the front. */
  function TrimStart(s: string): (r: string)
    ensures |r| <= |s| && r == s[|s| - |r|..]
    ensures |r| > 0 ==> r[0] > ' '
    ensures forall i :: 0 <= i < |s| - |r| ==> s[i] <= ' '
  {
    if |s| > 0 && s[0] <= ' ' then TrimStart(s[1..]) else s
  }

  /** Trailing characters `<= U+0020` removed, as `String.trim` does at the back. */
  function TrimEnd(s: string): (r: string)
    ensures |r| <= |s| && r == s[..|r|]
    ensures |r| > 0 ==> r[|r| - 1] > ' '
    ensures forall i :: |r| <= i < |s| ==> s[i] <= ' '
  {
    if |s| > 0 && s[|s| - 1] <= ' ' then TrimEnd(s[..|s| - 1]) else s
  }

  /** `String.trim()`. */
  function Trim(s: string): string {
    TrimEnd(TrimStart(s))
  }

  /** Every character of `s` is a control character or a space (code point
      at most U+0020). */
  predicate IsBlank(s: string) {
    forall i :: 0 <= i < |s| ==> s[i] <= ' '
  }

  /** `s.trim().isEmpty()` holds exactly when `s` is blank. */
  lemma TrimEmptyIffBlank(s: string)
    ensures |Trim(s)| == 0 <==> IsBlank(s)
  {
    var t := TrimStart(s);
    if |Trim(s)| != 0 {
      var k := |s| - |t|;
      assert t[0] > ' ' && s[k] == t[0];
    }
  }

  /** `Character.toUpperCase` on the characters this model gives a case to:
      Basic Latin, Latin-1 Supplement, the two characters outside them whose
      upper case lies inside (dotless i, long s), and Greek mu, which shares
      its upper case with the micro sign. Every other character is treated as
      caseless. */
  function UpperChar(c: char): char {
    if 'a' <= c <= 'z' then (c as int - 32) as char
    else if '\U{E0}' <= c <= '\U{FE}' && c != '\U{F7}' then (c as int - 32) as char
    else if c == '\U{FF}' then '\U{178}'
    else if c == '\U{B5}' || c == '\U{3BC}' then '\U{39C}'
    else if c == '\U{131}' then 'I'
    else if c == '\U{17F}' then 'S'
    else c
  }

  /** `Character.toLowerCase` on the same range, plus the characters outside it
      whose lower case lies inside (capital I with dot, Kelvin sign, Angstrom
      sign, capital y with diaeresis, capital sharp s) and Greek capital mu. */
  function LowerChar(c: char): char {
    if 'A' <= c <= 'Z' then (c as int + 32) as char
    else if '\U{C0}' <= c <= '\U{DE}' && c != '\U{D7}' then (c as int + 32) as char
    else if c == '\U{178}' then '\U{FF}'
    else if c == '\U{1E9E}' then '\U{DF}'
    else if c == '\U{39C}' then '\U{3BC}'
    else if c == '\U{130}' then 'i'
    else if c == '\U{212A}' then 'k'
    else if c == '\U{212B}' then '\U{E5}'
    else c
  }

  /** The per-character test of `String.equalsIgnoreCase`: equal, equal upper
      cases, or equal lower cases of the upper cases. */
  predicate CharEqualsIgnoreCase(a: char, b: char) {
    a == b || UpperChar(a) == UpperChar(b) || LowerChar(UpperChar(a)) == LowerChar(UpperChar(b))
  }

  /** The canonical case of a character under `equalsIgnoreCase`. */
  function FoldChar(c: char): char {
    LowerChar(UpperChar(c))
  }

  function FoldString(s: string): (r: string)
    ensures |r| == |s|
    ensures forall i :: 0 <= i < |s| ==> r[i] == FoldChar(s[i])
  {
    seq(|s|, i requires 0 <= i < |s| => FoldChar(s[i]))
  }

  /** `a.equalsIgnoreCase(b)`: false for a null argument, otherwise equal length
      and every position equal ignoring case. */
  predicate EqualsIgnoreCase(a: string, b: Option<string>) {
    && b.Some?
    && |a| == |b.value|
    && forall i :: 0 <= i < |a| ==> CharEqualsIgnoreCase(a[i], b.value[i])
  }

  /** Case-insensitive equality is equality of the folded strings, so it is an
      equivalence relation. */
  lemma EqualsIgnoreCaseIffFold(a: string, b: string)
    ensures EqualsIgnoreCase(a, Some(b)) <==> FoldString(a) == FoldString(b)
  {
    if FoldString(a) == FoldString(b) {
      forall i | 0 <= i < |a| ensures CharEqualsIgnoreCase(a[i], b[i]) {
        assert FoldString(a)[i] == FoldString(b)[i];
      }
    }
  }

  /** `String.toUpperCase()`, character by character. */
  function ToUpperCase(s: string): (r: string)
    ensures |r| == |s|
    ensures forall i :: 0 <= i < |s| ==> r[i] == UpperChar(s[i])
  {
    seq(|s|, i requires 0 <= i < |s| => UpperChar(s[i]))
  }

  /** Upper-casing an upper-cased string changes nothing. */
  lemma ToUpperCaseIdempotent(s: string)
    ensures ToUpperCase(ToUpperCase(s)) == ToUpperCase(s)
  {
    var u := ToUpperCase(s);
    forall i | 0 <= i < |u| ensures UpperChar(u[i]) == u[i] {
      var c := s[i];
      assert u[i] == UpperChar(c);
    }
  }

  /** Case-insensitive matches that go through a character outside Latin-1:
      sharp s against capital sharp s (equal lower cases), and the micro sign
      against Greek mu (equal upper cases). */
  lemma IgnoreCaseBeyondLatin1()
    ensures EqualsIgnoreCase("\U{DF}", Some("\U{1E9E}"))
    ensures EqualsIgnoreCase("\U{B5}", Some("\U{3BC}"))
    ensures !EqualsIgnoreCase("\U{DF}", Some("SS"))
  {
  }
}
