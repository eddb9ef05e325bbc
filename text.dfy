/** String primitives the backend (Java) and the frontend (TypeScript) rely on. */
module Text {
  import opened Outcomes

  // ---------------------------------------------------------------------------
  // Java's String.equalsIgnoreCase
  // ---------------------------------------------------------------------------

  /** Character.toUpperCase on every character whose upper case is ASCII;
      other characters are left alone. */
  function JavaToUpper(c: char): char {
    if 'a' <= c <= 'z' then (c as int - 32) as char
    else if c == '\U{131}' then 'I'   // dotless i
    else if c == '\U{17F}' then 'S'   // long s
    else c
  }

  /** Character.toLowerCase on every character whose lower case is ASCII;
      other characters are left alone. */
  function JavaToLower(c: char): char {
    if 'A' <= c <= 'Z' then (c as int + 32) as char
    else if c == '\U{130}' then 'i'   // capital I with dot above
    else if c == '\U{212A}' then 'k'  // Kelvin sign
    else c
  }

  /** The per-character test of String.regionMatches(ignoreCase = true):
      equal, or equal upper cases, or equal lower cases of the upper cases.
      Exact whenever `b` is ASCII, which is the case for every enum constant name. */
  predicate CharEqualsIgnoreCase(a: char, b: char) {
    || a == b
    || JavaToUpper(a) == JavaToUpper(b)
    || JavaToLower(JavaToUpper(a)) == JavaToLower(JavaToUpper(b))
  }

  /** String.equalsIgnoreCase: same length and pairwise equal ignoring case. */
  predicate EqualsIgnoreCase(a: string, b: string) {
    |a| == |b| && forall i :: 0 <= i < |a| ==> CharEqualsIgnoreCase(a[i], b[i])
  }

  predicate IsAsciiUpperLetter(c: char) {
    'A' <= c <= 'Z'
  }

  predicate IsAsciiLowerLetter(c: char) {
    'a' <= c <= 'z'
  }

  /** `v` spells `name` with some of its ASCII letters switched to the other case. */
  predicate IsCaseVariant(v: string, name: string) {
    && |v| == |name|
    && forall i :: 0 <= i < |v| ==>
         || v[i] == name[i]
         || (IsAsciiUpperLetter(name[i]) && v[i] == JavaToLower(name[i]))
         || (IsAsciiLowerLetter(name[i]) && v[i] == JavaToUpper(name[i]))
  }

  lemma CaseVariantEqualsIgnoreCase(v: string, name: string)
    requires IsCaseVariant(v, name)
    ensures EqualsIgnoreCase(v, name)
  {
    forall i | 0 <= i < |v|
      ensures CharEqualsIgnoreCase(v[i], name[i])
    {
      if IsAsciiUpperLetter(name[i]) && v[i] == JavaToLower(name[i]) {
        assert JavaToUpper(v[i]) == name[i];
      } else if IsAsciiLowerLetter(name[i]) && v[i] == JavaToUpper(name[i]) {
        assert JavaToUpper(v[i]) == v[i] == JavaToUpper(name[i]);
      }
    }
  }

  // ---------------------------------------------------------------------------
  // TypeScript's String.prototype.toLowerCase, startsWith and includes
  // ---------------------------------------------------------------------------

  function LowerAscii(c: char): char {
    if 'A' <= c <= 'Z' then (c as int + 32) as char else c
  }

  /** toLowerCase, on ASCII letters. */
  function ToLowerAscii(s: string): (r: string)
    ensures |r| == |s|
    ensures forall i :: 0 <= i < |s| ==> r[i] == LowerAscii(s[i])
  {
    seq(|s|, i requires 0 <= i < |s| => LowerAscii(s[i]))
  }

  /** Two characters that are equal, or an ASCII capital and its lower case. */
  predicate SameIgnoringAsciiCase(a: char, b: char) {
    || a == b
    || ('A' <= a <= 'Z' && b as int == a as int + 32)
    || ('A' <= b <= 'Z' && a as int == b as int + 32)
  }

  /** Lowering leaves no ASCII capital, lowering twice changes nothing more, and
      two texts lower to the same text exactly when they differ at most in the
      case of ASCII letters. */
  lemma ToLowerAsciiFolds(s: string, t: string)
    ensures forall i :: 0 <= i < |ToLowerAscii(s)| ==> !('A' <= ToLowerAscii(s)[i] <= 'Z')
    ensures ToLowerAscii(ToLowerAscii(s)) == ToLowerAscii(s)
    ensures ToLowerAscii(s) == ToLowerAscii(t) <==>
      |s| == |t| && forall i :: 0 <= i < |s| ==> SameIgnoringAsciiCase(s[i], t[i])
  {
    if |s| == |t| && forall i :: 0 <= i < |s| ==> SameIgnoringAsciiCase(s[i], t[i]) {
      assert forall i :: 0 <= i < |s| ==> ToLowerAscii(s)[i] == ToLowerAscii(t)[i];
    }
    if ToLowerAscii(s) == ToLowerAscii(t) {
      assert forall i :: 0 <= i < |s| ==> LowerAscii(s[i]) == LowerAscii(t[i]);
    }
  }

  predicate StartsWith(s: string, prefix: string) {
    |prefix| <= |s| && s[..|prefix|] == prefix
  }

  /** String.prototype.includes: `part` starts at some position of `s`. */
  predicate Includes(s: string, part: string)
    decreases |s|
  {
    StartsWith(s, part) || (|s| > 0 && Includes(s[1..], part))
  }

  /** `part` occurs in `s` at position `i`. */
  predicate OccursAt(s: string, part: string, i: int) {
    0 <= i && i + |part| <= |s| && s[i..i + |part|] == part
  }

  lemma {:induction false} IncludesIffOccurs(s: string, part: string)
    ensures Includes(s, part) <==> exists i :: OccursAt(s, part, i)
    decreases |s|
  {
    if Includes(s, part) {
      if StartsWith(s, part) {
        assert OccursAt(s, part, 0);
      } else {
        IncludesIffOccurs(s[1..], part);
        var i :| OccursAt(s[1..], part, i);
        assert s[1..][i..i + |part|] == s[i + 1..i + 1 + |part|];
        assert OccursAt(s, part, i + 1);
      }
    }
    if exists i :: OccursAt(s, part, i) {
      var i :| OccursAt(s, part, i);
      if i == 0 {
        assert StartsWith(s, part);
      } else {
        assert s[1..][i - 1..i - 1 + |part|] == s[i..i + |part|];
        assert OccursAt(s[1..], part, i - 1);
        IncludesIffOccurs(s[1..], part);
      }
    }
  }

  lemma IncludesEmpty(s: string)
    ensures Includes(s, "")
  {
    assert StartsWith(s, "");
  }

  // ---------------------------------------------------------------------------
  // Long.toString / String.format("%d"), and the decimal reading that inverts it
  // ---------------------------------------------------------------------------

  function DigitChar(d: int): char
    requires 0 <= d < 10
  {
    ('0' as int + d) as char
  }

  /** The decimal digits of `n`, most significant first, without leading zeros. */
  function NatToDecimal(n: nat): (r: string)
    ensures |r| > 0
    ensures forall i :: 0 <= i < |r| ==> '0' <= r[i] <= '9'
    decreases n
  {
    if n < 10 then [DigitChar(n)] else NatToDecimal(n / 10) + [DigitChar(n % 10)]
  }

  /** How Java prints a long: a minus sign in front of negative values. */
  function LongToString(n: int): string {
    if n < 0 then "-" + NatToDecimal(-n) else NatToDecimal(n)
  }

  /** The value of a string of decimal digits. */
  function DecimalValue(s: string): nat
    requires forall i :: 0 <= i < |s| ==> '0' <= s[i] <= '9'
    decreases |s|
  {
    if s == [] then 0 else 10 * DecimalValue(s[..|s| - 1]) + (s[|s| - 1] as int - '0' as int)
  }

  /** Reading a printed long back. */
  function ParseLong(s: string): Option<int> {
    if |s| > 1 && s[0] == '-' && (forall i :: 1 <= i < |s| ==> '0' <= s[i] <= '9') then
      var magnitude: int := DecimalValue(s[1..]);
      Some(-magnitude)
    else if |s| > 0 && forall i :: 0 <= i < |s| ==> '0' <= s[i] <= '9' then
      Some(DecimalValue(s))
    else
      None
  }

  lemma {:induction false} DecimalRoundTrip(n: nat)
    ensures DecimalValue(NatToDecimal(n)) == n
    decreases n
  {
    if n >= 10 {
      DecimalRoundTrip(n / 10);
      var r := NatToDecimal(n);
      assert r[..|r| - 1] == NatToDecimal(n / 10);
    }
  }

  /** Printing a long and reading it back gives the same number, so the ids and
      numbers embedded in error messages are unambiguous. */
  lemma LongRoundTrip(n: int)
    ensures ParseLong(LongToString(n)) == Some(n)
  {
    var s := LongToString(n);
    if n < 0 {
      var digits := NatToDecimal(-n);
      assert s == "-" + digits;
      assert s[1..] == digits;
      assert forall i :: 1 <= i < |s| ==> s[i] == digits[i - 1];
      DecimalRoundTrip(-n);
    } else {
      assert '0' <= s[0] <= '9';
      DecimalRoundTrip(n);
    }
  }

  lemma LongToStringInjective(m: int, n: int)
    requires LongToString(m) == LongToString(n)
    ensures m == n
  {
    LongRoundTrip(m);
    LongRoundTrip(n);
  }
}
