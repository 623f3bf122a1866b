/** The few java.lang.String and Integer operations the two providers rely on,
    over Dafny strings (sequences of characters). */
module JavaStrings {

  /** `pat` occurs in `s` starting at position `j`. */
  predicate OccursAt(s: string, pat: string, j: nat)
  {
    j + |pat| <= |s| && s[j..j + |pat|] == pat
  }

  /** `k` is the position of the first occurrence of `pat` in `s`. */
  predicate FirstOccurrence(s: string, pat: string, k: nat)
  {
    OccursAt(s, pat, k) && forall j :: 0 <= j < k ==> !OccursAt(s, pat, j)
  }

  /** String.indexOf(String): the first position at or after `from` where
      `pat` occurs, or -1 when there is none. */
  function IndexFrom(s: string, pat: string, from: nat): (r: int)
    requires from <= |s|
    ensures r == -1 ==> forall j :: from <= j ==> !OccursAt(s, pat, j)
    ensures r != -1 ==> from <= r && OccursAt(s, pat, r)
    ensures r != -1 ==> forall j :: from <= j < r ==> !OccursAt(s, pat, j)
    decreases |s| - from
  {
    if OccursAt(s, pat, from) then from
    else if from == |s| then -1
    else IndexFrom(s, pat, from + 1)
  }

  /** String.indexOf(String): the position of the first occurrence of `pat`
      in `s`, or -1 when `pat` does not occur. */
  function IndexOf(s: string, pat: string): (r: int)
    ensures r == -1 <==> forall j :: 0 <= j ==> !OccursAt(s, pat, j)
    ensures r != -1 ==> 0 <= r && FirstOccurrence(s, pat, r)
  {
    IndexFrom(s, pat, 0)
  }

  /** String.contains(CharSequence), which Java defines as indexOf(...) >= 0. */
  predicate Contains(s: string, pat: string)
  {
    IndexOf(s, pat) != -1
  }

  lemma ContainsExactly(s: string, pat: string)
    ensures Contains(s, pat) <==> exists j :: OccursAt(s, pat, j)
  {
    if Contains(s, pat) {
      assert OccursAt(s, pat, IndexOf(s, pat));
    }
  }

  predicate IsDigit(c: char)
  {
    '0' <= c <= '9'
  }

  function DigitChar(d: nat): (c: char)
    requires d < 10
    ensures IsDigit(c)
  {
    "0123456789"[d]
  }

  function DigitValue(c: char): (d: nat)
    requires IsDigit(c)
    ensures d < 10
  {
    (c as int - '0' as int) as nat
  }

  /** Integer.toString for a non-negative int: its decimal digits, with no
      leading zero. */
  function DecimalString(n: nat): (s: string)
    ensures |s| > 0
    ensures forall c | c in s :: IsDigit(c)
    ensures s[0] == '0' ==> s == "0"
  {
    if n < 10 then [DigitChar(n)]
    else DecimalString(n / 10) + [DigitChar(n % 10)]
  }

  /** The number a string of decimal digits stands for. */
  function DecimalValue(s: string): nat
    requires forall c | c in s :: IsDigit(c)
  {
    if s == [] then 0
    else DecimalValue(s[..|s| - 1]) * 10 + DigitValue(s[|s| - 1])
  }

  /** Reading back what DecimalString wrote gives the number again. */
  lemma {:induction false} DecimalRoundTrip(n: nat)
    ensures DecimalValue(DecimalString(n)) == n
  {
    var s := DecimalString(n);
    if n < 10 {
      assert s[..0] == [];
    } else {
      assert s[..|s| - 1] == DecimalString(n / 10);
      DecimalRoundTrip(n / 10);
    }
  }

  /** Distinct numbers print differently. */
  lemma DecimalStringInjective(a: nat, b: nat)
    requires DecimalString(a) == DecimalString(b)
    ensures a == b
  {
    DecimalRoundTrip(a);
    DecimalRoundTrip(b);
  }
}
