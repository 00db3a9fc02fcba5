/** Characters, decimal digit strings and the fixed substring searches the extractor relies on. */
module Text {
  import opened Wrappers

  predicate IsDigit(c: char) { '0' <= c <= '9' }

  function DigitValue(c: char): (v: nat)
    requires IsDigit(c)
    ensures v < 10
  {
    c as int - '0' as int
  }

  function DigitChar(v: nat): (c: char)
    requires v < 10
    ensures IsDigit(c) && DigitValue(c) == v
  {
    ('0' as int + v) as char
  }

  predicate AllDigits(s: string) {
    forall i :: 0 <= i < |s| ==> IsDigit(s[i])
  }

  /** The integer a decimal digit string denotes, as int() reads it (leading zeros allowed). */
  function DecimalValue(s: string): nat
    requires AllDigits(s)
  {
    if s == [] then 0 else DecimalValue(s[..|s| - 1]) * 10 + DigitValue(s[|s| - 1])
  }

  function Pow10(w: nat): (p: nat)
    ensures p >= 1
  {
    if w == 0 then 1 else 10 * Pow10(w - 1)
  }

  /** The last w decimal digits of n, zero-padded on the left. */
  function Digits(n: nat, w: nat): (r: string)
    ensures |r| == w && AllDigits(r)
  {
    if w == 0 then [] else Digits(n / 10, w - 1) + [DigitChar(n % 10)]
  }

  /** Reading back w zero-padded digits gives n whenever n has at most w digits. */
  lemma {:induction false} DigitsRoundTrip(n: nat, w: nat)
    requires n < Pow10(w)
    ensures DecimalValue(Digits(n, w)) == n
  {
    if w > 0 {
      var r := Digits(n, w);
      assert r[..|r| - 1] == Digits(n / 10, w - 1);
      DigitsRoundTrip(n / 10, w - 1);
    }
  }

  /** Number of decimal digits Python's str() prints for n. */
  function Width(n: nat): (w: nat)
    ensures 1 <= w && n < Pow10(w)
    ensures w > 1 ==> Pow10(w - 1) <= n
  {
    if n < 10 then 1 else 1 + Width(n / 10)
  }

  /** A number with exactly w digits starts with a non-zero digit when written in width w. */
  lemma {:induction false} LeadingDigit(n: nat, w: nat)
    requires 1 <= w && Pow10(w - 1) <= n < Pow10(w)
    ensures Digits(n, w)[0] != '0'
  {
    if w > 1 {
      assert Digits(n, w)[0] == Digits(n / 10, w - 1)[0];
      LeadingDigit(n / 10, w - 1);
    }
  }

  lemma NoLeadingZero(n: nat)
    ensures Digits(n, Width(n))[0] == '0' ==> n == 0
  {
    if n > 0 {
      LeadingDigit(n, Width(n));
    }
  }

  /** Python's str() of a non-negative integer: no leading zero except for 0 itself. */
  function NatToString(n: nat): (r: string)
    ensures AllDigits(r) && r != []
    ensures DecimalValue(r) == n
    ensures r[0] == '0' ==> r == "0"
  {
    DigitsRoundTrip(n, Width(n));
    NoLeadingZero(n);
    Digits(n, Width(n))
  }

  /** Python's str() of any integer: a minus sign before the magnitude when negative. */
  function IntToString(n: int): (r: string)
    ensures n >= 0 ==> r == NatToString(n)
    ensures n < 0 ==> r == ['-'] + NatToString(-n)
  {
    if n >= 0 then NatToString(n) else ['-'] + NatToString(-n)
  }

  /** lit occurs in s starting at position p. */
  predicate OccursAt(s: string, lit: string, p: nat) {
    p + |lit| <= |s| && s[p..p + |lit|] == lit
  }

  /** Python's `lit in s`, searching from position `from` onwards. */
  predicate ContainsFrom(s: string, lit: string, from: nat)
    decreases |s| + 1 - from
  {
    from + |lit| <= |s| && (OccursAt(s, lit, from) || ContainsFrom(s, lit, from + 1))
  }

  /** Python's `lit in s`. */
  predicate Contains(s: string, lit: string) {
    ContainsFrom(s, lit, 0)
  }

  /** `lit in s` holds exactly when lit occurs somewhere in s. */
  lemma {:induction false} ContainsIff(s: string, lit: string, from: nat)
    ensures ContainsFrom(s, lit, from) <==> exists p :: from <= p && OccursAt(s, lit, p)
    decreases |s| + 1 - from
  {
    if from + |lit| <= |s| {
      ContainsIff(s, lit, from + 1);
      if !OccursAt(s, lit, from) && !ContainsFrom(s, lit, from + 1) {
        forall p | from <= p
          ensures !OccursAt(s, lit, p)
        {
          if p != from {
            assert from + 1 <= p;
          }
        }
      }
    }
  }

  /** Length of the maximal run of digits starting at p (what a greedy \d+ consumes). */
  function DigitRun(s: string, p: nat): (n: nat)
    requires p <= |s|
    ensures p + n <= |s|
    ensures forall i :: p <= i < p + n ==> IsDigit(s[i])
    ensures p + n == |s| || !IsDigit(s[p + n])
    decreases |s| - p
  {
    if p < |s| && IsDigit(s[p]) then 1 + DigitRun(s, p + 1) else 0
  }

  /**
   * The pattern prefix(\d+)suffix matches at p. The digit run is maximal: every suffix
   * used here is empty or starts with a non-digit, so a shorter run can never be followed
   * by the suffix, and the regex engine's backtracking changes nothing.
   */
  predicate FieldAt(s: string, prefix: string, suffix: string, p: nat) {
    OccursAt(s, prefix, p)
    && DigitRun(s, p + |prefix|) > 0
    && OccursAt(s, suffix, p + |prefix| + DigitRun(s, p + |prefix|))
  }

  /** The captured digit group of a match at p. */
  function GroupAt(s: string, prefix: string, suffix: string, p: nat): (g: string)
    requires FieldAt(s, prefix, suffix, p)
    ensures g != [] && AllDigits(g)
  {
    s[p + |prefix|..p + |prefix| + DigitRun(s, p + |prefix|)]
  }

  /** The leftmost position at or after `from` where prefix(\d+)suffix matches. */
  function FirstFieldFrom(s: string, prefix: string, suffix: string, from: nat): (r: Option<nat>)
    ensures r.Some? ==> from <= r.value && FieldAt(s, prefix, suffix, r.value)
    ensures r.Some? ==> forall q :: from <= q < r.value ==> !FieldAt(s, prefix, suffix, q)
    ensures r.None? ==> forall q :: from <= q ==> !FieldAt(s, prefix, suffix, q)
    decreases |s| + 1 - from
  {
    if from > |s| then None
    else if FieldAt(s, prefix, suffix, from) then Some(from)
    else FirstFieldFrom(s, prefix, suffix, from + 1)
  }

  /**
   * re.search(prefix + r"(\d+)" + suffix, s).group(1), or None when there is no match:
   * the digit group of the leftmost match.
   */
  function SearchField(s: string, prefix: string, suffix: string): (r: Option<string>)
    ensures r.None? <==> forall p :: !FieldAt(s, prefix, suffix, p)
    ensures r.Some? ==> exists p :: FieldAt(s, prefix, suffix, p)
                                    && (forall q :: q < p ==> !FieldAt(s, prefix, suffix, q))
                                    && r.value == GroupAt(s, prefix, suffix, p)
  {
    match FirstFieldFrom(s, prefix, suffix, 0)
    case None => None
    case Some(p) => Some(GroupAt(s, prefix, suffix, p))
  }
}
