/**
 * The character classes behind the feature extractor's two regular
 * expressions: `[a-zA-Z]` (ASCII letters) and `[^a-zA-Z0-9]` (everything
 * but ASCII letters and digits, non-ASCII characters included). The ASCII
 * digits are the third class, which neither expression matches; it makes
 * the three classes a partition. Also the ratios formed from the counts.
 */
module CharClasses {

  datatype CharClass = Letter | Digit | Special

  /**
   * The class a character falls in. Only ASCII letters and digits escape
   * the special class; any character beyond U+007F is special.
   */
  function Classify(c: char): (k: CharClass)
    ensures c as int > 0x7F ==> k == Special
    ensures k == Digit ==> 0x30 <= c as int <= 0x39
  {
    if 'a' <= c <= 'z' || 'A' <= c <= 'Z' then Letter
    else if '0' <= c <= '9' then Digit
    else Special
  }

  /**
   * The number of characters of `s` in class `k`: for `Letter` and `Special`
   * the length of the list `re.findall` returns for the class's expression.
   */
  function Count(s: string, k: CharClass): (n: nat)
    ensures n <= |s|
    ensures n == |s| <==> forall i :: 0 <= i < |s| ==> Classify(s[i]) == k
  {
    if s == [] then 0
    else (if Classify(s[0]) == k then 1 else 0) + Count(s[1..], k)
  }

  /** Counting over a concatenation adds the counts of its parts. */
  lemma {:induction false} CountAppend(a: string, b: string, k: CharClass)
    ensures Count(a + b, k) == Count(a, k) + Count(b, k)
    decreases |a|
  {
    if a != [] {
      assert (a + b)[0] == a[0];
      assert (a + b)[1..] == a[1..] + b;
      CountAppend(a[1..], b, k);
    } else {
      assert a + b == b;
    }
  }

  /** The three classes partition every string: their counts add up to its length. */
  lemma {:induction false} CountPartition(s: string)
    ensures Count(s, Letter) + Count(s, Digit) + Count(s, Special) == |s|
    decreases |s|
  {
    if s != [] {
      CountPartition(s[1..]);
    }
  }

  /**
   * `n / d` as Python computes it in the extractor, except exactly: the
   * quotient when `d` is positive and 0 otherwise.
   */
  function Ratio(n: nat, d: nat): (r: real)
    ensures d == 0 ==> r == 0.0
    ensures d > 0 ==> r * (d as real) == n as real
    ensures n <= d ==> 0.0 <= r <= 1.0
  {
    if d > 0 then n as real / d as real else 0.0
  }

  /** Ratios over one denominator add like their numerators. */
  lemma RatioAdd(a: nat, b: nat, d: nat)
    ensures Ratio(a, d) + Ratio(b, d) == Ratio(a + b, d)
  {
    if d > 0 {
      var dr := d as real;
      var e := Ratio(a, d) + Ratio(b, d) - Ratio(a + b, d);
      assert e * dr == 0.0;
      ZeroProduct(e, dr);
    }
  }

  lemma ZeroProduct(x: real, y: real)
    requires y > 0.0 && x * y == 0.0
    ensures x == 0.0
  {
  }

  /** A positive count over a positive length gives a positive ratio. */
  lemma RatioPositive(n: nat, d: nat)
    requires 0 < n && 0 < d
    ensures Ratio(n, d) > 0.0
  {
  }

  /** Counting every character gives a ratio of exactly one. */
  lemma RatioWhole(d: nat)
    requires d > 0
    ensures Ratio(d, d) == 1.0
  {
  }

  /** Three ratios over one denominator whose numerators make it up add to exactly one. */
  lemma ThreeRatios(a: nat, b: nat, c: nat, d: nat)
    requires a + b + c == d > 0
    ensures Ratio(a, d) + Ratio(b, d) + Ratio(c, d) == 1.0
  {
    calc {
      Ratio(a, d) + Ratio(b, d) + Ratio(c, d);
      { RatioAdd(a, b, d); }
      Ratio(a + b, d) + Ratio(c, d);
      { RatioAdd(a + b, c, d); }
      Ratio(d, d);
      { RatioWhole(d); }
      1.0;
    }
  }

  /** The letter, digit and special ratios of a non-empty string add up to exactly one. */
  lemma RatiosSumToOne(s: string)
    requires |s| > 0
    ensures Ratio(Count(s, Letter), |s|) + Ratio(Count(s, Digit), |s|) + Ratio(Count(s, Special), |s|) == 1.0
  {
    CountPartition(s);
    ThreeRatios(Count(s, Letter), Count(s, Digit), Count(s, Special), |s|);
  }
}
