/** Positional numerals over an alphabet of digit characters: the value of
    a big-endian digit string, the digit string of a number (what BigInt's
    `toString(radix)` prints) and `String.prototype.padStart` with a one
    character pad. */
module Numerals {

  function Pow(b: nat, e: nat): nat {
    if e == 0 then 1 else b * Pow(b, e - 1)
  }

  lemma {:induction false} PowPositive(b: nat, e: nat)
    requires b > 0
    ensures Pow(b, e) > 0
  {
    if e > 0 {
      PowPositive(b, e - 1);
    }
  }

  lemma {:induction false} PowAdd(b: nat, m: nat, n: nat)
    ensures Pow(b, m + n) == Pow(b, m) * Pow(b, n)
  {
    if m > 0 {
      PowAdd(b, m - 1, n);
      assert Pow(b, m + n) == b * Pow(b, m - 1 + n);
    }
  }

  /** A usable digit alphabet: at least two characters, all distinct. */
  predicate IsAlphabet(alpha: string) {
    |alpha| >= 2 && forall i, j :: 0 <= i < j < |alpha| ==> alpha[i] != alpha[j]
  }

  /** `alpha.indexOf(c)`: the first position of `c`, or -1. */
  function IndexOf(alpha: string, c: char): (r: int)
    ensures -1 <= r < |alpha|
    ensures r >= 0 ==> alpha[r] == c && forall j :: 0 <= j < r ==> alpha[j] != c
    ensures r == -1 <==> c !in alpha
  {
    if alpha == [] then -1
    else if alpha[0] == c then 0
    else
      var r := IndexOf(alpha[1..], c);
      if r == -1 then -1 else r + 1
  }

  /** Every character of `s` is a digit of `alpha`. */
  predicate Over(s: string, alpha: string) {
    forall i :: 0 <= i < |s| ==> s[i] in alpha
  }

  /** The number `s` denotes in base `|alpha|`, most significant digit first. */
  function Value(s: string, alpha: string): nat
    requires Over(s, alpha)
  {
    if s == [] then 0
    else Value(s[..|s| - 1], alpha) * |alpha| + IndexOf(alpha, s[|s| - 1])
  }

  /** The digits of `n` in base `|alpha|`, most significant first and
      without leading zeros; the empty string for 0. */
  function Digits(n: nat, alpha: string): (r: string)
    requires |alpha| >= 2
    ensures Over(r, alpha)
    ensures r == [] <==> n == 0
    ensures IsAlphabet(alpha) && r != [] ==> r[0] != alpha[0]
  {
    if n == 0 then ""
    else
      DivMod(n, |alpha|);
      Digits(n / |alpha|, alpha) + [alpha[n % |alpha|]]
  }

  function Repeat(c: char, k: nat): (r: string)
    ensures |r| == k && forall i :: 0 <= i < k ==> r[i] == c
  {
    if k == 0 then "" else [c] + Repeat(c, k - 1)
  }

  /** `s.padStart(len, c)`: pads on the left up to `len`, never truncates. */
  function PadStart(s: string, len: nat, c: char): (r: string)
    ensures |r| == if |s| >= len then |s| else len
    ensures r[|r| - |s|..] == s
    ensures forall i :: 0 <= i < |r| - |s| ==> r[i] == c
  {
    if |s| >= len then s else Repeat(c, len - |s|) + s
  }

  lemma IndexOfDigit(alpha: string, d: nat)
    requires IsAlphabet(alpha) && d < |alpha|
    ensures IndexOf(alpha, alpha[d]) == d
  {
  }

  /** Euclidean division by a base of at least two. */
  lemma DivMod(n: nat, b: nat)
    requires b >= 2
    ensures n == (n / b) * b + n % b && 0 <= n % b < b
    ensures n / b <= n && (n > 0 ==> n / b < n)
    ensures n < b ==> n / b == 0 && n % b == n
    ensures n >= b ==> n / b > 0
  {
  }

  lemma DivBelowPow(n: nat, b: nat, p: nat)
    requires b >= 2 && n < p * b
    ensures n / b < p
  {
    DivMod(n, b);
    MulCancel(n / b, p, b);
  }

  lemma MulCancel(q: nat, p: nat, b: nat)
    requires b > 0 && q * b < p * b
    ensures q < p
  {
  }

  /** Division undoes `q * b + d`. */
  lemma DivModOf(q: nat, d: nat, b: nat)
    requires b >= 2 && d < b
    ensures (q * b + d) / b == q && (q * b + d) % b == d
  {
    var n := q * b + d;
    DivMod(n, b);
    OrderMul(q, n / b, b);
    OrderMul(n / b, q, b);
  }

  lemma OrderMul(x: nat, y: nat, b: nat)
    ensures x < y ==> x * b + b <= y * b
  {
    if x < y {
      var k := y - x - 1;
      assert y == x + 1 + k;
      assert (x + 1 + k) * b == x * b + b + k * b;
    }
  }

  lemma MulStep(v: nat, d: nat, b: nat, p: nat)
    requires v < p && d < b
    ensures v * b + d < p * b
  {
    assert (v + 1) * b == v * b + b;
    assert (v + 1) * b <= p * b;
  }

  lemma ValueSnoc(s: string, c: char, alpha: string)
    requires Over(s, alpha) && c in alpha
    ensures Over(s + [c], alpha)
    ensures Value(s + [c], alpha) == Value(s, alpha) * |alpha| + IndexOf(alpha, c)
  {
    assert (s + [c])[..|s|] == s;
  }

  /** Reading back the digits of `n` gives `n`. */
  lemma {:induction false} ValueOfDigits(n: nat, alpha: string)
    requires IsAlphabet(alpha)
    ensures Value(Digits(n, alpha), alpha) == n
  {
    if n > 0 {
      var b := |alpha|;
      DivMod(n, b);
      ValueOfDigits(n / b, alpha);
      ValueSnoc(Digits(n / b, alpha), alpha[n % b], alpha);
      IndexOfDigit(alpha, n % b);
    }
  }

  /** Different numbers have different digit strings. */
  lemma DigitsInjective(m: nat, n: nat, alpha: string)
    requires IsAlphabet(alpha) && Digits(m, alpha) == Digits(n, alpha)
    ensures m == n
  {
    ValueOfDigits(m, alpha);
    ValueOfDigits(n, alpha);
  }

  /** A string of k digits denotes less than base^k. */
  lemma {:induction false} ValueBound(s: string, alpha: string)
    requires Over(s, alpha)
    ensures Value(s, alpha) < Pow(|alpha|, |s|)
  {
    if s != [] {
      var init := s[..|s| - 1];
      ValueBound(init, alpha);
      var b := |alpha|;
      var d := IndexOf(alpha, s[|s| - 1]);
      assert Value(s, alpha) == Value(init, alpha) * b + d;
      MulStep(Value(init, alpha), d, b, Pow(b, |init|));
    }
  }

  /** A number below base^k has at most k digits. */
  lemma {:induction false} DigitsLength(n: nat, k: nat, alpha: string)
    requires |alpha| >= 2 && n < Pow(|alpha|, k)
    ensures |Digits(n, alpha)| <= k
  {
    if n > 0 {
      var b := |alpha|;
      assert k > 0;
      DivMod(n, b);
      DivBelowPow(n, b, Pow(b, k - 1));
      DigitsLength(n / b, k - 1, alpha);
    }
  }

  /** Leading zero digits do not change the value. */
  lemma {:induction false} ValueLeadingZeros(k: nat, s: string, alpha: string)
    requires IsAlphabet(alpha) && Over(s, alpha)
    ensures Over(Repeat(alpha[0], k) + s, alpha)
    ensures Value(Repeat(alpha[0], k) + s, alpha) == Value(s, alpha)
  {
    var z := Repeat(alpha[0], k);
    if s == [] {
      assert z + s == z;
      ValueOfZeros(k, alpha);
    } else {
      var init := s[..|s| - 1];
      ValueLeadingZeros(k, init, alpha);
      var zs := z + s;
      assert zs[..|zs| - 1] == z + init;
      assert zs[|zs| - 1] == s[|s| - 1];
    }
  }

  /** A string of zero digits denotes 0. */
  lemma {:induction false} ValueOfZeros(k: nat, alpha: string)
    requires IsAlphabet(alpha)
    ensures Over(Repeat(alpha[0], k), alpha) && Value(Repeat(alpha[0], k), alpha) == 0
  {
    if k > 0 {
      var z := Repeat(alpha[0], k);
      assert z[..k - 1] == Repeat(alpha[0], k - 1);
      ValueOfZeros(k - 1, alpha);
      IndexOfDigit(alpha, 0);
      assert z[k - 1] == alpha[0];
    }
  }

  lemma PadStartSnoc(x: string, k: nat, c: char, pad: char)
    requires |x| <= k
    ensures PadStart(x + [c], k + 1, pad) == PadStart(x, k, pad) + [c]
  {
    assert Repeat(pad, k + 1 - |x + [c]|) == Repeat(pad, k - |x|);
  }

  lemma DigitsStep(q: nat, d: nat, alpha: string)
    requires |alpha| >= 2 && d < |alpha| && q * |alpha| + d > 0
    ensures Digits(q * |alpha| + d, alpha) == Digits(q, alpha) + [alpha[d]]
  {
    DivModOf(q, d, |alpha|);
  }

  /** A digit string of value 0 is all zero digits. */
  lemma {:induction false} ZeroValue(s: string, alpha: string)
    requires |alpha| >= 2 && Over(s, alpha) && Value(s, alpha) == 0
    ensures s == Repeat(alpha[0], |s|)
  {
    if s != [] {
      var init := s[..|s| - 1];
      assert Value(init, alpha) * |alpha| + IndexOf(alpha, s[|s| - 1]) == 0;
      assert Value(init, alpha) == 0;
      ZeroValue(init, alpha);
      SplitLast(s);
      assert s[|s| - 1] == alpha[0];
      RepeatSnoc(alpha[0], |init|);
    }
  }

  lemma RepeatSnoc(c: char, k: nat)
    ensures Repeat(c, k + 1) == Repeat(c, k) + [c]
  {
  }

  /** The last digit of a non-zero digit string is the last digit printed
      for its value. */
  lemma DigitsOfSnoc(s: string, alpha: string)
    requires IsAlphabet(alpha) && Over(s, alpha) && s != [] && Value(s, alpha) > 0
    ensures Digits(Value(s, alpha), alpha) == Digits(Value(s[..|s| - 1], alpha), alpha) + [s[|s| - 1]]
  {
    var d := IndexOf(alpha, s[|s| - 1]);
    var q := Value(s[..|s| - 1], alpha);
    assert Value(s, alpha) == q * |alpha| + d;
    DigitsStep(q, d, alpha);
  }

  /** Printing the value of a digit string and padding it back to the
      string's own length with zero digits gives the string back. */
  lemma {:induction false} PadDigitsOfValue(s: string, alpha: string)
    requires IsAlphabet(alpha) && Over(s, alpha)
    ensures PadStart(Digits(Value(s, alpha), alpha), |s|, alpha[0]) == s
  {
    if Value(s, alpha) == 0 {
      PadZeroValue(s, alpha);
    } else {
      PadDigitsOfValue(s[..|s| - 1], alpha);
      PadDigitsSnoc(s, alpha);
    }
  }

  /** A string of value 0 is all zero digits, which is what padding the empty print gives. */
  lemma PadZeroValue(s: string, alpha: string)
    requires IsAlphabet(alpha) && Over(s, alpha) && Value(s, alpha) == 0
    ensures PadStart(Digits(Value(s, alpha), alpha), |s|, alpha[0]) == s
  {
    ZeroValue(s, alpha);
    assert Repeat(alpha[0], |s|) + "" == Repeat(alpha[0], |s|);
  }

  /** The step of `PadDigitsOfValue`: from the prefix without the last digit to the whole string. */
  lemma PadDigitsSnoc(s: string, alpha: string)
    requires IsAlphabet(alpha) && Over(s, alpha) && s != [] && Value(s, alpha) > 0
    requires PadStart(Digits(Value(s[..|s| - 1], alpha), alpha), |s| - 1, alpha[0]) == s[..|s| - 1]
    ensures PadStart(Digits(Value(s, alpha), alpha), |s|, alpha[0]) == s
  {
    var init, c := s[..|s| - 1], s[|s| - 1];
    DigitsOfSnoc(s, alpha);
    DigitsFit(init, alpha);
    PadSnoc(Digits(Value(init, alpha), alpha), init, c, alpha[0]);
    SplitLast(s);
  }

  lemma SplitLast(s: string)
    requires s != []
    ensures s == s[..|s| - 1] + [s[|s| - 1]]
  {
  }

  /** The value of a digit string prints in at most as many digits. */
  lemma DigitsFit(s: string, alpha: string)
    requires IsAlphabet(alpha) && Over(s, alpha)
    ensures |Digits(Value(s, alpha), alpha)| <= |s|
  {
    ValueBound(s, alpha);
    DigitsLength(Value(s, alpha), |s|, alpha);
  }

  /** Padding a string that pads to `init` and has one more character
      appended gives `init` with that character appended. */
  lemma PadSnoc(d: string, init: string, c: char, pad: char)
    requires |d| <= |init| && PadStart(d, |init|, pad) == init
    ensures PadStart(d + [c], |init| + 1, pad) == init + [c]
  {
    PadStartSnoc(d, |init|, c, pad);
  }
}
