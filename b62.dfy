/** The identifier codec of src/b62.mjs: a track id of 22 base-62 digits
    and the same 128-bit number as 32 lower-case hexadecimal digits. */
module B62 {
  import opened Wrappers
  import opened Numerals

  /** The character of base-62 digit `d`: '0'-'9', then 'a'-'z', then 'A'-'Z'. */
  function DigitChar(d: nat): char
    requires d < 62
  {
    if d < 10 then ('0' as int + d) as char
    else if d < 36 then ('a' as int + d - 10) as char
    else ('A' as int + d - 36) as char
  }

  /** The first `n` base-62 digits, in value order. */
  function DigitString(n: nat): (r: string)
    requires n <= 62
    ensures |r| == n && forall i :: 0 <= i < n ==> r[i] == DigitChar(i)
  {
    if n == 0 then [] else DigitString(n - 1) + [DigitChar(n - 1)]
  }

  /** The base-62 digits in value order, the string
      "0123456789abcdefghijklmnopqrstuvwxyzABCDEFGHIJKLMNOPQRSTUVWXYZ". */
  const Alphabet: string := DigitString(62)

  /** The digits BigInt's `toString(16)` prints: the first sixteen base-62 digits. */
  const HexDigits: string := Alphabet[..16]

  /** The upper-case digits that `BigInt("0x…")` also accepts. */
  const UpperHexDigits: string := "ABCDEF"

  lemma AlphabetFacts()
    ensures |Alphabet| == 62 && IsAlphabet(Alphabet) && Alphabet[0] == '0'
    ensures |HexDigits| == 16 && IsAlphabet(HexDigits) && HexDigits[0] == '0'
    ensures forall s :: Over(s, HexDigits) ==> Over(s, Alphabet)
  {
    forall s | Over(s, HexDigits) ensures Over(s, Alphabet) {
      forall i | 0 <= i < |s| ensures s[i] in Alphabet {
        var d :| 0 <= d < 16 && HexDigits[d] == s[i];
        assert Alphabet[d] == s[i];
      }
    }
  }

  // ---------------------------------------------------------------- b62_to_hex

  /** `t.split('').map(s => alphabet.indexOf(s))`: one digit per character,
      -1 exactly for a character outside the alphabet, and otherwise the
      base-62 digit the character stands for. */
  function DigitValues(t: string): (bd: seq<int>)
    ensures |bd| == |t|
    ensures forall i :: 0 <= i < |t| ==> (bd[i] == -1 <==> t[i] !in Alphabet)
    ensures forall i :: 0 <= i < |t| && bd[i] != -1 ==> 0 <= bd[i] < 62 && Alphabet[bd[i]] == t[i]
  {
    seq(|t|, i requires 0 <= i < |t| => IndexOf(Alphabet, t[i]))
  }

  function Reverse(s: seq<int>): (r: seq<int>)
    ensures |r| == |s| && forall i :: 0 <= i < |s| ==> r[i] == s[|s| - 1 - i]
  {
    if s == [] then [] else Reverse(s[1..]) + [s[0]]
  }

  /** `rev.reduce((a, v, i) => a + BigInt(v) * 62n ** BigInt(i), 0n)`, from index `i` on. */
  function ReduceFrom(rev: seq<int>, i: nat, acc: int): int
    decreases |rev| - i
  {
    if i >= |rev| then acc else ReduceFrom(rev, i + 1, acc + rev[i] * Pow(62, i))
  }

  /** `n.toString(16)` for a non-negative BigInt: "0" for zero. */
  function NatToHex(n: nat): (r: string)
    ensures |r| > 0 && Over(r, HexDigits)
    ensures |r| > 1 ==> r[0] != '0'
  {
    AlphabetFacts();
    if n == 0 then "0" else Digits(n, HexDigits)
  }

  /** `n.toString(16)` for any BigInt: a minus sign before the magnitude. */
  function BigIntToHex(n: int): (r: string)
    ensures |r| > 0
    ensures n >= 0 ==> Over(r, HexDigits)
    ensures n < 0 ==> |r| > 1 && r[0] == '-' && Over(r[1..], HexDigits)
  {
    if n < 0 then
      var m := NatToHex(-n);
      assert ("-" + m)[1..] == m;
      "-" + m
    else NatToHex(n)
  }

  /** `b62_to_hex(t, padlen)`.  On an id made of base-62 digits the result is
      lower-case hexadecimal of the same value, padded with '0' to at least
      `padlen` characters and never truncated; a longer result has no
      leading zero. */
  function B62ToHex(t: string, padlen: nat := 32): (r: string)
    ensures Over(t, Alphabet) ==> Over(r, HexDigits) && Value(r, HexDigits) == Value(t, Alphabet)
    ensures |r| >= padlen && |r| > 0
    ensures Over(t, Alphabet) && |r| > padlen && |r| > 1 ==> r[0] != '0'
  {
    var bd := DigitValues(t);
    var n := ReduceFrom(Reverse(bd), 0, 0);
    var h := BigIntToHex(n);
    var r := PadStart(h, padlen, '0');
    B62ToHexMeaning(t, padlen);
    r
  }

  /** The value the reduction computes, for the digits themselves. */
  function Horner(ds: seq<int>): int {
    if ds == [] then 0 else Horner(ds[..|ds| - 1]) * 62 + ds[|ds| - 1]
  }

  /** The digits of `rev` weighted by increasing powers of 62. */
  function PolySum(rev: seq<int>): int {
    if rev == [] then 0 else rev[0] + 62 * PolySum(rev[1..])
  }

  lemma {:induction false} ReduceIsPolySum(rev: seq<int>, i: nat, acc: int)
    requires i <= |rev|
    ensures ReduceFrom(rev, i, acc) == acc + Pow(62, i) * PolySum(rev[i..])
    decreases |rev| - i
  {
    if i < |rev| {
      ReduceIsPolySum(rev, i + 1, acc + rev[i] * Pow(62, i));
      assert rev[i..][1..] == rev[i + 1..];
      var p := Pow(62, i);
      var tail := PolySum(rev[i + 1..]);
      assert Pow(62, i + 1) == 62 * p;
      assert PolySum(rev[i..]) == rev[i] + 62 * tail;
      assert p * (rev[i] + 62 * tail) == rev[i] * p + (62 * p) * tail;
    }
  }

  lemma {:induction false} PolySumOfReverse(ds: seq<int>)
    ensures PolySum(Reverse(ds)) == Horner(ds)
  {
    if ds != [] {
      var init := ds[..|ds| - 1];
      assert Reverse(ds)[1..] == Reverse(init);
      PolySumOfReverse(init);
    }
  }

  lemma {:induction false} HornerIsValue(t: string)
    requires Over(t, Alphabet)
    ensures Horner(DigitValues(t)) == Value(t, Alphabet)
  {
    if t != [] {
      var init := t[..|t| - 1];
      assert DigitValues(t)[..|t| - 1] == DigitValues(init);
      HornerIsValue(init);
    }
  }

  lemma ReduceFromStart(rev: seq<int>)
    ensures ReduceFrom(rev, 0, 0) == PolySum(rev)
  {
    ReduceIsPolySum(rev, 0, 0);
    assert Pow(62, 0) == 1;
    assert rev[0..] == rev;
  }

  /** The reduction of src/b62.mjs computes the big-endian base-62 value. */
  lemma ReduceIsValue(t: string)
    requires Over(t, Alphabet)
    ensures ReduceFrom(Reverse(DigitValues(t)), 0, 0) == Value(t, Alphabet)
  {
    var ds := DigitValues(t);
    ReduceFromStart(Reverse(ds));
    PolySumOfReverse(ds);
    HornerIsValue(t);
  }

  /** `NatToHex(n)` is hexadecimal of value `n` without leading zeros. */
  lemma NatToHexValue(n: nat)
    ensures Over(NatToHex(n), HexDigits) && Value(NatToHex(n), HexDigits) == n
    ensures |NatToHex(n)| > 1 ==> NatToHex(n)[0] != '0'
  {
    AlphabetFacts();
    if n > 0 { ValueOfDigits(n, HexDigits); }
  }

  lemma B62ToHexMeaning(t: string, padlen: nat)
    ensures var r := PadStart(BigIntToHex(ReduceFrom(Reverse(DigitValues(t)), 0, 0)), padlen, '0');
      Over(t, Alphabet) ==>
        (Over(r, HexDigits) && Value(r, HexDigits) == Value(t, Alphabet) &&
         (|r| > padlen && |r| > 1 ==> r[0] != '0'))
  {
    if Over(t, Alphabet) {
      AlphabetFacts();
      ReduceIsValue(t);
      var v := Value(t, Alphabet);
      var h := NatToHex(v);
      NatToHexValue(v);
      var r := PadStart(h, padlen, '0');
      if |h| < padlen {
        assert r == Repeat('0', padlen - |h|) + h;
        ValueLeadingZeros(padlen - |h|, h, HexDigits);
      }
    }
  }

  // ---------------------------------------------------------------- hex_to_b62

  /** The characters ECMAScript's string-to-BigInt conversion skips around
      a literal (WhiteSpace and LineTerminator). */
  predicate IsJsWhitespace(c: char) {
    || c == '\t' || c == '\n' || c == '\U{000B}' || c == '\U{000C}' || c == '\r' || c == ' '
    || c == '\U{00A0}' || c == '\U{1680}' || '\U{2000}' <= c <= '\U{200A}'
    || c == '\U{2028}' || c == '\U{2029}' || c == '\U{202F}' || c == '\U{205F}'
    || c == '\U{3000}' || c == '\U{FEFF}'
  }

  /** `t` without its trailing whitespace. */
  function TrimEnd(t: string): (r: string)
    ensures |r| <= |t| && r == t[..|r|]
    ensures r != [] ==> !IsJsWhitespace(r[|r| - 1])
    ensures forall i :: |r| <= i < |t| ==> IsJsWhitespace(t[i])
  {
    if t != [] && IsJsWhitespace(t[|t| - 1]) then TrimEnd(t[..|t| - 1]) else t
  }

  function ToLowerHex(c: char): char {
    if 'A' <= c <= 'F' then (c as int - 'A' as int + 'a' as int) as char else c
  }

  /** What may follow "0x" in a BigInt literal: at least one hex digit of either case. */
  predicate IsHexBody(b: string) {
    b != [] && forall i :: 0 <= i < |b| ==> b[i] in HexDigits || b[i] in UpperHexDigits
  }

  /** `BigInt('0x' + t)`: `None` where the conversion throws a SyntaxError
      (no hex digit, or a character that is neither a hex digit of either
      case nor trailing whitespace). */
  function ParseHex(t: string): (r: Option<nat>)
    ensures r.Some? <==> IsHexBody(TrimEnd(t))
    ensures Over(t, HexDigits) && t != [] ==> r == Some(Value(t, HexDigits))
  {
    var body := TrimEnd(t);
    if IsHexBody(body) then
      var lower := seq(|body|, i requires 0 <= i < |body| => ToLowerHex(body[i]));
      LowerIsOver(body, lower);
      LowerHexIdentity(t);
      Some(Value(lower, HexDigits))
    else
      None
  }

  lemma HexDigitAt(d: nat)
    requires d < 16
    ensures HexDigits[d] == DigitChar(d)
  {
  }

  lemma LowerIsOver(body: string, lower: string)
    requires IsHexBody(body)
    requires |lower| == |body| && forall i :: 0 <= i < |body| ==> lower[i] == ToLowerHex(body[i])
    ensures Over(lower, HexDigits)
  {
    forall i | 0 <= i < |body| ensures lower[i] in HexDigits {
      var c := body[i];
      if c in UpperHexDigits {
        var k := c as int - 'A' as int;
        assert 0 <= k < 6;
        HexDigitAt(10 + k);
        assert lower[i] == HexDigits[10 + k];
      } else {
        var d :| 0 <= d < 16 && HexDigits[d] == c;
        HexDigitAt(d);
        assert lower[i] == c;
      }
    }
  }

  lemma LowerHexIdentity(t: string)
    ensures Over(t, HexDigits) ==> TrimEnd(t) == t
    ensures Over(t, HexDigits) ==> seq(|t|, i requires 0 <= i < |t| => ToLowerHex(t[i])) == t
  {
    if Over(t, HexDigits) && t != [] {
      assert !IsJsWhitespace(t[|t| - 1]);
    }
  }

  /** What `hex_to_b62(t, padlen)` returns: the base-62 digits of the value,
      most significant first, padded with '0' to `padlen`; `None` when
      `BigInt` throws. */
  function HexToB62Result(t: string, padlen: nat := 22): (r: Option<string>)
    ensures r.Some? <==> ParseHex(t).Some?
    ensures r.Some? ==> Over(r.value, Alphabet) && |r.value| >= padlen
    ensures r.Some? ==> Value(r.value, Alphabet) == ParseHex(t).value
    ensures ParseHex(t) == Some(0) ==> r == Some(Repeat('0', padlen))
    ensures r.Some? && |r.value| > padlen ==> r.value[0] != '0'
  {
    match ParseHex(t)
    case None => None
    case Some(v) =>
      var ds := Digits(v, Alphabet);
      AlphabetFacts();
      PaddedDigits(v, padlen);
      assert v == 0 ==> PadStart(ds, padlen, '0') == Repeat('0', padlen);
      Some(PadStart(ds, padlen, '0'))
  }

  lemma PaddedDigits(v: nat, padlen: nat)
    ensures var r := PadStart(Digits(v, Alphabet), padlen, '0');
      Over(r, Alphabet) && Value(r, Alphabet) == v
  {
    AlphabetFacts();
    var ds := Digits(v, Alphabet);
    ValueOfDigits(v, Alphabet);
    if |ds| < padlen { ValueLeadingZeros(padlen - |ds|, ds, Alphabet); }
  }

  /** `hex_to_b62(t, padlen)`: repeated division by 62 collects the digits
      from least significant to most significant. */
  method HexToB62(t: string, padlen: nat := 22) returns (r: Option<string>)
    ensures r == HexToB62Result(t, padlen)
  {
    var parsed := ParseHex(t);
    if parsed.None? {
      return None;
    }
    var n := parsed.value;
    var ret := "";
    assert Digits(n, Alphabet) + ret == Digits(n, Alphabet);
    while n > 0
      invariant Digits(n, Alphabet) + ret == Digits(parsed.value, Alphabet)
    {
      DivisionStep(n, ret);
      ret := [Alphabet[n % 62]] + ret;
      n := n / 62;
    }
    assert ret == Digits(parsed.value, Alphabet) by {
      assert Digits(n, Alphabet) == [];
      assert [] + ret == ret;
    }
    HexToB62Parsed(t, padlen);
    r := Some(PadStart(ret, padlen, '0'));
  }

  /** Division by 62 strips the last base-62 digit. */
  lemma LastDigit(n: nat)
    requires n > 0
    ensures Digits(n, Alphabet) == Digits(n / 62, Alphabet) + [Alphabet[n % 62]]
  {
    AlphabetFacts();
  }

  /** One turn of the loop: the last digit moves from `n` to the front of `ret`. */
  lemma DivisionStep(n: nat, ret: string)
    requires n > 0
    ensures Digits(n / 62, Alphabet) + ([Alphabet[n % 62]] + ret) == Digits(n, Alphabet) + ret
  {
    LastDigit(n);
    SeqAssoc(Digits(n / 62, Alphabet), [Alphabet[n % 62]], ret);
  }

  lemma SeqAssoc(a: string, b: string, c: string)
    ensures a + (b + c) == (a + b) + c
  {
  }

  lemma HexToB62Parsed(t: string, padlen: nat)
    requires ParseHex(t).Some?
    ensures HexToB62Result(t, padlen) == Some(PadStart(Digits(ParseHex(t).value, Alphabet), padlen, '0'))
  {
  }

  // ---------------------------------------------------------------- round trips

  lemma PowBounds()
    ensures Pow(16, 32) == 340282366920938463463374607431768211456
    ensures Pow(62, 22) == 2707803647802660400290261537185326956544
  {
    assert Pow(16, 2) == 256;
    PowAdd(16, 2, 2); PowAdd(16, 4, 4); PowAdd(16, 8, 8); PowAdd(16, 16, 16);
    assert Pow(62, 2) == 3844;
    PowAdd(62, 2, 2); PowAdd(62, 4, 1); PowAdd(62, 5, 5); PowAdd(62, 10, 1); PowAdd(62, 11, 11);
  }

  /** A 32-digit hex number always fits in 22 base-62 digits. */
  lemma HexFitsB62(v: nat)
    requires v < Pow(16, 32)
    ensures |Digits(v, Alphabet)| <= 22
  {
    PowBounds();
    DigitsLength(v, 22, Alphabet);
  }

  /** Every 22-digit base-62 id survives the trip through hexadecimal. */
  lemma RoundTripFromB62(s: string)
    requires |s| == 22 && Over(s, Alphabet)
    ensures HexToB62Result(B62ToHex(s, 32), 22) == Some(s)
  {
    AlphabetFacts();
    var h := B62ToHex(s, 32);
    assert h != [];
    assert ParseHex(h) == Some(Value(s, Alphabet));
    PadDigitsOfValue(s, Alphabet);
  }

  /** Every 32-digit lower-case hex id survives the trip through base 62. */
  lemma RoundTripFromHex(h: string)
    requires |h| == 32 && Over(h, HexDigits)
    ensures HexToB62Result(h, 22).Some?
    ensures B62ToHex(HexToB62Result(h, 22).value, 32) == h
  {
    AlphabetFacts();
    var v := Value(h, HexDigits);
    assert ParseHex(h) == Some(v);
    var b := HexToB62Result(h, 22).value;
    PrintHexOfValue(b, v);
    PadHexOfValue(h);
  }

  /** `b62_to_hex` of a base-62 string prints its value to 32 places. */
  lemma PrintHexOfValue(b: string, v: nat)
    requires Over(b, Alphabet) && Value(b, Alphabet) == v
    ensures B62ToHex(b, 32) == PadStart(NatToHex(v), 32, '0')
  {
    ReduceIsValue(b);
  }

  /** A 32-digit hex string is its own value printed and padded to 32 places. */
  lemma PadHexOfValue(h: string)
    requires |h| == 32 && Over(h, HexDigits)
    ensures PadStart(NatToHex(Value(h, HexDigits)), 32, '0') == h
  {
    AlphabetFacts();
    var v := Value(h, HexDigits);
    PadDigitsOfValue(h, HexDigits);
    if v == 0 {
      ZeroValue(h, HexDigits);
      assert PadStart("0", 32, '0') == Repeat('0', 31) + "0";
      RepeatSnoc('0', 31);
    }
  }
}
