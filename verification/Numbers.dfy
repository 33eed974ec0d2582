/** The digit loops that turn text into 32-bit numbers, forwards and backwards. */
module Numbers {
  import opened Bytes

  /** What digit `d` stands for with `k` digits behind it. */
  function Weight(d: byte, k: nat): (w: nat)
    requires IsDigit(d)
  {
    if k == 0 then d - 48 else 10 * Weight(d, k - 1)
  }

  lemma {:induction false} WeightIsProduct(d: byte, k: nat)
    requires IsDigit(d)
    ensures Weight(d, k) == Pow10(k) * (d - 48)
  {
    if k > 0 {
      WeightIsProduct(d, k - 1);
    }
  }

  lemma {:induction false} DecimalValueCons(d: byte, s: bytes)
    requires IsDigit(d) && AllDigits(s)
    ensures AllDigits([d] + s) && DecimalValue([d] + s) == Weight(d, |s|) + DecimalValue(s)
  {
    var t := [d] + s;
    if s == [] {
      assert t[..0] == [];
    } else {
      var s' := s[..|s| - 1];
      assert t[..|t| - 1] == [d] + s';
      DecimalValueCons(d, s');
    }
  }

  /** Digits from the last to the first, the way `rs_uint32_to_str` fills its buffer backwards. */
  method UintToStr(n: nat) returns (s: bytes)
    ensures s == Digits(n)
  {
    var rest: nat := n / 10;
    s := [48 + n % 10];
    while rest != 0
      invariant Digits(n) == if rest == 0 then s else Digits(rest) + s
      decreases rest
    {
      ghost var last: bytes := [48 + rest % 10];
      assert rest >= 10 ==> (Digits(rest / 10) + last) + s == Digits(rest / 10) + (last + s);
      s := [48 + rest % 10] + s;
      rest := rest / 10;
    }
  }

  /** Forward scan: `i = i * 10 + *p++ - '0'` in 32 bits. */
  method StrToU32(s: bytes) returns (n: nat)
    ensures n == DecimalValue(s[..DigitPrefix(s)]) % U32_LIMIT
  {
    n := 0;
    var i := 0;
    assert s[..0] == [];
    while i < |s| && IsDigit(s[i])
      invariant i <= |s| && AllDigits(s[..i])
      invariant n == DecimalValue(s[..i]) % U32_LIMIT
    {
      assert s[..i + 1][..i] == s[..i];
      ModStep(DecimalValue(s[..i]), 10, s[i] - 48);
      n := (n * 10 + (s[i] - 48)) % U32_LIMIT;
      i := i + 1;
    }
    assert s == s[..i] + s[i..];
    DigitPrefixOf(s[..i], s[i..]);
  }

  lemma ModStep(a: nat, m: nat, d: nat)
    ensures (a % U32_LIMIT * m + d) % U32_LIMIT == (a * m + d) % U32_LIMIT
  {
    var q := a / U32_LIMIT;
    assert a * m + d == (a % U32_LIMIT * m + d) + q * m * U32_LIMIT;
    ModDrop(a % U32_LIMIT * m + d, q * m);
  }

  lemma {:induction false} ModDrop(x: nat, q: nat)
    ensures (x + q * U32_LIMIT) % U32_LIMIT == x % U32_LIMIT
    decreases q
  {
    if q > 0 {
      ModDrop(x, q - 1);
      assert x + q * U32_LIMIT == (x + (q - 1) * U32_LIMIT) + U32_LIMIT;
    }
  }

  /** The last `k` bytes. */
  function Suffix(s: bytes, k: nat): (t: bytes)
    requires k <= |s|
    ensures |t| == k
  {
    s[|s| - k..]
  }

  lemma SuffixStep(s: bytes, k: nat)
    requires k < |s| && AllDigits(Suffix(s, k)) && IsDigit(s[|s| - k - 1])
    ensures AllDigits(Suffix(s, k + 1)) && k + 1 <= DigitSuffix(s)
    ensures DecimalValue(Suffix(s, k + 1)) == Weight(s[|s| - k - 1], k) + DecimalValue(Suffix(s, k))
  {
    assert Suffix(s, k + 1) == [s[|s| - k - 1]] + Suffix(s, k);
    DecimalValueCons(s[|s| - k - 1], Suffix(s, k));
    SuffixLonger(s, k + 1);
  }

  lemma SuffixEnds(s: bytes, k: nat)
    requires k < |s| && AllDigits(Suffix(s, k)) && !IsDigit(s[|s| - k - 1])
    ensures DigitSuffix(s) == k
  {
    assert s == s[..|s| - k] + Suffix(s, k);
    DigitSuffixOf(s[..|s| - k], Suffix(s, k));
  }

  lemma {:induction false} SuffixLonger(s: bytes, k: nat)
    requires k <= |s| && AllDigits(Suffix(s, k))
    ensures k <= DigitSuffix(s)
  {
    if k > 0 {
      assert IsDigit(Suffix(s, k)[k - 1]);
      var t := s[..|s| - 1];
      assert Suffix(t, k - 1) == Suffix(s, k)[..k - 1];
      SuffixLonger(t, k - 1);
    }
  }

  /**
   * What the backward scan answers: the digits at the end, in 32 bits. None where
   * its outcome is undefined: in front of the text when there is nothing but
   * digits, and with an eleventh digit, whose weight does not convert to 32 bits.
   */
  function ScanBack(s: bytes): (n: Option<nat>) {
    var k := DigitSuffix(s);
    if k == |s| || k > 10 then None else Some(DecimalValue(Suffix(s, k)) % U32_LIMIT)
  }

  lemma AddMod(a: nat, b: nat)
    ensures (a % U32_LIMIT + b) % U32_LIMIT == (a + b) % U32_LIMIT
  {
    ModStep(a, 1, b);
  }

  lemma EmptySuffix(s: bytes)
    ensures DecimalValue(Suffix(s, 0)) == 0
  {
  }

  lemma ScanStep(s: bytes, k: nat, n: nat)
    requires k < |s| && AllDigits(Suffix(s, k)) && IsDigit(s[|s| - k - 1])
    requires n == DecimalValue(Suffix(s, k)) % U32_LIMIT
    ensures AllDigits(Suffix(s, k + 1)) && k + 1 <= DigitSuffix(s)
    ensures (n + Pow10(k) * (s[|s| - k - 1] - 48)) % U32_LIMIT == DecimalValue(Suffix(s, k + 1)) % U32_LIMIT
  {
    hide DecimalValue, DigitSuffix, Suffix, Weight, Pow10;
    SuffixStep(s, k);
    WeightIsProduct(s[|s| - k - 1], k);
    AddMod(DecimalValue(Suffix(s, k)), Weight(s[|s| - k - 1], k));
  }

  /** Backward scan from the last byte: adds `10^n * digit`, wrapping, until a byte that is no digit. */
  method EstrToU32(s: bytes) returns (r: Option<nat>)
    ensures r == ScanBack(s)
  {
    hide DecimalValue, DigitSuffix;
    var n: nat, k: nat, pow: nat := 0, 0, 1;
    EmptySuffix(s);
    while k < |s| && IsDigit(s[|s| - k - 1])
      invariant k <= |s| && k <= 10 && AllDigits(Suffix(s, k))
      invariant pow == Pow10(k)
      invariant n == DecimalValue(Suffix(s, k)) % U32_LIMIT
      decreases |s| - k
    {
      ScanStep(s, k, n);
      if k == 10 {
        return None;
      }
      n := (n + pow * (s[|s| - k - 1] - 48)) % U32_LIMIT;
      pow := pow * 10;
      k := k + 1;
    }
    if k == |s| {
      SuffixLonger(s, k);
      return None;
    }
    SuffixEnds(s, k);
    return Some(n);
  }
}
