/** Raw bytes, little-endian integers, C strings and decimal text, as the C sources use them. */
module Bytes {

  type byte = b: int | 0 <= b < 256

  type bytes = seq<byte>

  const U32_LIMIT: nat := 0x1_0000_0000
  const NUL: byte := 0
  const NEWLINE: byte := 10
  const COMMA: byte := 44
  const DOT: byte := 46

  datatype Option<+T> = None | Some(value: T)

  // ----- Little-endian integers ---------------------------------------------

  function Pow256(k: nat): (p: nat)
    ensures p >= 1
  {
    if k == 0 then 1 else 256 * Pow256(k - 1)
  }

  /** The value `memcpy` leaves in a zeroed integer. */
  function FromLE(s: bytes): (n: nat) {
    if s == [] then 0 else s[0] + 256 * FromLE(s[1..])
  }

  /** The first `k` bytes of an integer on a little-endian machine. */
  function ToLE(n: nat, k: nat): (s: bytes)
    ensures |s| == k
  {
    if k == 0 then [] else [n % 256] + ToLE(n / 256, k - 1)
  }

  function U32(n: nat): (s: bytes)
    ensures |s| == 4
  {
    ToLE(n, 4)
  }

  lemma {:induction false} FromLEToLE(n: nat, k: nat)
    requires n < Pow256(k)
    ensures FromLE(ToLE(n, k)) == n
  {
    if k > 0 {
      var s := ToLE(n, k);
      assert s[1..] == ToLE(n / 256, k - 1);
      FromLEToLE(n / 256, k - 1);
    }
  }

  lemma U32RoundTrip(n: nat)
    requires n < U32_LIMIT
    ensures FromLE(U32(n)) == n
  {
    assert Pow256(4) == U32_LIMIT by {
      assert Pow256(1) == 256 && Pow256(2) == 0x10000 && Pow256(3) == 0x1000000;
    }
    FromLEToLE(n, 4);
  }

  // ----- C strings ------------------------------------------------------------

  /** Index of the first `c` in `s`, or `|s|`. */
  function IndexOf(s: bytes, c: byte): (i: nat)
    ensures i <= |s|
  {
    if s == [] || s[0] == c then 0 else 1 + IndexOf(s[1..], c)
  }

  lemma {:induction false} IndexOfFirst(s: bytes, c: byte)
    ensures IndexOf(s, c) < |s| ==> s[IndexOf(s, c)] == c
    ensures forall k :: 0 <= k < IndexOf(s, c) ==> s[k] != c
  {
    if s != [] && s[0] != c {
      IndexOfFirst(s[1..], c);
      forall k | 0 <= k < IndexOf(s, c) ensures s[k] != c {
        if k > 0 {
          assert s[k] == s[1..][k - 1];
        }
      }
    }
  }

  /** The C string that starts at the head of `s`: everything before the first NUL. */
  function CStr(s: bytes): (r: bytes) {
    s[..IndexOf(s, NUL)]
  }

  lemma CStrHasNoNul(s: bytes)
    ensures NUL !in CStr(s)
  {
    IndexOfFirst(s, NUL);
  }

  lemma {:induction false} IndexOfSkip(a: bytes, b: bytes, c: byte)
    requires c !in a
    ensures IndexOf(a + b, c) == |a| + IndexOf(b, c)
  {
    if a == [] {
      assert a + b == b;
    } else {
      assert (a + b)[1..] == a[1..] + b;
      IndexOfSkip(a[1..], b, c);
    }
  }

  lemma IndexOfAppend(a: bytes, c: byte, b: bytes)
    requires c !in a
    ensures IndexOf(a + [c] + b, c) == |a|
  {
    IndexOfSkip(a, [c] + b, c);
    assert a + [c] + b == a + ([c] + b);
  }

  // ----- Decimal text ---------------------------------------------------------

  predicate IsDigit(b: byte) {
    48 <= b <= 57
  }

  predicate AllDigits(s: bytes) {
    forall i :: 0 <= i < |s| ==> IsDigit(s[i])
  }

  /** What `%u` prints. */
  function Digits(n: nat): (s: bytes)
    ensures |s| >= 1 && AllDigits(s)
  {
    if n < 10 then [48 + n] else Digits(n / 10) + [48 + n % 10]
  }

  function Pow10(k: nat): (p: nat)
    ensures p >= 1
  {
    if k == 0 then 1 else 10 * Pow10(k - 1)
  }

  /** Value of a string of digits. */
  function DecimalValue(s: bytes): (n: nat)
    requires AllDigits(s)
  {
    if s == [] then 0 else DecimalValue(s[..|s| - 1]) * 10 + (s[|s| - 1] - 48)
  }

  lemma {:induction false} DigitsRoundTrip(n: nat)
    ensures DecimalValue(Digits(n)) == n
  {
    if n >= 10 {
      var s := Digits(n);
      assert s[..|s| - 1] == Digits(n / 10);
      DigitsRoundTrip(n / 10);
    } else {
      assert Digits(n)[..0] == [];
    }
  }

  /** Length of the longest prefix of digits. */
  function DigitPrefix(s: bytes): (k: nat)
    ensures k <= |s| && AllDigits(s[..k])
    ensures k < |s| ==> !IsDigit(s[k])
  {
    if s == [] || !IsDigit(s[0]) then 0
    else
      var k := 1 + DigitPrefix(s[1..]);
      assert forall i :: 0 < i < k ==> s[i] == s[1..][i - 1];
      k
  }

  /** Length of the longest suffix of digits. */
  function DigitSuffix(s: bytes): (k: nat)
    ensures k <= |s| && AllDigits(s[|s| - k..])
    ensures k < |s| ==> !IsDigit(s[|s| - k - 1])
  {
    if s == [] || !IsDigit(s[|s| - 1]) then 0
    else
      var t := s[..|s| - 1];
      var k := DigitSuffix(t);
      assert s[|s| - 1 - k..] == t[|t| - k..] + [s[|s| - 1]];
      1 + k
  }

  lemma {:induction false} DigitPrefixOf(d: bytes, rest: bytes)
    requires AllDigits(d)
    requires rest == [] || !IsDigit(rest[0])
    ensures DigitPrefix(d + rest) == |d|
  {
    if d == [] {
      assert d + rest == rest;
    } else {
      assert (d + rest)[1..] == d[1..] + rest;
      DigitPrefixOf(d[1..], rest);
    }
  }

  lemma {:induction false} DigitSuffixOf(rest: bytes, d: bytes)
    requires AllDigits(d)
    requires rest == [] || !IsDigit(rest[|rest| - 1])
    ensures DigitSuffix(rest + d) == |d|
  {
    if d == [] {
      assert rest + d == rest;
    } else {
      var s := rest + d;
      assert s[..|s| - 1] == rest + d[..|d| - 1];
      DigitSuffixOf(rest, d[..|d| - 1]);
    }
  }
}
