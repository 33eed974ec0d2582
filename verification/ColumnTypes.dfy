/** The slave's column type table: how long each MySQL type's metadata and values are. */
module ColumnTypes {
  import opened Bytes

  datatype Handler = NoHandler | Def | Varchar | Bit | Blob | VarString | Str | NewDecimal

  datatype ColumnMeta = ColumnMeta(metaLen: nat, fixedLen: nat, handler: Handler)

  function ColumnMetaOf(t: byte): (m: ColumnMeta) {
    if t == 1 || t == 13 then ColumnMeta(0, 1, Def)
    else if t == 2 then ColumnMeta(0, 2, Def)
    else if t == 9 || t == 10 || t == 11 then ColumnMeta(0, 3, Def)
    else if t == 3 || t == 7 then ColumnMeta(0, 4, Def)
    else if t == 8 || t == 12 then ColumnMeta(0, 8, Def)
    else if t == 4 then ColumnMeta(1, 4, Def)
    else if t == 5 then ColumnMeta(1, 8, Def)
    else if t == 15 then ColumnMeta(2, 0, Varchar)
    else if t == 16 then ColumnMeta(2, 0, Bit)
    else if t == 246 then ColumnMeta(2, 0, NewDecimal)
    else if t == 252 || t == 255 then ColumnMeta(1, 0, Blob)
    else if t == 253 then ColumnMeta(2, 0, VarString)
    else if t == 254 then ColumnMeta(2, 0, Str)
    else ColumnMeta(0, 0, NoHandler)
  }

  // ----- Decimals ---------------------------------------------------------------

  const DIG2BYTES: seq<nat> := [0, 1, 1, 2, 2, 3, 3, 4, 4, 4]

  /** Bytes of a decimal; the subtraction and the sum are those of 32-bit unsigned integers. */
  function BinSize(precision: byte, scale: byte): (n: nat) {
    var intg := (precision - scale) % U32_LIMIT;
    (intg / 9 * 4 + DIG2BYTES[intg % 9] + scale / 9 * 4 + DIG2BYTES[scale % 9]) % U32_LIMIT
  }

  lemma {:induction false} Pow256Add(a: nat, b: nat)
    ensures Pow256(a + b) == Pow256(a) * Pow256(b)
  {
    if a > 0 {
      Pow256Add(a - 1, b);
      assert Pow256(a + b) == 256 * (Pow256(a - 1) * Pow256(b)) == (256 * Pow256(a - 1)) * Pow256(b);
    }
  }

  lemma {:induction false} Pow10Add(a: nat, b: nat)
    ensures Pow10(a + b) == Pow10(a) * Pow10(b)
  {
    if a > 0 {
      Pow10Add(a - 1, b);
      assert Pow10(a + b) == 10 * (Pow10(a - 1) * Pow10(b)) == (10 * Pow10(a - 1)) * Pow10(b);
    }
  }

  lemma ProductMono(a: nat, b: nat, c: nat, d: nat)
    requires a >= c && b >= d
    ensures a * b >= c * d
  {
    assert a * b >= c * b >= c * d;
  }

  lemma SmallPowers()
    ensures Pow256(0) == 1 && Pow256(1) == 256 && Pow256(2) == 0x1_0000
    ensures Pow256(3) == 0x100_0000 && Pow256(4) == 0x1_0000_0000
  {
  }

  lemma SmallTens()
    ensures Pow10(0) == 1 && Pow10(1) == 10 && Pow10(2) == 100 && Pow10(3) == 1000 && Pow10(4) == 10_000
    ensures Pow10(5) == 100_000 && Pow10(6) == 1_000_000 && Pow10(7) == 10_000_000 && Pow10(8) == 100_000_000
    ensures Pow10(9) == 1_000_000_000
  {
    assert Pow10(3) == 1000 && Pow10(6) == 1_000_000;
  }

  /** The table of leftovers has room for the digits and a sign, and with a byte less it would not. */
  lemma LeftoverFits(d: nat)
    requires d <= 9
    ensures Pow256(DIG2BYTES[d]) >= Pow10(d)
    ensures d > 0 ==> DIG2BYTES[d] > 0 && Pow256(DIG2BYTES[d] - 1) < 2 * Pow10(d) <= Pow256(DIG2BYTES[d])
  {
    hide Pow256, Pow10;
    SmallPowers();
    SmallTens();
  }

  /** Groups of nine digits in four bytes, and the leftover digits by the table, hold `n` digits. */
  lemma {:induction false} DigitsFit(n: nat)
    ensures Pow256(n / 9 * 4 + DIG2BYTES[n % 9]) >= Pow10(n)
  {
    hide Pow256, Pow10;
    if n < 9 {
      LeftoverFits(n);
    } else {
      DigitsFit(n - 9);
      LeftoverFits(9);
      var m := (n - 9) / 9 * 4 + DIG2BYTES[(n - 9) % 9];
      assert n / 9 * 4 + DIG2BYTES[n % 9] == m + 4;
      Pow256Add(m, 4);
      Pow10Add(n - 9, 9);
      ProductMono(Pow256(m), Pow256(4), Pow10(n - 9), Pow10(9));
    }
  }

  /** The least number of bytes, from `b` on, with `v` values or more. */
  function LeastBytes(v: nat, b: nat): (n: nat)
    ensures n >= b && Pow256(n) >= v
    ensures forall k :: b <= k < n ==> Pow256(k) < v
    decreases if Pow256(b) >= v then 0 else v - Pow256(b)
  {
    if Pow256(b) >= v then b
    else
      assert Pow256(b + 1) == 256 * Pow256(b) > Pow256(b);
      LeastBytes(v, b + 1)
  }

  /** As few bytes as hold `d` digits and a sign. */
  function SignedBytes(d: nat): (b: nat) {
    if d == 0 then 0 else LeastBytes(2 * Pow10(d), 0)
  }

  /** Nine digits to four bytes, and for those left over as few as hold them with a sign. */
  function DigitBytes(n: nat): (b: nat) {
    n / 9 * 4 + SignedBytes(n % 9)
  }

  /** Bytes MySQL gives the digits on either side of the point. */
  function WrittenSize(precision: byte, scale: byte): (n: nat) {
    DigitBytes(if scale <= precision then precision - scale else 0) + DigitBytes(scale)
  }

  lemma {:induction false} Pow256Grows(a: nat, b: nat)
    requires a <= b
    ensures Pow256(a) <= Pow256(b)
    decreases b
  {
    if a < b {
      Pow256Grows(a, b - 1);
    }
  }

  lemma LeastIs(v: nat, n: nat)
    requires n > 0 && Pow256(n - 1) < v <= Pow256(n)
    ensures LeastBytes(v, 0) == n
  {
    hide Pow256;
    var least := LeastBytes(v, 0);
    if least < n {
      Pow256Grows(least, n - 1);
    }
  }

  /**
   * The table of leftovers has the least number of bytes with room for the digits and a sign. Without
   * the sign seven digits would fit in three bytes, where it has four.
   */
  lemma LeftoverIsLeast(d: nat)
    requires d <= 9
    ensures DIG2BYTES[d] == SignedBytes(d)
    ensures DIG2BYTES[7] == 4 && Pow256(3) >= Pow10(7)
  {
    hide Pow256, Pow10, LeastBytes;
    LeftoverFits(d);
    SmallPowers();
    SmallTens();
    if d > 0 {
      LeastIs(2 * Pow10(d), DIG2BYTES[d]);
    }
  }

  lemma BinSizeSplit(precision: byte, scale: byte)
    requires scale <= precision
    ensures BinSize(precision, scale) ==
            ((precision - scale) / 9 * 4 + DIG2BYTES[(precision - scale) % 9]) + (scale / 9 * 4 + DIG2BYTES[scale % 9])
  {
    var intg := precision - scale;
    assert intg % U32_LIMIT == intg;
    assert intg / 9 < 29 && scale / 9 < 29 && DIG2BYTES[intg % 9] <= 4 && DIG2BYTES[scale % 9] <= 4;
  }

  /** The computed size has room for every value of `precision` digits, wherever the point is. */
  lemma DecimalFits(precision: byte, scale: byte)
    requires scale <= precision
    ensures Pow256(BinSize(precision, scale)) >= Pow10(precision)
  {
    hide Pow256, Pow10;
    var intg := precision - scale;
    DigitsFit(intg);
    DigitsFit(scale);
    BinSizeSplit(precision, scale);
    hide BinSize;
    var a, b := intg / 9 * 4 + DIG2BYTES[intg % 9], scale / 9 * 4 + DIG2BYTES[scale % 9];
    Pow256Add(a, b);
    Pow10Add(intg, scale);
    ProductMono(Pow256(a), Pow256(b), Pow10(intg), Pow10(scale));
  }

  /** The computed size is the one MySQL writes. */
  lemma BinSizeIsWritten(precision: byte, scale: byte)
    requires scale <= precision
    ensures BinSize(precision, scale) == WrittenSize(precision, scale)
  {
    hide Pow256, Pow10, SignedBytes;
    BinSizeSplit(precision, scale);
    hide BinSize;
    LeftoverIsLeast((precision - scale) % 9);
    LeftoverIsLeast(scale % 9);
  }

  // ----- How a value is laid out --------------------------------------------------

  datatype Layout =
    | Exactly(n: nat)      // that many bytes
    | Prefixed(pack: nat)  // a length of `pack` bytes, then that many

  /** Longest value of a string column: two bits of the length hide, inverted, in the type byte. */
  function StringMax(b0: nat, b1: nat): (n: nat) {
    if b0 / 16 % 4 != 3 then b1 + 256 * (3 - b0 / 16 % 4) else b1
  }

  /**
   * What a type's parse handler makes of the metadata at offset `k`. None where
   * it would read past the metadata, or copy more than four bytes of length.
   */
  function LayoutOf(t: byte, cm: bytes, k: nat): (l: Option<Layout>) {
    var m := ColumnMetaOf(t);
    if m.handler == Def then Some(Exactly(m.fixedLen))
    else if k + (if m.handler == Blob || m.handler == Bit then 1 else 2) > |cm| then None
    else match m.handler
      case Varchar => Some(Prefixed(if FromLE(cm[k..k + m.metaLen]) < 256 then 1 else 2))
      case Bit => Some(Exactly(cm[k] / 8))
      case Blob => if cm[k] <= 4 then Some(Prefixed(cm[k])) else None
      case VarString => if cm[k + 1] <= 4 then Some(Prefixed(cm[k + 1])) else None
      case Str =>
        Some(Prefixed(if StringMax(cm[k], cm[k + 1]) < 256 then 1 else 2))
      case NewDecimal => Some(Exactly(BinSize(cm[k], cm[k + 1])))
      case _ => None
  }

  /** The value at `p` and the offset behind it, if the data reaches that far. */
  function Take(l: Layout, data: bytes, p: nat): (r: Option<(bytes, nat)>)
    ensures r.Some? ==> p <= r.value.1 <= |data|
  {
    var q := p + if l.Exactly? then 0 else l.pack;
    if q > |data| then None
    else
      var dl := if l.Exactly? then l.n else FromLE(data[p..q]);
      if q + dl > |data| then None else Some((data[q..q + dl], q + dl))
  }
}
