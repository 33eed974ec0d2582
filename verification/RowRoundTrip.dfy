/**
 * Row images as MySQL writes them, and when the slave's decoder reads them back:
 * it keeps in step with the image exactly when, at every column that is not NULL,
 * the metadata it looks at gives the column's own layout.
 */
module RowRoundTrip {
  import opened Bytes
  import opened BinlogEvents
  import opened Frames
  import opened ColumnTypes
  import opened RowImages

  // ----- Columns and their values -----------------------------------------------

  /** SQL types of a fixed width. */
  datatype SqlType =
    | TinyInt | SmallInt | MediumInt | Int | BigInt | Float | Double
    | Year | Date | Time | DateTime | Timestamp

  function CodeOf(t: SqlType): (c: byte) {
    match t
    case TinyInt => 1
    case SmallInt => 2
    case Int => 3
    case Float => 4
    case Double => 5
    case Timestamp => 7
    case BigInt => 8
    case MediumInt => 9
    case Date => 10
    case Time => 11
    case DateTime => 12
    case Year => 13
  }

  function WidthOf(t: SqlType): (n: nat) {
    match t
    case TinyInt => 1
    case Year => 1
    case SmallInt => 2
    case MediumInt => 3
    case Date => 3
    case Time => 3
    case Int => 4
    case Timestamp => 4
    case Float => 4
    case BigInt => 8
    case DateTime => 8
    case Double => 8
  }

  datatype ColumnDef =
    | FixedOf(sql: SqlType)
    | VarcharOf(max: nat)
    | BlobOf(t: byte, pack: byte)
    | CharOf(max: nat)
    | DecimalOf(precision: byte, scale: byte)

  predicate GoodColumn(d: ColumnDef) {
    match d
    case FixedOf(_) => true
    case VarcharOf(max) => max < 0x1_0000
    case BlobOf(t, pack) => (t == 252 || t == 255) && 1 <= pack <= 4
    case CharOf(max) => max < 1024
    case DecimalOf(precision, scale) => scale <= precision
  }

  function TypeOf(d: ColumnDef): (t: byte) {
    match d
    case FixedOf(t) => CodeOf(t)
    case VarcharOf(_) => 15
    case BlobOf(t, _) => t
    case CharOf(_) => 254
    case DecimalOf(_, _) => 246
  }

  function MetaOf(d: ColumnDef): (m: bytes) {
    match d
    case FixedOf(t) => if t == Float then [4] else if t == Double then [8] else []
    case VarcharOf(max) => ToLE(max, 2)
    case BlobOf(_, pack) => [pack]
    case CharOf(max) => [(254 - 16 * (max / 256)) % 256, max % 256]
    case DecimalOf(precision, scale) => [precision, scale]
  }

  function LayoutFor(d: ColumnDef): (l: Layout) {
    match d
    case FixedOf(t) => Exactly(WidthOf(t))
    case VarcharOf(max) => Prefixed(if max < 256 then 1 else 2)
    case BlobOf(_, pack) => Prefixed(pack)
    case CharOf(max) => Prefixed(if max < 256 then 1 else 2)
    case DecimalOf(precision, scale) => Exactly(WrittenSize(precision, scale))
  }

  /** A value the column can hold. */
  predicate Holds(d: ColumnDef, v: bytes) {
    match LayoutFor(d)
    case Exactly(n) => |v| == n
    case Prefixed(pack) => |v| < Pow256(pack) && (d.VarcharOf? || d.CharOf? ==> |v| <= d.max)
  }

  function EncodeValue(l: Layout, v: bytes): (s: bytes) {
    if l.Exactly? then v else ToLE(|v|, l.pack) + v
  }

  // ----- The layout read from metadata ---------------------------------------------

  lemma U16Digits(n: nat)
    requires n < 0x1_0000
    ensures ToLE(n, 2) == [n % 256, n / 256] && FromLE(ToLE(n, 2)) == n
  {
    assert ToLE(n, 2) == [n % 256] + ToLE(n / 256, 1) && ToLE(n / 256, 1) == [n / 256 % 256] + ToLE(n / 256 / 256, 0);
    assert Pow256(1) == 256 && Pow256(2) == 0x1_0000;
    FromLEToLE(n, 2);
  }

  lemma CharMax(max: nat)
    requires max < 1024
    ensures StringMax((254 - 16 * (max / 256)) % 256, max % 256) < 256 <==> max < 256
  {
    var a := 254 - 16 * (max / 256);
    assert a / 16 % 4 == 3 - max / 256;
  }

  /** Where the metadata of a column stands, its own layout is read. */
  lemma OwnLayout(d: ColumnDef, cm: bytes, k: nat)
    requires GoodColumn(d) && k + |MetaOf(d)| <= |cm| && cm[k..k + |MetaOf(d)|] == MetaOf(d)
    ensures LayoutOf(TypeOf(d), cm, k) == Some(LayoutFor(d))
  {
    hide ToLE, FromLE, BinSize, WrittenSize, StringMax;
    var m := MetaOf(d);
    assert forall i :: 0 <= i < |m| ==> cm[k + i] == m[i];
    match d
    case VarcharOf(max) =>
      U16Digits(max);
    case CharOf(max) =>
      CharMax(max);
      assert cm[k] == m[0] && cm[k + 1] == m[1];
    case DecimalOf(precision, scale) =>
      BinSizeIsWritten(precision, scale);
      assert cm[k] == m[0] && cm[k + 1] == m[1];
    case BlobOf(_, _) =>
      assert cm[k] == m[0];
    case FixedOf(_) =>
  }

  lemma MetaLength(d: ColumnDef)
    requires GoodColumn(d)
    ensures |MetaOf(d)| == ColumnMetaOf(TypeOf(d)).metaLen && ColumnMetaOf(TypeOf(d)).handler != NoHandler
  {
  }

  /**
   * A BIT column of `n` bits, whose metadata are the bits left over from whole bytes and the number of those:
   * the parse handler takes an eighth of the first for its size, so nothing is ever read of a value of at least a byte.
   */
  lemma BitIsMisread(n: nat, cm: bytes, k: nat, data: bytes, p: nat)
    requires 1 <= n <= 64 && k + 2 <= |cm| && cm[k] == n % 8 && cm[k + 1] == n / 8 && p <= |data|
    ensures ColumnMetaOf(16).metaLen == 2 && (n + 7) / 8 > 0
    ensures LayoutOf(16, cm, k) == Some(Exactly(0)) && Take(Exactly(0), data, p) == Some(([], p))
  {
    assert data[p..p] == [];
  }

  /** A VARSTRING column with more than four in its second byte of metadata: so long a length has no room. */
  lemma LongVarstringFaults(cm: bytes, k: nat)
    requires k + 2 <= |cm|
    ensures ColumnMetaOf(253).metaLen == 2
    ensures LayoutOf(253, cm, k) == None <==> cm[k + 1] > 4
    ensures cm[k + 1] <= 4 ==> LayoutOf(253, cm, k) == Some(Prefixed(cm[k + 1]))
  {
  }

  // ----- Taking a value in its own layout, or in another ---------------------------

  lemma {:induction false} FromLEPrefix(s: bytes, a: nat, b: nat)
    requires a <= b <= |s|
    ensures FromLE(s[..a]) <= FromLE(s[..b])
  {
    if a > 0 {
      FromLEPrefix(s[1..], a - 1, b - 1);
      assert s[..a][1..] == s[1..][..a - 1] && s[..b][1..] == s[1..][..b - 1];
    }
  }

  /** Two layouts of one kind, of different sizes, take different numbers of bytes. */
  lemma LayoutsDiffer(l: Layout, l': Layout, data: bytes, p: nat)
    requires l.Exactly? == l'.Exactly? && l != l'
    requires Take(l, data, p).Some? && Take(l', data, p).Some?
    ensures Take(l, data, p).value.1 != Take(l', data, p).value.1
  {
    if l.Prefixed? {
      var a, b := if l.pack < l'.pack then l.pack else l'.pack, if l.pack < l'.pack then l'.pack else l.pack;
      FromLEPrefix(data[p..], a, b);
      assert data[p..][..a] == data[p..p + a] && data[p..][..b] == data[p..p + b];
    }
  }

  lemma TakeOwn(l: Layout, v: bytes, data: bytes, p: nat)
    requires if l.Exactly? then |v| == l.n else |v| < Pow256(l.pack)
    requires p + |EncodeValue(l, v)| <= |data| && data[p..p + |EncodeValue(l, v)|] == EncodeValue(l, v)
    ensures Take(l, data, p) == Some((v, p + |EncodeValue(l, v)|))
  {
    var e := EncodeValue(l, v);
    if l.Prefixed? {
      FromLEToLE(|v|, l.pack);
      hide FromLE, ToLE;
      var q := p + l.pack;
      assert data[p..q] == e[..l.pack] == ToLE(|v|, l.pack);
      assert data[q..p + |e|] == e[l.pack..] == v;
    }
  }

  /** The layout read for a column is of the kind of its own. */
  lemma SameKind(d: ColumnDef, cm: bytes, k: nat)
    requires GoodColumn(d) && LayoutOf(TypeOf(d), cm, k).Some?
    ensures LayoutOf(TypeOf(d), cm, k).value.Exactly? == LayoutFor(d).Exactly?
  {
    hide BinSize, WrittenSize, FromLE;
  }

  /**
   * A column is read to its value and no further exactly when the layout read for it
   * is its own.
   */
  lemma ReadIff(d: ColumnDef, v: bytes, cm: bytes, k: nat, data: bytes, p: nat)
    requires GoodColumn(d) && Holds(d, v)
    requires var e := EncodeValue(LayoutFor(d), v); p + |e| <= |data| && data[p..p + |e|] == e
    ensures LayoutOf(TypeOf(d), cm, k) == Some(LayoutFor(d)) ==>
              Take(LayoutFor(d), data, p) == Some((v, p + |EncodeValue(LayoutFor(d), v)|))
    ensures LayoutOf(TypeOf(d), cm, k).Some? && LayoutOf(TypeOf(d), cm, k) != Some(LayoutFor(d)) ==>
              var r := Take(LayoutOf(TypeOf(d), cm, k).value, data, p);
              r == None || r.value.1 != p + |EncodeValue(LayoutFor(d), v)|
  {
    TakeOwn(LayoutFor(d), v, data, p);
    hide EncodeValue, LayoutFor, Holds, TypeOf, GoodColumn;
    var l := LayoutOf(TypeOf(d), cm, k);
    if l.Some? {
      SameKind(d, cm, k);
      hide LayoutOf;
      if l.value != LayoutFor(d) && Take(l.value, data, p).Some? {
        LayoutsDiffer(l.value, LayoutFor(d), data, p);
      }
    }
  }

  // ----- Bitmaps ---------------------------------------------------------------------

  function PackBits(flags: seq<bool>): (n: nat) {
    if flags == [] then 0 else (if flags[0] then 1 else 0) + 2 * PackBits(flags[1..])
  }

  function Pow2(k: nat): (p: nat) {
    if k == 0 then 1 else 2 * Pow2(k - 1)
  }

  lemma {:induction false} PackBound(flags: seq<bool>)
    ensures PackBits(flags) < Pow2(|flags|)
  {
    if flags != [] {
      PackBound(flags[1..]);
    }
  }

  lemma PackHalf(flags: seq<bool>)
    requires flags != []
    ensures PackBits(flags) / 2 == PackBits(flags[1..]) && (PackBits(flags) % 2 == 1 <==> flags[0])
  {
  }

  lemma {:induction false} ShrPack(flags: seq<bool>, k: nat)
    requires k < |flags|
    ensures Shr(PackBits(flags), k) % 2 == 1 <==> flags[k]
  {
    hide PackBits;
    PackHalf(flags);
    if k > 0 {
      ShrPack(flags[1..], k - 1);
    }
  }

  /** Bit `i` of the bitmap is flag `i`, eight to a byte, low bit first. */
  function Bitmap(flags: seq<bool>): (s: bytes)
    ensures |s| == BitmapLen(|flags|)
  {
    if flags == [] then []
    else if |flags| <= 8 then [PackBits(flags) % 256]
    else [PackBits(flags[..8]) % 256] + Bitmap(flags[8..])
  }

  lemma ByteBound(flags: seq<bool>)
    requires |flags| <= 8
    ensures PackBits(flags) < 256
  {
    PackBound(flags);
    assert Pow2(1) == 2 && Pow2(2) == 4 && Pow2(3) == 8 && Pow2(4) == 16;
    assert Pow2(5) == 32 && Pow2(6) == 64 && Pow2(7) == 128 && Pow2(8) == 256;
  }

  lemma {:induction false} BitmapBit(flags: seq<bool>, i: nat)
    requires i < |flags|
    ensures BitAt(Bitmap(flags), i) <==> flags[i]
    decreases |flags|
  {
    hide PackBits, Shr;
    if |flags| <= 8 {
      ByteBound(flags);
      ShrPack(flags, i);
    } else if i < 8 {
      ByteBound(flags[..8]);
      ShrPack(flags[..8], i);
    } else {
      BitmapBit(flags[8..], i - 8);
      assert Bitmap(flags)[i / 8] == Bitmap(flags[8..])[(i - 8) / 8];
    }
  }

  // ----- One row -----------------------------------------------------------------------

  predicate GoodTable(ds: seq<ColumnDef>) {
    0 < |ds| <= 250 && forall i :: 0 <= i < |ds| ==> GoodColumn(ds[i])
  }

  function Types(ds: seq<ColumnDef>): (ct: bytes)
    ensures |ct| == |ds|
  {
    seq(|ds|, i requires 0 <= i < |ds| => TypeOf(ds[i]))
  }

  function Metas(ds: seq<ColumnDef>): (cm: bytes) {
    if ds == [] then [] else Metas(ds[..|ds| - 1]) + MetaOf(ds[|ds| - 1])
  }

  /** Values by column, None for NULL. */
  predicate GoodRow(ds: seq<ColumnDef>, row: seq<Option<bytes>>) {
    |row| == |ds| && forall i :: 0 <= i < |ds| && row[i].Some? ==> Holds(ds[i], row[i].value)
  }

  function NullFlags(row: seq<Option<bytes>>): (f: seq<bool>)
    ensures |f| == |row|
  {
    seq(|row|, i requires 0 <= i < |row| => row[i] == None)
  }

  lemma NullFlagAt(row: seq<Option<bytes>>, i: nat)
    requires i < |row|
    ensures NullFlags(row)[i] <==> row[i] == None
  {
  }

  function EncodeColumn(d: ColumnDef, v: Option<bytes>): (s: bytes) {
    match v case None => [] case Some(b) => EncodeValue(LayoutFor(d), b)
  }

  function EncodeFrom(ds: seq<ColumnDef>, row: seq<Option<bytes>>, i: nat): (s: bytes)
    requires |row| == |ds|
    decreases |ds| - i
  {
    if i >= |ds| then [] else EncodeColumn(ds[i], row[i]) + EncodeFrom(ds, row, i + 1)
  }

  function EncodeRow(ds: seq<ColumnDef>, row: seq<Option<bytes>>): (s: bytes)
    requires |row| == |ds|
  {
    Bitmap(NullFlags(row)) + EncodeFrom(ds, row, 0)
  }

  /**
   * From column `i` on, with the metadata cursor at `k` and `meta` the length last
   * looked up: every column that is not NULL finds its own layout. Depends on the
   * table and on which columns are NULL, not on the values.
   */
  predicate Agrees(ds: seq<ColumnDef>, cm: bytes, nulls: seq<bool>, i: nat, k: nat, meta: Option<nat>)
    requires |nulls| == |ds|
    decreases |ds| - i
  {
    if i >= |ds| then true
    else if nulls[i] then meta.Some? && Agrees(ds, cm, nulls, i + 1, k + meta.value, meta)
    else
      LayoutOf(TypeOf(ds[i]), cm, k) == Some(LayoutFor(ds[i])) &&
      Agrees(ds, cm, nulls, i + 1, k + |MetaOf(ds[i])|, Some(|MetaOf(ds[i])|))
  }

  /** The metadata length last looked up, after the row. */
  function MetaAfter(ds: seq<ColumnDef>, nulls: seq<bool>, i: nat, meta: Option<nat>): (m: Option<nat>)
    requires |nulls| == |ds|
    decreases |ds| - i
  {
    if i >= |ds| then meta
    else MetaAfter(ds, nulls, i + 1, if nulls[i] then meta else Some(|MetaOf(ds[i])|))
  }

  /** What copying a row's values, from column `i` on, stops the decoder with, if anything. */
  function FirstStop(to: Target, row: seq<Option<bytes>>, i: nat): (o: Option<Outcome>)
    ensures o.Some? ==> o.value != Finished
    decreases |row| - i
  {
    if i >= |row| then None
    else if row[i].Some? && CopyStop(to, i, row[i].value).Some? then CopyStop(to, i, row[i].value)
    else FirstStop(to, row, i + 1)
  }

  /** The values of a row, from column `i` on, can be copied where they go. */
  predicate PlacedFrom(to: Target, row: seq<Option<bytes>>, i: nat) {
    FirstStop(to, row, i) == None
  }

  /** The decoder's head for full row images of the table. */
  predicate FullHead(ds: seq<ColumnDef>, h: Head) {
    h.cn == |ds| && h.ct == Types(ds) && |h.used| == BitmapLen(|ds|)
  }

  predicate AllUsed(used: bytes, n: nat) {
    |used| == BitmapLen(n) && forall i: nat :: i < n ==> BitAt(used, i)
  }

  /** From column `i` on, the decoder reads every column where it was written, and its value. */
  predicate InStep(data: bytes, h: Head, used: bytes, ds: seq<ColumnDef>, row: seq<Option<bytes>>, i: nat, c: Cursor)
    requires |row| == |ds| == h.cn && |used| == BitmapLen(|ds|)
    decreases |ds| - i
  {
    i >= |ds| ||
    match ReadColumn(data, h, used, Bitmap(NullFlags(row)), i, c)
    case ColumnStop(_) => false
    case Column(c', value) =>
      value == row[i] && c'.p == c.p + |EncodeColumn(ds[i], row[i])| &&
      InStep(data, h, used, ds, row, i + 1, c')
  }

  predicate StandsAt(s: bytes, data: bytes, p: nat) {
    p + |s| <= |data| && data[p..p + |s|] == s
  }

  lemma StandsSplit(a: bytes, b: bytes, data: bytes, p: nat)
    requires StandsAt(a + b, data, p)
    ensures StandsAt(a, data, p) && StandsAt(b, data, p + |a|)
  {
    assert (a + b)[..|a|] == a && (a + b)[|a|..] == b;
  }

  lemma ColumnStands(data: bytes, p: nat, ds: seq<ColumnDef>, row: seq<Option<bytes>>, i: nat)
    requires |row| == |ds| && i < |ds| && StandsAt(EncodeFrom(ds, row, i), data, p)
    ensures StandsAt(EncodeColumn(ds[i], row[i]), data, p)
    ensures StandsAt(EncodeFrom(ds, row, i + 1), data, p + |EncodeColumn(ds[i], row[i])|)
    ensures row[i] == None ==> EncodeColumn(ds[i], row[i]) == []
  {
    StandsSplit(EncodeColumn(ds[i], row[i]), EncodeFrom(ds, row, i + 1), data, p);
  }

  /** Reading one column that is not NULL. */
  lemma ReadValue(data: bytes, h: Head, used: bytes, ds: seq<ColumnDef>, row: seq<Option<bytes>>, i: nat, c: Cursor)
    requires GoodTable(ds) && GoodRow(ds, row) && FullHead(ds, h) && AllUsed(used, |ds|)
    requires i < |ds| && row[i].Some? && StandsAt(EncodeColumn(ds[i], row[i]), data, c.p)
    ensures var r := ReadColumn(data, h, used, Bitmap(NullFlags(row)), i, c);
            var next := c.p + |EncodeColumn(ds[i], row[i])|;
            if LayoutOf(TypeOf(ds[i]), h.cm, c.k) == Some(LayoutFor(ds[i])) && CopyStop(h.to, i, row[i].value) == None
            then r == Column(Cursor(next, c.k + |MetaOf(ds[i])|, Some(|MetaOf(ds[i])|)), row[i])
            else r.Column? ==> r.c.p != next
    ensures LayoutOf(TypeOf(ds[i]), h.cm, c.k) == Some(LayoutFor(ds[i])) && CopyStop(h.to, i, row[i].value).Some? ==>
              ReadColumn(data, h, used, Bitmap(NullFlags(row)), i, c) ==
              ColumnStop(CopyStop(h.to, i, row[i].value).value)
  {
    hide Bitmap, BitAt, LayoutOf, LayoutFor, Take, EncodeValue, GoodColumn, TypeOf, MetaOf, Holds, ColumnMetaOf;
    hide CopyStop;
    BitmapBit(NullFlags(row), i);
    assert BitAt(used, i);
    MetaLength(ds[i]);
    ReadIff(ds[i], row[i].value, h.cm, c.k, data, c.p);
  }

  /** Reading one NULL column. */
  lemma ReadNull(data: bytes, h: Head, used: bytes, ds: seq<ColumnDef>, row: seq<Option<bytes>>, i: nat, c: Cursor)
    requires FullHead(ds, h) && |used| == BitmapLen(|ds|) && |row| == |ds| && i < |ds| && row[i] == None
    ensures ReadColumn(data, h, used, Bitmap(NullFlags(row)), i, c) ==
            if c.meta == None then ColumnStop(Fault) else Column(c.(k := c.k + c.meta.value), None)
  {
    hide Bitmap, BitAt;
    BitmapBit(NullFlags(row), i);
  }

  lemma AgreesUnfold(ds: seq<ColumnDef>, cm: bytes, row: seq<Option<bytes>>, i: nat, k: nat, meta: Option<nat>)
    requires |row| == |ds| && i < |ds|
    ensures var nulls, m := NullFlags(row), |MetaOf(ds[i])|;
            if row[i] == None
            then Agrees(ds, cm, nulls, i, k, meta) <==> meta.Some? && Agrees(ds, cm, nulls, i + 1, k + meta.value, meta)
            else Agrees(ds, cm, nulls, i, k, meta) <==>
                 LayoutOf(TypeOf(ds[i]), cm, k) == Some(LayoutFor(ds[i])) &&
                 Agrees(ds, cm, nulls, i + 1, k + m, Some(m))
  {
    NullFlagAt(row, i);
    hide NullFlags, LayoutOf, LayoutFor, TypeOf, MetaOf;
  }

  /** One column of the comparison below. */
  lemma InStepNull(data: bytes, h: Head, used: bytes, ds: seq<ColumnDef>, row: seq<Option<bytes>>, i: nat, c: Cursor)
    requires GoodTable(ds) && GoodRow(ds, row) && FullHead(ds, h) && AllUsed(used, |ds|)
    requires i < |ds| && row[i] == None
    ensures InStep(data, h, used, ds, row, i, c) <==>
            c.meta.Some? && InStep(data, h, used, ds, row, i + 1, c.(k := c.k + c.meta.value))
  {
    hide Bitmap, ReadColumn, GoodTable, TypeOf;
    ReadNull(data, h, used, ds, row, i, c);
  }

  lemma InStepValue(data: bytes, h: Head, used: bytes, ds: seq<ColumnDef>, row: seq<Option<bytes>>, i: nat, c: Cursor)
    requires GoodTable(ds) && GoodRow(ds, row) && FullHead(ds, h) && AllUsed(used, |ds|)
    requires i < |ds| && row[i].Some? && StandsAt(EncodeColumn(ds[i], row[i]), data, c.p)
    ensures var m := |MetaOf(ds[i])|;
            InStep(data, h, used, ds, row, i, c) <==>
            LayoutOf(TypeOf(ds[i]), h.cm, c.k) == Some(LayoutFor(ds[i])) && CopyStop(h.to, i, row[i].value) == None &&
            InStep(data, h, used, ds, row, i + 1, Cursor(c.p + |EncodeColumn(ds[i], row[i])|, c.k + m, Some(m)))
  {
    hide Bitmap, ReadColumn, GoodTable, TypeOf, MetaOf, EncodeColumn, LayoutOf, LayoutFor, CopyStop;
    ReadValue(data, h, used, ds, row, i, c);
  }

  /** The decoder keeps in step through a row exactly when the layouts agree and the values can be copied. */
  lemma {:induction false} InStepIff(data: bytes, h: Head, used: bytes, ds: seq<ColumnDef>,
                                     row: seq<Option<bytes>>, i: nat, c: Cursor)
    requires GoodTable(ds) && GoodRow(ds, row) && FullHead(ds, h) && AllUsed(used, |ds|)
    requires i <= |ds| && StandsAt(EncodeFrom(ds, row, i), data, c.p)
    ensures InStep(data, h, used, ds, row, i, c) <==>
            Agrees(ds, h.cm, NullFlags(row), i, c.k, c.meta) && PlacedFrom(h.to, row, i)
    decreases |ds| - i
  {
    hide *;
    Shapes(h, used, ds, row);
    if i == |ds| {
      InStepEnd(data, h, used, ds, row, c);
    } else {
      AgreesUnfold(ds, h.cm, row, i, c.k, c.meta);
      PlacedUnfold(h.to, row, i);
      ColumnStands(data, c.p, ds, row, i);
      if row[i] == None {
        InStepNull(data, h, used, ds, row, i, c);
        if c.meta.Some? {
          InStepIff(data, h, used, ds, row, i + 1, c.(k := c.k + c.meta.value));
        }
      } else {
        InStepValue(data, h, used, ds, row, i, c);
        var m := |MetaOf(ds[i])|;
        InStepIff(data, h, used, ds, row, i + 1, Cursor(c.p + |EncodeColumn(ds[i], row[i])|, c.k + m, Some(m)));
      }
    }
  }

  lemma InStepEnd(data: bytes, h: Head, used: bytes, ds: seq<ColumnDef>, row: seq<Option<bytes>>, c: Cursor)
    requires |row| == |ds| == h.cn && |used| == BitmapLen(|ds|)
    ensures InStep(data, h, used, ds, row, |ds|, c) && PlacedFrom(h.to, row, |ds|)
    ensures Agrees(ds, h.cm, NullFlags(row), |ds|, c.k, c.meta)
  {
  }

  lemma PlacedUnfold(to: Target, row: seq<Option<bytes>>, i: nat)
    requires i < |row|
    ensures PlacedFrom(to, row, i) <==>
            (row[i].Some? ==> CopyStop(to, i, row[i].value) == None) && PlacedFrom(to, row, i + 1)
  {
    hide CopyStop;
  }

  lemma Shapes(h: Head, used: bytes, ds: seq<ColumnDef>, row: seq<Option<bytes>>)
    requires GoodRow(ds, row) && FullHead(ds, h) && AllUsed(used, |ds|)
    ensures |row| == |ds| == h.cn && |used| == BitmapLen(|ds|)
  {
  }
}
