/**
 * What becomes of rows whose layouts do not agree: for the same table and the same
 * NULLs some rows do not come back.
 */
module RowOutcomes {
  import opened Bytes
  import opened BinlogEvents
  import opened ColumnTypes
  import opened RowImages
  import opened RowRoundTrip
  import opened RowEvents
  import opened RowDelivery

  /** The column can hold a value of one byte, if it has values of various lengths at all. */
  predicate HoldsByte(d: ColumnDef) {
    d.VarcharOf? || d.CharOf? ==> d.max >= 1
  }

  predicate BytesFit(ds: seq<ColumnDef>) {
    forall i :: 0 <= i < |ds| ==> HoldsByte(ds[i])
  }

  /** A value that no wrong layout reads back. */
  function Telltale(d: ColumnDef): (v: bytes) {
    match LayoutFor(d)
    case Exactly(n) => seq(n, _ => 0)
    case Prefixed(_) => [1]
  }

  lemma TelltaleHolds(d: ColumnDef)
    requires GoodColumn(d) && HoldsByte(d)
    ensures Holds(d, Telltale(d))
  {
    hide BinSize, WrittenSize;
    assert Pow256(1) == 256 && Pow256(2) == 0x1_0000 && Pow256(3) == 0x100_0000 && Pow256(4) == 0x1_0000_0000;
  }

  // ----- A wrong layout reads another value -------------------------------------------

  lemma {:induction false} ZerosLE(k: nat, i: nat)
    requires i < k
    ensures ToLE(0, k)[i] == 0
  {
    if i > 0 {
      ZerosLE(k - 1, i - 1);
    }
  }

  lemma {:induction false} FromLEPositive(s: bytes, i: nat)
    requires i < |s| && s[i] > 0
    ensures FromLE(s) > 0
  {
    if i > 0 {
      FromLEPositive(s[1..], i - 1);
    }
  }

  lemma FromLEBig(s: bytes, i: nat)
    requires 0 < i < |s| && s[i] > 0
    ensures FromLE(s) >= 256
  {
    FromLEPositive(s[1..], i - 1);
  }

  lemma {:induction false} FromZeros(s: bytes)
    requires forall i :: 0 <= i < |s| ==> s[i] == 0
    ensures FromLE(s) == 0
  {
    if s != [] {
      FromZeros(s[1..]);
    }
  }

  lemma OneLE(k: nat)
    requires k > 0
    ensures ToLE(1, k)[0] == 1 && forall i :: 0 < i < k ==> ToLE(1, k)[i] == 0
  {
    forall i | 0 < i < k ensures ToLE(1, k)[i] == 0 {
      ZerosLE(k - 1, i - 1);
    }
  }

  /** The value `[1]`, written with a length of `own` bytes, never comes back through another. */
  lemma WrongPrefix(own: nat, other: nat, data: bytes, p: nat)
    requires own > 0 && own != other && StandsAt(ToLE(1, own) + [1], data, p)
    ensures Take(Prefixed(other), data, p) == None || Take(Prefixed(other), data, p).value.0 != [1]
  {
    var e := ToLE(1, own) + [1];
    OneLE(own);
    hide ToLE;
    assert forall i :: 0 <= i < |e| ==> data[p + i] == e[i];
    if p + other <= |data| {
      var s := data[p..p + other];
      if other > own {
        assert s[own] == data[p + own] == e[own] == 1;
        FromLEBig(s, own);
      } else if other > 0 {
        assert s[0] == data[p + 0] == e[0] == 1;
        forall i | 0 <= i < other - 1 ensures s[1..][i] == 0 {
          assert s[1..][i] == data[p + (1 + i)] == e[1 + i];
        }
        FromZeros(s[1..]);
        assert data[p + other] == e[other] == 0;
      }
    }
  }

  lemma WrongLayoutWrongValue(d: ColumnDef, cm: bytes, k: nat, data: bytes, p: nat)
    requires GoodColumn(d) && LayoutOf(TypeOf(d), cm, k).Some? && LayoutOf(TypeOf(d), cm, k).value != LayoutFor(d)
    requires StandsAt(EncodeValue(LayoutFor(d), Telltale(d)), data, p)
    ensures var r := Take(LayoutOf(TypeOf(d), cm, k).value, data, p); r == None || r.value.0 != Telltale(d)
  {
    hide LayoutOf, ToLE, FromLE, BinSize, WrittenSize;
    SameKind(d, cm, k);
    var l := LayoutOf(TypeOf(d), cm, k).value;
    if l.Prefixed? {
      WrongPrefix(LayoutFor(d).pack, l.pack, data, p);
    }
  }

  // ----- A row ---------------------------------------------------------------------------

  function TelltaleRow(ds: seq<ColumnDef>, nulls: seq<bool>): (row: RowValues)
    requires |nulls| == |ds|
    ensures |row| == |ds|
  {
    seq(|ds|, i requires 0 <= i < |ds| => if nulls[i] then None else Some(Telltale(ds[i])))
  }

  lemma TelltaleRowIsGood(ds: seq<ColumnDef>, nulls: seq<bool>)
    requires GoodTable(ds) && BytesFit(ds) && |nulls| == |ds|
    ensures GoodRow(ds, TelltaleRow(ds, nulls)) && NullFlags(TelltaleRow(ds, nulls)) == nulls
  {
    hide GoodColumn, Telltale, Holds, HoldsByte;
    forall i | 0 <= i < |ds| && !nulls[i] ensures Holds(ds[i], Telltale(ds[i])) {
      TelltaleHolds(ds[i]);
    }
  }

  lemma {:induction false} ReadKeepsPrefix(data: bytes, h: Head, used: bytes, nulls: bytes, i: nat, c: Cursor,
                                           row: RowValues)
    requires i <= h.cn && |used| == |nulls| == BitmapLen(h.cn)
    ensures var r := ReadColumns(data, h, used, nulls, i, c, row); r.Row? ==> row <= r.row
    decreases h.cn - i
  {
    hide ReadColumn;
    if i < h.cn {
      var s := ReadColumn(data, h, used, nulls, i, c);
      if s.Column? {
        ReadKeepsPrefix(data, h, used, nulls, i + 1, s.c, row + [s.value]);
      }
    }
  }

  /** One column with a wrong layout: the decoder stops, or the row is another. */
  lemma WrongColumn(data: bytes, h: Head, used: bytes, ds: seq<ColumnDef>, row: RowValues, i: nat, c: Cursor)
    requires GoodTable(ds) && GoodRow(ds, row) && FullHead(ds, h) && AllUsed(used, |ds|)
    requires i < |ds| && row[i] == Some(Telltale(ds[i])) && StandsAt(EncodeColumn(ds[i], row[i]), data, c.p)
    requires LayoutOf(TypeOf(ds[i]), h.cm, c.k) != Some(LayoutFor(ds[i]))
    ensures var r := ReadColumn(data, h, used, Bitmap(NullFlags(row)), i, c); r.Column? ==> r.value != row[i]
  {
    hide Bitmap, BitAt, LayoutOf, LayoutFor, Take, GoodColumn, TypeOf, MetaOf, Holds, ColumnMetaOf, Telltale;
    hide CopyStop;
    BitmapBit(NullFlags(row), i);
    assert BitAt(used, i);
    MetaLength(ds[i]);
    if LayoutOf(TypeOf(ds[i]), h.cm, c.k).Some? {
      WrongLayoutWrongValue(ds[i], h.cm, c.k, data, c.p);
    }
  }

  lemma {:induction false} DisagreeingRow(data: bytes, h: Head, used: bytes, ds: seq<ColumnDef>, nulls: seq<bool>,
                                          i: nat, c: Cursor)
    requires GoodTable(ds) && FullHead(ds, h) && AllUsed(used, |ds|) && |nulls| == |ds| && i <= |ds|
    requires GoodRow(ds, TelltaleRow(ds, nulls)) && NullFlags(TelltaleRow(ds, nulls)) == nulls
    requires StandsAt(EncodeFrom(ds, TelltaleRow(ds, nulls), i), data, c.p)
    requires !Agrees(ds, h.cm, nulls, i, c.k, c.meta) && PlacedFrom(h.to, TelltaleRow(ds, nulls), i)
    ensures |used| == BitmapLen(h.cn) == |Bitmap(nulls)| && |ds| == h.cn
    ensures var row := TelltaleRow(ds, nulls);
            var r := ReadColumns(data, h, used, Bitmap(nulls), i, c, row[..i]);
            r.Row? ==> r.row != row
    decreases |ds| - i
  {
    hide *;
    var row := TelltaleRow(ds, nulls);
    Shapes(h, used, ds, row);
    if i == |ds| {
      InStepEnd(data, h, used, ds, row, c);
      AgreesAtEnd(ds, h.cm, nulls, c.k, c.meta);
    } else {
      TelltaleAt(ds, nulls, i);
      PlacedUnfold(h.to, row, i);
      ColumnStands(data, c.p, ds, row, i);
      AgreesUnfold(ds, h.cm, row, i, c.k, c.meta);
      assert row[..i] + [row[i]] == row[..i + 1];
      if row[i] == None {
        ReadNull(data, h, used, ds, row, i, c);
        if c.meta.Some? {
          var c' := c.(k := c.k + c.meta.value);
          DisagreeingRow(data, h, used, ds, nulls, i + 1, c');
          ReadOn(data, h, used, ds, row, i, c, c', row[..i]);
        } else {
          ReadStop(data, h, used, Bitmap(nulls), i, c, row[..i]);
        }
      } else {
        ReadValue(data, h, used, ds, row, i, c);
        if LayoutOf(TypeOf(ds[i]), h.cm, c.k) == Some(LayoutFor(ds[i])) {
          var m := |MetaOf(ds[i])|;
          var c' := Cursor(c.p + |EncodeColumn(ds[i], row[i])|, c.k + m, Some(m));
          DisagreeingRow(data, h, used, ds, nulls, i + 1, c');
          ReadOn(data, h, used, ds, row, i, c, c', row[..i]);
        } else {
          WrongColumn(data, h, used, ds, row, i, c);
          ReadOther(data, h, used, Bitmap(nulls), i, c, row);
        }
      }
    }
  }

  lemma AgreesAtEnd(ds: seq<ColumnDef>, cm: bytes, nulls: seq<bool>, k: nat, meta: Option<nat>)
    requires |nulls| == |ds|
    ensures Agrees(ds, cm, nulls, |ds|, k, meta)
  {
  }

  lemma TelltaleAt(ds: seq<ColumnDef>, nulls: seq<bool>, i: nat)
    requires |nulls| == |ds| && i < |ds|
    ensures TelltaleRow(ds, nulls)[i] == if nulls[i] then None else Some(Telltale(ds[i]))
  {
  }

  lemma ReadOther(data: bytes, h: Head, used: bytes, nulls: bytes, i: nat, c: Cursor, row: RowValues)
    requires i < h.cn == |row| && |used| == |nulls| == BitmapLen(h.cn)
    requires var s := ReadColumn(data, h, used, nulls, i, c); s.Column? ==> s.value != row[i]
    ensures var r := ReadColumns(data, h, used, nulls, i, c, row[..i]); r.Row? ==> r.row != row
  {
    hide ReadColumn;
    var s := ReadColumn(data, h, used, nulls, i, c);
    if s.Column? {
      var got := row[..i] + [s.value];
      ReadKeepsPrefix(data, h, used, nulls, i + 1, s.c, got);
      assert got[i] != row[i];
    }
  }

  /** Every column's place takes the column's telltale: a fixed value its size, any other a byte. */
  predicate PlacesFit(to: Target, ds: seq<ColumnDef>) {
    forall i :: 0 <= i < |ds| ==> CopyStop(to, i, Telltale(ds[i])) == None
  }

  lemma {:induction false} TelltalePlaced(to: Target, ds: seq<ColumnDef>, nulls: seq<bool>, i: nat)
    requires PlacesFit(to, ds) && |nulls| == |ds|
    ensures PlacedFrom(to, TelltaleRow(ds, nulls), i)
    decreases |ds| - i
  {
    hide CopyStop, Telltale;
    if i < |ds| {
      TelltalePlaced(to, ds, nulls, i + 1);
    }
  }

  lemma TelltalesPlaced(to: Target, ds: seq<ColumnDef>, rows: seq<RowValues>)
    requires PlacesFit(to, ds) && AllTelltale(ds, rows)
    ensures RowsPlaced(to, rows)
  {
    hide PlacesFit, PlacedFrom, TelltaleRow, NullFlags;
    forall row | row in rows ensures PlacedFrom(to, row, 0) {
      var i :| 0 <= i < |rows| && rows[i] == row;
      TelltalePlaced(to, ds, NullFlags(rows[i]), 0);
    }
  }

  // ----- All rows ----------------------------------------------------------------------------

  /** Rows with the same NULLs. */
  predicate SameNulls(rows: seq<RowValues>, rows': seq<RowValues>) {
    |rows| == |rows'| && forall i :: 0 <= i < |rows| ==> NullFlags(rows[i]) == NullFlags(rows'[i])
  }

  function TelltaleRows(ds: seq<ColumnDef>, rows: seq<RowValues>): (t: seq<RowValues>)
    requires GoodRows(ds, rows)
  {
    if rows == [] then [] else [TelltaleRow(ds, NullFlags(rows[0]))] + TelltaleRows(ds, rows[1..])
  }

  lemma {:induction false} TelltaleRowsAreGood(ds: seq<ColumnDef>, rows: seq<RowValues>)
    requires GoodTable(ds) && BytesFit(ds) && GoodRows(ds, rows)
    ensures GoodRows(ds, TelltaleRows(ds, rows)) && SameNulls(TelltaleRows(ds, rows), rows)
    decreases |rows|
  {
    hide GoodTable, BytesFit, NullFlags, TelltaleRow;
    if rows != [] {
      assert GoodRow(ds, rows[0]);
      TelltaleRowIsGood(ds, NullFlags(rows[0]));
      TelltaleRowsAreGood(ds, rows[1..]);
      var t := TelltaleRows(ds, rows);
      assert t[1..] == TelltaleRows(ds, rows[1..]);
      forall i | 0 <= i < |t| ensures GoodRow(ds, t[i]) && NullFlags(t[i]) == NullFlags(rows[i]) {
        if i > 0 {
          assert t[i] == t[1..][i - 1] && rows[i] == rows[1..][i - 1];
        }
      }
    }
  }

  lemma {:induction false} AgreementIsOfNulls(ds: seq<ColumnDef>, cm: bytes, rows: seq<RowValues>,
                                              rows': seq<RowValues>, meta: Option<nat>)
    requires GoodRows(ds, rows) && GoodRows(ds, rows') && SameNulls(rows, rows')
    ensures RowsAgree(ds, cm, rows, meta) <==> RowsAgree(ds, cm, rows', meta)
    decreases |rows|
  {
    hide Agrees, MetaAfter, NullFlags;
    if rows != [] {
      AgreementIsOfNulls(ds, cm, rows[1..], rows'[1..], MetaAfter(ds, NullFlags(rows[0]), 0, meta));
    }
  }

  predicate AllTelltale(ds: seq<ColumnDef>, rows: seq<RowValues>) {
    forall i :: 0 <= i < |rows| ==> |rows[i]| == |ds| && rows[i] == TelltaleRow(ds, NullFlags(rows[i]))
  }

  lemma {:induction false} TelltaleRowsAreTelltale(ds: seq<ColumnDef>, rows: seq<RowValues>)
    requires GoodTable(ds) && BytesFit(ds) && GoodRows(ds, rows)
    ensures AllTelltale(ds, TelltaleRows(ds, rows))
    decreases |rows|
  {
    hide GoodTable, BytesFit, NullFlags, TelltaleRow;
    if rows != [] {
      assert GoodRow(ds, rows[0]);
      TelltaleRowIsGood(ds, NullFlags(rows[0]));
      TelltaleRowsAreTelltale(ds, rows[1..]);
      var t := TelltaleRows(ds, rows);
      forall i | 0 <= i < |t| ensures |t[i]| == |ds| && t[i] == TelltaleRow(ds, NullFlags(t[i])) {
        if i > 0 {
          assert t[i] == TelltaleRows(ds, rows[1..])[i - 1];
        }
      }
    }
  }

  /** A row that does not come back ends the round trip. */
  lemma {:induction false} DisagreeingRows(data: bytes, h: Head, kind: byte, p: nat, meta: Option<nat>, before: bool,
                                           ds: seq<ColumnDef>, rows: seq<RowValues>)
    requires GoodTable(ds) && GoodRows(ds, rows) && AllTelltale(ds, rows) && TableHead(ds, h, kind) && IsRowsType(kind)
    requires StandsAt(EncodeRows(ds, rows), data, p)
    requires !RowsAgree(ds, h.cm, rows, meta) && RowsPlaced(h.to, rows)
    ensures GoodHead(h, kind)
    ensures ReadRows(data, h, kind, p, meta, before) != (CallsFor(kind, rows, before), Finished)
    decreases |rows|
  {
    hide Bitmap, NullFlags, EncodeFrom, EncodeRow, StandsAt, Agrees, MetaAfter, AllUsed, ReadRow, GoodColumn;
    hide TelltaleRow, PlacedFrom, RowsPlaced;
    PlacedCons(h.to, rows);
    var row, rest := rows[0], EncodeRows(ds, rows[1..]);
    var next := kind == UPDATE_ROWS_EVENT && !before;
    RowStands(data, p, ds, row, rest);
    assert p < |data| && h.cn > 0;
    if Agrees(ds, h.cm, NullFlags(row), 0, 0, meta) {
      AgreeingRow(data, h, kind, p, meta, before, ds, row, rest);
      var c := ReadRow(data, h, kind, p, meta, before).c;
      DisagreeingRows(data, h, kind, c.p, c.meta, next, ds, rows[1..]);
    } else {
      FirstRowDiffers(data, h, kind, p, meta, before, ds, row, rest);
    }
    RowsDiffer(data, h, kind, p, meta, before, rows);
  }

  lemma RowsDiffer(data: bytes, h: Head, kind: byte, p: nat, meta: Option<nat>, before: bool, rows: seq<RowValues>)
    requires GoodHead(h, kind) && p < |data| && h.cn > 0 && rows != [] && IsRowsType(kind)
    requires var r := ReadRow(data, h, kind, p, meta, before);
             var next := kind == UPDATE_ROWS_EVENT && !before;
             r.Row? ==> r.row != rows[0] ||
                        ReadRows(data, h, kind, r.c.p, r.c.meta, next) != (CallsFor(kind, rows[1..], next), Finished)
    ensures ReadRows(data, h, kind, p, meta, before) != (CallsFor(kind, rows, before), Finished)
  {
    hide ReadRow, CallsFor, OpOf;
    CallsCons(kind, rows, before);
    var r := ReadRow(data, h, kind, p, meta, before);
    var next := kind == UPDATE_ROWS_EVENT && !before;
    if r.Row? {
      var tail := ReadRows(data, h, kind, r.c.p, r.c.meta, next);
      var head := RowCall(OpOf(kind, before).value, r.row);
      assert ([head] + tail.0)[0] == head && ([head] + tail.0)[1..] == tail.0;
      var want := CallsFor(kind, rows, before);
      assert want[0].row == rows[0] && want[1..] == CallsFor(kind, rows[1..], next);
      assert r.row == rows[0] ==> tail != (want[1..], Finished);
    }
  }

  lemma FirstRowDiffers(data: bytes, h: Head, kind: byte, p: nat, meta: Option<nat>, before: bool,
                        ds: seq<ColumnDef>, row: RowValues, rest: bytes)
    requires GoodTable(ds) && GoodRow(ds, row) && row == TelltaleRow(ds, NullFlags(row)) && TableHead(ds, h, kind)
    requires StandsAt(EncodeRow(ds, row) + rest, data, p) && !Agrees(ds, h.cm, NullFlags(row), 0, 0, meta)
    requires PlacedFrom(h.to, row, 0)
    ensures GoodHead(h, kind) && p < |data|
    ensures var r := ReadRow(data, h, kind, p, meta, before); r.Row? ==> r.row != row
  {
    hide Bitmap, NullFlags, EncodeFrom, EncodeRow, StandsAt, Agrees, AllUsed, ReadColumns, GoodColumn, TelltaleRow;
    hide PlacedFrom;
    RowStands(data, p, ds, row, rest);
    var q := p + BitmapLen(|ds|);
    assert BitmapLen(|ds|) > 0;
    DisagreeingRow(data, h, UsedBits(h, kind, before), ds, NullFlags(row), 0, Cursor(q, 0, meta));
    assert row[..0] == [];
  }

  lemma TelltaleRowsFail(kind: byte, id: bytes, ds: seq<ColumnDef>, rows: seq<RowValues>, to: Target)
    requires GoodTable(ds) && GoodRows(ds, rows) && |id| == 8 && IsRowsType(kind) && AllTelltale(ds, rows)
    requires !RowsAgree(ds, Metas(ds), rows, None) && RowsPlaced(to, rows)
    ensures !ComesBack(kind, id, ds, rows, to)
  {
    hide Payload, ParseHead, RowsAgree, EncodeRows, StandsAt, Metas, GoodTable, GoodRows, AllUsed, ReadRows, CallsFor;
    hide AllTelltale, RowsPlaced;
    HeadOfPayload(kind, id, ds, rows, to);
    var data := Payload(kind, id, ds, rows);
    var h := ParseHead(data, kind, to).value;
    DisagreeingRows(data, h, kind, h.start, None, false, ds, rows);
  }

  /**
   * For every table whose columns hold at least a byte, every target that takes one, and every
   * choice of NULLs: all rows with these NULLs whose values can be copied come back if
   * and only if the layouts agree.
   */
  lemma AllComeBackIff(kind: byte, id: bytes, ds: seq<ColumnDef>, rows: seq<RowValues>, to: Target)
    requires GoodTable(ds) && BytesFit(ds) && GoodRows(ds, rows) && |id| == 8 && IsRowsType(kind) && PlacesFit(to, ds)
    ensures (forall rows' :: GoodRows(ds, rows') && SameNulls(rows', rows) && RowsPlaced(to, rows') ==>
                               ComesBack(kind, id, ds, rows', to))
            <==> RowsAgree(ds, Metas(ds), rows, None)
  {
    hide Payload, DecodeRows, RowsAgree, Metas, GoodTable, BytesFit, GoodRows, CallsFor, SameNulls, AllTelltale;
    hide RowsPlaced, PlacesFit;
    var t := TelltaleRows(ds, rows);
    TelltaleRowsAreGood(ds, rows);
    TelltaleRowsAreTelltale(ds, rows);
    TelltalesPlaced(to, ds, t);
    AgreementIsOfNulls(ds, Metas(ds), t, rows, None);
    if RowsAgree(ds, Metas(ds), rows, None) {
      forall rows' | GoodRows(ds, rows') && SameNulls(rows', rows) && RowsPlaced(to, rows')
        ensures ComesBack(kind, id, ds, rows', to)
      {
        AgreementIsOfNulls(ds, Metas(ds), rows', rows, None);
        RoundTripIff(kind, id, ds, rows', to);
      }
    } else {
      TelltaleRowsFail(kind, id, ds, t, to);
    }
  }

  // ----- A row that never comes back ------------------------------------------------------------

  /** What is left behind the last row is read as one more row, or ends the decoder. */
  lemma LeftoverIsRead(data: bytes, h: Head, kind: byte, p: nat, meta: Option<nat>, before: bool)
    requires GoodHead(h, kind) && p < |data|
    ensures ReadRows(data, h, kind, p, meta, before) != ([], Finished)
  {
    hide ReadRow;
  }

  /** An event of one row whose last column is not NULL and is read with another layout. */
  lemma LastColumnWrong(data: bytes, h: Head, used: bytes, ds: seq<ColumnDef>, row: RowValues, i: nat, c: Cursor,
                        acc: RowValues)
    requires GoodTable(ds) && GoodRow(ds, row) && FullHead(ds, h) && AllUsed(used, |ds|)
    requires i == |ds| - 1 && row[i].Some? && StandsAt(EncodeColumn(ds[i], row[i]), data, c.p)
    requires c.p + |EncodeColumn(ds[i], row[i])| == |data|
    requires LayoutOf(TypeOf(ds[i]), h.cm, c.k) != Some(LayoutFor(ds[i]))
    ensures var r := ReadColumns(data, h, used, Bitmap(NullFlags(row)), i, c, acc); r.Row? ==> r.c.p != |data|
  {
    hide ReadColumn, Bitmap, LayoutOf, LayoutFor, GoodColumn, EncodeColumn;
    ReadValue(data, h, used, ds, row, i, c);
  }

  /** Three columns, the middle one NULL: the last is read where the middle one's metadata stands. */
  lemma MiddleNullRow(data: bytes, h: Head, used: bytes, ds: seq<ColumnDef>, row: RowValues, p: nat)
    requires GoodTable(ds) && GoodRow(ds, row) && FullHead(ds, h) && AllUsed(used, |ds|) && |row| == |ds| == 3
    requires row[0].Some? && row[1] == None && row[2].Some? && |MetaOf(ds[0])| == 0
    requires LayoutOf(TypeOf(ds[0]), h.cm, 0) == Some(LayoutFor(ds[0]))
    requires LayoutOf(TypeOf(ds[2]), h.cm, 0) != Some(LayoutFor(ds[2]))
    requires StandsAt(EncodeFrom(ds, row, 0), data, p) && p + |EncodeFrom(ds, row, 0)| == |data|
    ensures h.cn == 3 && |used| == BitmapLen(3)
    ensures var r := ReadColumns(data, h, used, Bitmap(NullFlags(row)), 0, Cursor(p, 0, None), []);
            r.Row? ==> r.c.p != |data|
  {
    hide *;
    Shapes(h, used, ds, row);
    ColumnStands(data, p, ds, row, 0);
    var q := p + |EncodeColumn(ds[0], row[0])|;
    ColumnStands(data, q, ds, row, 1);
    ColumnStands(data, q, ds, row, 2);
    var c0, c1 := Cursor(p, 0, None), Cursor(q, 0, Some(0));
    ReadValue(data, h, used, ds, row, 0, c0);
    if CopyStop(h.to, 0, row[0].value).Some? {
      ReadStop(data, h, used, Bitmap(NullFlags(row)), 0, c0, []);
      return;
    }
    ReadNull(data, h, used, ds, row, 1, c1);
    ReadOn(data, h, used, ds, row, 0, c0, c1, []);
    ReadOn(data, h, used, ds, row, 1, c1, c1, [] + [row[0]]);
    NothingBehind(ds, row);
    LastColumnWrong(data, h, used, ds, row, 2, c1, ([] + [row[0]]) + [row[1]]);
  }

  lemma NothingBehind(ds: seq<ColumnDef>, row: RowValues)
    requires |row| == |ds| == 3 && row[1] == None
    ensures |EncodeFrom(ds, row, 0)| == |EncodeColumn(ds[0], row[0])| + |EncodeColumn(ds[2], row[2])|
  {
    hide EncodeValue;
    assert EncodeFrom(ds, row, 3) == [] && EncodeFrom(ds, row, 2) == EncodeColumn(ds[2], row[2]) + [];
    assert EncodeFrom(ds, row, 1) == [] + EncodeFrom(ds, row, 2);
  }

  lemma NullVarcharTable(short: nat, long: nat, n: bytes, v: bytes)
    requires short < 256 <= long < 0x1_0000 && |n| == 4 && |v| <= long
    ensures var ds := [FixedOf(Int), VarcharOf(short), VarcharOf(long)];
            GoodTable(ds) && GoodRow(ds, [Some(n), None, Some(v)]) &&
            LayoutOf(TypeOf(ds[0]), Metas(ds), 0) == Some(LayoutFor(ds[0])) && |MetaOf(ds[0])| == 0 &&
            LayoutOf(TypeOf(ds[2]), Metas(ds), 0) != Some(LayoutFor(ds[2]))
  {
    hide ToLE, FromLE;
    assert Pow256(1) == 256 && Pow256(2) == 0x1_0000;
    var ds := [FixedOf(Int), VarcharOf(short), VarcharOf(long)];
    var cm := Metas(ds);
    U16Digits(short);
    assert ds[..2] == [FixedOf(Int), VarcharOf(short)] && ds[..2][..1] == [FixedOf(Int)] && ds[..1][..0] == [];
    assert Metas(ds[..1]) == [] && Metas(ds[..2]) == ToLE(short, 2) && cm == Metas(ds[..2]) + ToLE(long, 2);
    assert cm[0..2] == ToLE(short, 2);
  }

  lemma MiddleNullEvent(kind: byte, id: bytes, ds: seq<ColumnDef>, row: RowValues, to: Target)
    requires GoodTable(ds) && GoodRow(ds, row) && |id| == 8 && IsRowsType(kind) && |row| == |ds| == 3
    requires row[0].Some? && row[1] == None && row[2].Some? && |MetaOf(ds[0])| == 0
    requires LayoutOf(TypeOf(ds[0]), Metas(ds), 0) == Some(LayoutFor(ds[0]))
    requires LayoutOf(TypeOf(ds[2]), Metas(ds), 0) != Some(LayoutFor(ds[2]))
    ensures GoodRows(ds, [row]) && !ComesBack(kind, id, ds, [row], to)
  {
    hide Payload, ParseHead, StandsAt, Metas, GoodTable, GoodRow, AllUsed, Bitmap, EncodeFrom, NullFlags, ReadColumns;
    hide LayoutOf, LayoutFor, MetaOf, TypeOf, EncodeRow;
    var rows := [row];
    assert rows[1..] == [] && EncodeRows(ds, []) == [];
    HeadOfPayload(kind, id, ds, rows, to);
    var data := Payload(kind, id, ds, rows);
    var h := ParseHead(data, kind, to).value;
    RowStands(data, h.start, ds, row, []);
    MiddleNullRow(data, h, h.used, ds, row, h.start + BitmapLen(3));
    var r := ReadRow(data, h, kind, h.start, None, false);
    if r.Row? {
      LeftoverIsRead(data, h, kind, r.c.p, r.c.meta, kind == UPDATE_ROWS_EVENT);
    }
    RowsDiffer(data, h, kind, h.start, None, false, rows);
  }

  /**
   * An integer, a NULL VARCHAR and a long VARCHAR: the NULL moves the metadata cursor
   * by the integer's nothing, the last column is read with a one-byte length, and
   * whatever the values are, the event does not come back.
   */
  lemma NullVarcharIsMisread(kind: byte, id: bytes, short: nat, long: nat, n: bytes, v: bytes, to: Target)
    requires short < 256 <= long < 0x1_0000 && |id| == 8 && |n| == 4 && |v| <= long && IsRowsType(kind)
    ensures var ds := [FixedOf(Int), VarcharOf(short), VarcharOf(long)];
            var rows := [[Some(n), None, Some(v)]];
            GoodTable(ds) && GoodRows(ds, rows) &&
            !ComesBack(kind, id, ds, rows, to) && !EventInStep(kind, id, ds, rows, to)
  {
    hide *;
    var ds := [FixedOf(Int), VarcharOf(short), VarcharOf(long)];
    NullVarcharTable(short, long, n, v);
    NullVarcharLosesStep(kind, id, short, long, n, v, to);
    MiddleNullEvent(kind, id, ds, [Some(n), None, Some(v)], to);
  }
}
