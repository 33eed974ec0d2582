/**
 * Whole rows events: what MySQL writes, framed by the master, and what the slave's
 * decoder makes of it.
 */
module RowEvents {
  import opened Bytes
  import opened BinlogEvents
  import opened Frames
  import opened ColumnTypes
  import opened RowImages
  import opened RowRoundTrip

  type RowValues = seq<Option<bytes>>

  predicate GoodRows(ds: seq<ColumnDef>, rows: seq<RowValues>) {
    forall i :: 0 <= i < |rows| ==> GoodRow(ds, rows[i])
  }

  function EncodeRows(ds: seq<ColumnDef>, rows: seq<RowValues>): (s: bytes)
    requires GoodRows(ds, rows)
  {
    if rows == [] then [] else EncodeRow(ds, rows[0]) + EncodeRows(ds, rows[1..])
  }

  function Full(n: nat): (s: bytes)
    ensures |s| == BitmapLen(n)
  {
    Bitmap(seq(n, _ => true))
  }

  function EventHead(kind: byte, n: nat): (s: bytes)
    requires n <= 250
  {
    [n] + Full(n) + if kind == UPDATE_ROWS_EVENT then Full(n) else []
  }

  /** A rows event with full images: table id and flags, column count, bitmaps, rows. */
  function EventBody(kind: byte, id: bytes, ds: seq<ColumnDef>, rows: seq<RowValues>): (s: bytes)
    requires GoodTable(ds) && GoodRows(ds, rows)
  {
    id + (EventHead(kind, |ds|) + EncodeRows(ds, rows))
  }

  /** What becomes of row `j`: inserts are type 23, deletes 25, and updates, of type 24, have their rows in pairs. */
  function DueOp(kind: byte, j: nat): (op: Op) {
    if kind == 23 then Write else if kind == 25 then Delete else if j % 2 == 0 then BeforeUpdate else Update
  }

  /** The handler calls the rows are for, counted on from an image before or after the update. */
  function CallsFor(kind: byte, rows: seq<RowValues>, before: bool): (cs: seq<RowCall>)
    ensures |cs| == |rows|
  {
    seq(|rows|, j requires 0 <= j < |rows| => RowCall(DueOp(kind, j + if before then 1 else 0), rows[j]))
  }

  /** The decoder's operation is the one due, row by row. */
  lemma CallsCons(kind: byte, rows: seq<RowValues>, before: bool)
    requires IsRowsType(kind) && rows != []
    ensures OpOf(kind, before).Some?
    ensures CallsFor(kind, rows, before) ==
            [RowCall(OpOf(kind, before).value, rows[0])] +
            CallsFor(kind, rows[1..], kind == UPDATE_ROWS_EVENT && !before)
  {
    var cs, next := CallsFor(kind, rows, before), kind == UPDATE_ROWS_EVENT && !before;
    var rest := CallsFor(kind, rows[1..], next);
    forall j | 0 < j < |cs| ensures cs[j] == rest[j - 1] {
      DueNext(kind, j - 1, before);
      assert rows[1..][j - 1] == rows[j];
    }
    assert cs[0].row == rows[0];
    assert cs[0].op == DueOp(kind, 0 + if before then 1 else 0);
    assert DueOp(kind, 0 + if before then 1 else 0) == OpOf(kind, before).value;
    assert cs == [cs[0]] + rest;
  }

  lemma DueNext(kind: byte, j: nat, before: bool)
    requires IsRowsType(kind)
    ensures DueOp(kind, j + 1 + if before then 1 else 0) ==
            DueOp(kind, j + if kind == UPDATE_ROWS_EVENT && !before then 1 else 0)
  {
    assert (j + 2) % 2 == j % 2;
  }

  // ----- One row -----------------------------------------------------------------------

  /** Where the layouts agree, a row is read to its end and to its values. */
  lemma {:induction false} AgreesReads(data: bytes, h: Head, used: bytes, ds: seq<ColumnDef>, row: RowValues,
                                       i: nat, c: Cursor, acc: RowValues)
    requires GoodTable(ds) && GoodRow(ds, row) && FullHead(ds, h) && AllUsed(used, |ds|)
    requires |row| == |ds| && i <= |ds| && StandsAt(EncodeFrom(ds, row, i), data, c.p)
    requires Agrees(ds, h.cm, NullFlags(row), i, c.k, c.meta) && PlacedFrom(h.to, row, i) && acc == row[..i]
    ensures var r := ReadColumns(data, h, used, Bitmap(NullFlags(row)), i, c, acc);
            r.Row? && r.row == row && r.c.p == c.p + |EncodeFrom(ds, row, i)| &&
            r.c.meta == MetaAfter(ds, NullFlags(row), i, c.meta)
    decreases |ds| - i
  {
    hide *;
    Shapes(h, used, ds, row);
    if i == |ds| {
      ReadEnd(data, h, used, ds, row, c, acc);
    } else {
      ColumnStands(data, c.p, ds, row, i);
      AgreesUnfold(ds, h.cm, row, i, c.k, c.meta);
      PlacedUnfold(h.to, row, i);
      var c' := if row[i] == None then c.(k := c.k + c.meta.value)
                else Cursor(c.p + |EncodeColumn(ds[i], row[i])|, c.k + |MetaOf(ds[i])|, Some(|MetaOf(ds[i])|));
      if row[i] == None {
        ReadNull(data, h, used, ds, row, i, c);
      } else {
        ReadValue(data, h, used, ds, row, i, c);
      }
      assert acc + [row[i]] == row[..i + 1];
      AgreesReads(data, h, used, ds, row, i + 1, c', row[..i + 1]);
      ReadOn(data, h, used, ds, row, i, c, c', acc);
    }
  }

  /** Where they agree but a value cannot be copied, the first such value ends the row. */
  lemma {:induction false} AgreesStops(data: bytes, h: Head, used: bytes, ds: seq<ColumnDef>, row: RowValues,
                                       i: nat, c: Cursor, acc: RowValues)
    requires GoodTable(ds) && GoodRow(ds, row) && FullHead(ds, h) && AllUsed(used, |ds|)
    requires |row| == |ds| && i <= |ds| && StandsAt(EncodeFrom(ds, row, i), data, c.p)
    requires Agrees(ds, h.cm, NullFlags(row), i, c.k, c.meta) && FirstStop(h.to, row, i).Some?
    ensures ReadColumns(data, h, used, Bitmap(NullFlags(row)), i, c, acc) == RowStop(FirstStop(h.to, row, i).value)
    decreases |ds| - i
  {
    hide *;
    Shapes(h, used, ds, row);
    StopUnfold(h.to, row, i);
    if i < |ds| {
      ColumnStands(data, c.p, ds, row, i);
      AgreesUnfold(ds, h.cm, row, i, c.k, c.meta);
      if row[i] == None {
        ReadNull(data, h, used, ds, row, i, c);
        var c' := c.(k := c.k + c.meta.value);
        AgreesStops(data, h, used, ds, row, i + 1, c', acc + [row[i]]);
        ReadOn(data, h, used, ds, row, i, c, c', acc);
      } else {
        ReadValue(data, h, used, ds, row, i, c);
        if CopyStop(h.to, i, row[i].value).Some? {
          ReadStop(data, h, used, Bitmap(NullFlags(row)), i, c, acc);
        } else {
          var c' := Cursor(c.p + |EncodeColumn(ds[i], row[i])|, c.k + |MetaOf(ds[i])|, Some(|MetaOf(ds[i])|));
          AgreesStops(data, h, used, ds, row, i + 1, c', acc + [row[i]]);
          ReadOn(data, h, used, ds, row, i, c, c', acc);
        }
      }
    }
  }

  lemma StopUnfold(to: Target, row: RowValues, i: nat)
    ensures i >= |row| ==> FirstStop(to, row, i) == None
    ensures i < |row| ==>
              FirstStop(to, row, i) ==
              if row[i].Some? && CopyStop(to, i, row[i].value).Some? then CopyStop(to, i, row[i].value)
              else FirstStop(to, row, i + 1)
  {
    hide CopyStop;
  }

  lemma ReadStop(data: bytes, h: Head, used: bytes, nulls: bytes, i: nat, c: Cursor, row: RowValues)
    requires i < h.cn && |used| == |nulls| == BitmapLen(h.cn)
    requires ReadColumn(data, h, used, nulls, i, c).ColumnStop?
    ensures ReadColumns(data, h, used, nulls, i, c, row) == RowStop(ReadColumn(data, h, used, nulls, i, c).o)
  {
    hide ReadColumn;
  }

  lemma ReadEnd(data: bytes, h: Head, used: bytes, ds: seq<ColumnDef>, row: RowValues, c: Cursor, acc: RowValues)
    requires |row| == |ds| == h.cn && |used| == BitmapLen(|ds|) && acc == row[..|ds|]
    ensures ReadColumns(data, h, used, Bitmap(NullFlags(row)), |ds|, c, acc) == Row(c, row)
    ensures EncodeFrom(ds, row, |ds|) == [] && MetaAfter(ds, NullFlags(row), |ds|, c.meta) == c.meta
  {
  }

  lemma ReadOn(data: bytes, h: Head, used: bytes, ds: seq<ColumnDef>, row: RowValues, i: nat,
               c: Cursor, c': Cursor, acc: RowValues)
    requires |row| == |ds| == h.cn && |used| == BitmapLen(|ds|) && i < |ds|
    requires ReadColumn(data, h, used, Bitmap(NullFlags(row)), i, c) == Column(c', row[i])
    ensures ReadColumns(data, h, used, Bitmap(NullFlags(row)), i, c, acc) ==
            ReadColumns(data, h, used, Bitmap(NullFlags(row)), i + 1, c', acc + [row[i]])
    ensures |EncodeFrom(ds, row, i)| == |EncodeColumn(ds[i], row[i])| + |EncodeFrom(ds, row, i + 1)|
    ensures MetaAfter(ds, NullFlags(row), i, c.meta) ==
            MetaAfter(ds, NullFlags(row), i + 1, if row[i] == None then c.meta else Some(|MetaOf(ds[i])|))
  {
    NullFlagAt(row, i);
    hide ReadColumn, EncodeColumn, MetaOf, Bitmap, NullFlags;
  }

  // ----- All rows ------------------------------------------------------------------------

  /** Every row, read after the rows before it, finds its columns' own layouts. */
  predicate RowsAgree(ds: seq<ColumnDef>, cm: bytes, rows: seq<RowValues>, meta: Option<nat>)
    requires GoodRows(ds, rows)
  {
    rows == [] ||
    (Agrees(ds, cm, NullFlags(rows[0]), 0, 0, meta) &&
     RowsAgree(ds, cm, rows[1..], MetaAfter(ds, NullFlags(rows[0]), 0, meta)))
  }

  /** All values of all rows can be copied where they go. */
  predicate RowsPlaced(to: Target, rows: seq<RowValues>) {
    forall row <- rows :: PlacedFrom(to, row, 0)
  }

  predicate TableHead(ds: seq<ColumnDef>, h: Head, kind: byte) {
    FullHead(ds, h) && GoodHead(h, kind) && AllUsed(h.used, |ds|) &&
    (kind == UPDATE_ROWS_EVENT ==> AllUsed(h.usedAfter, |ds|))
  }

  lemma RowStands(data: bytes, p: nat, ds: seq<ColumnDef>, row: RowValues, rest: bytes)
    requires GoodRow(ds, row) && StandsAt(EncodeRow(ds, row) + rest, data, p)
    ensures var q := p + BitmapLen(|ds|);
            q <= |data| && data[p..q] == Bitmap(NullFlags(row)) && StandsAt(EncodeFrom(ds, row, 0), data, q) &&
            |EncodeRow(ds, row)| == BitmapLen(|ds|) + |EncodeFrom(ds, row, 0)| &&
            StandsAt(rest, data, p + |EncodeRow(ds, row)|)
  {
    StandsSplit(EncodeRow(ds, row), rest, data, p);
    StandsSplit(Bitmap(NullFlags(row)), EncodeFrom(ds, row, 0), data, p);
    hide Bitmap, EncodeFrom;
  }

  /** Where its layouts agree, a row is read as it was written. */
  lemma AgreeingRow(data: bytes, h: Head, kind: byte, p: nat, meta: Option<nat>, before: bool,
                    ds: seq<ColumnDef>, row: RowValues, rest: bytes)
    requires GoodTable(ds) && GoodRow(ds, row) && TableHead(ds, h, kind)
    requires StandsAt(EncodeRow(ds, row) + rest, data, p) && Agrees(ds, h.cm, NullFlags(row), 0, 0, meta)
    requires PlacedFrom(h.to, row, 0)
    ensures GoodHead(h, kind)
    ensures var r := ReadRow(data, h, kind, p, meta, before);
            r.Row? && r.row == row && r.c.p == p + |EncodeRow(ds, row)| &&
            r.c.meta == MetaAfter(ds, NullFlags(row), 0, meta)
  {
    hide Bitmap, NullFlags, EncodeFrom, EncodeRow, StandsAt, Agrees, MetaAfter, AllUsed, GoodTable, ReadColumns;
    hide PlacedFrom;
    RowStands(data, p, ds, row, rest);
    var q := p + BitmapLen(|ds|);
    AgreesReads(data, h, UsedBits(h, kind, before), ds, row, 0, Cursor(q, 0, meta), []);
  }

  /** Where its layouts agree, a row with a value that cannot be copied ends the decoder. */
  lemma StoppedRow(data: bytes, h: Head, kind: byte, p: nat, meta: Option<nat>, before: bool,
                   ds: seq<ColumnDef>, row: RowValues, rest: bytes)
    requires GoodTable(ds) && GoodRow(ds, row) && TableHead(ds, h, kind)
    requires StandsAt(EncodeRow(ds, row) + rest, data, p) && Agrees(ds, h.cm, NullFlags(row), 0, 0, meta)
    requires FirstStop(h.to, row, 0).Some?
    ensures GoodHead(h, kind)
    ensures ReadRow(data, h, kind, p, meta, before) == RowStop(FirstStop(h.to, row, 0).value)
  {
    hide Bitmap, NullFlags, EncodeFrom, EncodeRow, StandsAt, Agrees, AllUsed, GoodTable, ReadColumns, FirstStop;
    RowStands(data, p, ds, row, rest);
    var q := p + BitmapLen(|ds|);
    AgreesStops(data, h, UsedBits(h, kind, before), ds, row, 0, Cursor(q, 0, meta), []);
  }

  /** How many rows come before the first with a value that cannot be copied. */
  function RowsThrough(to: Target, rows: seq<RowValues>): (n: nat)
    ensures n <= |rows| && (n < |rows| ==> FirstStop(to, rows[n], 0).Some?)
  {
    if rows == [] || FirstStop(to, rows[0], 0).Some? then 0 else 1 + RowsThrough(to, rows[1..])
  }

  /** The calls up to the first row with a value that cannot be copied, and how that ends. */
  function Handled(kind: byte, rows: seq<RowValues>, before: bool, to: Target): (r: (seq<RowCall>, Outcome)) {
    var n := RowsThrough(to, rows);
    (CallsFor(kind, rows, before)[..n], if n == |rows| then Finished else FirstStop(to, rows[n], 0).value)
  }

  lemma HandledCons(kind: byte, rows: seq<RowValues>, before: bool, to: Target)
    requires IsRowsType(kind) && rows != []
    ensures OpOf(kind, before).Some?
    ensures var rest := Handled(kind, rows[1..], kind == UPDATE_ROWS_EVENT && !before, to);
            Handled(kind, rows, before, to) ==
            if FirstStop(to, rows[0], 0).Some? then ([], FirstStop(to, rows[0], 0).value)
            else ([RowCall(OpOf(kind, before).value, rows[0])] + rest.0, rest.1)
  {
    hide FirstStop, CallsFor, OpOf;
    CallsCons(kind, rows, before);
    if FirstStop(to, rows[0], 0) == None {
      var head, rest := RowCall(OpOf(kind, before).value, rows[0]),
                        CallsFor(kind, rows[1..], kind == UPDATE_ROWS_EVENT && !before);
      var n := RowsThrough(to, rows[1..]);
      assert ([head] + rest)[..n + 1] == [head] + rest[..n];
    }
  }

  /** The decoder reads rows where they were written, every column. */
  predicate RowsInStep(data: bytes, h: Head, kind: byte, p: nat, meta: Option<nat>, before: bool,
                       ds: seq<ColumnDef>, rows: seq<RowValues>)
    requires h.cn == |ds| && GoodHead(h, kind) && GoodRows(ds, rows)
    decreases |rows|
  {
    rows == [] ||
    (InStep(data, h, UsedBits(h, kind, before), ds, rows[0], 0, Cursor(p + BitmapLen(|ds|), 0, meta)) &&
     match ReadRow(data, h, kind, p, meta, before)
     case RowStop(_) => false
     case Row(c, _) => RowsInStep(data, h, kind, c.p, c.meta, kind == UPDATE_ROWS_EVENT && !before, ds, rows[1..]))
  }

  lemma NoRowsPlaced(to: Target)
    ensures RowsPlaced(to, [])
  {
  }

  lemma PlacedCons(to: Target, rows: seq<RowValues>)
    requires rows != []
    ensures RowsPlaced(to, rows) <==> PlacedFrom(to, rows[0], 0) && RowsPlaced(to, rows[1..])
  {
    hide PlacedFrom;
    assert rows == [rows[0]] + rows[1..];
  }

  /** The decoder keeps in step through all rows exactly when the layouts agree and all values can be copied. */
  lemma {:induction false} RowsInStepIff(data: bytes, h: Head, kind: byte, p: nat, meta: Option<nat>, before: bool,
                                         ds: seq<ColumnDef>, rows: seq<RowValues>)
    requires GoodTable(ds) && GoodRows(ds, rows) && TableHead(ds, h, kind)
    requires StandsAt(EncodeRows(ds, rows), data, p)
    ensures h.cn == |ds| && GoodHead(h, kind)
    ensures RowsInStep(data, h, kind, p, meta, before, ds, rows) <==>
            RowsAgree(ds, h.cm, rows, meta) && RowsPlaced(h.to, rows)
    decreases |rows|
  {
    hide Bitmap, NullFlags, EncodeFrom, EncodeRow, StandsAt, Agrees, MetaAfter, AllUsed, GoodTable, GoodRow;
    hide InStep, ReadRow, PlacedFrom, RowsPlaced;
    if rows == [] {
      NoRowsPlaced(h.to);
    } else {
      PlacedCons(h.to, rows);
      var row, q := rows[0], p + BitmapLen(|ds|);
      Shapes(h, UsedBits(h, kind, before), ds, row);
      RowStands(data, p, ds, row, EncodeRows(ds, rows[1..]));
      InStepIff(data, h, UsedBits(h, kind, before), ds, row, 0, Cursor(q, 0, meta));
      if Agrees(ds, h.cm, NullFlags(row), 0, 0, meta) && PlacedFrom(h.to, row, 0) {
        AgreeingRow(data, h, kind, p, meta, before, ds, row, EncodeRows(ds, rows[1..]));
        var c := ReadRow(data, h, kind, p, meta, before).c;
        RowsInStepIff(data, h, kind, c.p, c.meta, kind == UPDATE_ROWS_EVENT && !before, ds, rows[1..]);
      }
    }
  }

  /** And then the handlers are called on exactly the rows, in order, up to the first that cannot be copied. */
  lemma {:induction false} AgreeingRows(data: bytes, h: Head, kind: byte, p: nat, meta: Option<nat>, before: bool,
                                        ds: seq<ColumnDef>, rows: seq<RowValues>)
    requires GoodTable(ds) && GoodRows(ds, rows) && TableHead(ds, h, kind) && IsRowsType(kind)
    requires StandsAt(EncodeRows(ds, rows), data, p) && p + |EncodeRows(ds, rows)| == |data|
    requires RowsAgree(ds, h.cm, rows, meta)
    ensures GoodHead(h, kind)
    ensures ReadRows(data, h, kind, p, meta, before) == Handled(kind, rows, before, h.to)
    decreases |rows|
  {
    hide Bitmap, NullFlags, EncodeFrom, EncodeRow, StandsAt, Agrees, MetaAfter, AllUsed, GoodRow, ReadRow;
    hide FirstStop, CallsFor, OpOf, Handled;
    if rows == [] {
      NothingHandled(kind, before, h.to);
    } else {
      HandledCons(kind, rows, before, h.to);
      var row := rows[0];
      RowStands(data, p, ds, row, EncodeRows(ds, rows[1..]));
      if FirstStop(h.to, row, 0) == None {
        AgreeingRow(data, h, kind, p, meta, before, ds, row, EncodeRows(ds, rows[1..]));
        var c := ReadRow(data, h, kind, p, meta, before).c;
        AgreeingRows(data, h, kind, c.p, c.meta, kind == UPDATE_ROWS_EVENT && !before, ds, rows[1..]);
      } else {
        StoppedRow(data, h, kind, p, meta, before, ds, row, EncodeRows(ds, rows[1..]));
      }
    }
  }

  lemma NothingHandled(kind: byte, before: bool, to: Target)
    ensures Handled(kind, [], before, to) == ([], Finished) && CallsFor(kind, [], before) == []
  {
  }

  lemma {:induction false} ThroughIff(to: Target, rows: seq<RowValues>)
    ensures RowsThrough(to, rows) == |rows| <==> RowsPlaced(to, rows)
    decreases |rows|
  {
    hide FirstStop, RowsPlaced;
    if rows == [] {
      NoRowsPlaced(to);
    } else {
      PlacedCons(to, rows);
      ThroughIff(to, rows[1..]);
    }
  }

  /** All rows are handled exactly when all their values can be copied. */
  lemma HandledIff(kind: byte, rows: seq<RowValues>, before: bool, to: Target)
    ensures Handled(kind, rows, before, to) == (CallsFor(kind, rows, before), Finished) <==> RowsPlaced(to, rows)
    ensures RowsPlaced(to, rows) <==> Handled(kind, rows, before, to).1 == Finished
  {
    hide FirstStop, RowsPlaced, CallsFor;
    ThroughIff(to, rows);
    assert CallsFor(kind, rows, before)[..|rows|] == CallsFor(kind, rows, before);
  }
}
