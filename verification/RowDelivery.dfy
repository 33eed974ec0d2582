/**
 * From the table's columns and rows to the handler calls on the slave: the exact
 * condition, the tables that meet it, and rows that do not.
 */
module RowDelivery {
  import opened Bytes
  import opened BinlogEvents
  import opened Frames
  import opened ClassTable
  import opened ColumnTypes
  import opened RowImages
  import opened RowRoundTrip
  import opened RowEvents

  // ----- The head of an event -------------------------------------------------------

  lemma {:induction false} TypesLength(ds: seq<ColumnDef>)
    ensures |Metas(ds)| <= 2 * |ds|
    decreases |ds|
  {
    hide ToLE;
    if ds != [] {
      TypesLength(ds[..|ds| - 1]);
    }
  }

  lemma FullIsUsed(n: nat)
    ensures AllUsed(Full(n), n)
  {
    hide Bitmap, BitAt;
    forall i: nat | i < n ensures BitAt(Full(n), i) {
      BitmapBit(seq(n, _ => true), i);
    }
  }

  /** Taking the master's two length-prefixed strings off a payload. */
  lemma PayloadParts(ct: bytes, cm: bytes, body: bytes, kind: byte, to: Target)
    requires |ct| < U32_LIMIT && |cm| < U32_LIMIT && |body| >= 8
    ensures ParseHead(RowPayload(ct, cm, body), kind, to) ==
            ParseBitmaps(RowPayload(ct, cm, body), kind, ct, cm, 8 + |ct| + |cm| + 8, to)
  {
    hide ToLE, FromLE, ParseBitmaps;
    var data := RowPayload(ct, cm, body);
    U32RoundTrip(|ct|);
    U32RoundTrip(|cm|);
    var types := 4 + |ct|;
    assert data[..4] == U32(|ct|);
    assert data[4..types] == ct;
    assert data[types..types + 4] == U32(|cm|);
    assert data[types + 4..types + 4 + |cm|] == cm;
  }

  lemma EventHeadParts(kind: byte, n: nat, data: bytes, p: nat)
    requires n <= 250 && StandsAt(EventHead(kind, n), data, p)
    ensures p < |data| && data[p] == n
    ensures StandsAt(Full(n), data, p + 1)
    ensures |EventHead(kind, n)| == 1 + BitmapLen(n) + (if kind == UPDATE_ROWS_EVENT then BitmapLen(n) else 0)
    ensures kind == UPDATE_ROWS_EVENT ==> StandsAt(Full(n), data, p + 1 + BitmapLen(n))
  {
    hide Full;
    var e := EventHead(kind, n);
    assert data[p..p + |e|][0] == e[0];
    var after := if kind == UPDATE_ROWS_EVENT then Full(n) else [];
    assert e == [n] + (Full(n) + after);
    StandsSplit([n], Full(n) + after, data, p);
    StandsSplit(Full(n), after, data, p + 1);
  }

  lemma BitmapsOfEvent(data: bytes, kind: byte, ds: seq<ColumnDef>, cm: bytes, at: nat, to: Target)
    requires GoodTable(ds) && StandsAt(EventHead(kind, |ds|), data, at)
    ensures var h := ParseBitmaps(data, kind, Types(ds), cm, at, to);
            h.Some? && TableHead(ds, h.value, kind) && h.value.cm == cm && h.value.to == to &&
            h.value.start == at + |EventHead(kind, |ds|)|
  {
    hide Full, EventHead, GoodColumn, FromLE, BitAt;
    EventHeadParts(kind, |ds|, data, at);
    FullIsUsed(|ds|);
    assert data[at..][0] == |ds|;
    hide AllUsed;
    assert PackedInt(data[at..]) == Some((|ds|, 1));
  }

  lemma EventIdParts(kind: byte, id: bytes, ds: seq<ColumnDef>, rows: seq<RowValues>, data: bytes, p: nat)
    requires GoodTable(ds) && GoodRows(ds, rows) && |id| == 8
    requires StandsAt(EventBody(kind, id, ds, rows), data, p)
    ensures StandsAt(EventHead(kind, |ds|), data, p + 8)
    ensures StandsAt(EncodeRows(ds, rows), data, p + 8 + |EventHead(kind, |ds|)|)
    ensures |EventBody(kind, id, ds, rows)| == 8 + |EventHead(kind, |ds|)| + |EncodeRows(ds, rows)|
  {
    hide EventHead, EncodeRows;
    StandsSplit(id, EventHead(kind, |ds|) + EncodeRows(ds, rows), data, p);
    StandsSplit(EventHead(kind, |ds|), EncodeRows(ds, rows), data, p + 8);
  }

  lemma BodyStands(ct: bytes, cm: bytes, body: bytes)
    ensures StandsAt(body, RowPayload(ct, cm, body), 8 + |ct| + |cm|)
    ensures |RowPayload(ct, cm, body)| == 8 + |ct| + |cm| + |body|
  {
    hide ToLE;
  }

  /** The payload the master sends for an event of the table. */
  function Payload(kind: byte, id: bytes, ds: seq<ColumnDef>, rows: seq<RowValues>): (s: bytes)
    requires GoodTable(ds) && GoodRows(ds, rows)
  {
    RowPayload(Types(ds), Metas(ds), EventBody(kind, id, ds, rows))
  }

  lemma HeadOfPayload(kind: byte, id: bytes, ds: seq<ColumnDef>, rows: seq<RowValues>, to: Target)
    requires GoodTable(ds) && GoodRows(ds, rows) && |id| == 8
    ensures var data := Payload(kind, id, ds, rows);
            var h := ParseHead(data, kind, to);
            h.Some? && TableHead(ds, h.value, kind) && h.value.cm == Metas(ds) && h.value.to == to &&
            StandsAt(EncodeRows(ds, rows), data, h.value.start) && h.value.start + |EncodeRows(ds, rows)| == |data|
  {
    hide Payload, EventBody, EventHead, EncodeRows, RowPayload, Types, Metas, GoodTable, GoodRows, StandsAt, Full;
    hide ParseHead, ParseBitmaps, FullHead, GoodHead, AllUsed;
    var body := EventBody(kind, id, ds, rows);
    var data := RowPayload(Types(ds), Metas(ds), body);
    assert data == Payload(kind, id, ds, rows) by {
      PayloadIs(kind, id, ds, rows);
    }
    TableSize(ds);
    TypesLength(ds);
    BodyStands(Types(ds), Metas(ds), body);
    EventIdParts(kind, id, ds, rows, data, 8 + |ds| + |Metas(ds)|);
    PayloadParts(Types(ds), Metas(ds), body, kind, to);
    BitmapsOfEvent(data, kind, ds, Metas(ds), 8 + |ds| + |Metas(ds)| + 8, to);
  }

  lemma PayloadIs(kind: byte, id: bytes, ds: seq<ColumnDef>, rows: seq<RowValues>)
    requires GoodTable(ds) && GoodRows(ds, rows)
    ensures Payload(kind, id, ds, rows) == RowPayload(Types(ds), Metas(ds), EventBody(kind, id, ds, rows))
  {
  }

  lemma TableSize(ds: seq<ColumnDef>)
    requires GoodTable(ds)
    ensures 0 < |ds| <= 250
  {
  }

  // ----- Main results ---------------------------------------------------------------------

  /** The decoder of a whole event reads every column of every row where it was written. */
  predicate EventInStep(kind: byte, id: bytes, ds: seq<ColumnDef>, rows: seq<RowValues>, to: Target)
    requires GoodTable(ds) && GoodRows(ds, rows)
  {
    var data := Payload(kind, id, ds, rows);
    match ParseHead(data, kind, to)
    case None => false
    case Some(h) => h.cn == |ds| && RowsInStep(data, h, kind, h.start, None, false, ds, rows)
  }

  /** For every table, every mix of supported columns, every choice of NULLs and every target. */
  lemma InStepExactlyWhenLayoutsAgree(kind: byte, id: bytes, ds: seq<ColumnDef>, rows: seq<RowValues>, to: Target)
    requires GoodTable(ds) && GoodRows(ds, rows) && |id| == 8
    ensures EventInStep(kind, id, ds, rows, to) <==> RowsAgree(ds, Metas(ds), rows, None) && RowsPlaced(to, rows)
  {
    hide Payload, ParseHead, RowsInStep, RowsAgree, EncodeRows, StandsAt, Metas, GoodTable, GoodRows, AllUsed;
    hide RowsPlaced;
    HeadOfPayload(kind, id, ds, rows, to);
    var data := Payload(kind, id, ds, rows);
    var h := ParseHead(data, kind, to).value;
    RowsInStepIff(data, h, kind, h.start, None, false, ds, rows);
  }

  /**
   * Where the layouts agree, the handlers are called on exactly the rows, in order, up to the
   * first with a value that cannot be copied where it goes, and that value decides the end.
   */
  lemma RowsRoundTrip(kind: byte, id: bytes, ds: seq<ColumnDef>, rows: seq<RowValues>, to: Target)
    requires GoodTable(ds) && GoodRows(ds, rows) && |id| == 8 && IsRowsType(kind)
    requires RowsAgree(ds, Metas(ds), rows, None)
    ensures DecodeRows(Payload(kind, id, ds, rows), kind, to) == Handled(kind, rows, false, to)
  {
    hide Payload, ParseHead, RowsAgree, EncodeRows, StandsAt, Metas, GoodTable, GoodRows, AllUsed, ReadRows, Handled;
    HeadOfPayload(kind, id, ds, rows, to);
    var data := Payload(kind, id, ds, rows);
    var h := ParseHead(data, kind, to).value;
    AgreeingRows(data, h, kind, h.start, None, false, ds, rows);
  }

  /** The rows come back: these calls, and the data used up. */
  predicate ComesBack(kind: byte, id: bytes, ds: seq<ColumnDef>, rows: seq<RowValues>, to: Target)
    requires GoodTable(ds) && GoodRows(ds, rows) && IsRowsType(kind)
  {
    DecodeRows(Payload(kind, id, ds, rows), kind, to) == (CallsFor(kind, rows, false), Finished)
  }

  /** So they come back, each in its place and not a byte left, exactly if all their values can be copied. */
  lemma RoundTripIff(kind: byte, id: bytes, ds: seq<ColumnDef>, rows: seq<RowValues>, to: Target)
    requires GoodTable(ds) && GoodRows(ds, rows) && |id| == 8 && IsRowsType(kind)
    requires RowsAgree(ds, Metas(ds), rows, None)
    ensures ComesBack(kind, id, ds, rows, to) <==> RowsPlaced(to, rows)
  {
    hide Payload, DecodeRows, RowsAgree, Metas, GoodTable, GoodRows, CallsFor, Handled, RowsPlaced;
    RowsRoundTrip(kind, id, ds, rows, to);
    HandledIff(kind, rows, false, to);
  }

  // ----- Tables and rows that agree ---------------------------------------------------------

  /** Every NULL stands right behind a looked-up type whose metadata is as long as its own. */
  predicate Harmless(ds: seq<ColumnDef>, nulls: seq<bool>, i: nat, meta: Option<nat>)
    requires |nulls| == |ds|
    decreases |ds| - i
  {
    i >= |ds| ||
    (var own := Some(|MetaOf(ds[i])|);
     (nulls[i] ==> meta == own) && Harmless(ds, nulls, i + 1, own))
  }

  lemma {:induction false} MetasAt(ds: seq<ColumnDef>, i: nat)
    requires i < |ds|
    ensures |Metas(ds[..i + 1])| == |Metas(ds[..i])| + |MetaOf(ds[i])|
    ensures StandsAt(MetaOf(ds[i]), Metas(ds), |Metas(ds[..i])|)
    decreases |ds|
  {
    hide MetaOf;
    assert ds[..i + 1][..i] == ds[..i];
    var n := |ds| - 1;
    if i == n {
      assert ds[..n + 1] == ds;
    } else {
      var front := ds[..n];
      assert front[..i] == ds[..i];
      MetasAt(front, i);
      var k := |Metas(ds[..i])|;
      assert Metas(ds)[k..k + |MetaOf(ds[i])|] == Metas(front)[k..k + |MetaOf(ds[i])|];
    }
  }

  /** Such a row keeps the metadata cursor at every column's own metadata. */
  lemma {:induction false} HarmlessAgrees(ds: seq<ColumnDef>, row: RowValues, i: nat, meta: Option<nat>)
    requires GoodTable(ds) && |row| == |ds| && i <= |ds| && Harmless(ds, NullFlags(row), i, meta)
    ensures Agrees(ds, Metas(ds), NullFlags(row), i, |Metas(ds[..i])|, meta)
    ensures MetaAfter(ds, NullFlags(row), i, meta) == if i == |ds| then meta else Some(|MetaOf(ds[|ds| - 1])|)
    decreases |ds| - i
  {
    hide MetaOf, Metas, LayoutOf, LayoutFor, TypeOf, GoodColumn, NullFlags;
    if i < |ds| {
      MetasAt(ds, i);
      OwnLayout(ds[i], Metas(ds), |Metas(ds[..i])|);
      HarmlessAgrees(ds, row, i + 1, Some(|MetaOf(ds[i])|));
    }
  }

  predicate RowsHarmless(ds: seq<ColumnDef>, rows: seq<RowValues>, meta: Option<nat>)
    requires ds != [] && GoodRows(ds, rows)
  {
    rows == [] ||
    (Harmless(ds, NullFlags(rows[0]), 0, meta) && RowsHarmless(ds, rows[1..], Some(|MetaOf(ds[|ds| - 1])|)))
  }

  lemma {:induction false} HarmlessRowsAgree(ds: seq<ColumnDef>, rows: seq<RowValues>, meta: Option<nat>)
    requires GoodTable(ds) && GoodRows(ds, rows) && RowsHarmless(ds, rows, meta)
    ensures RowsAgree(ds, Metas(ds), rows, meta)
    decreases |rows|
  {
    hide MetaOf, Harmless, Agrees, NullFlags, MetaAfter, GoodTable;
    TableSize(ds);
    if rows != [] {
      assert Metas(ds[..0]) == [];
      HarmlessAgrees(ds, rows[0], 0, meta);
      HarmlessRowsAgree(ds, rows[1..], Some(|MetaOf(ds[|ds| - 1])|));
    }
  }

  predicate NullFree(row: RowValues) {
    forall i :: 0 <= i < |row| ==> row[i].Some?
  }

  lemma {:induction false} NullFreeHarmless(ds: seq<ColumnDef>, row: RowValues, i: nat, meta: Option<nat>)
    requires |row| == |ds| && NullFree(row)
    ensures Harmless(ds, NullFlags(row), i, meta)
    decreases |ds| - i
  {
    hide MetaOf;
    if i < |ds| {
      NullFreeHarmless(ds, row, i + 1, Some(|MetaOf(ds[i])|));
    }
  }

  lemma {:induction false} NullFreeRowsHarmless(ds: seq<ColumnDef>, rows: seq<RowValues>, meta: Option<nat>)
    requires ds != [] && GoodRows(ds, rows) && forall row <- rows :: NullFree(row)
    ensures RowsHarmless(ds, rows, meta)
    decreases |rows|
  {
    hide Harmless, MetaOf, NullFlags, NullFree;
    if rows != [] {
      assert GoodRow(ds, rows[0]);
      NullFreeHarmless(ds, rows[0], 0, meta);
      NullFreeRowsHarmless(ds, rows[1..], Some(|MetaOf(ds[|ds| - 1])|));
    }
  }

  /** Rows without NULLs come back exactly when all their values can be copied where they go. */
  lemma NullFreeRoundTrip(kind: byte, id: bytes, ds: seq<ColumnDef>, rows: seq<RowValues>, to: Target)
    requires GoodTable(ds) && GoodRows(ds, rows) && |id| == 8 && IsRowsType(kind)
    requires forall row <- rows :: NullFree(row)
    ensures ComesBack(kind, id, ds, rows, to) <==> RowsPlaced(to, rows)
  {
    hide *;
    TableSize(ds);
    NullFreeRowsHarmless(ds, rows, None);
    HarmlessRowsAgree(ds, rows, None);
    RoundTripIff(kind, id, ds, rows, to);
  }

  /** All columns have as much metadata as the first. */
  predicate EvenMetas(ds: seq<ColumnDef>, m: nat) {
    forall i :: 0 <= i < |ds| ==> |MetaOf(ds[i])| == m
  }

  lemma {:induction false} EvenHarmless(ds: seq<ColumnDef>, nulls: seq<bool>, i: nat, m: nat)
    requires |nulls| == |ds| && EvenMetas(ds, m)
    ensures Harmless(ds, nulls, i, Some(m))
    decreases |ds| - i
  {
    hide MetaOf;
    if i < |ds| {
      EvenHarmless(ds, nulls, i + 1, m);
    }
  }

  lemma {:induction false} EvenRowsHarmless(ds: seq<ColumnDef>, rows: seq<RowValues>, m: nat)
    requires ds != [] && GoodRows(ds, rows) && EvenMetas(ds, m)
    ensures RowsHarmless(ds, rows, Some(m))
    decreases |rows|
  {
    hide MetaOf, Harmless, NullFlags;
    if rows != [] {
      assert GoodRow(ds, rows[0]);
      EvenHarmless(ds, NullFlags(rows[0]), 0, m);
      EvenRowsHarmless(ds, rows[1..], m);
    }
  }

  /**
   * Where all columns have metadata of one length, NULLs may stand anywhere but at
   * the very first value.
   */
  lemma EvenTableRoundTrip(kind: byte, id: bytes, ds: seq<ColumnDef>, rows: seq<RowValues>, m: nat, to: Target)
    requires GoodTable(ds) && GoodRows(ds, rows) && |id| == 8 && IsRowsType(kind) && EvenMetas(ds, m)
    requires rows == [] || (rows[0] != [] && rows[0][0].Some?)
    ensures ComesBack(kind, id, ds, rows, to) <==> RowsPlaced(to, rows)
  {
    hide Payload, DecodeRows, CallsFor, MetaOf, Metas, GoodColumn, RowsPlaced;
    if rows != [] {
      assert GoodRow(ds, rows[0]);
      EvenHarmless(ds, NullFlags(rows[0]), 1, m);
      NullFlagAt(rows[0], 0);
      EvenRowsHarmless(ds, rows[1..], m);
    }
    HarmlessRowsAgree(ds, rows, None);
    RoundTripIff(kind, id, ds, rows, to);
  }

  // ----- Rows that do not ---------------------------------------------------------------------

  /** A NULL as the very first value of an event: the decoder follows a null pointer. */
  lemma FirstNullFaults(kind: byte, id: bytes, ds: seq<ColumnDef>, rows: seq<RowValues>, to: Target)
    requires GoodTable(ds) && GoodRows(ds, rows) && |id| == 8 && rows != [] && rows[0][..1] == [None]
    ensures DecodeRows(Payload(kind, id, ds, rows), kind, to) == ([], Fault)
  {
    hide Payload, ParseHead, Bitmap, NullFlags, EncodeFrom, EncodeRow, StandsAt, AllUsed, Metas, ReadColumn, GoodColumn;
    HeadOfPayload(kind, id, ds, rows, to);
    var data, row := Payload(kind, id, ds, rows), rows[0];
    var h := ParseHead(data, kind, to).value;
    assert GoodRow(ds, row) && row[0] == None;
    RowStands(data, h.start, ds, row, EncodeRows(ds, rows[1..]));
    assert UsedBits(h, kind, false) == h.used;
    ReadNull(data, h, h.used, ds, row, 0, Cursor(h.start + BitmapLen(|ds|), 0, None));
    assert BitmapLen(|ds|) > 0;
  }

  lemma ShortReadForLong(short: nat, long: nat)
    requires short < 256 <= long < 0x1_0000
    ensures var ds := [FixedOf(Int), VarcharOf(short), VarcharOf(long)];
            !Agrees(ds, Metas(ds), [false, true, false], 0, 0, None)
  {
    hide ToLE, FromLE;
    var ds, nulls := [FixedOf(Int), VarcharOf(short), VarcharOf(long)], [false, true, false];
    var cm := Metas(ds);
    U16Digits(short);
    assert ds[..2] == [FixedOf(Int), VarcharOf(short)] && ds[..2][..1] == [FixedOf(Int)] && ds[..1][..0] == [];
    assert Metas(ds[..1]) == [] && Metas(ds[..2]) == ToLE(short, 2) && cm == Metas(ds[..2]) + ToLE(long, 2);
    assert cm[0..2] == ToLE(short, 2);
    assert LayoutOf(15, cm, 0) == Some(Prefixed(1)) && LayoutFor(ds[2]) == Prefixed(2);
    assert !Agrees(ds, cm, nulls, 2, 0, Some(0));
    assert !Agrees(ds, cm, nulls, 1, 0, Some(0));
  }

  /**
   * An integer, a NULL VARCHAR and a long VARCHAR: the NULL moves the metadata cursor
   * by the integer's nothing, and the last column is read with a one-byte length.
   */
  lemma NullVarcharLosesStep(kind: byte, id: bytes, short: nat, long: nat, n: bytes, v: bytes, to: Target)
    requires short < 256 <= long < 0x1_0000 && |id| == 8 && |n| == 4 && |v| <= long
    ensures var ds := [FixedOf(Int), VarcharOf(short), VarcharOf(long)];
            var rows := [[Some(n), None, Some(v)]];
            GoodTable(ds) && GoodRows(ds, rows) && !EventInStep(kind, id, ds, rows, to)
  {
    hide EventInStep, Agrees, Metas;
    var ds := [FixedOf(Int), VarcharOf(short), VarcharOf(long)];
    var rows := [[Some(n), None, Some(v)]];
    assert Pow256(1) == 256 && Pow256(2) == 0x1_0000;
    InStepExactlyWhenLayoutsAgree(kind, id, ds, rows, to);
    assert NullFlags(rows[0]) == [false, true, false];
    ShortReadForLong(short, long);
  }

  // ----- Across the wire -------------------------------------------------------------------------

  /** A row frame of the table, taken apart by the slave, calls the handlers on exactly its rows. */
  lemma FrameRoundTrip(at: Stamp, db: bytes, tb: bytes, kind: byte, id: bytes, ds: seq<ColumnDef>,
                       rows: seq<RowValues>, to: Target)
    requires GoodTable(ds) && GoodRows(ds, rows) && |id| == 8 && RowsAgree(ds, Metas(ds), rows, None)
    requires GoodFrame(RowFrame(at, kind, db, tb, Types(ds), Metas(ds), EventBody(kind, id, ds, rows)))
    ensures var body := EventBody(kind, id, ds, rows);
            var r := SplitFrame(Encode(RowFrame(at, kind, db, tb, Types(ds), Metas(ds), body)));
            r.Dispatch? && r.kind == kind && r.table == TableName(db, tb) &&
            DecodeRows(r.payload, r.kind, to) == Handled(kind, rows, false, to)
  {
    hide EventBody, Types, Metas, RowsAgree, DecodeRows, SplitFrame, Encode, Handled, RowPayload, StampText, TableName;
    hide GoodTable, GoodRows;
    SplitEncode(RowFrame(at, kind, db, tb, Types(ds), Metas(ds), EventBody(kind, id, ds, rows)));
    RowsRoundTrip(kind, id, ds, rows, to);
  }

  // ----- Values that cannot be copied --------------------------------------------------------------

  /**
   * The repository's own table, an INT and a VARCHAR that goes to a chunk: a row with an empty
   * VARCHAR ends in a fault before its handler is called, whatever the pool.
   */
  lemma EmptyValueFaults(kind: byte, id: bytes, max: nat, n: bytes, sizes: seq<nat>)
    requires max < 0x1_0000 && |id| == 8 && |n| == 4 && IsRowsType(kind)
    ensures var ds, rows := [FixedOf(Int), VarcharOf(max)], [[Some(n), Some([])]];
            GoodTable(ds) && GoodRows(ds, rows) &&
            DecodeRows(Payload(kind, id, ds, rows), kind, Target([Field(4), Chunk], sizes)) == ([], Fault)
  {
    hide DecodeRows, Payload, RowsAgree, Metas, RowsHarmless;
    var ds, rows, to := [FixedOf(Int), VarcharOf(max)], [[Some(n), Some([])]], Target([Field(4), Chunk], sizes);
    assert Pow256(1) == 256 && Pow256(2) == 0x1_0000;
    NullFreeRowsHarmless(ds, rows, None);
    HarmlessRowsAgree(ds, rows, None);
    RowsRoundTrip(kind, id, ds, rows, to);
    assert CopyStop(to, 0, n) == None && CopyStop(to, 1, []) == Some(Fault);
    assert FirstStop(to, rows[0], 1) == Some(Fault) && FirstStop(to, rows[0], 0) == Some(Fault);
  }

  /**
   * Exactly which values go where: any past a column without a place, into a field those it has
   * room for, into a chunk, with a pool of increasing classes, those that are not empty and
   * not tight. Any other kind of place is turned down, and nothing else is.
   */
  lemma PlacedIff(to: Target, i: nat, v: bytes)
    requires i < |to.places| && to.places[i] == Chunk ==> |to.sizes| > 0 && Increasing(to.sizes)
    ensures CopyStop(to, i, v) == None <==>
            i < |to.places| &&
            (to.places[i] == Skipped || (to.places[i].Field? && |v| <= to.places[i].room) ||
             (to.places[i] == Chunk && v != [] && Roomy(to.sizes, |v|)))
    ensures CopyStop(to, i, v) == Some(Refused) <==> i < |to.places| && to.places[i] == OtherPlace
  {
    hide Room, Roomy;
    if i < |to.places| && to.places[i] == Chunk {
      RoomIff(to.sizes, |v|);
    }
  }

  // ----- Columns that are not in an image ------------------------------------------------------------

  lemma {:induction false} UnusedInRow(data: bytes, h: Head, used: bytes, nulls: bytes, i: nat, c: Cursor,
                                       row: RowValues)
    requires i <= h.cn && |used| == |nulls| == BitmapLen(h.cn) && |row| == i
    requires forall k :: 0 <= k < i && !BitAt(used, k) ==> row[k] == None
    ensures var r := ReadColumns(data, h, used, nulls, i, c, row);
            r.Row? ==> |r.row| == h.cn && forall k :: 0 <= k < h.cn && !BitAt(used, k) ==> r.row[k] == None
    decreases h.cn - i
  {
    hide BitAt, LayoutOf, Take, CopyStop, ColumnMetaOf;
    if i < h.cn {
      var r := ReadColumn(data, h, used, nulls, i, c);
      if r.Column? {
        UnusedInRow(data, h, used, nulls, i + 1, r.c, row + [r.value]);
      }
    }
  }

  /** The calls leave columns out that are not in the image of their row. */
  ghost predicate LeaveOut(calls: seq<RowCall>, cn: nat, first: bytes, second: bytes, from: nat)
    requires |first| == |second| == BitmapLen(cn)
  {
    forall j :: 0 <= j < |calls| ==>
      |calls[j].row| == cn &&
      forall i :: 0 <= i < cn && !BitAt(if (j + from) % 2 == 1 then second else first, i) ==> calls[j].row[i] == None
  }

  lemma LeaveOutCons(call: RowCall, calls: seq<RowCall>, cn: nat, first: bytes, second: bytes, from: nat, next: nat)
    requires |first| == |second| == BitmapLen(cn) && LeaveOut(calls, cn, first, second, next)
    requires |call.row| == cn && from < 2 && next < 2 && (first != second ==> next == 1 - from)
    requires forall i :: 0 <= i < cn && !BitAt(if from == 1 then second else first, i) ==> call.row[i] == None
    ensures LeaveOut([call] + calls, cn, first, second, from)
  {
    hide BitAt;
    var all := [call] + calls;
    forall j | 0 <= j < |all|
      ensures |all[j].row| == cn
      ensures forall i :: 0 <= i < cn && !BitAt(if (j + from) % 2 == 1 then second else first, i) ==>
                all[j].row[i] == None
    {
      if j > 0 {
        assert all[j] == calls[j - 1];
        assert first != second ==> (j + from) % 2 == (j - 1 + next) % 2;
      }
    }
  }

  lemma {:induction false} UnusedInRows(data: bytes, h: Head, kind: byte, p: nat, meta: Option<nat>, before: bool)
    requires GoodHead(h, kind)
    ensures LeaveOut(ReadRows(data, h, kind, p, meta, before).0, h.cn, h.used,
                     if kind == 24 then h.usedAfter else h.used, if kind == 24 && before then 1 else 0)
    decreases |data| - p
  {
    hide BitAt, ReadColumns;
    var second := if kind == 24 then h.usedAfter else h.used;
    if p < |data| {
      var r := ReadRow(data, h, kind, p, meta, before);
      if r.Row? && OpOf(kind, before).Some? && h.cn > 0 {
        var q := p + BitmapLen(h.cn);
        UnusedInRow(data, h, UsedBits(h, kind, before), data[p..q], 0, Cursor(q, 0, meta), []);
        var next := kind == UPDATE_ROWS_EVENT && !before;
        UnusedInRows(data, h, kind, r.c.p, r.c.meta, next);
        LeaveOutCons(RowCall(OpOf(kind, before).value, r.row), ReadRows(data, h, kind, r.c.p, r.c.meta, next).0, h.cn,
                     h.used, second, if kind == 24 && before then 1 else 0, if next then 1 else 0);
      }
    }
  }

  /**
   * Whatever the payload: a column missing from the bitmap of its image is left as it was, where the
   * rows before and after an update have a bitmap each, the second one behind the first.
   */
  lemma UnusedColumnsStay(data: bytes, kind: byte, to: Target)
    requires ParseHead(data, kind, to).Some?
    ensures var h := ParseHead(data, kind, to).value;
            var n := BitmapLen(h.cn);
            h.start >= n && (kind == 24 ==> h.start >= 2 * n) &&
            LeaveOut(DecodeRows(data, kind, to).0, h.cn,
                     if kind == 24 then data[h.start - 2 * n..h.start - n] else data[h.start - n..h.start],
                     data[h.start - n..h.start], 0)
  {
    hide ReadRows, BitAt, PackedInt, FromLE;
    var h := ParseHead(data, kind, to).value;
    UnusedInRows(data, h, kind, h.start, None, false);
  }
}
