/**
 * Event bodies as MySQL writes them: what the master reads back from them, and what
 * becomes of a table map and its rows on the slave.
 */
module EventBodies {
  import opened Bytes
  import opened BinlogEvents
  import opened Frames
  import opened Replication
  import opened ColumnTypes
  import opened RowImages
  import opened RowRoundTrip
  import opened RowEvents
  import opened RowDelivery

  // ----- Names -------------------------------------------------------------------------

  predicate GoodText(name: bytes) {
    |name| <= 64 && NUL !in name
  }

  /** A name behind its length, ended by a NUL. */
  function NameText(name: bytes): (s: bytes)
    requires |name| <= 64
  {
    [|name|] + (name + [NUL])
  }

  lemma CStrOfName(name: bytes)
    requires NUL !in name
    ensures CStr(name + [NUL]) == name
  {
    IndexOfAppend(name, NUL, []);
    assert name + [NUL] + [] == name + [NUL];
  }

  // ----- Table maps --------------------------------------------------------------------------

  function ColumnsText(ct: bytes, cm: bytes, tail: bytes): (s: bytes) {
    Packed(|ct|) + (ct + (Packed(|cm|) + (cm + tail)))
  }

  /** Table id and flags, both names, column types, column metadata, and the rest. */
  function MapBody(id: bytes, db: bytes, tb: bytes, ct: bytes, cm: bytes, tail: bytes): (s: bytes)
    requires GoodText(db) && GoodText(tb)
  {
    id + (NameText(db) + (NameText(tb) + ColumnsText(ct, cm, tail)))
  }

  /** A number above 250 is read as another, or as one no buffer has room for. */
  lemma PackedMisread(n: nat, rest: bytes)
    requires n > 250
    ensures var r := PackedInt(Packed(n) + rest); r.Some? && r.value.0 == n ==> n > META_MAX
  {
    var s := Packed(n) + rest;
    if n < 0x1_0000 {
      assert ToLE(n, 2)[0] == n % 256;
      assert s[..2] == [252, n % 256];
      assert FromLE([252, n % 256]) == 252 + 256 * FromLE([n % 256]) by {
        assert [252, n % 256][1..] == [n % 256];
      }
      assert FromLE([n % 256]) == n % 256 + 256 * FromLE([]) by {
        assert [n % 256][1..] == [];
      }
    }
  }

  lemma PackedRead(n: nat, rest: bytes)
    requires n <= 250
    ensures PackedInt(Packed(n) + rest) == Some((n, 1)) && |Packed(n)| == 1
  {
    assert (Packed(n) + rest)[0] == n;
  }

  lemma PartsOf(a: bytes, b: bytes, c: bytes)
    ensures (a + (b + c))[|a|..|a| + |b|] == b && (a + (b + c))[|a| + |b|..] == c
  {
  }

  /** Types and metadata are read back exactly when there are at most 250 bytes of each. */
  lemma ColumnsIff(ct: bytes, cm: bytes, tail: bytes)
    ensures ParseColumns(ColumnsText(ct, cm, tail)) == Some((ct, cm)) <==> |ct| <= 250 && |cm| <= 250
  {
    hide PackedInt, Packed, FromLE;
    var after := Packed(|cm|) + (cm + tail);
    if |ct| <= 250 {
      PackedRead(|ct|, ct + after);
      PartsOf(Packed(|ct|), ct, after);
      if |cm| <= 250 {
        PackedRead(|cm|, cm + tail);
        PartsOf(Packed(|cm|), cm, tail);
      } else {
        PackedMisread(|cm|, cm + tail);
      }
    } else {
      PackedMisread(|ct|, ct + after);
    }
  }

  lemma MapPieces(id: bytes, a: bytes, b: bytes, rest: bytes, body: bytes)
    requires |id| == 8 && 0 < |a| < 256 && 0 < |b| < 256 && body == id + (([|a| - 1] + a) + (([|b| - 1] + b) + rest))
    ensures |body| == 10 + |a| + |b| + |rest| && body[8] == |a| - 1 && body[9..9 + |a|] == a
    ensures body[9 + |a|] == |b| - 1 && body[10 + |a|..10 + |a| + |b|] == b && body[10 + |a| + |b|..] == rest
  {
    var inner := ([|b| - 1] + b) + rest;
    assert body[9 + |a|..] == inner && inner[1..1 + |b|] == b && inner[1 + |b|..] == rest;
    assert body[10 + |a|..10 + |a| + |b|] == inner[1..1 + |b|] && body[10 + |a| + |b|..] == inner[1 + |b|..];
  }

  lemma MapParts(id: bytes, db: bytes, tb: bytes, rest: bytes)
    requires GoodText(db) && GoodText(tb) && |id| == 8
    ensures var body := id + (NameText(db) + (NameText(tb) + rest));
            ParseTableMap(body) ==
            match ParseColumns(rest)
            case None => None
            case Some((ct, cm)) => Some(TableMap(db, tb, ct, cm))
  {
    hide ParseColumns, CStr;
    var a, b := db + [NUL], tb + [NUL];
    MapPieces(id, a, b, rest, id + (NameText(db) + (NameText(tb) + rest)));
    CStrOfName(db);
    CStrOfName(tb);
    assert a[|db|] == NUL && b[|tb|] == NUL;
  }

  /** A table map is read back exactly when it has at most 250 columns and 250 bytes of metadata. */
  lemma TableMapIff(id: bytes, db: bytes, tb: bytes, ct: bytes, cm: bytes, tail: bytes)
    requires GoodText(db) && GoodText(tb) && |id| == 8
    ensures ParseTableMap(MapBody(id, db, tb, ct, cm, tail)) == Some(TableMap(db, tb, ct, cm))
            <==> |ct| <= 250 && |cm| <= 250
  {
    hide ParseTableMap, ParseColumns, NameText, ColumnsText, GoodText;
    MapParts(id, db, tb, ColumnsText(ct, cm, tail));
    ColumnsIff(ct, cm, tail);
  }

  // ----- Query events --------------------------------------------------------------------------

  /** The codes of a text. */
  function Codes(s: string): (t: bytes)
    requires forall i :: 0 <= i < |s| ==> s[i] as int < 256
  {
    seq(|s|, i requires 0 <= i < |s| => s[i] as int)
  }

  /** A statement, by what it does to the transaction. */
  datatype Sql = Begins(rest: bytes) | Commits(rest: bytes) | Plain(text: bytes)

  function SqlText(q: Sql): (s: bytes) {
    match q
    case Begins(rest) => Codes("BEGIN") + rest
    case Commits(rest) => Codes("COMMIT") + rest
    case Plain(text) => text
  }

  /** A plain statement begins with neither word. */
  predicate GoodSql(q: Sql) {
    q.Plain? ==> !(Codes("BEGIN") <= q.text) && !(Codes("COMMIT") <= q.text)
  }

  function MeaningOf(q: Sql): (e: TranEffect) {
    match q case Begins(_) => Opens case Commits(_) => Closes case Plain(_) => Keeps
  }

  lemma Words()
    ensures Codes("BEGIN") == BEGIN_SQL && Codes("COMMIT") == COMMIT_SQL
  {
    var b, c := "BEGIN", "COMMIT";
    assert b[0] == 'B' && b[1] == 'E' && b[2] == 'G' && b[3] == 'I' && b[4] == 'N';
    assert c[0] == 'C' && c[1] == 'O' && c[2] == 'M' && c[3] == 'M' && c[4] == 'I' && c[5] == 'T';
  }

  /** Statements that begin with BEGIN open a transaction, those that begin with COMMIT close it, and no others. */
  lemma SqlMeans(q: Sql)
    requires GoodSql(q)
    ensures SqlEffect(SqlText(q)) == MeaningOf(q)
  {
    Words();
    hide Codes;
    assert BEGIN_SQL[0] == 66 && COMMIT_SQL[0] == 67;
    match q {
      case Begins(rest) => assert (BEGIN_SQL + rest)[..5] == BEGIN_SQL;
      case Commits(rest) =>
        assert (COMMIT_SQL + rest)[..6] == COMMIT_SQL;
        assert (COMMIT_SQL + rest)[0] == 67;
      case Plain(_) =>
    }
  }

  /** Every statement is one of these. */
  function SqlOf(s: bytes): (q: Sql)
    ensures GoodSql(q) && SqlText(q) == s
  {
    if Codes("BEGIN") <= s then Begins(s[5..]) else if Codes("COMMIT") <= s then Commits(s[6..]) else Plain(s)
  }

  /** Thread id and time, name length, error code, status variables, database name, statement. */
  function QueryBody(head: bytes, err: bytes, status: bytes, db: bytes, sql: bytes): (s: bytes)
    requires GoodText(db)
  {
    head + ([|db|] + (err + (ToLE(|status|, 2) + (status + ((db + [NUL]) + sql)))))
  }

  lemma EffectOfFirstPart(sql: bytes)
    ensures SqlEffect(sql[..if SQL_MAX < |sql| then SQL_MAX else |sql|]) == SqlEffect(sql)
  {
    var t := sql[..if SQL_MAX < |sql| then SQL_MAX else |sql|];
    assert BEGIN_SQL <= t <==> BEGIN_SQL <= sql;
    assert COMMIT_SQL <= t <==> COMMIT_SQL <= sql;
  }

  lemma QueryPieces(head: bytes, n: byte, err: bytes, len: bytes, status: bytes, inner: bytes)
    requires |head| == 8 && |err| == 2 && |len| == 2
    ensures var body := head + ([n] + (err + (len + (status + inner))));
            |body| == 13 + |status| + |inner| && body[8] == n && body[11..13] == len && body[13 + |status|..] == inner
  {
    var body := head + ([n] + (err + (len + (status + inner))));
    assert body[11..] == len + (status + inner);
    assert body[11..][..2] == body[11..13];
    assert body[13..] == status + inner;
    assert body[13..][|status|..] == body[13 + |status|..];
  }

  /** A query event gives back its database name and what its statement does to the transaction. */
  lemma QueryRoundTrip(head: bytes, err: bytes, status: bytes, db: bytes, q: Sql)
    requires GoodText(db) && |head| == 8 && |err| == 2 && |status| < 0x1_0000 && GoodSql(q)
    ensures ParseQuery(QueryBody(head, err, status, db, SqlText(q))) == Some(Query(db, MeaningOf(q)))
  {
    hide CStr, SqlEffect, ToLE, FromLE, GoodSql, SqlText, MeaningOf;
    var sql := SqlText(q);
    SqlMeans(q);
    EffectOfFirstPart(sql);
    CStrOfName(db);
    U16Digits(|status|);
    var inner := (db + [NUL]) + sql;
    QueryPieces(head, |db|, err, ToLE(|status|, 2), status, inner);
    var body := QueryBody(head, err, status, db, sql);
    var at := 13 + |status|;
    assert inner[..|db| + 1] == db + [NUL] && inner[|db| + 1..] == sql;
    assert body[at..][..|db| + 1] == body[at..at + |db| + 1];
    assert body[at..][|db| + 1..] == body[at + |db| + 1..];
  }

  // ----- A table map and its rows -------------------------------------------------------------------

  /**
   * From the bytes of the two events to the handlers of the slave: whatever the session
   * read before, the rows of a listed table lead to one frame, and that to exactly these
   * rows, in order, up to the first that cannot be copied, where their layouts agree.
   */
  lemma RowsArrive(tables: bytes, s: Info, localId: nat, svrid: nat, file: bytes, num: nat, p1: nat, p2: nat,
                   mapId: bytes, db: bytes, tb: bytes, tail: bytes,
                   kind: byte, rowId: bytes, ds: seq<ColumnDef>, rows: seq<RowValues>, to: Target)
    requires GoodText(db) && GoodText(tb) && |mapId| == 8 && |rowId| == 8 && IsRowsType(kind)
    requires NUL !in file && NEWLINE !in file && Listed(tables, db, tb)
    requires GoodTable(ds) && GoodRows(ds, rows) && |Metas(ds)| <= 250 && RowsAgree(ds, Metas(ds), rows, None)
    ensures var body := EventBody(kind, rowId, ds, rows);
            var map1 := Decode(localId, TABLE_MAP_EVENT, svrid, MapBody(mapId, db, tb, Types(ds), Metas(ds), tail));
            map1.Some? && Decode(localId, kind, svrid, body) == Some(Rows(kind, body)) &&
            var fs := RowRun(tables, s, [Stamped(file, num, p1, map1.value), Stamped(file, num, p2, Rows(kind, body))]);
            |fs| == 1 && fs[0].at == Stamp(file, p2) &&
            var r := SplitFrame(Encode(fs[0]));
            r.Dispatch? && r.kind == kind && r.table == TableName(db, tb) &&
            DecodeRows(r.payload, r.kind, to) == Handled(kind, rows, false, to)
  {
    hide MapBody, EventBody, Types, Metas, RowsAgree, DecodeRows, SplitFrame, Encode, Handled, TableName, Listed;
    hide GoodRows, ParseTableMap, ParseQuery;
    TableSize(ds);
    hide GoodTable;
    TableMapIff(mapId, db, tb, Types(ds), Metas(ds), tail);
    var body := EventBody(kind, rowId, ds, rows);
    var e1 := Stamped(file, num, p1, TableMap(db, tb, Types(ds), Metas(ds)));
    var e2 := Stamped(file, num, p2, Rows(kind, body));
    OneFrame(tables, s, e1, e2);
    FrameRoundTrip(Stamp(file, p2), db, tb, kind, rowId, ds, rows, to);
  }

  lemma OneFrame(tables: bytes, s: Info, e1: Stamped, e2: Stamped)
    requires e1.ev.TableMap? && e2.ev.Rows? && Listed(tables, e1.ev.db, e1.ev.tb)
    ensures RowRun(tables, s, [e1, e2]) ==
            [RowFrame(Stamp(e2.file, e2.pos), e2.ev.kind, e1.ev.db, e1.ev.tb, e1.ev.ct, e1.ev.cm, e2.ev.data)]
  {
    hide Listed;
    var evs := [e1, e2];
    var s1 := Step(tables, s, e1).0;
    assert evs[1..] == [e2] && [e2][1..] == [];
    StepState(tables, s, e1);
    RowRunCons(tables, s, evs);
    RowRunCons(tables, s1, [e2]);
  }
}
