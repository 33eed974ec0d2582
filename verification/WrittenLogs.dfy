/**
 * Whole binary logs as MySQL writes them, from their bytes to the rows the slave's handlers
 * are given.
 */
module WrittenLogs {
  import opened Bytes
  import opened BinlogEvents
  import opened Frames
  import opened Replication
  import opened Streams
  import opened ColumnTypes
  import opened RowImages
  import opened RowRoundTrip
  import opened RowEvents
  import opened RowDelivery
  import opened EventBodies
  import opened Slave

  // ----- What is written ---------------------------------------------------------------

  datatype Text =
    | Statement(head: bytes, err: bytes, status: bytes, db: bytes, sql: Sql)
    | Commit(xid: bytes)
    | Map(id: bytes, db: bytes, tb: bytes, ds: seq<ColumnDef>, tail: bytes)
    | RowsText(kind: byte, id: bytes, rows: seq<RowValues>)
    | Stops(code: byte, body: bytes)
    | Other(code: byte, body: bytes)

  /** An event with its header: time, server, and what follows the length. */
  datatype Entry = Entry(time: bytes, server: nat, more: bytes, text: Text)

  /** The table of the map before, and whether its rows have begun. */
  datatype Table = Table(db: bytes, tb: bytes, ds: seq<ColumnDef>, begun: bool)

  /** Where a log stands: inside a transaction or not, and behind which map of the statement. */
  datatype Spot = At(tran: bool, table: Option<Table>)

  const START: Spot := At(false, None)

  predicate TooLong(t: Text)
    requires t.Statement? && GoodText(t.db)
  {
    |QueryBody(t.head, t.err, t.status, t.db, SqlText(t.sql))| > 2048
  }

  /** The text may stand there: rows behind their map, and only one event of them outside a transaction. */
  predicate GoodAt(t: Text, at: Spot) {
    match t
    case Statement(head, err, status, db, sql) =>
      GoodText(db) && |head| == 8 && |err| == 2 && |status| < 0x1_0000 && GoodSql(sql)
    case Commit(xid) => |xid| <= 8
    case Map(id, db, tb, ds, _) => GoodText(db) && GoodText(tb) && |id| == 8 && GoodTable(ds) && |Metas(ds)| <= 250
    case RowsText(kind, id, rows) =>
      (kind == 23 || kind == 24 || kind == 25) && |id| == 8 && at.table.Some? && GoodTable(at.table.value.ds) &&
      GoodRows(at.table.value.ds, rows) && (at.tran || !at.table.value.begun)
    case Stops(code, _) => code == 3 || code == 4
    case Other(code, body) => Passes(code) && (code == 5 ==> |body| >= 9)
  }

  /** Events the reader passes over: not queries, stops, rotations, commits, table maps or rows. */
  predicate Passes(code: byte) {
    code != 2 && code != 3 && code != 4 && code != 16 && code != 19 && code != 23 && code != 24 && code != 25
  }

  function Behind(t: Text, at: Spot): (r: Spot)
    requires GoodAt(t, at)
  {
    match t
    case Statement(_, _, _, _, sql) =>
      if TooLong(t) then at else At(sql.Begins? || (at.tran && !sql.Commits?), None)
    case Commit(_) => At(false, None)
    case Map(_, db, tb, ds, _) => At(at.tran, Some(Table(db, tb, ds, false)))
    case RowsText(_, _, _) => at.(table := Some(at.table.value.(begun := true)))
    case Stops(_, _) => at
    case Other(_, _) => at
  }

  predicate GoodEntry(e: Entry, at: Spot) {
    |e.time| == 4 && e.server < U32_LIMIT && |e.more| == 6 && GoodAt(e.text, at)
  }

  predicate GoodLog(log: seq<Entry>, at: Spot) {
    log == [] || (GoodEntry(log[0], at) && GoodLog(log[1..], Behind(log[0].text, at)))
  }

  function SpotAfter(log: seq<Entry>, at: Spot): (r: Spot)
    requires GoodLog(log, at)
  {
    if log == [] then at else SpotAfter(log[1..], Behind(log[0].text, at))
  }

  /** Type code and body, as they stand in the file. */
  function TypeOfText(t: Text): (c: byte) {
    match t
    case Statement(_, _, _, _, _) => 2
    case Commit(_) => 16
    case Map(_, _, _, _, _) => 19
    case RowsText(kind, _, _) => kind
    case Stops(code, _) => code
    case Other(code, _) => code
  }

  function BodyOf(t: Text, at: Spot): (s: bytes)
    requires GoodAt(t, at)
  {
    match t
    case Statement(head, err, status, db, sql) => QueryBody(head, err, status, db, SqlText(sql))
    case Commit(xid) => xid
    case Map(id, db, tb, ds, tail) => MapBody(id, db, tb, Types(ds), Metas(ds), tail)
    case RowsText(kind, id, rows) => EventBody(kind, id, at.table.value.ds, rows)
    case Stops(_, body) => body
    case Other(_, body) => body
  }

  /** Header and body: the length in the header counts both. */
  function EntryText(e: Entry, at: Spot): (s: bytes)
    requires GoodEntry(e, at)
  {
    var body := BodyOf(e.text, at);
    (e.time + [TypeOfText(e.text)] + ToLE(e.server, 4) + ToLE(19 + |body|, 4) + e.more) + body
  }

  function LogText(log: seq<Entry>, at: Spot): (s: bytes)
    requires GoodLog(log, at)
  {
    if log == [] then [] else EntryText(log[0], at) + LogText(log[1..], Behind(log[0].text, at))
  }

  /** No stop or rotate event is of this server. */
  predicate Foreign(localId: nat, log: seq<Entry>) {
    forall i :: 0 <= i < |log| && log[i].text.Stops? ==> log[i].server != localId
  }

  /** A file behind its magic number: events, and perhaps a stop or rotate event of the local server. */
  datatype Volume = Volume(log: seq<Entry>, close: Option<Entry>, more: bytes)

  /** The file ends with too little for a header, or with a stop or rotate event of this server. */
  predicate Closed(localId: nat, v: Volume) {
    match v.close
    case None => |v.more| < 19
    case Some(e) => GoodEntry(e, START) && e.text.Stops? && e.server == localId
  }

  function LastText(localId: nat, v: Volume): (s: bytes)
    requires Closed(localId, v)
  {
    match v.close
    case None => v.more
    case Some(e) => EntryText(e, START) + v.more
  }

  const MAGIC: bytes := [254, 98, 105, 110]

  /** The files of the index from line `i` on are written from these volumes. */
  predicate Written(localId: nat, b: Binlog, i: nat, vols: seq<Volume>, at: Spot)
    requires i <= |b.index|
    decreases |b.index| - i
  {
    if i == |b.index| then vols == []
    else
      vols != [] && GoodLog(vols[0].log, at) && Foreign(localId, vols[0].log) && Closed(localId, vols[0]) &&
      b.index[i] in b.files &&
      (var data := b.files[b.index[i]];
       |data| < U32_LIMIT && data == MAGIC + (LogText(vols[0].log, at) + LastText(localId, vols[0]))) &&
      Written(localId, b, i + 1, vols[1..], SpotAfter(vols[0].log, at))
  }

  /** All that is written, file by file. */
  function WholeLog(vols: seq<Volume>): (log: seq<Entry>) {
    if vols == [] then [] else vols[0].log + WholeLog(vols[1..])
  }

  // ----- What is read ----------------------------------------------------------------------

  /** What the master makes of one text, if it is no stop or rotate event of its own server. */
  predicate ReadsAs(t: Text, at: Spot, ev: Event)
    requires GoodAt(t, at)
  {
    match t
    case Statement(_, _, _, db, sql) => ev == if TooLong(t) then Quiet else Query(db, MeaningOf(sql))
    case Commit(_) => ev == Xid
    case Map(_, db, tb, ds, _) => ev == TableMap(db, tb, Types(ds), Metas(ds))
    case RowsText(kind, id, rows) => ev == Rows(kind, EventBody(kind, id, at.table.value.ds, rows))
    case Stops(_, _) => ev == Quiet
    case Other(code, _) => ev == if 1 <= code <= 27 then Quiet else Unknown
  }

  /** `evs` are the events the master makes of the log. */
  predicate ReadFrom(log: seq<Entry>, at: Spot, evs: seq<Stamped>)
    requires GoodLog(log, at)
  {
    |evs| == |log| &&
    (log == [] ||
     (ReadsAs(log[0].text, at, evs[0].ev) && ReadFrom(log[1..], Behind(log[0].text, at), evs[1..])))
  }

  lemma TextIsRead(localId: nat, svrid: nat, t: Text, at: Spot)
    requires GoodAt(t, at)
    ensures var ev := Decode(localId, TypeOfText(t), svrid, BodyOf(t, at));
            ev.Some? && (ev.value == Switch <==> t.Stops? && svrid == localId) &&
            (ev.value != Switch ==> ReadsAs(t, at, ev.value))
  {
    hide ParseQuery, ParseTableMap, QueryBody, MapBody, EventBody, Types, Metas, GoodRows, GoodText, SqlText;
    hide GoodSql, MeaningOf;
    match t
    case Statement(head, err, status, db, sql) => QueryRoundTrip(head, err, status, db, sql);
    case Commit(_) =>
    case Map(id, db, tb, ds, tail) =>
      TableSize(ds);
      hide GoodTable;
      TableMapIff(id, db, tb, Types(ds), Metas(ds), tail);
    case RowsText(_, _, _) =>
    case Stops(_, _) =>
    case Other(_, _) =>
  }

  lemma HeaderParts(time: bytes, code: byte, server: bytes, len: bytes, more: bytes, rest: bytes, data: bytes, pos: nat)
    requires |time| == |server| == |len| == 4 && |more| == 6 && pos <= |data|
    requires data[pos..] == (time + [code] + server + len + more) + rest
    ensures HasHeader(data, pos) && HeaderAt(data, pos) == time + [code] + server + len + more
    ensures HeaderAt(data, pos)[4] == code && HeaderAt(data, pos)[5..9] == server && HeaderAt(data, pos)[9..13] == len
    ensures data[pos + HEADER_LEN..] == rest
  {
    assert data[pos..][..HEADER_LEN] == time + [code] + server + len + more;
    assert data[pos..][HEADER_LEN..] == rest;
  }

  lemma LengthDigits(n: nat)
    requires n < U32_LIMIT
    ensures |ToLE(n, 4)| == 4 && FromLE(ToLE(n, 4)) == n
  {
    U32RoundTrip(n);
  }

  /**
   * One event, found again where it was written. It makes the reader go to the next file exactly if it
   * is a stop or rotate event with the local server's number in its header.
   */
  lemma EntryIsRead(localId: nat, data: bytes, pos: nat, e: Entry, at: Spot, rest: bytes)
    requires GoodEntry(e, at) && pos <= |data| < U32_LIMIT && data[pos..] == EntryText(e, at) + rest
    ensures WholeAt(data, pos) && data[pos + LenAt(data, pos)..] == rest
    ensures var ev := DecodeAt(localId, data, pos);
            ev.Some? && (ev.value == Switch <==> e.text.Stops? && e.server == localId) &&
            (ev.value != Switch ==> ReadsAs(e.text, at, ev.value))
  {
    hide GoodAt, BodyOf, TypeOfText, ReadsAs, Decode, FromLE, ToLE;
    var body, len := BodyOf(e.text, at), HEADER_LEN + |BodyOf(e.text, at)|;
    assert len <= |data|;
    LengthDigits(len);
    LengthDigits(e.server);
    assert data[pos..] ==
           (e.time + [TypeOfText(e.text)] + ToLE(e.server, 4) + ToLE(len, 4) + e.more) + (body + rest);
    HeaderParts(e.time, TypeOfText(e.text), ToLE(e.server, 4), ToLE(len, 4), e.more, body + rest, data, pos);
    assert data[pos + HEADER_LEN..][..|body|] == body && data[pos + HEADER_LEN..][|body|..] == rest;
    assert BodyAt(data, pos) == body;
    TextIsRead(localId, e.server, e.text, at);
  }

  lemma ClosingEnds(localId: nat, file: bytes, num: nat, data: bytes, pos: nat, v: Volume)
    requires Closed(localId, v) && pos <= |data| < U32_LIMIT && data[pos..] == LastText(localId, v)
    ensures WellFormed(localId, data, pos) && EventsFrom(localId, file, num, data, pos) == []
  {
    hide Decode, EntryText, GoodAt, ReadsAs;
    if v.close.Some? {
      EntryIsRead(localId, data, pos, v.close.value, START, v.more);
    }
  }

  /** A file: well formed, and read as what was written. */
  lemma {:induction false} FileIsRead(localId: nat, file: bytes, num: nat, data: bytes, pos: nat, log: seq<Entry>,
                                      at: Spot, v: Volume)
    requires GoodLog(log, at) && Foreign(localId, log) && Closed(localId, v) && pos <= |data| < U32_LIMIT
    requires data[pos..] == LogText(log, at) + LastText(localId, v)
    ensures WellFormed(localId, data, pos) && ReadFrom(log, at, EventsFrom(localId, file, num, data, pos))
    decreases |log|
  {
    hide GoodAt, Behind, ReadsAs, EntryText, Closed, LastText, Decode;
    if log == [] {
      assert data[pos..] == LastText(localId, v);
      ClosingEnds(localId, file, num, data, pos, v);
    } else {
      var rest := LogText(log[1..], Behind(log[0].text, at)) + LastText(localId, v);
      assert data[pos..] == EntryText(log[0], at) + rest;
      EntryIsRead(localId, data, pos, log[0], at, rest);
      FileIsRead(localId, file, num, data, pos + LenAt(data, pos), log[1..], Behind(log[0].text, at), v);
    }
  }

  /** What is written behind the magic number, from there on. */
  lemma VolumeIsRead(localId: nat, file: bytes, num: nat, data: bytes, v: Volume, at: Spot)
    requires GoodLog(v.log, at) && Foreign(localId, v.log) && Closed(localId, v) && |data| < U32_LIMIT
    requires data == MAGIC + (LogText(v.log, at) + LastText(localId, v))
    ensures WellFormed(localId, data, MAGIC_LEN) && ReadFrom(v.log, at, EventsFrom(localId, file, num, data, MAGIC_LEN))
  {
    hide GoodLog, LogText, LastText, Closed, Foreign, WellFormed, EventsFrom, ReadFrom;
    assert data[MAGIC_LEN..] == LogText(v.log, at) + LastText(localId, v);
    FileIsRead(localId, file, num, data, MAGIC_LEN, v.log, at, v);
  }

  lemma {:induction false} ReadAppend(a: seq<Entry>, b: seq<Entry>, at: Spot, evs: seq<Stamped>, fvs: seq<Stamped>)
    requires GoodLog(a, at) && GoodLog(b, SpotAfter(a, at))
    requires ReadFrom(a, at, evs) && ReadFrom(b, SpotAfter(a, at), fvs)
    ensures GoodLog(a + b, at) && ReadFrom(a + b, at, evs + fvs)
    decreases |a|
  {
    hide GoodAt, Behind, ReadsAs;
    if a == [] {
      assert a + b == b && evs + fvs == fvs;
    } else {
      ReadAppend(a[1..], b, Behind(a[0].text, at), evs[1..], fvs);
      assert (a + b)[1..] == a[1..] + b && (evs + fvs)[1..] == evs[1..] + fvs;
    }
  }

  lemma {:induction false} VolumesAreGood(localId: nat, b: Binlog, i: nat, vols: seq<Volume>, at: Spot)
    requires i <= |b.index| && Written(localId, b, i, vols, at)
    ensures forall j :: i <= j < |b.index| ==>
              b.index[j] in b.files && WellFormed(localId, b.files[b.index[j]], MAGIC_LEN)
    decreases |b.index| - i
  {
    hide GoodLog, LogText, LastText, WellFormed, Closed, Foreign;
    if i < |b.index| {
      VolumeIsRead(localId, b.index[i], NameNumber(b.index[i]), b.files[b.index[i]], vols[0], at);
      VolumesAreGood(localId, b, i + 1, vols[1..], SpotAfter(vols[0].log, at));
    }
  }

  lemma {:induction false} VolumesAreRead(localId: nat, b: Binlog, i: nat, vols: seq<Volume>, at: Spot)
    requires i <= |b.index| && Written(localId, b, i, vols, at) && GoodBinlog(localId, b)
    ensures GoodLog(WholeLog(vols), at) && ReadFrom(WholeLog(vols), at, FilesFrom(localId, b, i))
    decreases |b.index| - i
  {
    hide LogText, LastText, WellFormed, Closed, Foreign, GoodIndex, ReadsAs, GoodEntry;
    if i < |b.index| {
      var v, next := vols[0], SpotAfter(vols[0].log, at);
      var data, num := b.files[b.index[i]], NameNumber(b.index[i]);
      VolumeIsRead(localId, b.index[i], num, data, v, at);
      VolumesAreRead(localId, b, i + 1, vols[1..], next);
      ReadAppend(v.log, WholeLog(vols[1..]), at, EventsFrom(localId, b.index[i], num, data, MAGIC_LEN),
                 FilesFrom(localId, b, i + 1));
    }
  }

  /** A session that begins with the first file of an increasing index reads all that is written. */
  lemma BinlogIsRead(localId: nat, b: Binlog, vols: seq<Volume>)
    requires b.index != [] && GoodIndex(b.index) && IncreasingIndex(b.index)
    requires Written(localId, b, 0, vols, START)
    ensures GoodBinlog(localId, b) && GoodLog(WholeLog(vols), START)
    ensures ReadFrom(WholeLog(vols), START,
                     Stream(localId, b, b.index[0], NameNumber(b.index[0]), MAGIC_LEN))
  {
    hide Written, WellFormed, GoodLog, ReadFrom, EventsFrom, IncreasingIndex, NameNumber;
    VolumesAreGood(localId, b, 0, vols, START);
    VolumesAreRead(localId, b, 0, vols, START);
    NoFileSkipped(localId, b, 0, MAGIC_LEN);
  }

  // ----- What it is for ------------------------------------------------------------------

  /** The rows of listed tables, in order, as the handlers of these tables are to get them. */
  function DueRows(tables: bytes, log: seq<Entry>, at: Spot): (cs: seq<TableCall>)
    requires GoodLog(log, at)
  {
    if log == [] then []
    else
      var rest := DueRows(tables, log[1..], Behind(log[0].text, at));
      match log[0].text
      case RowsText(kind, _, rows) =>
        var t := at.table.value;
        if Listed(tables, t.db, t.tb) then ForTable(TableName(t.db, t.tb), CallsFor(kind, rows, false)) + rest
        else rest
      case _ => rest
  }

  /** Listed tables have handlers, their rows' layouts agree, and their values can be copied. */
  predicate Deliverable(registered: map<bytes, Target>, tables: bytes, log: seq<Entry>, at: Spot)
    requires GoodLog(log, at)
  {
    log == [] ||
    ((log[0].text.RowsText? && Listed(tables, at.table.value.db, at.table.value.tb) ==>
        var t := at.table.value;
        TableName(t.db, t.tb) in registered && RowsAgree(t.ds, Metas(t.ds), log[0].text.rows, None) &&
        RowsPlaced(registered[TableName(t.db, t.tb)], log[0].text.rows)) &&
     Deliverable(registered, tables, log[1..], Behind(log[0].text, at)))
  }

  // ----- The master ----------------------------------------------------------------------

  /** The session has read up to there. */
  predicate Knows(s: Info, tables: bytes, at: Spot) {
    s.tran == at.tran &&
    (at.table.Some? ==>
       var t := at.table.value;
       s.db == t.db && s.tb == t.tb && s.ct == Types(t.ds) && s.cm == Metas(t.ds) &&
       GoodText(t.db) && GoodText(t.tb) &&
       (Listed(tables, t.db, t.tb) ==> !s.filter) &&
       (!Listed(tables, t.db, t.tb) && (at.tran || !t.begun) ==> s.filter))
  }

  /** One event: what it leaves in the session, and what it sends. */
  lemma TextStep(tables: bytes, s: Info, t: Text, at: Spot, e: Stamped)
    requires GoodAt(t, at) && Knows(s, tables, at) && ReadsAs(t, at, e.ev)
    ensures Knows(Step(tables, s, e).0, tables, Behind(t, at))
    ensures Emits(s, e.ev) <==> t.RowsText? && Listed(tables, at.table.value.db, at.table.value.tb)
  {
    StepState(tables, s, e);
    hide Step, Listed, QueryBody, EventBody, Types, Metas, GoodRows, GoodTable, GoodText, SqlText, GoodSql;
  }

  // ----- The slave -------------------------------------------------------------------------

  /** The frame of a listed table's rows, on the slave. */
  lemma FrameIsHandled(registered: map<bytes, Target>, s: Info, t: Text, at: Spot, e: Stamped, tables: bytes)
    requires GoodAt(t, at) && Knows(s, tables, at) && ReadsAs(t, at, e.ev) && t.RowsText?
    requires NUL !in e.file && NEWLINE !in e.file
    requires var b := at.table.value;
             TableName(b.db, b.tb) in registered && RowsAgree(b.ds, Metas(b.ds), t.rows, None) &&
             RowsPlaced(registered[TableName(b.db, b.tb)], t.rows)
    ensures var b := at.table.value;
            var f := EffectOf(registered, Encode(RowFrameOf(s, e)), None);
            f.end == GoesOn && f.rows == ForTable(TableName(b.db, b.tb), CallsFor(t.kind, t.rows, false))
  {
    hide EventBody, Types, Metas, RowsAgree, DecodeRows, SplitFrame, Encode, Handled, TableName, GoodTable, GoodRows;
    hide RowsPlaced, CallsFor, Listed;
    var b := at.table.value;
    var to := registered[TableName(b.db, b.tb)];
    FrameRoundTrip(Stamp(e.file, e.pos), b.db, b.tb, t.kind, t.id, b.ds, t.rows, to);
    HandledIff(t.kind, t.rows, false, to);
  }

  /** The rows handed on for some frames, one after the other, if nothing ends the thread. */
  function RowsOfAll(registered: map<bytes, Target>, fs: seq<Frame>): (cs: seq<TableCall>) {
    if fs == [] then [] else EffectOf(registered, Encode(fs[0]), None).rows + RowsOfAll(registered, fs[1..])
  }

  predicate AllGo(registered: map<bytes, Target>, fs: seq<Frame>) {
    forall f <- fs :: EffectOf(registered, Encode(f), None).end == GoesOn
  }

  /** The row frames of a log lead to exactly the rows due. */
  lemma {:induction false} RowFramesArrive(tables: bytes, registered: map<bytes, Target>, s: Info,
                                           log: seq<Entry>, at: Spot, evs: seq<Stamped>)
    requires GoodLog(log, at) && ReadFrom(log, at, evs) && Knows(s, tables, at)
    requires Deliverable(registered, tables, log, at)
    requires forall e <- evs :: NUL !in e.file && NEWLINE !in e.file
    ensures AllGo(registered, RowRun(tables, s, evs))
    ensures RowsOfAll(registered, RowRun(tables, s, evs)) == DueRows(tables, log, at)
    decreases |log|
  {
    hide GoodAt, Behind, Knows, ReadsAs, EffectOf, Encode, Step, RowRun, Listed, RowsAgree, RowsPlaced;
    hide ForTable, CallsFor, TableName;
    if log == [] {
      NoFrames(tables, s, registered);
    } else {
      var t, e := log[0].text, evs[0];
      TextStep(tables, s, t, at, e);
      var s1 := Step(tables, s, e).0;
      RowFramesArrive(tables, registered, s1, log[1..], Behind(t, at), evs[1..]);
      RowRunCons(tables, s, evs);
      assert e in evs;
      if Emits(s, e.ev) {
        FrameIsHandled(registered, s, t, at, e, tables);
        var f, rest := RowFrameOf(s, e), RowRun(tables, s1, evs[1..]);
        assert ([f] + rest)[1..] == rest;
      }
    }
  }

  lemma NoFrames(tables: bytes, s: Info, registered: map<bytes, Target>)
    ensures RowRun(tables, s, []) == [] && AllGo(registered, []) && RowsOfAll(registered, []) == []
  {
  }

  // ----- Whole runs ------------------------------------------------------------------------

  /** No handler fails. */
  function NoneFail(n: nat): (rs: seq<Option<nat>>)
    ensures |rs| == n && forall i :: 0 <= i < n ==> rs[i] == None
  {
    seq(n, i => None)
  }

  lemma PositionGoesOn(registered: map<bytes, Target>, f: Frame)
    requires f.PosFrame? && GoodFrame(f)
    ensures EffectOf(registered, Encode(f), None) == Effect([], [], GoesOn)
  {
    hide Encode, SplitFrame, DecodeRows, StampText;
    SplitEncode(f);
  }

  lemma ConsRows(registered: map<bytes, Target>, f: Frame, rest: seq<Frame>)
    ensures RowsOfAll(registered, [f] + rest) ==
            EffectOf(registered, Encode(f), None).rows + RowsOfAll(registered, rest)
    ensures AllGo(registered, [f] + rest) <==>
            EffectOf(registered, Encode(f), None).end == GoesOn && AllGo(registered, rest)
  {
    hide EffectOf, Encode;
    var all := [f] + rest;
    assert all[1..] == rest;
    assert forall g :: g in all <==> g == f || g in rest;
  }

  /** Position-only frames neither end the thread nor hand on rows. */
  lemma {:induction false} RowFramesMatter(registered: map<bytes, Target>, fs: seq<Frame>)
    requires forall f <- fs :: f.PosFrame? ==> GoodFrame(f)
    ensures AllGo(registered, fs) <==> AllGo(registered, RowsOnly(fs))
    ensures RowsOfAll(registered, fs) == RowsOfAll(registered, RowsOnly(fs))
    decreases |fs|
  {
    hide EffectOf, Encode, GoodFrame, AllGo, RowsOfAll;
    if fs != [] {
      RowFramesMatter(registered, fs[1..]);
      assert fs == [fs[0]] + fs[1..];
      ConsRows(registered, fs[0], fs[1..]);
      if fs[0].PosFrame? {
        PositionGoesOn(registered, fs[0]);
        assert RowsOnly(fs) == RowsOnly(fs[1..]);
        assert [] + RowsOfAll(registered, fs[1..]) == RowsOfAll(registered, fs[1..]);
      } else {
        assert RowsOnly(fs) == [fs[0]] + RowsOnly(fs[1..]);
        ConsRows(registered, fs[0], RowsOnly(fs[1..]));
      }
    }
  }

  lemma {:induction false} RowsOfAllSnoc(registered: map<bytes, Target>, fs: seq<Frame>, f: Frame)
    ensures RowsOfAll(registered, fs + [f]) == RowsOfAll(registered, fs) + EffectOf(registered, Encode(f), None).rows
    decreases |fs|
  {
    hide EffectOf, Encode;
    if fs == [] {
      assert fs + [f] == [f] && [f][1..] == [];
    } else {
      RowsOfAllSnoc(registered, fs[1..], f);
      assert (fs + [f])[1..] == fs[1..] + [f];
    }
  }

  /** Counted from the front or from the back, it is the same rows. */
  lemma {:induction false} RowsDoneAre(registered: map<bytes, Target>, fs: seq<Frame>)
    ensures RowsDone(registered, fs, NoneFail(|fs|)) == RowsOfAll(registered, fs)
    decreases |fs|
  {
    hide EffectOf, Encode, RowsOfAll;
    if fs == [] {
      NoFrames([], FRESH, registered);
    } else {
      var n := |fs| - 1;
      RowsDoneAre(registered, fs[..n]);
      RowsOfAllSnoc(registered, fs[..n], fs[n]);
      assert fs == fs[..n] + [fs[n]];
      assert NoneFail(|fs|)[..n] == NoneFail(n);
    }
  }

  lemma AllGoThrough(registered: map<bytes, Target>, fs: seq<Frame>)
    requires AllGo(registered, fs)
    ensures Through(registered, fs, NoneFail(|fs|)) == |fs|
  {
    hide EffectOf, Encode, Through;
    assert forall i :: 0 <= i < |fs| ==> fs[i] in fs;
    ThroughIs(registered, fs, NoneFail(|fs|), |fs|);
  }

  lemma PositionsAreGood(tables: bytes, s: Info, evs: seq<Stamped>)
    requires forall e <- evs :: NUL !in e.file && NEWLINE !in e.file
    ensures forall f <- Run(tables, s, evs).1 :: f.PosFrame? ==> GoodFrame(f)
  {
    hide Run;
    FramesAreStamped(tables, s, evs);
  }

  /**
   * From what MySQL wrote to what the handlers are given: every frame of the run goes
   * through the slave, and the rows handed on are those of the listed tables, in order,
   * as they were written.
   */
  lemma LogArrives(tables: bytes, registered: map<bytes, Target>, log: seq<Entry>, evs: seq<Stamped>)
    requires GoodLog(log, START) && ReadFrom(log, START, evs) && Deliverable(registered, tables, log, START)
    requires forall e <- evs :: NUL !in e.file && NEWLINE !in e.file
    ensures var fs := Run(tables, FRESH, evs).1;
            Through(registered, fs, NoneFail(|fs|)) == |fs| &&
            RowsDone(registered, fs, NoneFail(|fs|)) == DueRows(tables, log, START)
  {
    hide GoodLog, ReadFrom, Deliverable, DueRows, Run, RowsDone, Through, AllGo, RowsOfAll;
    var fs := Run(tables, FRESH, evs).1;
    RowFramesArrive(tables, registered, FRESH, log, START, evs);
    PositionsAreGood(tables, FRESH, evs);
    RowFramesMatter(registered, fs);
    RowsDoneAre(registered, fs);
    AllGoThrough(registered, fs);
  }

  lemma {:induction false} StreamFiles(localId: nat, b: Binlog, i: nat)
    requires GoodBinlog(localId, b) && i <= |b.index|
    ensures forall e <- FilesFrom(localId, b, i) :: e.file in b.index
    decreases |b.index| - i
  {
    hide WellFormed, NameNumber;
    if i < |b.index| {
      StreamFiles(localId, b, i + 1);
      EventsName(localId, b.index[i], NameNumber(b.index[i]), b.files[b.index[i]], MAGIC_LEN);
    }
  }

  lemma {:induction false} EventsName(localId: nat, file: bytes, num: nat, data: bytes, pos: nat)
    requires WellFormed(localId, data, pos)
    ensures forall e <- EventsFrom(localId, file, num, data, pos) :: e.file == file
    decreases |data| - pos
  {
    hide Decode;
    if EventsFrom(localId, file, num, data, pos) != [] {
      EventsName(localId, file, num, data, pos + LenAt(data, pos));
    }
  }

  /** The same from the bytes of all files of a binlog. */
  lemma BinlogArrives(localId: nat, b: Binlog, vols: seq<Volume>, tables: bytes, registered: map<bytes, Target>)
    requires b.index != [] && GoodIndex(b.index) && IncreasingIndex(b.index)
    requires forall f <- b.index :: NUL !in f && NEWLINE !in f
    requires Written(localId, b, 0, vols, START) && GoodLog(WholeLog(vols), START)
    requires Deliverable(registered, tables, WholeLog(vols), START)
    ensures GoodBinlog(localId, b)
    ensures var evs := Stream(localId, b, b.index[0], NameNumber(b.index[0]), MAGIC_LEN);
            var fs := Run(tables, FRESH, evs).1;
            Through(registered, fs, NoneFail(|fs|)) == |fs| &&
            RowsDone(registered, fs, NoneFail(|fs|)) == DueRows(tables, WholeLog(vols), START)
  {
    hide Written, WellFormed, GoodLog, ReadFrom, EventsFrom, Run, Through, RowsDone, DueRows, Deliverable;
    hide IncreasingIndex, NameNumber;
    BinlogIsRead(localId, b, vols);
    StreamFiles(localId, b, 0);
    NoFileSkipped(localId, b, 0, MAGIC_LEN);
    LogArrives(tables, registered, WholeLog(vols), Stream(localId, b, b.index[0], NameNumber(b.index[0]), MAGIC_LEN));
  }
}
