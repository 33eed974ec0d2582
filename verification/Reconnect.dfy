/**
 * From a frame a slave has received to the session that takes over: the
 * position text travels through frame, slave and dump command, and the new
 * session reads on exactly where the frame was made.
 */
module Reconnect {
  import opened Bytes
  import opened BinlogEvents
  import opened Frames
  import opened Replication
  import opened Resume
  import opened Streams
  import opened DumpCommand
  import opened Slave
  import opened Takeovers

  // ----- Frames of a real binlog can be taken apart ------------------------------

  predicate CleanEvent(e: Stamped) {
    GoodStamp(Stamp(e.file, e.pos)) &&
    match e.ev
    case TableMap(db, tb, _, _) => NUL !in db && NUL !in tb
    case Query(qdb, _) => NUL !in qdb
    case Rows(kind, _) => IsRowKind(kind)
    case _ => true
  }

  predicate CleanInfo(s: Info) {
    NUL !in s.db && NUL !in s.tb
  }

  lemma {:induction false} CleanRun(tables: bytes, s: Info, evs: seq<Stamped>)
    requires CleanInfo(s) && forall e <- evs :: CleanEvent(e)
    ensures forall f <- Run(tables, s, evs).1 :: GoodFrame(f)
    decreases |evs|
  {
    if evs != [] {
      var (s1, f1) := Step(tables, s, evs[0]);
      assert CleanEvent(evs[0]);
      StepState(tables, s, evs[0]);
      GoodNameIsCString(evs[0].file);
      assert forall f <- f1 :: GoodFrame(f);
      CleanRun(tables, s1, evs[1..]);
    }
  }

  lemma DecodeIsClean(localId: nat, t: byte, svrid: nat, body: bytes)
    requires Decode(localId, t, svrid, body).Some?
    ensures match Decode(localId, t, svrid, body).value
            case TableMap(db, tb, _, _) => NUL !in db && NUL !in tb
            case Query(qdb, _) => NUL !in qdb
            case Rows(kind, _) => IsRowKind(kind)
            case _ => true
  {
    hide PackedInt, FromLE, ParseColumns;
    if t == TABLE_MAP_EVENT {
      var dbl := body[8] + 1;
      var tbl := body[9 + dbl] + 1;
      CStrHasNoNul(body[9..9 + dbl]);
      CStrHasNoNul(body[10 + dbl..10 + dbl + tbl]);
    } else if t == QUERY_EVENT && |body| <= SQL_MAX * 2 {
      var at := 13 + FromLE(body[11..13]);
      CStrHasNoNul(body[at..at + body[8] + 1]);
    }
  }

  predicate PlainName(file: bytes) {
    GoodName(file) && COMMA !in file && NEWLINE !in file
  }

  lemma {:induction false} EventsAreClean(localId: nat, file: bytes, num: nat, data: bytes, pos: nat)
    requires WellFormed(localId, data, pos) && PlainName(file)
    ensures forall e <- EventsFrom(localId, file, num, data, pos) :: CleanEvent(e)
    decreases |data| - pos
  {
    hide Decode, GoodName;
    var evs := EventsFrom(localId, file, num, data, pos);
    if evs != [] {
      var h := HeaderAt(data, pos);
      DecodeIsClean(localId, TypeCode(h), ServerId(h), BodyAt(data, pos));
      EventsAreClean(localId, file, num, data, pos + LenAt(data, pos));
    }
  }

  lemma {:induction false} StreamIsClean(localId: nat, b: Binlog, file: bytes, num: nat, pos: nat)
    requires GoodBinlog(localId, b) && (forall f <- b.index :: PlainName(f)) && PlainName(file)
    requires file in b.files && WellFormed(localId, b.files[file], pos)
    ensures forall e <- Stream(localId, b, file, num, pos) :: CleanEvent(e)
    decreases U32_LIMIT - num
  {
    hide CleanEvent, PlainName, EventsFrom, WellFormed;
    EventsAreClean(localId, file, num, b.files[file], pos);
    var i := NextAfter(b.index, num, 0);
    if i < |b.index| {
      assert b.index[i] in b.index;
      StreamIsClean(localId, b, b.index[i], NameNumber(b.index[i]), MAGIC_LEN);
    }
  }

  // ----- Taking over --------------------------------------------------------------

  /** A slave's view of one run: which binlog, from where, for which tables. */
  datatype Setting = Setting(localId: nat, b: Binlog, file: bytes, pos: nat, list: bytes) {
    ghost predicate Good() {
      GoodBinlog(localId, b) && (forall f <- b.index :: PlainName(f)) && PlainName(file) &&
      file in b.files && WellFormed(localId, b.files[file], pos) &&
      NUL !in list && list != [] && list[0] != COMMA
    }

    /** What the session reads. */
    ghost function Events(): (evs: seq<Stamped>)
      requires Good()
    {
      Stream(localId, b, file, NameNumber(file), pos)
    }

    /** The list as the master keeps it. */
    function Tables(): (s: bytes) {
      [COMMA] + list + [COMMA]
    }
  }

  /** The position text the slave keeps after taking in a frame. */
  function KeptText(chunk: bytes): (s: bytes) {
    match SplitFrame(chunk)
    case Malformed => []
    case PositionOnly(info) => info
    case Dispatch(info, _, _, _) => info
  }

  /** `f` is a frame made for event `k` by the session that began behind event `k0 - 1`. */
  ghost predicate MadeFor(w: Setting, k0: nat, k: nat, f: Frame)
    requires w.Good()
  {
    k0 <= k < |w.Events()| && f in Step(w.Tables(), Run(w.Tables(), FRESH, w.Events()[k0..k]).0, w.Events()[k]).1
  }

  /** A slave that has kept the position of `f` asks for, and gets, the events from the `k`-th on. */
  ghost predicate LeadsTo(w: Setting, f: Frame, usec: nat, k: nat)
    requires w.Good() && 0 < k <= |w.Events()|
  {
    var e := w.Events()[k - 1];
    ParseCommand(CommandText(KeptText(Encode(f)), w.list, usec)) ==
    Parsed(Request(e.file, e.num, e.pos, Some(w.Tables()), usec)) &&
    e.file in w.b.files && WellFormed(w.localId, w.b.files[e.file], e.pos) && e.pos > 0 &&
    Stream(w.localId, w.b, e.file, e.num, e.pos) == w.Events()[k..]
  }

  /**
   * The stamp survives the trip: the frame any session made for event `k`, taken apart
   * by the slave, sent back in a dump command and parsed by the master, names the
   * place behind event `k`, and there the new session finds the events behind `k`.
   */
  lemma StampSurvives(w: Setting, k0: nat, k: nat, f: Frame, usec: nat)
    requires w.Good() && MadeFor(w, k0, k, f) && usec < U32_LIMIT
    ensures SplitFrame(Encode(f)) == Meaning(f)
    ensures LeadsTo(w, f, usec, k + 1)
  {
    hide GoodName, WellFormed, GoodBinlog, Stream;
    var evs := w.Events();
    StreamIsClean(w.localId, w.b, w.file, NameNumber(w.file), w.pos);
    FrameIsGood(w.Tables(), evs, k0, k, f);
    SplitEncode(f);
    assert evs[k] in evs;
    CommandRoundTrip(f.at, w.list, usec);
    StreamResumes(w.localId, w.b, w.file, NameNumber(w.file), w.pos, k);
    StreamOrdered(w.localId, w.b, w.file, NameNumber(w.file), w.pos);
    assert After(evs[k], NameNumber(w.file), w.pos);
    StampsArePositive(w, k);
  }

  lemma FrameIsGood(tables: bytes, evs: seq<Stamped>, k0: nat, k: nat, f: Frame)
    requires k0 <= k < |evs| && forall e <- evs :: CleanEvent(e)
    requires f in Step(tables, Run(tables, FRESH, evs[k0..k]).0, evs[k]).1
    ensures GoodFrame(f) && f.at == Stamp(evs[k].file, evs[k].pos)
  {
    hide CleanEvent, GoodFrame, Step;
    var read, n := evs[k0..], k - k0;
    assert read[..n] == evs[k0..k] && read[n] == evs[k];
    CleanRun(tables, FRESH, read[..n + 1]);
    RunSnoc(tables, FRESH, read, n);
  }

  lemma StampsArePositive(w: Setting, k: nat)
    requires w.Good() && k < |w.Events()|
    ensures w.Events()[k].pos > 0
  {
    EventPositive(w.localId, w.b, w.file, NameNumber(w.file), w.pos, k);
  }

  lemma {:induction false} EventPositive(localId: nat, b: Binlog, file: bytes, num: nat, pos: nat, k: nat)
    requires GoodBinlog(localId, b) && file in b.files && WellFormed(localId, b.files[file], pos)
    requires k < |Stream(localId, b, file, num, pos)|
    ensures Stream(localId, b, file, num, pos)[k].pos > 0
    decreases U32_LIMIT - num
  {
    var here := EventsFrom(localId, file, num, b.files[file], pos);
    if k < |here| {
      EventInFilePositive(localId, file, num, b.files[file], pos, k);
    } else {
      var i := NextAfter(b.index, num, 0);
      EventPositive(localId, b, b.index[i], NameNumber(b.index[i]), MAGIC_LEN, k - |here|);
    }
  }

  lemma {:induction false} EventInFilePositive(localId: nat, file: bytes, num: nat, data: bytes, pos: nat, k: nat)
    requires WellFormed(localId, data, pos) && k < |EventsFrom(localId, file, num, data, pos)|
    ensures EventsFrom(localId, file, num, data, pos)[k].pos > 0
    decreases k
  {
    if k > 0 {
      EventInFilePositive(localId, file, num, data, pos + LenAt(data, pos), k - 1);
    }
  }

  /**
   * The takeover as a whole: the row frames made up to event `k` and those of
   * the session that the slave's command starts are together exactly the row
   * frames of an undisturbed run, if and only if the cut behind `k` is safe.
   */
  lemma Takeover(w: Setting, k: nat, f: Frame, usec: nat)
    requires w.Good() && MadeFor(w, 0, k, f) && usec < U32_LIMIT
    requires Grouped(false, false, w.Events())
    ensures var evs := w.Events();
            var req := ParseCommand(CommandText(KeptText(Encode(f)), w.list, usec));
            req.Parsed? && req.value.tables == Some(w.Tables()) &&
            req.value.file in w.b.files && WellFormed(w.localId, w.b.files[req.value.file], req.value.pos) &&
            (var rest := Stream(w.localId, w.b, req.value.file, req.value.num, req.value.pos);
             RowRun(w.Tables(), FRESH, evs[..k + 1]) + RowRun(w.Tables(), FRESH, rest) == RowRun(w.Tables(), FRESH, evs)
             <==> SafeCut(w.Tables(), evs, k + 1))
  {
    hide WellFormed, GoodBinlog, Stream, ParseCommand, SplitFrame, SafeCut, RowRun, Step, Encode;
    StampSurvives(w, 0, k, f, usec);
    StreamOrdered(w.localId, w.b, w.file, NameNumber(w.file), w.pos);
    ResumeCompletes(w.Tables(), w.Events(), k + 1);
  }

  /** Where session `i` begins. */
  function BeginOf(cuts: seq<nat>, i: nat): (k: nat)
    requires i < |cuts|
  {
    if i == 0 then 0 else cuts[i - 1]
  }

  /**
   * One takeover after the other: session `i` begins at cut `i - 1`, or at the start,
   * and the slave asks for the next one with the position of frame `i`, which it made.
   */
  ghost predicate TakenOver(w: Setting, cuts: seq<nat>, fs: seq<Frame>)
    requires w.Good()
  {
    |fs| == |cuts| &&
    forall i :: 0 <= i < |cuts| ==>
      cuts[i] > 0 && MadeFor(w, BeginOf(cuts, i), cuts[i] - 1, fs[i])
  }

  lemma MadeBounds(w: Setting, k0: nat, k: nat, f: Frame)
    requires w.Good() && MadeFor(w, k0, k, f)
    ensures k0 <= k < |w.Events()|
  {
  }

  lemma {:induction false} TakenOverCuts(w: Setting, cuts: seq<nat>, fs: seq<Frame>, i: nat, j: nat)
    requires w.Good() && TakenOver(w, cuts, fs) && i <= j < |cuts|
    ensures cuts[i] <= cuts[j] <= |w.Events()|
    decreases j
  {
    hide Setting.Good, Setting.Events, MadeFor;
    assert MadeFor(w, BeginOf(cuts, j), cuts[j] - 1, fs[j]);
    MadeBounds(w, BeginOf(cuts, j), cuts[j] - 1, fs[j]);
    if i < j {
      TakenOverCuts(w, cuts, fs, i, j - 1);
    }
  }

  /**
   * Any number of takeovers: every command leads to the place its frame was stamped
   * with, and the row frames of all sessions are those of an undisturbed run if and
   * only if every cut is safe for what the session behind it reads.
   */
  lemma ManyTakeovers(w: Setting, cuts: seq<nat>, fs: seq<Frame>, usec: nat)
    requires w.Good() && TakenOver(w, cuts, fs) && usec < U32_LIMIT
    requires Grouped(false, false, w.Events())
    ensures GoodCuts(cuts, |w.Events()|)
    ensures forall i :: 0 <= i < |cuts| ==> cuts[i] > 0 && LeadsTo(w, fs[i], usec, cuts[i])
    ensures Delivered(w.Tables(), w.Events(), cuts) == RowRun(w.Tables(), FRESH, w.Events())
            <==> AllSafe(w.Tables(), w.Events(), cuts)
  {
    hide Setting.Good, Setting.Events, Setting.Tables, MadeFor, LeadsTo, Delivered, AllSafe, RowRun, Grouped;
    forall i, j | 0 <= i <= j < |cuts| ensures cuts[i] <= cuts[j] <= |w.Events()| {
      TakenOverCuts(w, cuts, fs, i, j);
    }
    forall i | 0 <= i < |cuts| ensures cuts[i] > 0 && LeadsTo(w, fs[i], usec, cuts[i]) {
      assert MadeFor(w, BeginOf(cuts, i), cuts[i] - 1, fs[i]);
      StampSurvives(w, BeginOf(cuts, i), cuts[i] - 1, fs[i], usec);
    }
    EventsAreOrdered(w);
    TakeoversIff(w.Tables(), w.Events(), cuts);
  }

  lemma EventsAreOrdered(w: Setting)
    requires w.Good()
    ensures Ordered(w.Events())
  {
    StreamOrdered(w.localId, w.b, w.file, NameNumber(w.file), w.pos);
  }

  // ----- What the slave has done ----------------------------------------------------

  /** The calls of a run's frames are the calls of its row frames. */
  lemma {:induction false} CallsOfRows(fs: seq<Frame>)
    ensures CallsOfAll(fs) == CallsOfAll(RowsOnly(fs))
    decreases |fs|
  {
    hide TableName, RowPayload;
    if fs != [] {
      var n := |fs| - 1;
      CallsOfRows(fs[..n]);
      RowsOnlyAppend(fs[..n], [fs[n]]);
      assert fs == fs[..n] + [fs[n]] && [fs[n]][1..] == [];
      CallsOfAllAppend(RowsOnly(fs[..n]), RowsOnly([fs[n]]));
      assert RowsOnly([fs[n]]) == if fs[n].RowFrame? then [fs[n]] else [];
    }
  }

  /**
   * From binlog to handler calls: a slave that consumes every frame of a run
   * makes exactly the calls of the rows events of listed tables, in binlog
   * order, each with the columns of its own table map.
   */
  lemma HandlerCallsExact(tables: bytes, evs: seq<Stamped>)
    requires AllOwnMaps(evs)
    ensures CallsOfAll(Run(tables, FRESH, evs).1) == CallsOfAll(DueFrames(tables, evs, |evs|))
  {
    FilterExact(tables, evs, |evs|);
    assert evs[..|evs|] == evs;
    CallsOfRows(Run(tables, FRESH, evs).1);
  }
}
