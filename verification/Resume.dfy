/**
 * Which rows events a run replicates, and from which positions it can be
 * restarted without losing or adding row frames.
 */
module Resume {
  import opened Bytes
  import opened BinlogEvents
  import opened Frames
  import opened Replication

  // ----- Filter exactness -----------------------------------------------------

  /** The transaction flag the binlog itself implies before event `i`. */
  function TranAt(evs: seq<Stamped>, i: nat): (t: bool)
    requires i <= |evs|
  {
    if i == 0 then false
    else
      match evs[i - 1].ev
      case Query(_, Opens) => true
      case Query(_, Closes) => false
      case Xid => false
      case _ => TranAt(evs, i - 1)
  }

  /** Number of the last table map before event `i`, plus one; 0 if there is none. */
  function MapBefore(evs: seq<Stamped>, i: nat): (m: nat)
    requires i <= |evs|
    ensures m <= i
    ensures m > 0 ==> evs[m - 1].ev.TableMap?
    ensures forall j :: m <= j < i ==> !evs[j].ev.TableMap?
  {
    if i == 0 then 0 else if evs[i - 1].ev.TableMap? then i else MapBefore(evs, i - 1)
  }

  /** A rows event outside any transaction lies between `m` and `i`. */
  predicate RowsOutside(evs: seq<Stamped>, m: nat, i: nat)
    requires m <= i <= |evs|
  {
    exists j: nat | j < i :: m <= j && evs[j].ev.Rows? && !TranAt(evs, j)
  }

  predicate ListedMap(tables: bytes, ev: Event)
    requires ev.TableMap?
  {
    Listed(tables, ev.db, ev.tb)
  }

  /** No query event lies between `m` and `i`: such an event overwrites the cached database name. */
  predicate NoQuery(evs: seq<Stamped>, m: nat, i: nat)
    requires m <= i <= |evs|
  {
    forall j :: m <= j < i ==> !evs[j].ev.Query?
  }

  /** The session flags, said of the binlog alone. */
  predicate FlagsMatch(tables: bytes, evs: seq<Stamped>, i: nat, s: Info)
    requires i <= |evs|
  {
    var m := MapBefore(evs, i);
    s.tran == TranAt(evs, i) &&
    (s.filter <==> !(m > 0 && ListedMap(tables, evs[m - 1].ev)) && !RowsOutside(evs, m, i))
  }

  /** The cached table map, said of the binlog alone. */
  predicate CacheMatches(evs: seq<Stamped>, i: nat, s: Info)
    requires i <= |evs|
  {
    var m := MapBefore(evs, i);
    m > 0 ==>
      s.tb == evs[m - 1].ev.tb && s.ct == evs[m - 1].ev.ct && s.cm == evs[m - 1].ev.cm &&
      (NoQuery(evs, m, i) ==> s.db == evs[m - 1].ev.db)
  }

  lemma RowsOutsideSnoc(evs: seq<Stamped>, m: nat, i: nat)
    requires m <= i < |evs|
    ensures RowsOutside(evs, m, i + 1) <==> RowsOutside(evs, m, i) || (evs[i].ev.Rows? && !TranAt(evs, i))
  {
    if RowsOutside(evs, m, i) {
      var j: nat :| j < i && m <= j && evs[j].ev.Rows? && !TranAt(evs, j);
      assert j < i + 1;
    }
  }

  lemma FlagsStep(tables: bytes, evs: seq<Stamped>, i: nat, s: Info)
    requires i < |evs| && FlagsMatch(tables, evs, i, s)
    ensures FlagsMatch(tables, evs, i + 1, Step(tables, s, evs[i]).0)
  {
    hide Step, Listed;
    StepState(tables, s, evs[i]);
    RowsOutsideSnoc(evs, MapBefore(evs, i), i);
    if evs[i].ev.TableMap? {
      assert MapBefore(evs, i + 1) == i + 1;
      assert !RowsOutside(evs, i + 1, i + 1);
    } else {
      assert MapBefore(evs, i + 1) == MapBefore(evs, i);
    }
  }

  lemma CacheStep(tables: bytes, evs: seq<Stamped>, i: nat, s: Info)
    requires i < |evs| && CacheMatches(evs, i, s)
    ensures CacheMatches(evs, i + 1, Step(tables, s, evs[i]).0)
  {
    StepState(tables, s, evs[i]);
    if evs[i].ev.TableMap? {
      assert MapBefore(evs, i + 1) == i + 1;
    } else {
      var m := MapBefore(evs, i);
      assert MapBefore(evs, i + 1) == m;
      if NoQuery(evs, m, i + 1) {
        assert NoQuery(evs, m, i);
        assert m <= i ==> !evs[i].ev.Query?;
      }
    }
  }

  lemma {:induction false} StateAfter(tables: bytes, evs: seq<Stamped>, i: nat)
    requires i <= |evs|
    ensures FlagsMatch(tables, evs, i, Run(tables, FRESH, evs[..i]).0)
    ensures CacheMatches(evs, i, Run(tables, FRESH, evs[..i]).0)
  {
    hide Step;
    if i == 0 {
      assert evs[..0] == [];
    } else {
      hide FlagsMatch, CacheMatches;
      StateAfter(tables, evs, i - 1);
      RunSnoc(tables, FRESH, evs, i - 1);
      var s := Run(tables, FRESH, evs[..i - 1]).0;
      FlagsStep(tables, evs, i - 1, s);
      CacheStep(tables, evs, i - 1, s);
    }
  }

  /** Rows that come next would be sent: the last map is listed, or rows outside a transaction have come since it. */
  predicate Passing(tables: bytes, evs: seq<Stamped>, i: nat)
    requires i <= |evs|
  {
    var m := MapBefore(evs, i);
    (m > 0 && ListedMap(tables, evs[m - 1].ev)) || RowsOutside(evs, m, i)
  }

  /**
   * For every event sequence: a rows event is sent exactly when the last table
   * map names a listed table, or a rows event outside a transaction was dropped
   * since that map.
   */
  lemma SentIff(tables: bytes, evs: seq<Stamped>, i: nat)
    requires i < |evs| && evs[i].ev.Rows?
    ensures Emits(Run(tables, FRESH, evs[..i]).0, evs[i].ev) <==> Passing(tables, evs, i)
  {
    StateAfter(tables, evs, i);
  }

  // ----- Position-only frames --------------------------------------------------

  /** Event `i` leaves the session outside a transaction, ready to send rows, and is not sent itself. */
  predicate Rests(tables: bytes, evs: seq<Stamped>, i: nat)
    requires i < |evs|
  {
    !evs[i].ev.Unknown? && !(evs[i].ev.Rows? && Passing(tables, evs, i)) && !TranAt(evs, i + 1) &&
    Passing(tables, evs, i + 1)
  }

  /** It is the first to do so. */
  predicate FirstRest(tables: bytes, evs: seq<Stamped>, i: nat)
    requires i < |evs|
  {
    Rests(tables, evs, i) && forall j :: 0 <= j < i ==> !Rests(tables, evs, j)
  }

  predicate NoRest(tables: bytes, evs: seq<Stamped>, i: nat)
    requires i <= |evs|
  {
    forall j :: 0 <= j < i ==> !Rests(tables, evs, j)
  }

  /** What one event leads to, said of the state it finds and the state it leaves. */
  lemma FramesOfStep(tables: bytes, s: Info, e: Stamped)
    requires s.skipN <= 1
    ensures var (t, fs) := Step(tables, s, e);
            var rests := !e.ev.Unknown? && !(e.ev.Rows? && !s.filter) && !t.tran && !t.filter;
            fs == (if e.ev.Rows? && !s.filter then [RowFrameOf(s, e)]
                   else if rests && s.skipN == 0 then [PosFrame(Stamp(e.file, e.pos))] else []) &&
            t.skipN == if rests then 1 else s.skipN
  {
    hide Listed;
  }

  lemma RestsOfState(tables: bytes, evs: seq<Stamped>, i: nat, s: Info, t: Info)
    requires i < |evs| && FlagsMatch(tables, evs, i, s) && FlagsMatch(tables, evs, i + 1, t)
    ensures !s.filter <==> Passing(tables, evs, i)
    ensures !evs[i].ev.Unknown? && !(evs[i].ev.Rows? && !s.filter) && !t.tran && !t.filter <==> Rests(tables, evs, i)
  {
    hide TranAt, MapBefore, ListedMap, RowsOutside;
  }

  /** The counter of the throttle says whether an event before `i` has left the session at rest. */
  lemma {:induction false} CounterAfter(tables: bytes, evs: seq<Stamped>, i: nat)
    requires i <= |evs|
    ensures Run(tables, FRESH, evs[..i]).0.skipN == if NoRest(tables, evs, i) then 0 else 1
    decreases i
  {
    hide Step, FlagsMatch, CacheMatches, Rests;
    if i == 0 {
      assert evs[..0] == [];
    } else {
      hide Run;
      var s, t := Run(tables, FRESH, evs[..i - 1]).0, Run(tables, FRESH, evs[..i]).0;
      CounterAfter(tables, evs, i - 1);
      StateAfter(tables, evs, i - 1);
      StateAfter(tables, evs, i);
      RunSnoc(tables, FRESH, evs, i - 1);
      FramesOfStep(tables, s, evs[i - 1]);
      RestsOfState(tables, evs, i - 1, s, t);
    }
  }

  /**
   * For every event sequence, and every event of it: the frame it leads to, if any, is a row frame
   * exactly if the event is a rows event sent, and a position-only frame exactly if the
   * event is the first to leave the session at rest; it carries the event's stamp.
   */
  lemma FramesIff(tables: bytes, evs: seq<Stamped>, i: nat)
    requires i < |evs|
    ensures var before, fs := Run(tables, FRESH, evs[..i]).1, Run(tables, FRESH, evs[..i + 1]).1;
            before <= fs && |fs| <= |before| + 1 &&
            (|before| < |fs| && fs[|before|].RowFrame? <==> evs[i].ev.Rows? && Passing(tables, evs, i)) &&
            (|before| < |fs| && fs[|before|].PosFrame? <==> FirstRest(tables, evs, i)) &&
            (|before| < |fs| ==> fs[|before|].at == Stamp(evs[i].file, evs[i].pos)) &&
            (|before| < |fs| && fs[|before|].RowFrame? ==>
               fs[|before|].kind == evs[i].ev.kind && fs[|before|].data == evs[i].ev.data)
  {
    hide Step, FlagsMatch, CacheMatches, Rests, Run, Passing;
    var s, t := Run(tables, FRESH, evs[..i]).0, Run(tables, FRESH, evs[..i + 1]).0;
    CounterAfter(tables, evs, i);
    StateAfter(tables, evs, i);
    StateAfter(tables, evs, i + 1);
    RunSnoc(tables, FRESH, evs, i);
    FramesOfStep(tables, s, evs[i]);
    RestsOfState(tables, evs, i, s, t);
  }

  /** Rows events whose own table map precedes them, undisturbed. */
  predicate OwnMap(evs: seq<Stamped>, i: nat)
    requires i < |evs|
  {
    var m := MapBefore(evs, i);
    m > 0 && NoQuery(evs, m, i) && !RowsOutside(evs, m, i)
  }

  predicate AllOwnMaps(evs: seq<Stamped>) {
    forall i: nat | i < |evs| :: evs[i].ev.Rows? ==> OwnMap(evs, i)
  }

  /** The row frame due for event `i`, carrying the columns of its own table map. */
  function DueFrame(evs: seq<Stamped>, i: nat): (f: Frame)
    requires i < |evs| && evs[i].ev.Rows? && MapBefore(evs, i) > 0
  {
    var map_ := evs[MapBefore(evs, i) - 1].ev;
    RowFrame(Stamp(evs[i].file, evs[i].pos), evs[i].ev.kind, map_.db, map_.tb, map_.ct, map_.cm, evs[i].ev.data)
  }

  /** The rows events before `i` that belong to listed tables, as frames. */
  function DueFrames(tables: bytes, evs: seq<Stamped>, i: nat): (fs: seq<Frame>)
    requires i <= |evs| && AllOwnMaps(evs)
  {
    if i == 0 then []
    else
      var before := DueFrames(tables, evs, i - 1);
      if evs[i - 1].ev.Rows? && (assert OwnMap(evs, i - 1); ListedMap(tables, evs[MapBefore(evs, i - 1) - 1].ev))
      then before + [DueFrame(evs, i - 1)] else before
  }

  /** A rows event is sent exactly when its own table is listed, with its own columns. */
  lemma SentIffListed(tables: bytes, evs: seq<Stamped>, i: nat)
    requires i < |evs| && AllOwnMaps(evs) && evs[i].ev.Rows?
    ensures MapBefore(evs, i) > 0
    ensures var s := Run(tables, FRESH, evs[..i]).0;
            (Emits(s, evs[i].ev) <==> ListedMap(tables, evs[MapBefore(evs, i) - 1].ev)) &&
            (Emits(s, evs[i].ev) ==> RowFrameOf(s, evs[i]) == DueFrame(evs, i))
  {
    StateAfter(tables, evs, i);
    assert OwnMap(evs, i);
  }

  /** The row frames of a run are exactly the rows events of listed tables, in order. */
  lemma {:induction false} FilterExact(tables: bytes, evs: seq<Stamped>, i: nat)
    requires i <= |evs| && AllOwnMaps(evs)
    ensures RowRun(tables, FRESH, evs[..i]) == DueFrames(tables, evs, i)
  {
    hide ListedMap, RowRun, Run, OwnMap, DueFrame, RowFrameOf;
    if i == 0 {
      assert evs[..0] == [];
      RunOfNothing(tables, FRESH);
    } else {
      FilterExact(tables, evs, i - 1);
      RowRunSnoc(tables, FRESH, evs, i - 1);
      if evs[i - 1].ev.Rows? {
        SentIffListed(tables, evs, i - 1);
      }
    }
  }

  lemma RunOfNothing(tables: bytes, s: Info)
    ensures RowRun(tables, s, []) == []
  {
  }

  /** Outside a transaction the second rows event of an unlisted table is sent all the same. */
  lemma UnlistedRowsLeak(tables: bytes, db: bytes, tb: bytes)
    requires !Listed(tables, db, tb)
    ensures var evs := [Stamped([], 0, 1, TableMap(db, tb, [], [])), Stamped([], 0, 2, Rows(23, [])),
                        Stamped([], 0, 3, Rows(23, []))];
            |RowRun(tables, FRESH, evs)| == 1
  {
    var a := Stamped([], 0, 1, TableMap(db, tb, [], []));
    var b := Stamped([], 0, 2, Rows(23, []));
    var c := Stamped([], 0, 3, Rows(23, []));
    var evs := [a, b, c];
    RowRunCons(tables, FRESH, evs);
    assert evs[1..] == [b, c];
    var s1 := Step(tables, FRESH, a).0;
    RowRunCons(tables, s1, [b, c]);
    assert [b, c][1..] == [c];
    var s2 := Step(tables, s1, b).0;
    assert !s2.filter;
    RowRunCons(tables, s2, [c]);
    assert [c][1..] == [];
  }

  // ----- Restarting -----------------------------------------------------------

  /**
   * The shape of a row-format binlog: rows lie inside a transaction, after a
   * table map of their statement. `open` says that such a map has been seen
   * since the last query or commit.
   */
  predicate Grouped(tran: bool, open: bool, evs: seq<Stamped>)
    decreases |evs|
  {
    evs == [] ||
    match evs[0].ev
    case Query(_, effect) => Grouped(Apply(effect, tran), false, evs[1..])
    case Xid => Grouped(false, false, evs[1..])
    case TableMap(_, _, _, _) => Grouped(tran, true, evs[1..])
    case Rows(_, _) => tran && open && Grouped(tran, open, evs[1..])
    case _ => Grouped(tran, open, evs[1..])
  }

  /** How a restarted session stands to the table of the rows events to come. */
  datatype Group =
    | Lost              // listed, but its map lies before the restart
    | Open              // listed, and its map was read after the restart
    | Barred(seen: bool)  // not listed; `seen` once one of its rows events was dropped

  /**
   * Nothing goes wrong in the rest of the transaction: no rows event of a listed
   * table whose map is behind, and no second rows event of an unlisted one.
   */
  predicate SafeFrom(tables: bytes, g: Group, evs: seq<Stamped>)
    decreases |evs|
  {
    evs == [] ||
    match evs[0].ev
    case Query(_, Keeps) => SafeFrom(tables, g, evs[1..])
    case Query(_, _) => true
    case Xid => true
    case TableMap(db, tb, _, _) =>
      SafeFrom(tables, if Listed(tables, db, tb) then Open else Barred(false), evs[1..])
    case Rows(_, _) =>
      (match g
       case Lost => false
       case Open => SafeFrom(tables, Open, evs[1..])
       case Barred(seen) => !seen && SafeFrom(tables, Barred(true), evs[1..]))
    case _ => SafeFrom(tables, g, evs[1..])
  }

  predicate SameMap(a: Info, b: Info) {
    a.db == b.db && a.tb == b.tb && a.ct == b.ct && a.cm == b.cm
  }

  /** States that agree on everything that decides row frames. */
  predicate InStep(open: bool, a: Info, b: Info) {
    a.tran == b.tran && (open ==> a.filter == b.filter && SameMap(a, b))
  }

  lemma {:induction false} InStepAgrees(tables: bytes, open: bool, a: Info, b: Info, evs: seq<Stamped>)
    requires InStep(open, a, b) && Grouped(a.tran, open, evs)
    ensures RowRun(tables, a, evs) == RowRun(tables, b, evs)
    decreases |evs|
  {
    if evs != [] {
      RowRunCons(tables, a, evs);
      RowRunCons(tables, b, evs);
      var a1, b1 := Step(tables, a, evs[0]).0, Step(tables, b, evs[0]).0;
      StepState(tables, a, evs[0]);
      StepState(tables, b, evs[0]);
      var open1 := match evs[0].ev
                   case Query(_, _) => false
                   case Xid => false
                   case TableMap(_, _, _, _) => true
                   case _ => open;
      InStepAgrees(tables, open1, a1, b1, evs[1..]);
    }
  }

  /** A running session `a` inside a transaction against a restarted one `b`. */
  predicate Trails(g: Group, a: Info, b: Info) {
    a.tran && !b.tran &&
    match g
    case Lost => !a.filter && b.filter
    case Open => !a.filter && !b.filter && SameMap(a, b)
    case Barred(seen) => a.filter && b.filter == !seen
  }

  predicate DistinctStamps(evs: seq<Stamped>) {
    forall i, j :: 0 <= i < j < |evs| ==> Stamp(evs[i].file, evs[i].pos) != Stamp(evs[j].file, evs[j].pos)
  }

  lemma OrderedDistinct(evs: seq<Stamped>)
    requires Ordered(evs)
    ensures DistinctStamps(evs)
  {
    forall i, j | 0 <= i < j < |evs| ensures Stamp(evs[i].file, evs[i].pos) != Stamp(evs[j].file, evs[j].pos) {
      assert Before(evs[i].num, evs[i].pos, evs[j].num, evs[j].pos);
      assert evs[i] in evs && evs[j] in evs;
    }
  }

  /** No later row frame carries the stamp of the first event. */
  lemma FirstStampIsUnique(tables: bytes, s: Info, evs: seq<Stamped>)
    requires evs != [] && DistinctStamps(evs)
    ensures forall g <- RowRun(tables, s, evs[1..]) :: g.at != Stamp(evs[0].file, evs[0].pos)
  {
    FramesAreStamped(tables, s, evs[1..]);
    forall g | g in RowRun(tables, s, evs[1..]) ensures g.at != Stamp(evs[0].file, evs[0].pos) {
      RowsOnlyIn(Run(tables, s, evs[1..]).1, g);
      var e :| e in evs[1..] && g.at == Stamp(e.file, e.pos);
      var k :| 0 <= k < |evs[1..]| && evs[1..][k] == e;
      assert evs[k + 1] == e;
    }
  }

  /** So sequences that differ in a frame of the first event differ. */
  lemma HeadDiffers(f: Frame, rest: seq<Frame>, other: seq<Frame>)
    requires forall g <- other :: g.at != f.at
    ensures [f] + rest != other
  {
    assert ([f] + rest)[0] == f;
    assert f in [f] + rest;
  }

  lemma {:induction false} RowsOnlyIn(fs: seq<Frame>, f: Frame)
    requires f in RowsOnly(fs)
    ensures f in fs
  {
    if f != fs[0] {
      RowsOnlyIn(fs[1..], f);
    }
  }

  lemma ConsCancels(f: Frame, a: seq<Frame>, b: seq<Frame>)
    ensures [f] + a == [f] + b <==> a == b
  {
    assert ([f] + a)[1..] == a && ([f] + b)[1..] == b;
  }

  lemma {:induction false} TrailsAgree(tables: bytes, g: Group, open: bool, a: Info, b: Info, evs: seq<Stamped>)
    requires Trails(g, a, b) && Grouped(true, open, evs) && DistinctStamps(evs)
    ensures RowRun(tables, a, evs) == RowRun(tables, b, evs) <==> SafeFrom(tables, g, evs)
    decreases |evs|
  {
    hide Step, Listed;
    if evs != [] {
      var rest := evs[1..];
      RowRunCons(tables, a, evs);
      RowRunCons(tables, b, evs);
      var a1, b1 := Step(tables, a, evs[0]).0, Step(tables, b, evs[0]).0;
      StepState(tables, a, evs[0]);
      StepState(tables, b, evs[0]);
      match evs[0].ev {
        case Query(_, Keeps) => TrailsAgree(tables, g, false, a1, b1, rest);
        case Query(_, _) => InStepAgrees(tables, false, a1, b1, rest);
        case Xid => InStepAgrees(tables, false, a1, b1, rest);
        case TableMap(db, tb, _, _) =>
          TrailsAgree(tables, if Listed(tables, db, tb) then Open else Barred(false), true, a1, b1, rest);
        case Rows(_, _) =>
          match g {
            case Lost =>
              FirstStampIsUnique(tables, b1, evs);
              HeadDiffers(RowFrameOf(a, evs[0]), RowRun(tables, a1, rest), RowRun(tables, b1, rest));
            case Open =>
              TrailsAgree(tables, g, open, a1, b1, rest);
              ConsCancels(RowFrameOf(a, evs[0]), RowRun(tables, a1, rest), RowRun(tables, b1, rest));
            case Barred(seen) =>
              if seen {
                FirstStampIsUnique(tables, a1, evs);
                HeadDiffers(RowFrameOf(b, evs[0]), RowRun(tables, b1, rest), RowRun(tables, a1, rest));
              } else {
                TrailsAgree(tables, Barred(true), open, a1, b1, rest);
              }
          }
        case _ => TrailsAgree(tables, g, open, a1, b1, rest);
      }
    }
  }

  // ----- The cut --------------------------------------------------------------

  /** Whether a table map was seen since the last query or commit before `k`. */
  function OpenAt(evs: seq<Stamped>, k: nat): (o: bool)
    requires k <= |evs|
  {
    if k == 0 then false
    else
      match evs[k - 1].ev
      case Query(_, _) => false
      case Xid => false
      case TableMap(_, _, _, _) => true
      case _ => OpenAt(evs, k - 1)
  }

  lemma {:induction false} GroupedAt(evs: seq<Stamped>, k: nat)
    requires k <= |evs| && Grouped(false, false, evs)
    ensures Grouped(TranAt(evs, k), OpenAt(evs, k), evs[k..])
    ensures forall j :: 0 <= j < k && evs[j].ev.Rows? ==> TranAt(evs, j)
  {
    if k == 0 {
      assert evs[0..] == evs;
    } else {
      GroupedAt(evs, k - 1);
      assert evs[k - 1..][1..] == evs[k..];
    }
  }

  /** How a session restarted after event `k - 1` stands to the table map last seen. */
  function GroupAt(tables: bytes, evs: seq<Stamped>, k: nat): (g: Group)
    requires k <= |evs|
    ensures g == Lost || g == Barred(false)
  {
    var m := MapBefore(evs, k);
    if m > 0 && ListedMap(tables, evs[m - 1].ev) then Lost else Barred(false)
  }

  /**
   * Restarting after event `k - 1` is safe: outside a transaction always; inside
   * one, when the rest of it is safe for the table map last seen.
   */
  predicate SafeCut(tables: bytes, evs: seq<Stamped>, k: nat)
    requires k <= |evs|
  {
    TranAt(evs, k) ==> SafeFrom(tables, GroupAt(tables, evs, k), evs[k..])
  }

  /**
   * Resume law. A session restarted, with fresh state, after event `k - 1` sends
   * exactly the row frames the running session goes on to send, if and only if
   * the cut is safe.
   */
  lemma ResumeIff(tables: bytes, evs: seq<Stamped>, k: nat)
    requires k <= |evs| && Grouped(false, false, evs) && Ordered(evs)
    ensures RowRun(tables, Run(tables, FRESH, evs[..k]).0, evs[k..]) == RowRun(tables, FRESH, evs[k..])
            <==> SafeCut(tables, evs, k)
  {
    var s := Run(tables, FRESH, evs[..k]).0;
    GroupedAt(evs, k);
    StateAfter(tables, evs, k);
    if TranAt(evs, k) {
      OrderedDistinct(evs);
      assert DistinctStamps(evs[k..]);
      assert !RowsOutside(evs, MapBefore(evs, k), k);
      TrailsAgree(tables, GroupAt(tables, evs, k), OpenAt(evs, k), s, FRESH, evs[k..]);
    } else {
      if OpenAt(evs, k) {
        ClosedOutside(false, evs[k..]);
      }
      InStepAgrees(tables, false, s, FRESH, evs[k..]);
    }
  }

  /** Outside a transaction an open group holds no rows, so it counts as closed. */
  lemma {:induction false} ClosedOutside(open: bool, evs: seq<Stamped>)
    requires Grouped(false, true, evs)
    ensures Grouped(false, open, evs)
    decreases |evs|
  {
    if evs != [] && !evs[0].ev.Query? && !evs[0].ev.TableMap? && !evs[0].ev.Xid? {
      ClosedOutside(open, evs[1..]);
    }
  }

  /** The row frames up to a cut and those of a restart behind it make up the run, exactly when the cut is safe. */
  lemma ResumeCompletes(tables: bytes, evs: seq<Stamped>, k: nat)
    requires k <= |evs| && Grouped(false, false, evs) && Ordered(evs)
    ensures RowRun(tables, FRESH, evs) == RowRun(tables, FRESH, evs[..k]) + RowRun(tables, FRESH, evs[k..])
            <==> SafeCut(tables, evs, k)
  {
    RowRunSplit(tables, FRESH, evs, k);
    ResumeIff(tables, evs, k);
    PrefixCancels(RowRun(tables, FRESH, evs[..k]), RowRun(tables, Run(tables, FRESH, evs[..k]).0, evs[k..]),
                  RowRun(tables, FRESH, evs[k..]));
  }

  lemma PrefixCancels(p: seq<Frame>, a: seq<Frame>, b: seq<Frame>)
    ensures p + a == p + b <==> a == b
  {
    assert (p + a)[|p|..] == a && (p + b)[|p|..] == b;
  }

  /** A position-only frame of a session begun at a transaction boundary is always safe to resume from. */
  lemma PositionFrameIsSafe(tables: bytes, evs: seq<Stamped>, k: nat)
    requires 0 < k <= |evs|
    requires exists f <- Step(tables, Run(tables, FRESH, evs[..k - 1]).0, evs[k - 1]).1 :: f.PosFrame?
    ensures SafeCut(tables, evs, k)
  {
    StateAfter(tables, evs, k);
    RunSnoc(tables, FRESH, evs, k - 1);
  }

  /** Every table map governs at most one rows event, which comes right after it. */
  predicate SingleRows(evs: seq<Stamped>) {
    forall i: nat | i < |evs| :: evs[i].ev.Rows? ==> i > 0 && evs[i - 1].ev.TableMap?
  }

  lemma {:induction false} SingleRowsSafe(tables: bytes, g: Group, evs: seq<Stamped>)
    requires forall i: nat | i < |evs| :: i > 0 && evs[i].ev.Rows? ==> evs[i - 1].ev.TableMap?
    requires evs != [] && evs[0].ev.Rows? ==> g == Open || g == Barred(false)
    ensures SafeFrom(tables, g, evs)
    decreases |evs|
  {
    if evs != [] {
      var g1 := match evs[0].ev
        case TableMap(db, tb, _, _) => if Listed(tables, db, tb) then Open else Barred(false)
        case Rows(_, _) => if g == Open then Open else Barred(true)
        case _ => g;
      forall i: nat | i < |evs[1..]| && i > 0 && evs[1..][i].ev.Rows? ensures evs[1..][i - 1].ev.TableMap? {
        assert evs[1..][i] == evs[i + 1] && evs[1..][i - 1] == evs[i];
      }
      if |evs| > 1 && evs[1].ev.Rows? {
        assert evs[1 - 1].ev.TableMap?;
      }
      SingleRowsSafe(tables, g1, evs[1..]);
    }
  }

  /** With one rows event to a table map, the only bad cut is between a listed map and its rows. */
  lemma SingleRowsResume(tables: bytes, evs: seq<Stamped>, k: nat)
    requires 0 < k <= |evs| && Grouped(false, false, evs) && Ordered(evs) && SingleRows(evs)
    ensures RowRun(tables, Run(tables, FRESH, evs[..k]).0, evs[k..]) == RowRun(tables, FRESH, evs[k..])
            <==> !(k < |evs| && evs[k].ev.Rows? && ListedMap(tables, evs[k - 1].ev))
  {
    ResumeIff(tables, evs, k);
    GroupedAt(evs, k);
    var rest := evs[k..];
    var g := GroupAt(tables, evs, k);
    forall i: nat | i < |rest| && i > 0 && rest[i].ev.Rows? ensures rest[i - 1].ev.TableMap? {
      assert rest[i] == evs[k + i] && rest[i - 1] == evs[k + i - 1];
    }
    if k < |evs| && evs[k].ev.Rows? {
      assert rest[0] == evs[k];
      assert MapBefore(evs, k) == k;
      if g != Lost {
        SingleRowsSafe(tables, g, rest);
      }
    } else {
      assert rest != [] ==> rest[0] == evs[k];
      SingleRowsSafe(tables, g, rest);
    }
  }

  /** Then every frame of a session begun at a transaction boundary is safe to resume from. */
  lemma EveryFrameIsSafe(tables: bytes, evs: seq<Stamped>, k: nat)
    requires 0 < k <= |evs| && Grouped(false, false, evs) && Ordered(evs) && SingleRows(evs)
    requires Step(tables, Run(tables, FRESH, evs[..k - 1]).0, evs[k - 1]).1 != []
    ensures SafeCut(tables, evs, k)
  {
    var s := Run(tables, FRESH, evs[..k - 1]).0;
    if Emits(s, evs[k - 1].ev) {
      SingleRowsResume(tables, evs, k);
      ResumeIff(tables, evs, k);
    } else {
      var f := Step(tables, s, evs[k - 1]).1[0];
      assert f.PosFrame?;
      PositionFrameIsSafe(tables, evs, k);
    }
  }

  // ----- Restarting twice -----------------------------------------------------

  /**
   * A session restarted inside a transaction believes it is outside: on the next
   * listed table map it sends a position-only frame stamped between the map and
   * its rows. Restarting from that frame loses those rows.
   */
  lemma SecondRestartLosesRows(tables: bytes, map1: Stamped, rows1: Stamped)
    requires map1.ev.TableMap? && ListedMap(tables, map1.ev) && rows1.ev.Rows?
    ensures PosFrame(Stamp(map1.file, map1.pos)) in Run(tables, FRESH, [map1, rows1]).1
    ensures |RowRun(tables, FRESH, [map1, rows1])| == 1
    ensures RowRun(tables, FRESH, [rows1]) == []
  {
    var evs := [map1, rows1];
    var (s1, f1) := Step(tables, FRESH, map1);
    assert evs[1..] == [rows1] && [rows1][1..] == [];
    RowRunCons(tables, FRESH, evs);
    RowRunCons(tables, s1, [rows1]);
    RowRunCons(tables, FRESH, [rows1]);
    assert f1 == [PosFrame(Stamp(map1.file, map1.pos))];
    assert f1[0] in Run(tables, FRESH, evs).1;
  }
}
