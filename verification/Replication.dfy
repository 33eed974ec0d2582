/**
 * The meaning of the master's event handlers: how the session flags evolve and
 * which frames a run over the binlog puts in the ring.
 */
module Replication {
  import opened Bytes
  import opened BinlogEvents
  import opened Frames

  const SKIP_DATA_FLUSH_NUM: nat := 900
  /** Room for `,db.tb,` in the handler's buffer, without the final NUL. */
  const NEEDLE_MAX: nat := 130

  /** The part of `rs_binlog_info_t` that survives from one event to the next. */
  datatype Info = Info(tran: bool, filter: bool, skipN: nat, db: bytes, tb: bytes, ct: bytes, cm: bytes)

  const FRESH: Info := Info(false, true, 0, [], [], [], [])

  // ----- The table list -------------------------------------------------------

  function Needle(db: bytes, tb: bytes): (s: bytes) {
    var s := [COMMA] + TableName(db, tb) + [COMMA];
    if |s| > NEEDLE_MAX then s[..NEEDLE_MAX] else s
  }

  predicate OccursAt(s: bytes, t: bytes, i: nat) {
    i + |t| <= |s| && s[i..i + |t|] == t
  }

  predicate Occurs(s: bytes, t: bytes) {
    exists i: nat | i <= |s| :: OccursAt(s, t, i)
  }

  /** The handler's `strstr` test. */
  predicate Listed(tables: bytes, db: bytes, tb: bytes) {
    Occurs(tables, Needle(db, tb))
  }

  // ----- One event ------------------------------------------------------------

  function Apply(e: TranEffect, tran: bool): (t: bool) {
    match e case Keeps => tran case Opens => true case Closes => false
  }

  /** The event handler proper, before the finish handler. */
  function Handle(tables: bytes, s: Info, ev: Event): (r: Info) {
    match ev
    case Query(db, effect) => s.(db := db, tran := Apply(effect, s.tran))
    case Xid => s.(tran := false)
    case TableMap(db, tb, ct, cm) =>
      s.(db := db, tb := tb, ct := ct, cm := cm, filter := !Listed(tables, db, tb))
    case Rows(_, _) => if s.filter then s.(filter := s.tran) else s
    case _ => s
  }

  predicate Emits(s: Info, ev: Event) {
    ev.Rows? && !s.filter
  }

  function RowFrameOf(s: Info, e: Stamped): (f: Frame)
    requires e.ev.Rows?
  {
    RowFrame(Stamp(e.file, e.pos), e.ev.kind, s.db, s.tb, s.ct, s.cm, e.ev.data)
  }

  /** The throttle on position-only frames. */
  function PosFrames(s: Info, at: Stamp): (r: (Info, seq<Frame>)) {
    if s.skipN % SKIP_DATA_FLUSH_NUM != 0 then (s.(skipN := 1), [])
    else (s.(skipN := s.skipN + 1), [PosFrame(at)])
  }

  function Finish(s: Info, at: Stamp): (r: (Info, seq<Frame>)) {
    if !s.tran && !s.filter then PosFrames(s, at) else (s, [])
  }

  /** One turn of the event loop. */
  function Step(tables: bytes, s: Info, e: Stamped): (r: (Info, seq<Frame>))
    ensures |r.1| <= 1
    ensures forall f <- r.1 :: f.at == Stamp(e.file, e.pos)
  {
    if e.ev.Unknown? then (s, [])
    else if Emits(s, e.ev) then (s, [RowFrameOf(s, e)])
    else Finish(Handle(tables, s, e.ev), Stamp(e.file, e.pos))
  }

  /** The effect of one turn on the flags and the cached table map. */
  lemma StepState(tables: bytes, s: Info, e: Stamped)
    ensures var r := Step(tables, s, e).0;
            r.tran == (match e.ev
                       case Query(_, Opens) => true
                       case Query(_, Closes) => false
                       case Xid => false
                       case _ => s.tran) &&
            r.filter == (match e.ev
                         case TableMap(db, tb, _, _) => !Listed(tables, db, tb)
                         case Rows(_, _) => s.filter && s.tran
                         case _ => s.filter) &&
            (if e.ev.TableMap? then r.db == e.ev.db && r.tb == e.ev.tb && r.ct == e.ev.ct && r.cm == e.ev.cm
             else r.tb == s.tb && r.ct == s.ct && r.cm == s.cm && r.db == if e.ev.Query? then e.ev.qdb else s.db)
  {
  }

  // ----- A whole run ----------------------------------------------------------

  function Run(tables: bytes, s: Info, evs: seq<Stamped>): (r: (Info, seq<Frame>))
    decreases |evs|
  {
    if evs == [] then (s, [])
    else
      var (s1, f1) := Step(tables, s, evs[0]);
      var (s2, f2) := Run(tables, s1, evs[1..]);
      (s2, f1 + f2)
  }

  lemma {:induction false} RunAppend(tables: bytes, s: Info, a: seq<Stamped>, b: seq<Stamped>)
    ensures Run(tables, s, a + b) ==
            (var (s1, f1) := Run(tables, s, a); var (s2, f2) := Run(tables, s1, b); (s2, f1 + f2))
    decreases |a|
  {
    if a == [] {
      assert a + b == b;
      assert [] + Run(tables, s, b).1 == Run(tables, s, b).1;
    } else {
      var (s1, f1) := Step(tables, s, a[0]);
      RunAppend(tables, s1, a[1..], b);
      assert (a + b)[1..] == a[1..] + b;
      var (s2, f2) := Run(tables, s1, a[1..]);
      var f3 := Run(tables, s2, b).1;
      assert f1 + (f2 + f3) == (f1 + f2) + f3;
    }
  }

  lemma RunExtend(tables: bytes, s: Info, a: seq<Stamped>, e: Stamped)
    ensures Run(tables, s, a + [e]) ==
            (var (s1, f1) := Run(tables, s, a); var (s2, f2) := Step(tables, s1, e); (s2, f1 + f2))
  {
    RunAppend(tables, s, a, [e]);
    var (s1, f1) := Run(tables, s, a);
    var (s2, f2) := Step(tables, s1, e);
    assert [e][1..] == [];
    assert Run(tables, s1, [e]) == (s2, f2 + []);
    assert f2 + [] == f2;
  }

  lemma RunSnoc(tables: bytes, s: Info, evs: seq<Stamped>, i: nat)
    requires i < |evs|
    ensures Run(tables, s, evs[..i + 1]) ==
            (var (s1, f1) := Run(tables, s, evs[..i]); var (s2, f2) := Step(tables, s1, evs[i]); (s2, f1 + f2))
  {
    RunExtend(tables, s, evs[..i], evs[i]);
    assert evs[..i + 1] == evs[..i] + [evs[i]];
  }

  /** The row frames among some frames, in order. */
  function RowsOnly(fs: seq<Frame>): (r: seq<Frame>) {
    if fs == [] then []
    else (if fs[0].RowFrame? then [fs[0]] else []) + RowsOnly(fs[1..])
  }

  lemma {:induction false} RowsOnlyAppend(a: seq<Frame>, b: seq<Frame>)
    ensures RowsOnly(a + b) == RowsOnly(a) + RowsOnly(b)
  {
    if a == [] {
      assert a + b == b;
    } else {
      RowsOnlyAppend(a[1..], b);
      assert (a + b)[1..] == a[1..] + b && (a + b)[0] == a[0];
      var head := if a[0].RowFrame? then [a[0]] else [];
      assert head + (RowsOnly(a[1..]) + RowsOnly(b)) == (head + RowsOnly(a[1..])) + RowsOnly(b);
    }
  }

  /** The row frames of a run. */
  function RowRun(tables: bytes, s: Info, evs: seq<Stamped>): (r: seq<Frame>) {
    RowsOnly(Run(tables, s, evs).1)
  }

  lemma RowRunAppend(tables: bytes, s: Info, a: seq<Stamped>, b: seq<Stamped>)
    ensures RowRun(tables, s, a + b) == RowRun(tables, s, a) + RowRun(tables, Run(tables, s, a).0, b)
  {
    RunAppend(tables, s, a, b);
    var (s1, f1) := Run(tables, s, a);
    RowsOnlyAppend(f1, Run(tables, s1, b).1);
  }

  lemma RowRunSplit(tables: bytes, s: Info, evs: seq<Stamped>, k: nat)
    requires k <= |evs|
    ensures RowRun(tables, s, evs) ==
            RowRun(tables, s, evs[..k]) + RowRun(tables, Run(tables, s, evs[..k]).0, evs[k..])
  {
    RowRunAppend(tables, s, evs[..k], evs[k..]);
    assert evs == evs[..k] + evs[k..];
  }

  lemma RowRunCons(tables: bytes, s: Info, evs: seq<Stamped>)
    requires evs != []
    ensures var rest := RowRun(tables, Step(tables, s, evs[0]).0, evs[1..]);
            RowRun(tables, s, evs) == if Emits(s, evs[0].ev) then [RowFrameOf(s, evs[0])] + rest else rest
  {
    var (s1, f1) := Step(tables, s, evs[0]);
    var (s2, f2) := Run(tables, s1, evs[1..]);
    RowsOnlyAppend(f1, f2);
    assert f1 == [] || (f1 == [f1[0]] && f1[1..] == []);
  }

  lemma RowRunSnoc(tables: bytes, s: Info, evs: seq<Stamped>, i: nat)
    requires i < |evs|
    ensures var t := Run(tables, s, evs[..i]).0;
            var before := RowRun(tables, s, evs[..i]);
            RowRun(tables, s, evs[..i + 1]) == if Emits(t, evs[i].ev) then before + [RowFrameOf(t, evs[i])] else before
  {
    RunSnoc(tables, s, evs, i);
    var (s1, f1) := Run(tables, s, evs[..i]);
    var (s2, f2) := Step(tables, s1, evs[i]);
    RowsOnlyAppend(f1, f2);
    assert f2 == [] || (f2 == [f2[0]] && f2[1..] == []);
  }

  // ----- Positions ------------------------------------------------------------

  predicate Before(n1: nat, p1: nat, n2: nat, p2: nat) {
    n1 < n2 || (n1 == n2 && p1 < p2)
  }

  /** Events in binlog order, each numbered after its file. */
  predicate Ordered(evs: seq<Stamped>) {
    (forall e <- evs :: e.num == NameNumber(e.file)) &&
    (forall i, j :: 0 <= i < j < |evs| ==> Before(evs[i].num, evs[i].pos, evs[j].num, evs[j].pos))
  }

  predicate FrameBefore(a: Frame, b: Frame) {
    Before(NameNumber(a.at.file), a.at.pos, NameNumber(b.at.file), b.at.pos)
  }

  lemma {:induction false} FramesAreStamped(tables: bytes, s: Info, evs: seq<Stamped>)
    ensures forall f <- Run(tables, s, evs).1 :: exists e <- evs :: f.at == Stamp(e.file, e.pos)
    decreases |evs|
  {
    if evs != [] {
      var (s1, f1) := Step(tables, s, evs[0]);
      FramesAreStamped(tables, s1, evs[1..]);
      forall f | f in Run(tables, s, evs).1 ensures exists e <- evs :: f.at == Stamp(e.file, e.pos) {
        if f in f1 {
          assert evs[0] in evs;
        } else {
          var e :| e in evs[1..] && f.at == Stamp(e.file, e.pos);
          assert e in evs;
        }
      }
    }
  }

  /** Resume positions increase strictly along a run, so no event yields two frames. */
  lemma {:induction false} PositionsIncrease(tables: bytes, s: Info, evs: seq<Stamped>)
    requires Ordered(evs)
    ensures var fs := Run(tables, s, evs).1;
            |fs| <= |evs| && forall i, j :: 0 <= i < j < |fs| ==> FrameBefore(fs[i], fs[j])
    decreases |evs|
  {
    hide Step, FrameBefore;
    if evs != [] {
      var (s1, f1) := Step(tables, s, evs[0]);
      var f2 := Run(tables, s1, evs[1..]).1;
      OrderedTail(evs);
      PositionsIncrease(tables, s1, evs[1..]);
      if f1 != [] {
        forall g | g in f2 ensures FrameBefore(f1[0], g) {
          LaterFrame(tables, s1, evs, f1[0], g);
        }
      }
    }
  }

  lemma OrderedTail(evs: seq<Stamped>)
    requires Ordered(evs) && evs != []
    ensures Ordered(evs[1..])
  {
    assert forall e <- evs[1..] :: e in evs;
  }

  lemma LaterFrame(tables: bytes, s1: Info, evs: seq<Stamped>, f: Frame, g: Frame)
    requires Ordered(evs) && evs != [] && f.at == Stamp(evs[0].file, evs[0].pos) && g in Run(tables, s1, evs[1..]).1
    ensures FrameBefore(f, g)
  {
    hide Run, Step;
    FramesAreStamped(tables, s1, evs[1..]);
    assert evs[0] in evs;
    var e :| e in evs[1..] && g.at == Stamp(e.file, e.pos);
    var k :| 0 <= k < |evs[1..]| && evs[1..][k] == e;
    assert evs[k + 1] == e;
  }

  // ----- The throttle ---------------------------------------------------------

  /** Number of position-only frames. */
  function Positions(fs: seq<Frame>): (n: nat) {
    if fs == [] then 0 else (if fs[0].PosFrame? then 1 else 0) + Positions(fs[1..])
  }

  lemma {:induction false} PositionsAppend(a: seq<Frame>, b: seq<Frame>)
    ensures Positions(a + b) == Positions(a) + Positions(b)
  {
    if a == [] {
      assert a + b == b;
    } else {
      PositionsAppend(a[1..], b);
      assert (a + b)[1..] == a[1..] + b;
    }
  }

  lemma StepThrottles(tables: bytes, s: Info, e: Stamped)
    requires s.skipN <= 1
    ensures var (t, fs) := Step(tables, s, e); Positions(fs) + s.skipN == t.skipN <= 1
  {
    hide Listed;
  }

  /**
   * A session sends at most one position-only frame, and none once `skipN` is 1:
   * the throttle sets the counter back to 1 each time it holds a frame back.
   */
  lemma {:induction false} OnePositionFrame(tables: bytes, s: Info, evs: seq<Stamped>)
    requires s.skipN <= 1
    ensures Positions(Run(tables, s, evs).1) + s.skipN <= 1
    decreases |evs|
  {
    hide Step;
    if evs != [] {
      var (s1, f1) := Step(tables, s, evs[0]);
      StepThrottles(tables, s, evs[0]);
      OnePositionFrame(tables, s1, evs[1..]);
      PositionsAppend(f1, Run(tables, s1, evs[1..]).1);
    }
  }
}
