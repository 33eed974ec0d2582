/** Any number of restarts: each session is taken over by a fresh one behind some event. */
module Takeovers {
  import opened Bytes
  import opened BinlogEvents
  import opened Frames
  import opened Replication
  import opened Resume

  predicate GoodCuts(cuts: seq<nat>, n: nat) {
    (forall i :: 0 <= i < |cuts| ==> cuts[i] <= n) && forall i, j :: 0 <= i < j < |cuts| ==> cuts[i] <= cuts[j]
  }

  /** The row frames of all sessions: each reads from its cut to the next, with fresh state. */
  function Delivered(tables: bytes, evs: seq<Stamped>, cuts: seq<nat>): (fs: seq<Frame>)
    requires GoodCuts(cuts, |evs|)
    decreases |cuts|
  {
    if cuts == [] then RowRun(tables, FRESH, evs)
    else
      var c := cuts[|cuts| - 1];
      Delivered(tables, evs[..c], cuts[..|cuts| - 1]) + RowRun(tables, FRESH, evs[c..])
  }

  /** Every cut is safe for what the session that starts there reads. */
  predicate AllSafe(tables: bytes, evs: seq<Stamped>, cuts: seq<nat>)
    requires GoodCuts(cuts, |evs|)
    decreases |cuts|
  {
    cuts == [] ||
    var c := cuts[|cuts| - 1];
    SafeCut(tables, evs, c) && AllSafe(tables, evs[..c], cuts[..|cuts| - 1])
  }

  // ----- Prefixes -----------------------------------------------------------------

  lemma {:induction false} GroupedPrefix(tran: bool, open: bool, evs: seq<Stamped>, k: nat)
    requires Grouped(tran, open, evs) && k <= |evs|
    ensures Grouped(tran, open, evs[..k])
    decreases |evs|
  {
    if k > 0 {
      assert evs[..k][1..] == evs[1..][..k - 1];
      match evs[0].ev {
        case Query(_, effect) => GroupedPrefix(Apply(effect, tran), false, evs[1..], k - 1);
        case Xid => GroupedPrefix(false, false, evs[1..], k - 1);
        case TableMap(_, _, _, _) => GroupedPrefix(tran, true, evs[1..], k - 1);
        case _ => GroupedPrefix(tran, open, evs[1..], k - 1);
      }
    }
  }

  lemma OrderedPrefix(evs: seq<Stamped>, k: nat)
    requires Ordered(evs) && k <= |evs|
    ensures Ordered(evs[..k])
  {
    assert forall e <- evs[..k] :: e in evs;
  }

  lemma {:induction false} SafeFromPrefix(tables: bytes, g: Group, evs: seq<Stamped>, k: nat)
    requires SafeFrom(tables, g, evs) && k <= |evs|
    ensures SafeFrom(tables, g, evs[..k])
    decreases |evs|
  {
    hide Listed;
    if k > 0 {
      assert evs[..k][1..] == evs[1..][..k - 1];
      match evs[0].ev {
        case Query(_, Keeps) => SafeFromPrefix(tables, g, evs[1..], k - 1);
        case Query(_, _) =>
        case Xid =>
        case TableMap(db, tb, _, _) =>
          SafeFromPrefix(tables, if Listed(tables, db, tb) then Open else Barred(false), evs[1..], k - 1);
        case Rows(_, _) =>
          SafeFromPrefix(tables, if g == Open then Open else Barred(true), evs[1..], k - 1);
        case _ => SafeFromPrefix(tables, g, evs[1..], k - 1);
      }
    }
  }

  lemma {:induction false} FlagsOfPrefix(evs: seq<Stamped>, n: nat, k: nat)
    requires k <= n <= |evs|
    ensures TranAt(evs[..n], k) == TranAt(evs, k) && MapBefore(evs[..n], k) == MapBefore(evs, k)
    decreases k
  {
    if k > 0 {
      FlagsOfPrefix(evs, n, k - 1);
    }
  }

  /** A safe cut is safe for any part of what follows. */
  lemma SafeCutPrefix(tables: bytes, evs: seq<Stamped>, n: nat, k: nat)
    requires k <= n <= |evs| && SafeCut(tables, evs, k)
    ensures SafeCut(tables, evs[..n], k)
  {
    FlagsOfPrefix(evs, n, k);
    if TranAt(evs, k) {
      SafeFromPrefix(tables, GroupAt(tables, evs, k), evs[k..], n - k);
      assert evs[k..][..n - k] == evs[..n][k..];
    }
  }

  // ----- Where frames come from ------------------------------------------------------

  function Stamps(evs: seq<Stamped>): (s: set<Stamp>) {
    set e | e in evs :: Stamp(e.file, e.pos)
  }

  predicate FromStamps(fs: seq<Frame>, stamps: set<Stamp>) {
    forall f <- fs :: f.at in stamps
  }

  lemma RowRunStamps(tables: bytes, s: Info, evs: seq<Stamped>)
    ensures FromStamps(RowRun(tables, s, evs), Stamps(evs))
  {
    hide Step;
    FramesAreStamped(tables, s, evs);
    forall f | f in RowRun(tables, s, evs) ensures f.at in Stamps(evs) {
      RowsOnlyIn(Run(tables, s, evs).1, f);
    }
  }

  lemma {:induction false} DeliveredStamps(tables: bytes, evs: seq<Stamped>, cuts: seq<nat>)
    requires GoodCuts(cuts, |evs|)
    ensures FromStamps(Delivered(tables, evs, cuts), Stamps(evs))
    decreases |cuts|
  {
    hide RowRun;
    if cuts == [] {
      RowRunStamps(tables, FRESH, evs);
    } else {
      var c := cuts[|cuts| - 1];
      DeliveredStamps(tables, evs[..c], cuts[..|cuts| - 1]);
      RowRunStamps(tables, FRESH, evs[c..]);
      assert forall e <- evs[..c] :: e in evs;
      assert forall e <- evs[c..] :: e in evs;
    }
  }

  lemma StampsApart(evs: seq<Stamped>, c: nat)
    requires DistinctStamps(evs) && c <= |evs|
    ensures Stamps(evs[..c]) !! Stamps(evs[c..])
  {
    forall a, b | a in evs[..c] && b in evs[c..] ensures Stamp(a.file, a.pos) != Stamp(b.file, b.pos) {
      var i :| 0 <= i < c && evs[..c][i] == a;
      var j :| 0 <= j < |evs[c..]| && evs[c..][j] == b;
      assert evs[i] == a && evs[c + j] == b;
    }
  }

  /** Length of the longest prefix with stamps in `s`. */
  function PrefixIn(fs: seq<Frame>, s: set<Stamp>): (n: nat) {
    if fs == [] || fs[0].at !in s then 0 else 1 + PrefixIn(fs[1..], s)
  }

  lemma {:induction false} PrefixInIs(d: seq<Frame>, r: seq<Frame>, s: set<Stamp>, t: set<Stamp>)
    requires FromStamps(d, s) && FromStamps(r, t) && s !! t
    ensures PrefixIn(d + r, s) == |d|
    decreases |d|
  {
    if d == [] {
      assert d + r == r;
    } else {
      assert (d + r)[0] == d[0] && (d + r)[1..] == d[1..] + r;
      PrefixInIs(d[1..], r, s, t);
    }
  }

  /** Frames of events before and behind a cut can only be put together in one way. */
  lemma SplitsOneWay(d: seq<Frame>, r: seq<Frame>, a: seq<Frame>, b: seq<Frame>, s: set<Stamp>, t: set<Stamp>)
    requires FromStamps(d, s) && FromStamps(a, s) && FromStamps(r, t) && FromStamps(b, t) && s !! t
    ensures d + r == a + b <==> d == a && r == b
  {
    PrefixInIs(d, r, s, t);
    PrefixInIs(a, b, s, t);
    assert d == (d + r)[..|d|] && a == (a + b)[..|a|];
    assert r == (d + r)[|d|..] && b == (a + b)[|a|..];
  }

  // ----- The law ----------------------------------------------------------------------

  /**
   * However often the session is taken over, and behind whatever events, the row frames
   * of all sessions together are those of one undisturbed run if and only if every cut
   * is safe for what the session that starts there reads.
   */
  lemma {:induction false} TakeoversIff(tables: bytes, evs: seq<Stamped>, cuts: seq<nat>)
    requires Grouped(false, false, evs) && Ordered(evs) && GoodCuts(cuts, |evs|)
    ensures Delivered(tables, evs, cuts) == RowRun(tables, FRESH, evs) <==> AllSafe(tables, evs, cuts)
    decreases |cuts|
  {
    hide RowRun, Run, SafeCut, Grouped, Ordered, Stamps, FromStamps, DistinctStamps;
    if cuts != [] {
      var c, rest := cuts[|cuts| - 1], cuts[..|cuts| - 1];
      GroupedPrefix(false, false, evs, c);
      OrderedPrefix(evs, c);
      TakeoversIff(tables, evs[..c], rest);
      ResumeIff(tables, evs, c);
      RowRunSplit(tables, FRESH, evs, c);
      var s := Run(tables, FRESH, evs[..c]).0;
      DeliveredStamps(tables, evs[..c], rest);
      RowRunStamps(tables, FRESH, evs[..c]);
      RowRunStamps(tables, FRESH, evs[c..]);
      RowRunStamps(tables, s, evs[c..]);
      OrderedDistinct(evs);
      StampsApart(evs, c);
      SplitsOneWay(Delivered(tables, evs[..c], rest), RowRun(tables, FRESH, evs[c..]),
                   RowRun(tables, FRESH, evs[..c]), RowRun(tables, s, evs[c..]), Stamps(evs[..c]), Stamps(evs[c..]));
    }
  }

  /** Taking over from a session that itself was started behind a safe cut: again exactly at the safe cuts. */
  lemma SecondTakeoverIff(tables: bytes, evs: seq<Stamped>, k1: nat, k2: nat)
    requires Grouped(false, false, evs) && Ordered(evs) && k1 <= k2 <= |evs| && SafeCut(tables, evs, k1)
    ensures RowRun(tables, FRESH, evs[k1..]) == RowRun(tables, FRESH, evs[k1..k2]) + RowRun(tables, FRESH, evs[k2..])
            <==> SafeCut(tables, evs, k2)
  {
    hide RowRun, SafeCut, Grouped, Ordered;
    GroupedPrefix(false, false, evs, k2);
    OrderedPrefix(evs, k2);
    SafeCutPrefix(tables, evs, k2, k1);
    ResumeCompletes(tables, evs, k1);
    ResumeCompletes(tables, evs, k2);
    ResumeCompletes(tables, evs[..k2], k1);
    assert evs[..k2][..k1] == evs[..k1] && evs[..k2][k1..] == evs[k1..k2];
    var p, m := RowRun(tables, FRESH, evs[..k1]), RowRun(tables, FRESH, evs[k1..k2]);
    var r := RowRun(tables, FRESH, evs[k2..]);
    assert (p + m) + r == p + (m + r);
    PrefixCancels(p, RowRun(tables, FRESH, evs[k1..]), m + r);
  }

  // ----- Which frames are safe to resume from, whatever session made them -----------------

  /**
   * With one rows event to a table map, the place behind an event is safe exactly when
   * it is not between a listed map and its rows.
   */
  lemma SingleRowsSafeIff(tables: bytes, evs: seq<Stamped>, k: nat)
    requires 0 < k <= |evs| && Grouped(false, false, evs) && Ordered(evs) && SingleRows(evs)
    ensures SafeCut(tables, evs, k) <==>
            !(k < |evs| && evs[k].ev.Rows? && ListedMap(tables, evs[k - 1].ev))
  {
    hide SafeCut, RowRun, Run;
    SingleRowsResume(tables, evs, k);
    ResumeIff(tables, evs, k);
  }

  /**
   * So every row frame is safe to resume from, also that of a session that was itself
   * restarted anywhere; the frames that are not are the position-only frames that a
   * restarted session stamps between a listed map and its rows.
   */
  lemma RowFrameIsSafe(tables: bytes, evs: seq<Stamped>, k1: nat, k: nat)
    requires k1 < k <= |evs| && Grouped(false, false, evs) && Ordered(evs) && SingleRows(evs)
    requires exists f <- Step(tables, Run(tables, FRESH, evs[k1..k - 1]).0, evs[k - 1]).1 :: f.RowFrame?
    ensures SafeCut(tables, evs, k)
  {
    hide SafeCut, Grouped, Ordered, Run;
    SingleRowsSafeIff(tables, evs, k);
  }

  lemma PositionFrameIsSafeIff(tables: bytes, evs: seq<Stamped>, k1: nat, k: nat)
    requires k1 < k <= |evs| && Grouped(false, false, evs) && Ordered(evs) && SingleRows(evs)
    requires exists f <- Step(tables, Run(tables, FRESH, evs[k1..k - 1]).0, evs[k - 1]).1 :: f.PosFrame?
    ensures !SafeCut(tables, evs, k) <==>
            k < |evs| && evs[k].ev.Rows? && ListedMap(tables, evs[k - 1].ev)
    ensures !SafeCut(tables, evs, k) ==> TranAt(evs, k) && !TranAt(evs[k1..], k - k1)
  {
    hide Grouped, Ordered;
    SingleRowsSafeIff(tables, evs, k);
    StateAfter(tables, evs[k1..], k - 1 - k1);
    assert evs[k1..][..k - 1 - k1] == evs[k1..k - 1];
    StateAfter(tables, evs[k1..], k - k1);
    RunSnoc(tables, FRESH, evs[k1..], k - 1 - k1);
  }
}
