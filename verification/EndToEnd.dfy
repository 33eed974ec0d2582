/** The whole way: from the master's binlog through both rings to the rows the slave's handlers are given. */
module EndToEnd {
  import opened Bytes
  import opened BinlogEvents
  import opened Frames
  import opened Replication
  import opened Streams
  import opened DumpCommand
  import opened ClassTable
  import opened Resume
  import opened Reconnect
  import opened RowImages
  import opened Slave
  import opened WrittenLogs
  import opened Spsc
  import Ring = ChunkRing
  import opened Transport
  import Overruns

  // ----- What the reader fills its chunks with --------------------------------------------

  /** The frames the reader has written, in order. */
  function Filled(acts: seq<Action>): (ps: seq<bytes>) {
    if acts == [] then []
    else
      var a := acts[|acts| - 1];
      Filled(acts[..|acts| - 1]) + if a.Reader? && a.p.Store? then [a.p.data] else []
  }

  /** The first of these are handed over; one more may wait in its chunk. */
  ghost predicate HandsOver(m: Ring.Depot, ps: seq<bytes>) {
    |ps| == m.ring.wn + (if Ring.Waiting(m) then 1 else 0) && m.put == ps[..m.ring.wn] &&
    (Ring.Waiting(m) ==> m.ring.num > 0 && SlotOf(m.ring.wn, m.ring.num) < |m.ring.slots| &&
                         Ring.Holds(m, SlotOf(m.ring.wn, m.ring.num), ps[m.ring.wn]))
  }

  lemma TurnHandsOver(m: Ring.Depot, ps: seq<bytes>, p: Ring.PStep)
    requires Ring.Inv(m) && Ring.CanProduce(m, p) && HandsOver(m, ps)
    requires p == Ring.Check || p == Ring.Decide || p == Ring.Free || p == Ring.Move || p == Ring.Fail
    ensures HandsOver(Ring.Produce(m, p), ps)
  {
    hide Ring.Inv, Ring.Sized, SlotOf;
    InRange(m);
  }

  lemma GrantHandsOver(m: Ring.Depot, ps: seq<bytes>, c: nat, n: nat)
    requires Ring.Inv(m) && Ring.CanProduce(m, Ring.Alloc(c, n)) && HandsOver(m, ps)
    ensures HandsOver(Ring.Produce(m, Ring.Alloc(c, n)), ps)
  {
    hide Ring.Inv, Ring.Sized, SlotOf, Ring.Apart;
    InRange(m);
  }

  lemma CommitHandsOver(m: Ring.Depot, ps: seq<bytes>)
    requires Ring.Inv(m) && Ring.CanProduce(m, Ring.Commit) && HandsOver(m, ps)
    ensures HandsOver(Ring.Produce(m, Ring.Commit), ps)
  {
    hide Ring.Inv, Ring.Sized, SlotOf;
    assert ps[..m.ring.wn + 1] == ps[..m.ring.wn] + [ps[m.ring.wn]];
  }

  lemma ReaderHandsOver(m: Ring.Depot, ps: seq<bytes>, p: Ring.PStep)
    requires Ring.Inv(m) && Ring.CanProduce(m, p) && HandsOver(m, ps) && !p.Store?
    ensures HandsOver(Ring.Produce(m, p), ps)
  {
    hide *;
    match p {
      case Alloc(c, n) => GrantHandsOver(m, ps, c, n);
      case Commit => CommitHandsOver(m, ps);
      case _ => TurnHandsOver(m, ps, p);
    }
  }

  lemma StoreHandsOver(m: Ring.Depot, ps: seq<bytes>, data: bytes)
    requires Ring.Inv(m) && Ring.CanProduce(m, Ring.Store(data)) && HandsOver(m, ps)
    ensures HandsOver(Ring.Produce(m, Ring.Store(data)), ps + [data])
  {
    InRange(m);
    StoreHolds(m, data);
    StoreShape(m, data);
    hide Ring.Inv, Ring.Sized, SlotOf, Ring.Holds, Ring.Produce, Ring.Waiting;
  }

  lemma DoHandsOver(s: Sys, a: Action, ps: seq<bytes>)
    requires Good(s) && Enabled(s, a) && HandsOver(s.m, ps)
    ensures HandsOver(Do(s, a).m, ps + if a.Reader? && a.p.Store? then [a.p.data] else [])
  {
    hide Ring.Inv, Under, Beside, Ring.CanProduce, Ring.CanConsume, Ring.Produce, Ring.Consume, NextPayload;
    hide HandsOver;
    LinkInv(s);
    if ReaderCan(s, a) {
      if a.p.Store? {
        assert a.p == Ring.Store(a.p.data);
        StoreHandsOver(s.m, ps, a.p.data);
      } else {
        ReaderHandsOver(s.m, ps, a.p);
      }
    } else if DumpCan(s, a) {
      if a.Dump? {
        ConsumeHandsOver(s.m, ps, a.c);
      }
    }
    assert ps + [] == ps;
  }

  lemma ConsumeHandsOver(m: Ring.Depot, ps: seq<bytes>, c: Ring.CStep)
    requires Ring.Inv(m) && Ring.CanConsume(m, c) && HandsOver(m, ps)
    ensures HandsOver(Ring.Consume(m, c), ps)
  {
    hide Ring.Inv, SlotOf;
  }

  /** What is handed over is what the reader wrote, in every run. */
  lemma {:induction false} PutIsFilled(run: seq<Sys>, acts: seq<Action>, num: nat, num2: nat, i: nat)
    requires IsRun(run, acts, num, num2) && i < |run|
    ensures HandsOver(run[i].m, Filled(acts[..i]))
  {
    hide Good, Enabled, Do;
    if i == 0 {
      assert acts[..0] == [];
    } else {
      hide HandsOver, Init;
      PutIsFilled(run, acts, num, num2, i - 1);
      RunIsGood(run, acts, num, num2, i - 1);
      DoHandsOver(run[i - 1], acts[i - 1], Filled(acts[..i - 1]));
      assert acts[..i][..i - 1] == acts[..i - 1];
    }
  }

  lemma PutIsPrefix(m: Ring.Depot, ps: seq<bytes>)
    requires HandsOver(m, ps)
    ensures m.put <= ps
  {
  }

  // ----- The table list ------------------------------------------------------------------------

  /** The list the reader finds behind its pointer into the command, `o` bytes from its beginning. */
  function ListAt(held: map<nat, bytes>, cmd: nat, o: nat): (list: bytes)
    requires cmd in held
  {
    if o <= |held[cmd]| then CStr(held[cmd][o..]) else []
  }

  /** As the command arrives this is the list the parser found. */
  lemma ListOfCommand(cmd: nat, info: bytes, list: bytes, usec: nat)
    requires NUL !in list
    ensures ListAt(map[cmd := CommandText(info, list, usec)], cmd, |info| + 1) == [COMMA] + list + [COMMA]
  {
    var quoted := [COMMA] + list + [COMMA];
    IndexOfAppend(quoted, NUL, U32(usec));
    assert CommandText(info, list, usec)[|info| + 1..] == quoted + [NUL] + U32(usec);
    assert (quoted + [NUL] + U32(usec))[..|quoted|] == quoted;
  }

  /** The run of a session whose list is looked up anew at every event. */
  function RunLists(lists: seq<bytes>, s: Info, evs: seq<Stamped>): (r: (Info, seq<Frame>))
    requires |lists| == |evs|
    decreases |evs|
  {
    if evs == [] then (s, [])
    else
      var (s1, f1) := Step(lists[0], s, evs[0]);
      var (s2, f2) := RunLists(lists[1..], s1, evs[1..]);
      (s2, f1 + f2)
  }

  lemma {:induction false} OneList(tables: bytes, lists: seq<bytes>, s: Info, evs: seq<Stamped>)
    requires |lists| == |evs| && forall j :: 0 <= j < |lists| ==> lists[j] == tables
    ensures RunLists(lists, s, evs) == Run(tables, s, evs)
    decreases |evs|
  {
    hide Step;
    if evs != [] {
      OneList(tables, lists[1..], Step(tables, s, evs[0]).0, evs[1..]);
    }
  }

  /** What else lies in the master's pool has chunks with room. */
  ghost predicate RoomyHeld(m: Ring.Depot) {
    forall d <- m.held :: Roomy(m.sizes, |m.held[d]|)
  }

  lemma HeldHasRoom(s: Sys, num: nat, num2: nat)
    requires Init(s, num, num2) && RoomyHeld(s.m)
    ensures |s.m.sizes| > 0 && Ring.Roomed(s.m.sizes, s.m.held)
  {
    InitNums(s, num, num2);
    hide Init, Roomy, Room;
    forall d | d in s.m.held ensures Room(s.m.sizes, |s.m.held[d]|) >= |s.m.held[d]| {
      RoomIff(s.m.sizes, |s.m.held[d]|);
    }
  }

  /** The session the reader runs: its command, and the state in which it looks up the list for each event. */
  datatype Reading = Reading(cmd: nat, info: bytes, list: bytes, usec: nat, at: seq<nat>) {
    function Tables(): (s: bytes) {
      [COMMA] + list + [COMMA]
    }

    ghost predicate Fits(run: seq<Sys>, acts: seq<Action>) {
      run != [] && NUL !in list && RoomyFrames(run[0], acts) && RoomyHeld(run[0].m) &&
      cmd in run[0].m.held && run[0].m.held[cmd] == CommandText(info, list, usec) &&
      Looks(run)
    }

    ghost predicate Looks(run: seq<Sys>) {
      forall k :: 0 <= k < |at| ==> at[k] < |run| && cmd in run[at[k]].m.held
    }

    ghost function Lists(run: seq<Sys>): (ls: seq<bytes>)
      requires Looks(run)
      ensures |ls| == |at| && forall k :: 0 <= k < |at| ==> ls[k] == ListAt(run[at[k]].m.held, cmd, |info| + 1)
    {
      seq(|at|, k requires 0 <= k < |at| => ListAt(run[at[k]].m.held, cmd, |info| + 1))
    }
  }

  /** Every look finds the list of the command, as long as chunks have room. */
  lemma ListStays(run: seq<Sys>, acts: seq<Action>, num: nat, num2: nat, r: Reading)
    requires IsRun(run, acts, num, num2) && r.Fits(run, acts)
    ensures forall k :: 0 <= k < |r.at| ==> r.Lists(run)[k] == r.Tables()
  {
    hide Roomy, Good, Do, Enabled, Ring.Roomed, CommandText;
    HeldHasRoom(run[0], num, num2);
    hide Init, RoomyFrames, RoomyHeld, IsRun;
    ListOfCommand(r.cmd, r.info, r.list, r.usec);
    var ls := r.Lists(run);
    forall k | 0 <= k < |ls| ensures ls[k] == r.Tables() {
      HeldIsKept(run, acts, num, num2, r.at[k]);
    }
  }

  lemma CStrOf(a: bytes, rest: bytes)
    requires NUL !in a && NUL in rest
    ensures CStr(a + rest) == a + CStr(rest)
  {
    IndexOfSkip(a, rest, NUL);
    assert (a + rest)[..|a| + IndexOf(rest, NUL)] == a + rest[..IndexOf(rest, NUL)];
  }

  lemma {:induction false} CStrOfPrefix(s: bytes, n: nat)
    requires IndexOf(s, NUL) < n <= |s|
    ensures NUL in s[..n] && CStr(s[..n]) == CStr(s)
    decreases n
  {
    if s[0] == NUL {
      assert s[..n][0] == NUL;
    } else {
      assert s[..n][1..] == s[1..][..n - 1];
      CStrOfPrefix(s[1..], n - 1);
      assert s[..n] == [s[0]] + s[1..][..n - 1];
    }
  }

  lemma SpoiltParts(text: bytes, o: nat, quoted: bytes, rest: bytes, r: nat, x: bytes, n: nat)
    requires o <= r <= o + |quoted| <= |text| && text[o..] == quoted + rest
    requires n == if |x| >= |text| - r then |text| - r else |x|
    ensures Overruns.Spoilt(text, r, x)[o..] == quoted[..r - o] + (x[..n] + text[r + n..])
  {
    assert text[o..][..r - o] == quoted[..r - o];
    assert text[..r] == text[..o] + quoted[..r - o];
    assert Overruns.Spoilt(text, r, x) == text[..o] + (quoted[..r - o] + (x[..n] + text[r + n..]));
  }

  lemma ListOfSpoilt(kept: bytes, x: bytes, n: nat, more: bytes)
    requires NUL !in kept && IndexOf(x, NUL) < n <= |x|
    ensures CStr(kept + (x[..n] + more)) == kept + CStr(x)
  {
    hide CStr, IndexOf;
    CStrOfPrefix(x, n);
    CStrOfLonger(x[..n], more);
    assert NUL in x[..n] + more;
    CStrOf(kept, x[..n] + more);
  }

  lemma CommandTail(info: bytes, list: bytes, usec: nat)
    ensures |CommandText(info, list, usec)| > |info| + 3 + |list|
    ensures CommandText(info, list, usec)[|info| + 1..] == ([COMMA] + list + [COMMA]) + ([NUL] + U32(usec))
  {
  }

  /** What is left of the list where the command is written over from byte `r` on. */
  lemma SpoiltList(cmd: nat, info: bytes, list: bytes, usec: nat, r: nat, x: bytes)
    requires NUL !in list && |info| + 1 <= r <= |info| + 3 + |list|
    requires IndexOf(x, NUL) < |x| && r + IndexOf(x, NUL) < |CommandText(info, list, usec)|
    ensures var text := CommandText(info, list, usec);
            ListAt(map[cmd := Overruns.Spoilt(text, r, x)], cmd, |info| + 1) ==
            ([COMMA] + list + [COMMA])[..r - |info| - 1] + CStr(x)
  {
    hide CStr, IndexOf, Overruns.Spoilt, CommandText;
    var text, quoted, o := CommandText(info, list, usec), [COMMA] + list + [COMMA], |info| + 1;
    var n := if |x| >= |text| - r then |text| - r else |x|;
    CommandTail(info, list, usec);
    SpoiltParts(text, o, quoted, [NUL] + U32(usec), r, x, n);
    assert NUL !in quoted[..r - o];
    ListOfSpoilt(quoted[..r - o], x, n, text[r + n..]);
  }

  lemma {:induction false} CStrOfLonger(a: bytes, b: bytes)
    requires NUL in a
    ensures CStr(a + b) == CStr(a)
    decreases |a|
  {
    if a[0] != NUL {
      assert (a + b)[1..] == a[1..] + b;
      assert a == [a[0]] + a[1..];
      CStrOfLonger(a[1..], b);
    }
  }

  /**
   * A command without room in its chunk: once the first frame has been written to the chunk
   * behind it, the reader goes on with the beginning of the list and the frame's text
   * up to its NUL in place of the rest.
   */
  lemma ListSpoils(s: Sys, num: nat, num2: nat, r: Reading, x: bytes) returns (run: seq<Sys>, acts: seq<Action>)
    requires NUL !in r.list && Init(s, num, num2) && |s.m.sizes| > 0 && s.m.sizes[0] > 0
    requires var text := CommandText(r.info, r.list, r.usec);
             s.m.held == map[r.cmd := text] && Ring.GoodLength(|text|) && Ring.GoodLength(|x|) && NUL in x &&
             !Roomy(s.m.sizes, |text|) &&
             |r.info| + 1 <= Room(s.m.sizes, |text|) <= |r.info| + 3 + |r.list| &&
             Room(s.m.sizes, |text|) + IndexOf(x, NUL) < |text|
    ensures IsRun(run, acts, num, num2) && run[0] == s && r.cmd in run[|acts|].m.held
    ensures ListAt(run[|acts|].m.held, r.cmd, |r.info| + 1) ==
            r.Tables()[..Room(s.m.sizes, |CommandText(r.info, r.list, r.usec)|) - |r.info| - 1] + CStr(x)
  {
    hide IsRun, Init, Roomy, Room, CommandText, Overruns.Spoilt, ListAt;
    var text := CommandText(r.info, r.list, r.usec);
    run, acts := Overruns.CommandSpoils(s, num, num2, r.cmd, text, x);
    IndexOfIn(x, NUL);
    SpoiltList(r.cmd, r.info, r.list, r.usec, Room(s.m.sizes, |text|), x);
  }

  lemma {:induction false} IndexOfIn(s: bytes, c: byte)
    requires c in s
    ensures IndexOf(s, c) < |s|
  {
    if s[0] != c {
      IndexOfIn(s[1..], c);
    }
  }

  // ----- To the handlers -------------------------------------------------------------------------

  lemma EncodedPrefix(fs: seq<Frame>, n: nat)
    requires n <= |fs|
    ensures EncodeAll(fs)[..n] == EncodeAll(fs[..n])
  {
  }

  lemma CallsPrefix(fs: seq<Frame>, n: nat)
    requires n <= |fs|
    ensures CallsOfAll(fs[..n]) <= CallsOfAll(fs)
  {
    assert fs == fs[..n] + fs[n..];
    CallsOfAllAppend(fs[..n], fs[n..]);
  }

  /** What the slave has applied are the first of the frames of the events read. */
  lemma AppliedArePrefix(run: seq<Sys>, acts: seq<Action>, num: nat, num2: nat, i: nat, r: Reading, evs: seq<Stamped>)
    requires IsRun(run, acts, num, num2) && i < |run| && r.Fits(run, acts) && |r.at| == |evs|
    requires Filled(acts[..i]) == EncodeAll(RunLists(r.Lists(run), FRESH, evs).1)
    ensures var fs, n := Run(r.Tables(), FRESH, evs).1, |run[i].side.out|;
            n <= |fs| && run[i].side.out == EncodeAll(fs[..n])
  {
    ListStays(run, acts, num, num2, r);
    assert RoomyFrames(run[0], acts);
    hide IsRun, EncodeAll, Run, RunLists, Filled, Reading.Fits, Reading.Lists, RoomyFrames, HandsOver;
    OneList(r.Tables(), r.Lists(run), FRESH, evs);
    PutIsFilled(run, acts, num, num2, i);
    PutIsPrefix(run[i].m, Filled(acts[..i]));
    Delivery(run, acts, num, num2, i);
    var fs, n := Run(r.Tables(), FRESH, evs).1, |run[i].side.out|;
    assert run[i].side.out == EncodeAll(fs)[..n];
    EncodedPrefix(fs, n);
  }

  /**
   * In every run of the four threads in which chunks have room, and whose reader has
   * written the frames of the events `evs`, looking up its list in the command each time:
   * the frames applied are the first of these, and the handler calls they
   * stand for are the first of the calls due, for the rows events of the tables that were
   * asked for, in binlog order, with the columns of their own table maps.
   */
  lemma CallsArePrefixOfDue(run: seq<Sys>, acts: seq<Action>, num: nat, num2: nat, i: nat,
                            r: Reading, evs: seq<Stamped>)
    requires IsRun(run, acts, num, num2) && i < |run| && r.Fits(run, acts) && |r.at| == |evs| && AllOwnMaps(evs)
    requires Filled(acts[..i]) == EncodeAll(RunLists(r.Lists(run), FRESH, evs).1)
    ensures var fs, n := Run(r.Tables(), FRESH, evs).1, |run[i].side.out|;
            n <= |fs| && run[i].side.out == EncodeAll(fs[..n]) &&
            CallsOfAll(fs[..n]) <= CallsOfAll(DueFrames(r.Tables(), evs, |evs|))
  {
    hide IsRun, EncodeAll, Run, RunLists, Filled, CallsOfAll, DueFrames, Reading.Fits, Reading.Lists;
    AppliedArePrefix(run, acts, num, num2, i, r, evs);
    CallsPrefix(Run(r.Tables(), FRESH, evs).1, |run[i].side.out|);
    HandlerCallsExact(r.Tables(), evs);
  }

  lemma {:induction false} RowsPrefix(registered: map<bytes, Target>, fs: seq<Frame>, n: nat)
    requires n <= |fs|
    ensures RowsDone(registered, fs[..n], NoneFail(n)) <= RowsDone(registered, fs, NoneFail(|fs|))
    decreases |fs|
  {
    hide EffectOf, Encode;
    if n == |fs| {
      assert fs[..n] == fs;
    } else {
      var k := |fs| - 1;
      RowsPrefix(registered, fs[..k], n);
      assert fs[..k][..n] == fs[..n];
      assert NoneFail(|fs|)[..k] == NoneFail(k);
    }
  }

  lemma RunIsPrefix(tables: bytes, evs: seq<Stamped>, k: nat)
    requires k <= |evs|
    ensures Run(tables, FRESH, evs[..k]).1 <= Run(tables, FRESH, evs).1
  {
    hide Run;
    assert evs == evs[..k] + evs[k..];
    RunAppend(tables, FRESH, evs[..k], evs[k..]);
  }

  /**
   * From the bytes of the binlog files to the rows: at every moment of such a run, with
   * `k` events read, the rows handed on by the handlers that succeed for the frames
   * applied are the first of the rows that were written for the tables asked for.
   */
  lemma RowsArePrefixOfDue(run: seq<Sys>, acts: seq<Action>, num: nat, num2: nat, i: nat, r: Reading, k: nat,
                           localId: nat, b: Binlog, vols: seq<Volume>, registered: map<bytes, Target>)
    requires b.index != [] && GoodIndex(b.index) && IncreasingIndex(b.index) && GoodBinlog(localId, b)
    requires forall f <- b.index :: NUL !in f && NEWLINE !in f
    requires WrittenLogs.Written(localId, b, 0, vols, START) && GoodLog(WholeLog(vols), START)
    requires Deliverable(registered, r.Tables(), WholeLog(vols), START)
    requires IsRun(run, acts, num, num2) && i < |run| && r.Fits(run, acts)
    requires |r.at| == k <= |Stream(localId, b, b.index[0], NameNumber(b.index[0]), MAGIC_LEN)|
    requires var evs := Stream(localId, b, b.index[0], NameNumber(b.index[0]), MAGIC_LEN)[..k];
             Filled(acts[..i]) == EncodeAll(RunLists(r.Lists(run), FRESH, evs).1)
    ensures var fs := Run(r.Tables(), FRESH, Stream(localId, b, b.index[0], NameNumber(b.index[0]), MAGIC_LEN)).1;
            var n := |run[i].side.out|;
            n <= |fs| && run[i].side.out == EncodeAll(fs[..n]) &&
            Through(registered, fs, NoneFail(|fs|)) == |fs| &&
            RowsDone(registered, fs[..n], NoneFail(n)) <= DueRows(r.Tables(), WholeLog(vols), START)
  {
    hide IsRun, EncodeAll, Run, RunLists, Filled, Reading.Fits, Reading.Lists, WrittenLogs.Written, GoodLog;
    hide Deliverable, DueRows, RowsDone, Through, IncreasingIndex, Stream;
    var evs := Stream(localId, b, b.index[0], NameNumber(b.index[0]), MAGIC_LEN);
    AppliedArePrefix(run, acts, num, num2, i, r, evs[..k]);
    RunIsPrefix(r.Tables(), evs, k);
    BinlogArrives(localId, b, vols, r.Tables(), registered);
    var fs, n := Run(r.Tables(), FRESH, evs).1, |run[i].side.out|;
    assert fs[..n] == Run(r.Tables(), FRESH, evs[..k]).1[..n];
    RowsPrefix(registered, fs, n);
  }
}
