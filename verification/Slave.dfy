/** The slave's consumer thread: it takes frames apart, dispatches rows and keeps its position. */
module Slave {
  import opened Bytes
  import opened Frames
  import opened RowImages

  /** One call of a table's row handler. */
  datatype Call = Call(kind: byte, table: bytes, payload: bytes)

  /** The handler call a frame is for, if any. */
  function CallsOf(f: Frame): (cs: seq<Call>) {
    match f
    case PosFrame(_) => []
    case RowFrame(_, kind, db, tb, ct, cm, data) => [Call(kind, TableName(db, tb), RowPayload(ct, cm, data))]
  }

  function CallsOfAll(fs: seq<Frame>): (cs: seq<Call>) {
    if fs == [] then [] else CallsOfAll(fs[..|fs| - 1]) + CallsOf(fs[|fs| - 1])
  }

  // ----- What a frame leads to ------------------------------------------------------

  /** How the thread stands after a frame: it goes on, gives up with an error, has crashed, or loops for ever. */
  datatype End = GoesOn | GivesUp | Crashes | Loops

  function EndOf(o: Outcome): (e: End) {
    match o
    case Finished => GoesOn
    case Refused => GivesUp
    case Fault => Crashes
    case Endless => Loops
  }

  /** A row as handed to the handlers of a table. */
  datatype TableCall = TableCall(table: bytes, call: RowCall)

  function ForTable(table: bytes, calls: seq<RowCall>): (cs: seq<TableCall>)
    ensures |cs| == |calls|
  {
    seq(|calls|, i requires 0 <= i < |calls| => TableCall(table, calls[i]))
  }

  datatype Effect = Effect(made: seq<Call>, rows: seq<TableCall>, end: End)

  /**
   * One chunk, with the handlers of `registered` tables: the call of the table's handler, the
   * rows this hands on, of which number `refuse`, if there is one, fails, and the end.
   */
  function EffectOf(registered: map<bytes, Target>, chunk: bytes, refuse: Option<nat>): (e: Effect) {
    match SplitFrame(chunk)
    case Malformed => Effect([], [], GivesUp)
    case PositionOnly(_) => Effect([], [], GoesOn)
    case Dispatch(_, kind, table, payload) =>
      if table !in registered then Effect([], [], GivesUp)
      else
        var (rows, o) := UpTo(DecodeRows(payload, kind, registered[table]), refuse);
        Effect([Call(kind, table, payload)], ForTable(table, rows), EndOf(o))
  }

  /**
   * The thread gives up on a frame it cannot take apart, a table without handlers and an error of the decoder
   * or a handler, and only then; it crashes and loops with the decoder.
   */
  lemma EndIff(registered: map<bytes, Target>, chunk: bytes, refuse: Option<nat>)
    ensures var s, end := SplitFrame(chunk), EffectOf(registered, chunk, refuse).end;
            var o := if s.Dispatch? && s.table in registered
                     then Some(UpTo(DecodeRows(s.payload, s.kind, registered[s.table]), refuse).1) else None;
            (end == GivesUp <==> s == Malformed || (s.Dispatch? && s.table !in registered) || o == Some(Refused)) &&
            (end == Crashes <==> o == Some(Fault)) && (end == Loops <==> o == Some(Endless))
  {
    hide SplitFrame, DecodeRows, UpTo;
  }

  /** How many frames go through before the first that ends the thread. */
  function Through(registered: map<bytes, Target>, fs: seq<Frame>, refuses: seq<Option<nat>>): (k: nat)
    requires |refuses| == |fs|
    ensures k <= |fs|
  {
    if fs == [] || EffectOf(registered, Encode(fs[0]), refuses[0]).end != GoesOn then 0
    else 1 + Through(registered, fs[1..], refuses[1..])
  }

  lemma {:induction false} ThroughIs(registered: map<bytes, Target>, fs: seq<Frame>, refuses: seq<Option<nat>>, k: nat)
    requires |refuses| == |fs| && k <= |fs|
    requires forall i :: 0 <= i < k ==> EffectOf(registered, Encode(fs[i]), refuses[i]).end == GoesOn
    requires k < |fs| ==> EffectOf(registered, Encode(fs[k]), refuses[k]).end != GoesOn
    ensures Through(registered, fs, refuses) == k
    decreases k
  {
    hide EffectOf, Encode;
    if k > 0 {
      ThroughIs(registered, fs[1..], refuses[1..], k - 1);
    }
  }

  /** The handler calls of these frames, and the rows they hand on. */
  function MadeBy(registered: map<bytes, Target>, fs: seq<Frame>, refuses: seq<Option<nat>>): (cs: seq<Call>)
    requires |refuses| == |fs|
  {
    if fs == [] then []
    else
      MadeBy(registered, fs[..|fs| - 1], refuses[..|fs| - 1]) +
      EffectOf(registered, Encode(fs[|fs| - 1]), refuses[|fs| - 1]).made
  }

  function RowsDone(registered: map<bytes, Target>, fs: seq<Frame>, refuses: seq<Option<nat>>): (cs: seq<TableCall>)
    requires |refuses| == |fs|
  {
    if fs == [] then []
    else
      RowsDone(registered, fs[..|fs| - 1], refuses[..|fs| - 1]) +
      EffectOf(registered, Encode(fs[|fs| - 1]), refuses[|fs| - 1]).rows
  }

  lemma DoneStep(registered: map<bytes, Target>, fs: seq<Frame>, refuses: seq<Option<nat>>, i: nat)
    requires |refuses| == |fs| && i < |fs|
    ensures MadeBy(registered, fs[..i + 1], refuses[..i + 1]) ==
            MadeBy(registered, fs[..i], refuses[..i]) + EffectOf(registered, Encode(fs[i]), refuses[i]).made
    ensures RowsDone(registered, fs[..i + 1], refuses[..i + 1]) ==
            RowsDone(registered, fs[..i], refuses[..i]) + EffectOf(registered, Encode(fs[i]), refuses[i]).rows
  {
    hide EffectOf, Encode;
    assert fs[..i + 1][..i] == fs[..i] && refuses[..i + 1][..i] == refuses[..i];
  }

  /** The calls made for frames the thread goes on after are all the calls they are for. */
  lemma {:induction false} MadeIsAll(registered: map<bytes, Target>, fs: seq<Frame>, refuses: seq<Option<nat>>)
    requires |refuses| == |fs| && forall f <- fs :: GoodFrame(f)
    requires forall i :: 0 <= i < |fs| ==> EffectOf(registered, Encode(fs[i]), refuses[i]).end == GoesOn
    ensures MadeBy(registered, fs, refuses) == CallsOfAll(fs)
    decreases |fs|
  {
    hide GoodFrame, Encode, SplitFrame, DecodeRows, UpTo, CallsOf;
    if fs != [] {
      var n := |fs| - 1;
      MadeIsAll(registered, fs[..n], refuses[..n]);
      assert fs[n] in fs;
      MadeOne(registered, fs[n], refuses[n]);
    }
  }

  lemma MadeOne(registered: map<bytes, Target>, f: Frame, refuse: Option<nat>)
    requires GoodFrame(f) && EffectOf(registered, Encode(f), refuse).end == GoesOn
    ensures EffectOf(registered, Encode(f), refuse).made == CallsOf(f)
  {
    hide GoodFrame, Encode, SplitFrame, DecodeRows, UpTo;
    SplitEncode(f);
  }

  // ----- The thread -----------------------------------------------------------------------

  class Applier {
    const registered: map<bytes, Target>
    const binlogSave: nat

    var dumpInfo: bytes
    var curSave: nat
    /** Contents of slave.info. */
    var saved: bytes
    /** Handler calls so far, and the rows they handed on. */
    var calls: seq<Call>
    var rows: seq<TableCall>
    /** Frames taken in since `saved` was written. */
    ghost var lag: nat

    ghost predicate Valid()
      reads this
    {
      lag <= curSave && (curSave <= 1 || curSave < binlogSave)
    }

    constructor (registered: map<bytes, Target>, binlogSave: nat, info: bytes)
      ensures Valid() && saved == dumpInfo == info && calls == [] && rows == [] && lag == 0
      ensures this.registered == registered && this.binlogSave == binlogSave
    {
      this.registered, this.binlogSave := registered, binlogSave;
      dumpInfo, curSave, saved, calls, rows, lag := info, 0, info, [], [], 0;
    }

    /** Writes slave.info when enough frames have come in, or enough time has gone by. */
    method FlushSlaveInfo(timeDue: bool)
      modifies this`curSave, this`saved, this`lag
      ensures if old(curSave) < binlogSave && !timeDue
              then curSave == old(curSave) && saved == old(saved) && lag == old(lag)
              else curSave == 1 && saved == dumpInfo && lag == 0
    {
      if curSave < binlogSave && !timeDue {
        return;
      }
      curSave, saved, lag := 1, dumpInfo, 0;
    }

    /** One frame, its handler and the flush; the thread goes on only where all three succeed. */
    method Consume(chunk: bytes, timeDue: bool, refuse: Option<nat>) returns (end: End)
      requires Valid()
      modifies this
      ensures var e := EffectOf(registered, chunk, refuse);
              end == e.end && calls == old(calls) + e.made && rows == old(rows) + e.rows
      ensures dumpInfo == if SplitFrame(chunk) == Malformed then old(dumpInfo) else SplitFrame(chunk).info
      ensures end == GoesOn ==> Valid()
      ensures end == GoesOn ==> if old(curSave) + 1 < binlogSave && !timeDue
                                then saved == old(saved) && lag == old(lag) + 1
                                else saved == dumpInfo && lag == 0
      ensures end != GoesOn ==> saved == old(saved) && lag == old(lag)
    {
      hide DecodeRows, UpTo, SplitFrame;
      curSave := curSave + 1;
      var s := SplitFrame(chunk);
      if s == Malformed {
        return GivesUp;
      }
      dumpInfo := s.info;
      if s.Dispatch? {
        if s.table !in registered {
          return GivesUp;
        }
        calls := calls + [Call(s.kind, s.table, s.payload)];
        var done, outcome := DmBinlogRow(s.payload, s.kind, registered[s.table], refuse);
        rows := rows + ForTable(s.table, done);
        if outcome != Finished {
          return EndOf(outcome);
        }
      }
      lag := lag + 1;
      FlushSlaveInfo(timeDue);
      end := GoesOn;
    }

    /** `saved` is the position of the frame `lag` frames back, or still the one found at the start. */
    ghost predicate SavedAt(fs: seq<Frame>, n: nat, saved0: bytes, lag0: nat)
      requires n <= |fs|
      reads this`saved, this`lag
    {
      if lag < n then saved == StampText(fs[n - 1 - lag].at) else saved == saved0 && lag == lag0 + n
    }

    /** What has been done once the thread has gone on after `n` frames. */
    ghost predicate Applied(fs: seq<Frame>, refuses: seq<Option<nat>>, n: nat, calls0: seq<Call>, rows0: seq<TableCall>)
      requires n <= |fs| == |refuses|
      reads this`calls, this`rows
    {
      calls == calls0 + MadeBy(registered, fs[..n], refuses[..n]) &&
      rows == rows0 + RowsDone(registered, fs[..n], refuses[..n])
    }

    /** One turn of the loop, on frame `k`. */
    method ConsumeNext(chunk: bytes, timeDue: bool, refuse: Option<nat>, ghost fs: seq<Frame>,
                       ghost refuses: seq<Option<nat>>, ghost k: nat, ghost calls0: seq<Call>,
                       ghost rows0: seq<TableCall>, ghost saved0: bytes, ghost lag0: nat)
      returns (end: End)
      requires Valid() && binlogSave > 0 && k < |fs| == |refuses| && chunk == Encode(fs[k]) && refuse == refuses[k]
      requires GoodFrame(fs[k]) && Applied(fs, refuses, k, calls0, rows0) && SavedAt(fs, k, saved0, lag0)
      modifies this
      ensures end == EffectOf(registered, Encode(fs[k]), refuses[k]).end
      ensures Applied(fs, refuses, k + 1, calls0, rows0)
      ensures dumpInfo == StampText(fs[k].at)
      ensures end == GoesOn ==> Valid() && SavedAt(fs, k + 1, saved0, lag0) && lag < binlogSave
      ensures end != GoesOn ==> SavedAt(fs, k, saved0, lag0)
    {
      hide SplitFrame, Encode, GoodFrame, StampText, EffectOf, MadeBy, RowsDone, Meaning;
      DoneStep(registered, fs, refuses, k);
      SplitEncode(fs[k]);
      MeaningInfo(fs[k]);
      end := Consume(chunk, timeDue, refuse);
    }

    method ConsumeLoop(chunks: seq<bytes>, timeDue: seq<bool>, refuses: seq<Option<nat>>, ghost fs: seq<Frame>)
      returns (end: End, k: nat)
      requires Valid() && |timeDue| == |refuses| == |chunks| && binlogSave > 0
      requires chunks == EncodeAll(fs) && (forall f <- fs :: GoodFrame(f))
      modifies this
      ensures |refuses| == |fs| && k <= |fs| && (k < |fs| <==> end != GoesOn)
      ensures forall i :: 0 <= i < k ==> EffectOf(registered, Encode(fs[i]), refuses[i]).end == GoesOn
      ensures k < |fs| ==> end == EffectOf(registered, Encode(fs[k]), refuses[k]).end
      ensures Applied(fs, refuses, if k < |fs| then k + 1 else k, old(calls), old(rows))
      ensures dumpInfo == if fs == [] then old(dumpInfo) else StampText(fs[if k < |fs| then k else k - 1].at)
      ensures SavedAt(fs, k, old(saved), old(lag))
      ensures end == GoesOn ==> Valid() && (fs != [] ==> lag < binlogSave)
    {
      hide SplitFrame, Encode, GoodFrame, StampText, EffectOf, MadeBy, RowsDone;
      end, k := GoesOn, 0;
      NothingDone(registered, fs, refuses);
      assert Applied(fs, refuses, 0, old(calls), old(rows)) && SavedAt(fs, 0, old(saved), old(lag));
      hide Applied, SavedAt;
      while k < |chunks|
        invariant k <= |chunks| == |fs| && Valid() && end == GoesOn
        invariant forall i :: 0 <= i < k ==> EffectOf(registered, Encode(fs[i]), refuses[i]).end == GoesOn
        invariant Applied(fs, refuses, k, old(calls), old(rows)) && SavedAt(fs, k, old(saved), old(lag))
        invariant dumpInfo == if k == 0 then old(dumpInfo) else StampText(fs[k - 1].at)
        invariant k > 0 ==> lag < binlogSave
      {
        assert fs[k] in fs;
        end := ConsumeNext(chunks[k], timeDue[k], refuses[k], fs, refuses, k, old(calls), old(rows), old(saved),
                           old(lag));
        if end != GoesOn {
          return;
        }
        k := k + 1;
      }
    }

    /**
     * The consumer loop over frames the master made: up to the first that ends the thread,
     * exactly the handler calls of the row frames and the rows these hand on, in order.
     * slave.info holds a position up to which all has been applied: that of the frame
     * `lag` frames back, `lag` being less than `binlogSave` while the thread goes on.
     */
    method ConsumeAll(chunks: seq<bytes>, timeDue: seq<bool>, refuses: seq<Option<nat>>, ghost fs: seq<Frame>)
      returns (end: End, k: nat)
      requires Valid() && |timeDue| == |refuses| == |chunks| && binlogSave > 0
      requires chunks == EncodeAll(fs) && (forall f <- fs :: GoodFrame(f))
      modifies this
      ensures |refuses| == |fs| && k == Through(registered, fs, refuses) <= |fs|
      ensures end == if k == |fs| then GoesOn else EffectOf(registered, Encode(fs[k]), refuses[k]).end
      ensures calls == old(calls) + (CallsOfAll(fs[..k]) +
                       if k == |fs| then [] else EffectOf(registered, Encode(fs[k]), refuses[k]).made)
      ensures rows == old(rows) + (RowsDone(registered, fs[..k], refuses[..k]) +
                      if k == |fs| then [] else EffectOf(registered, Encode(fs[k]), refuses[k]).rows)
      ensures dumpInfo == if fs == [] then old(dumpInfo) else StampText(fs[if k < |fs| then k else k - 1].at)
      ensures if lag < k then saved == StampText(fs[k - 1 - lag].at) else saved == old(saved) && lag == old(lag) + k
      ensures end == GoesOn ==> Valid() && (fs != [] ==> lag < binlogSave)
    {
      hide SplitFrame, Encode, GoodFrame, StampText, EffectOf, CallsOf, MadeBy, RowsDone, CallsOfAll, Through;
      end, k := ConsumeLoop(chunks, timeDue, refuses, fs);
      if k < |fs| {
        DoneStep(registered, fs, refuses, k);
      }
      Prefix(registered, fs, refuses, k);
      ThroughIs(registered, fs, refuses, k);
    }
  }

  lemma NothingDone(registered: map<bytes, Target>, fs: seq<Frame>, refuses: seq<Option<nat>>)
    requires |refuses| == |fs|
    ensures MadeBy(registered, fs[..0], refuses[..0]) == [] && RowsDone(registered, fs[..0], refuses[..0]) == []
  {
  }

  lemma Prefix(registered: map<bytes, Target>, fs: seq<Frame>, refuses: seq<Option<nat>>, k: nat)
    requires |refuses| == |fs| && k <= |fs| && forall f <- fs :: GoodFrame(f)
    requires forall i :: 0 <= i < k ==> EffectOf(registered, Encode(fs[i]), refuses[i]).end == GoesOn
    ensures MadeBy(registered, fs[..k], refuses[..k]) == CallsOfAll(fs[..k])
  {
    hide EffectOf, GoodFrame, Encode;
    MadeIsAll(registered, fs[..k], refuses[..k]);
  }

  lemma MeaningInfo(f: Frame)
    ensures Meaning(f) != Malformed && Meaning(f).info == StampText(f.at)
  {
  }

  lemma {:induction false} CallsOfAllAppend(a: seq<Frame>, b: seq<Frame>)
    ensures CallsOfAll(a + b) == CallsOfAll(a) + CallsOfAll(b)
    decreases |b|
  {
    if b == [] {
      assert a + b == a;
    } else {
      assert (a + b)[..|a + b| - 1] == a + b[..|b| - 1];
      CallsOfAllAppend(a, b[..|b| - 1]);
    }
  }
}
