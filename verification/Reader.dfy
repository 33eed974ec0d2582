/**
 * The master's reader thread for one session: the event loop over the binlog
 * files, the event handlers, and the frames they put in the ring.
 */
module Reader {
  import opened Bytes
  import opened BinlogEvents
  import opened Frames
  import opened Replication
  import opened BufferedFiles
  import Numbers

  const INTVAR_INSERT_ID: byte := 2

  /** What was last read from an intvar event: its type, the last insert id, and whether there was one. */
  datatype Intvar = Intvar(kind: byte, ai: nat, autoIncr: bool)

  datatype Status = Ok | HasBinlog | Waiting | Err

  class Session {
    const localId: nat
    const tables: bytes
    const binlog: Binlog

    // where the session stands
    var dumpFile: bytes
    var dumpNum: nat
    var dumpPos: nat

    // the open file behind its buffer
    const io: BufferedFile

    // the current event
    var t: byte
    var svrid: nat
    var el: nat
    var dl: nat
    var data: bytes

    // what is kept between events
    var tran: bool
    var filter: bool
    var skip: bool
    var sent: bool
    var flush: bool
    var rowFormat: bool
    var mev: byte
    var skipN: nat
    var db: bytes
    var tb: bytes
    var ct: bytes
    var cm: bytes
    var intvar: Intvar

    // the pool's answers: whether it has a chunk for the n-th request
    const grants: nat -> bool
    var asked: nat

    // chunks put in the ring
    var out: seq<bytes>

    ghost function View(): (s: Info)
      reads this`tran, this`filter, this`skipN, this`db, this`tb, this`ct, this`cm
    {
      Info(tran, filter, skipN, db, tb, ct, cm)
    }

    ghost predicate Idle()
      reads this`skip, this`sent, this`flush, this`mev
    {
      !skip && !sent && !flush && mev == 0
    }

    /** The cursor is at `body`, the body of an event that ends at `dumpPos`. */
    ghost predicate AtBody(body: bytes)
      reads this`skip, this`sent, this`flush, this`mev, this`dl, this`dumpPos, io, io.ioBuf
    {
      io.Valid() && Idle() && io.Cursor() + dl == dumpPos <= |io.file| &&
      body == io.file[io.Cursor()..dumpPos]
    }

    /** The body was taken, or left for the finish handler to pass over. */
    ghost predicate Past()
      reads this`skip, this`flush, this`mev, this`dl, this`dumpPos, io, io.ioBuf
    {
      io.Valid() && !flush && mev == 0 && io.Cursor() + (if skip then dl else 0) == dumpPos <= |io.file|
    }

    constructor (localId: nat, tables: bytes, binlog: Binlog, grants: nat -> bool, bufSize: nat, file: bytes,
                 num: nat, pos: nat)
      requires bufSize > 0
      ensures this.localId == localId && this.tables == tables && this.binlog == binlog
      ensures this.grants == grants && asked == 0
      ensures dumpFile == file && dumpNum == num && dumpPos == pos
      ensures View() == FRESH && Idle() && out == []
      ensures fresh(io) && fresh(io.ioBuf) && io.Valid() && io.ioPos == io.ioLast
    {
      this.localId, this.tables, this.binlog, this.grants, asked := localId, tables, binlog, grants, 0;
      dumpFile, dumpNum, dumpPos := file, num, pos;
      io := new BufferedFile(bufSize);
      t, svrid, el, dl, data := 0, 0, 0, 0, [];
      tran, filter, skip, sent, flush, rowFormat := false, true, false, false, false, false;
      mev, skipN := 0, 0;
      db, tb, ct, cm := [], [], [], [];
      intvar := Intvar(0, 0, false);
      out := [];
    }

    // ----- Reading --------------------------------------------------------------

    /** The next file of the index, or nothing new yet. */
    method HasNextBinlog() returns (found: bool)
      requires GoodIndex(binlog.index)
      modifies this`dumpFile, this`dumpNum, this`dumpPos
      ensures Moved(old(dumpFile), old(dumpNum), if found then HasBinlog else Waiting)
    {
      var i := FindNext(binlog.index, dumpNum);
      found := i < |binlog.index|;
      if found {
        dumpFile := binlog.index[i];
        dumpNum := NumberOf(dumpFile);
        dumpPos := 0;
      }
    }

    /** What the reader does when the file has no more bytes. */
    ghost predicate Moved(file0: bytes, num0: nat, r: Status)
      reads this`dumpFile, this`dumpNum, this`dumpPos
    {
      var i := NextAfter(binlog.index, num0, 0);
      if i < |binlog.index| then
        r == HasBinlog && dumpFile == binlog.index[i] && dumpNum == NameNumber(dumpFile) && dumpPos == 0
      else
        r == Waiting && dumpFile == file0 && dumpNum == num0
    }

    /** Exactly `size` bytes at the cursor, or a move to the next file. */
    method ReadExact(size: nat) returns (r: Status, buf: bytes)
      requires io.Valid() && GoodIndex(binlog.index)
      modifies io`off, io`ioPos, io`ioLast, io.ioBuf, this`dumpFile, this`dumpNum, this`dumpPos
      ensures io.Valid()
      ensures r == Ok <==> old(io.Cursor()) + size <= |io.file|
      ensures r == Ok ==>
                io.Cursor() == old(io.Cursor()) + size && buf == io.file[old(io.Cursor())..io.Cursor()] &&
                dumpFile == old(dumpFile) && dumpNum == old(dumpNum) && dumpPos == old(dumpPos)
      ensures r != Ok ==> Moved(old(dumpFile), old(dumpNum), r)
    {
      var ok;
      ok, buf := io.Read(size);
      if ok {
        r := Ok;
      } else {
        var found := HasNextBinlog();
        r := if found then HasBinlog else Waiting;
      }
    }

    /** Takes the whole body of an event that lies whole in its file. */
    method TakeBody(ghost body: bytes) returns (r: Status, buf: bytes)
      requires AtBody(body) && GoodIndex(binlog.index)
      modifies io`off, io`ioPos, io`ioLast, io.ioBuf, this`dumpFile, this`dumpNum, this`dumpPos
      ensures r == Ok && buf == body && Past()
      ensures dumpFile == old(dumpFile) && dumpNum == old(dumpNum) && dumpPos == old(dumpPos)
    {
      r, buf := ReadExact(dl);
    }

    // ----- The event header -----------------------------------------------------

    method HeaderHandler() returns (r: Status)
      requires io.Valid() && Idle() && io.Cursor() == dumpPos && GoodIndex(binlog.index)
      requires HasHeader(io.file, dumpPos) ==> WholeAt(io.file, dumpPos)
      modifies io`off, io`ioPos, io`ioLast, io.ioBuf, this`dumpFile, this`dumpNum, this`dumpPos
      modifies this`t, this`svrid, this`el, this`dl
      ensures io.Valid()
      ensures r == Ok <==> HasHeader(io.file, old(dumpPos))
      ensures r == Ok ==>
                AtBody(BodyAt(io.file, old(dumpPos))) && dumpFile == old(dumpFile) && dumpNum == old(dumpNum) &&
                dumpPos == old(dumpPos) + LenAt(io.file, old(dumpPos)) &&
                t == TypeCode(HeaderAt(io.file, old(dumpPos))) &&
                svrid == ServerId(HeaderAt(io.file, old(dumpPos)))
      ensures r != Ok ==> Moved(old(dumpFile), old(dumpNum), r)
    {
      ghost var pos := dumpPos;
      var eh;
      r, eh := ReadExact(HEADER_LEN);
      if r != Ok {
        return;
      }
      assert eh == HeaderAt(io.file, pos);
      t := eh[4];
      svrid := FromLE(eh[5..9]);
      el := FromLE(eh[9..13]);
      dumpPos := dumpPos + el;
      dl := el - HEADER_LEN;
    }

    // ----- Building frames ------------------------------------------------------

    /** Puts one frame in the ring; Err exactly when the pool has no chunk for it. */
    method CreateData() returns (r: Status)
      requires mev != 0 ==> rowFormat
      modifies this`out, this`skipN, this`flush, this`mev, this`sent, this`asked
      ensures r == Ok || r == Err
      ensures var due := old(mev) != 0 || old(skipN) % SKIP_DATA_FLUSH_NUM == 0;
              asked == old(asked) + (if due then 1 else 0) && (r == Err <==> due && !grants(old(asked)))
      ensures r == Err ==> out == old(out)
      ensures old(mev) != 0 && r == Ok ==>
                out == old(out) + [Encode(RowFrame(Stamp(dumpFile, dumpPos), old(mev), db, tb, ct, cm, data))] &&
                View() == old(View()) && !flush && mev == 0 && sent
      ensures old(mev) == 0 && r == Ok ==>
                var (s, fs) := PosFrames(old(View()), Stamp(dumpFile, dumpPos));
                View() == s && out == old(out) + EncodeAll(fs) && mev == 0 &&
                (flush ==> old(flush)) && (sent ==> old(sent) || fs != [])
    {
      hide Encode, EncodeAll, Run, Listed;
      NoneEncoded(out);
      if mev == 0 {
        var n := skipN;
        skipN := skipN + 1;
        if n % SKIP_DATA_FLUSH_NUM != 0 {
          skipN := 1;
          r := Ok;
          return;
        }
      }
      var chunk, len;
      if mev == 0 {
        chunk, len := BuildPosFrame(dumpFile, dumpPos);
        OneEncoded(PosFrame(Stamp(dumpFile, dumpPos)));
      } else {
        chunk, len := BuildRowFrame(dumpFile, dumpPos, mev, db, tb, ct, cm, data);
      }
      asked := asked + 1;
      if !grants(asked - 1) {
        r := Err;
        return;
      }
      out := out + [chunk];
      flush, mev, sent := false, 0, true;
      r := Ok;
    }

    // ----- Event handlers -------------------------------------------------------

    method SkipHandler() returns (r: Status)
      requires io.Valid() && Idle() && io.Cursor() + dl == dumpPos <= |io.file|
      modifies this`skip
      ensures r == Ok && Past()
    {
      skip := true;
      r := Ok;
    }

    method QueryHandler(ghost body: bytes, ghost ev: Event) returns (r: Status)
      requires AtBody(body) && GoodIndex(binlog.index)
      requires dl <= SQL_MAX * 2 ==> ParseQuery(body) == Some(ev)
      modifies io`off, io`ioPos, io`ioLast, io.ioBuf, this`dumpFile, this`dumpNum, this`dumpPos
      modifies this`skip, this`db, this`rowFormat, this`tran
      ensures r == Ok && Past() && dumpFile == old(dumpFile) && dumpNum == old(dumpNum) && dumpPos == old(dumpPos)
      ensures View() == if dl > SQL_MAX * 2 then old(View()) else Handle(tables, old(View()), ev)
    {
      if dl > SQL_MAX * 2 {
        skip := true;
        r := Ok;
        return;
      }
      var query;
      r, query := TakeBody(body);
      ApplyQuery(query, ev);
    }

    method ApplyQuery(query: bytes, ghost ev: Event)
      requires ParseQuery(query) == Some(ev)
      modifies this`db, this`rowFormat, this`tran
      ensures View() == Handle(tables, old(View()), ev)
    {
      var name, effect := ReadQuery(query);
      db := name;
      rowFormat := false;
      if effect == Opens {
        tran := true;
      } else if effect == Closes {
        tran := false;
      }
    }

    /** The type and, for an insert id, the id; a body of fewer than nine bytes leaves them to chance. */
    method IntvarHandler(ghost body: bytes) returns (r: Status)
      requires AtBody(body) && GoodIndex(binlog.index)
      modifies io`off, io`ioPos, io`ioLast, io.ioBuf, this`dumpFile, this`dumpNum, this`dumpPos
      modifies this`intvar
      ensures r == Ok && Past() && dumpFile == old(dumpFile) && dumpNum == old(dumpNum) && dumpPos == old(dumpPos)
      ensures |body| >= 9 ==>
                intvar == if body[0] == 2 then Intvar(body[0], FromLE(body[1..9]), true)
                          else old(intvar).(kind := body[0])
    {
      var taken;
      r, taken := TakeBody(body);
      if |taken| < 9 {
        intvar := *;
        return;
      }
      intvar := intvar.(kind := taken[0]);
      if intvar.kind != INTVAR_INSERT_ID {
        return;
      }
      intvar := intvar.(ai := FromLE(taken[1..9]), autoIncr := true);
    }

    method XidHandler(ghost body: bytes) returns (r: Status)
      requires AtBody(body) && GoodIndex(binlog.index)
      modifies io`off, io`ioPos, io`ioLast, io.ioBuf, this`dumpFile, this`dumpNum, this`dumpPos, this`tran
      ensures r == Ok && Past() && dumpFile == old(dumpFile) && dumpNum == old(dumpNum) && dumpPos == old(dumpPos)
      ensures View() == Handle(tables, old(View()), Xid)
    {
      tran := false;
      var tranid;
      r, tranid := TakeBody(body);
    }

    method TableMapHandler(ghost body: bytes, ghost ev: Event) returns (r: Status)
      requires AtBody(body) && GoodIndex(binlog.index) && ParseTableMap(body) == Some(ev)
      modifies io`off, io`ioPos, io`ioLast, io.ioBuf, this`dumpFile, this`dumpNum, this`dumpPos
      modifies this`db, this`tb, this`ct, this`cm, this`filter
      ensures r == Ok && Past() && dumpFile == old(dumpFile) && dumpNum == old(dumpNum) && dumpPos == old(dumpPos)
      ensures View() == Handle(tables, old(View()), ev)
    {
      hide ParseTableMap, Handle;
      var tm;
      r, tm := TakeBody(body);
      CacheMap(tm, ev);
    }

    method CacheMap(tm: bytes, ghost ev: Event)
      requires ParseTableMap(tm) == Some(ev)
      modifies this`db, this`tb, this`ct, this`cm, this`filter
      ensures View() == Handle(tables, old(View()), ev)
    {
      hide ParseTableMap, Listed;
      var m := ReadTableMap(tm);
      db, tb, ct, cm := m.db, m.tb, m.ct, m.cm;
      filter := !Listed(tables, db, tb);
    }

    /** The write, update and delete handlers, which differ only in the type they send. */
    method RowsHandler(kind: byte, ghost body: bytes) returns (r: Status)
      requires AtBody(body) && GoodIndex(binlog.index) && kind != 0
      modifies io`off, io`ioPos, io`ioLast, io.ioBuf, this`dumpFile, this`dumpNum, this`dumpPos
      modifies this`filter, this`skip, this`data, this`rowFormat, this`mev, this`out, this`skipN, this`flush, this`sent
      modifies this`asked
      ensures r == Ok || (r == Err && out == old(out))
      ensures asked == old(asked) + (if old(filter) then 0 else 1)
      ensures r == Err <==> !old(filter) && !grants(old(asked))
      ensures dumpFile == old(dumpFile) && dumpNum == old(dumpNum) && dumpPos == old(dumpPos)
      ensures r == Ok ==> Past() && sent == !old(filter)
      ensures r == Ok && old(filter) ==> out == old(out) && View() == Handle(tables, old(View()), Rows(kind, body))
      ensures r == Ok && !old(filter) ==>
                View() == old(View()) &&
                out == old(out) + [Encode(RowFrame(Stamp(dumpFile, dumpPos), kind, db, tb, ct, cm, body))]
    {
      if filter {
        if !tran {
          filter := false;
        }
        skip := true;
        r := Ok;
        return;
      }
      r := SendRows(kind, body);
    }

    method SendRows(kind: byte, ghost body: bytes) returns (r: Status)
      requires AtBody(body) && GoodIndex(binlog.index) && kind != 0
      modifies io`off, io`ioPos, io`ioLast, io.ioBuf, this`dumpFile, this`dumpNum, this`dumpPos
      modifies this`data, this`rowFormat, this`mev, this`out, this`skipN, this`flush, this`sent, this`asked
      ensures r == Ok || (r == Err && out == old(out))
      ensures asked == old(asked) + 1 && (r == Err <==> !grants(old(asked)))
      ensures dumpFile == old(dumpFile) && dumpNum == old(dumpNum) && dumpPos == old(dumpPos)
      ensures r == Ok ==>
                Past() && sent && View() == old(View()) &&
                out == old(out) + [Encode(RowFrame(Stamp(dumpFile, dumpPos), kind, db, tb, ct, cm, body))]
    {
      var wr;
      r, wr := TakeBody(body);
      data := wr;
      rowFormat := true;
      mev := kind;
      r := CreateData();
    }

    /** Stop and rotate: of another server they are skipped, of this one they end the file. */
    method StopHandler() returns (r: Status)
      requires io.Valid() && Idle() && io.Cursor() + dl == dumpPos <= |io.file| && GoodIndex(binlog.index)
      modifies this`skip, this`dumpFile, this`dumpNum, this`dumpPos
      ensures localId == svrid <==> r != Ok
      ensures r == Ok ==> Past() && dumpFile == old(dumpFile) && dumpNum == old(dumpNum) && dumpPos == old(dumpPos)
      ensures r != Ok ==> Moved(old(dumpFile), old(dumpNum), r) && skip == old(skip)
    {
      if localId != svrid {
        skip := true;
        r := Ok;
        return;
      }
      var found := HasNextBinlog();
      r := if found then HasBinlog else Waiting;
    }

    /** The position-only frame due outside a transaction. */
    method FlushPosition() returns (r: Status)
      requires mev == 0 && !flush
      modifies this`out, this`skipN, this`flush, this`mev, this`sent, this`asked
      ensures r == Ok || (r == Err && out == old(out) && !old(sent))
      ensures var fs := if old(sent) then [] else Finish(old(View()), Stamp(dumpFile, dumpPos)).1;
              asked == old(asked) + |fs| && (r == Err <==> fs != [] && !grants(old(asked)))
      ensures r == Ok ==>
                var (s, fs) := if old(sent) then (old(View()), []) else Finish(old(View()), Stamp(dumpFile, dumpPos));
                View() == s && out == old(out) + EncodeAll(fs) && mev == 0 && !flush
    {
      if (!tran && !sent && !filter) || flush {
        r := CreateData();
      } else {
        assert out == out + EncodeAll([]);
        r := Ok;
      }
    }

    method FinishHandler() returns (r: Status)
      requires Past()
      modifies io`off, io`ioPos, this`skip, this`out, this`skipN, this`flush, this`mev, this`sent, this`asked
      ensures r == Ok || (r == Err && out == old(out) && !old(sent))
      ensures var fs := if old(sent) then [] else Finish(old(View()), Stamp(dumpFile, dumpPos)).1;
              asked == old(asked) + |fs| && (r == Err <==> fs != [] && !grants(old(asked)))
      ensures r == Ok ==> io.Valid() && Idle() && io.Cursor() == dumpPos
      ensures r == Ok ==>
                var (s, fs) := if old(sent) then (old(View()), []) else Finish(old(View()), Stamp(dumpFile, dumpPos));
                View() == s && out == old(out) + EncodeAll(fs)
    {
      r := FlushPosition();
      if r != Ok {
        return;
      }
      sent := false;
      if skip {
        io.Skip(dl, dumpPos);
        skip := false;
      }
    }

    // ----- The event loop -------------------------------------------------------

    /** The handler table: one call for the event whose header was just read. */
    method Dispatch(ghost body: bytes, ghost ev: Event) returns (r: Status)
      requires AtBody(body) && GoodIndex(binlog.index)
      requires KnownType(t) && Decode(localId, t, svrid, body) == Some(ev)
      modifies io`off, io`ioPos, io`ioLast, io.ioBuf, this
      ensures r == Err ==> out == old(out)
      ensures asked == old(asked) + (if Emits(old(View()), ev) then 1 else 0)
      ensures r == Err <==> Emits(old(View()), ev) && !grants(old(asked))
      ensures ev == Switch <==> r == HasBinlog || r == Waiting
      ensures r == HasBinlog || r == Waiting ==>
                Moved(old(dumpFile), old(dumpNum), r) && Idle() && io.Valid() &&
                View() == old(View()) && out == old(out)
      ensures r == Ok ==> dumpFile == old(dumpFile) && dumpNum == old(dumpNum) && dumpPos == old(dumpPos) && Past()
      ensures r == Ok && Emits(old(View()), ev) ==>
                sent && View() == old(View()) &&
                out == old(out) + [Encode(RowFrameOf(old(View()), Stamped(dumpFile, dumpNum, dumpPos, ev)))]
      ensures r == Ok && !Emits(old(View()), ev) ==>
                !sent && View() == Handle(tables, old(View()), ev) && out == old(out)
    {
      hide Decode, NameNumber, NextAfter, GoodIndex, GoodName, Listed, Encode, FromLE;
      DecodeSorts(localId, t, svrid, body, ev);
      if IsRowsType(t) {
        r := RowsHandler(t, body);
      } else if t == STOP_EVENT || t == ROTATE_EVENT {
        r := StopHandler();
      } else {
        r := DispatchPlain(body, ev);
      }
    }

    /** The handlers that neither send rows nor leave the file. */
    method DispatchPlain(ghost body: bytes, ghost ev: Event) returns (r: Status)
      requires AtBody(body) && GoodIndex(binlog.index)
      requires KnownType(t) && !IsRowsType(t) && t != STOP_EVENT && t != ROTATE_EVENT
      requires Decode(localId, t, svrid, body) == Some(ev)
      modifies io`off, io`ioPos, io`ioLast, io.ioBuf, this`dumpFile, this`dumpNum, this`dumpPos
      modifies this`skip, this`rowFormat, this`tran, this`db, this`tb, this`ct, this`cm, this`filter
      modifies this`intvar
      ensures r == Ok && Past() && dumpFile == old(dumpFile) && dumpNum == old(dumpNum) && dumpPos == old(dumpPos)
      ensures View() == Handle(tables, old(View()), ev) && !ev.Rows? && ev != Switch
    {
      if t == QUERY_EVENT {
        r := QueryHandler(body, ev);
      } else if t == INTVAR_EVENT {
        r := IntvarHandler(body);
      } else if t == XID_EVENT {
        r := XidHandler(body);
      } else if t == TABLE_MAP_EVENT {
        r := TableMapHandler(body, ev);
      } else {
        r := SkipHandler();
      }
    }

    /** One event after its header: its handler, then the finish handler. */
    method HandleEvent(ghost body: bytes, ghost e: Stamped) returns (r: Status)
      requires AtBody(body) && GoodIndex(binlog.index)
      requires KnownType(t) && Decode(localId, t, svrid, body) == Some(e.ev)
      requires e.file == dumpFile && e.num == dumpNum && e.pos == dumpPos
      modifies io`off, io`ioPos, io`ioLast, io.ioBuf, this
      ensures r == Err ==> out == old(out)
      ensures var fs := if e.ev == Switch then [] else Step(tables, old(View()), e).1;
              asked == old(asked) + |fs| && (r == Err <==> fs != [] && !grants(old(asked)))
      ensures r != Err ==> io.Valid() && Idle()
      ensures e.ev == Switch <==> r == HasBinlog || r == Waiting
      ensures e.ev == Switch ==> Moved(e.file, e.num, r) && View() == old(View()) && out == old(out)
      ensures r == Ok ==>
                dumpFile == e.file && dumpNum == e.num && io.Cursor() == dumpPos == e.pos &&
                (var (s, fs) := Step(tables, old(View()), e);
                 View() == s && out == old(out) + EncodeAll(fs))
    {
      r := Dispatch(body, e.ev);
      if r == Ok {
        r := FinishHandler();
      }
    }

    /** What a run over `done` must have left behind. */
    ghost predicate Ran(s0: Info, out0: seq<bytes>, done: seq<Stamped>)
      reads this`tran, this`filter, this`skipN, this`db, this`tb, this`ct, this`cm, this`out
    {
      var (s, fs) := Run(tables, s0, done);
      View() == s && out == out0 + EncodeAll(fs)
    }

    /** The pool grants `n` requests from number `a` on. */
    ghost predicate Granted(a: nat, n: nat) {
      forall j :: a <= j < a + n ==> grants(j)
    }

    /** A run over `done` has asked for a chunk for each of its frames, and got it. */
    ghost predicate Asked(s0: Info, a0: nat, done: seq<Stamped>)
      reads this`asked
    {
      var n := |Run(tables, s0, done).1|;
      asked == a0 + n && Granted(a0, n)
    }

    /** A run that got all chunks for the first `k` events comes to a frame for which the pool has none. */
    ghost predicate Denied(s0: Info, a0: nat, evs: seq<Stamped>, k: nat) {
      k < |evs| &&
      var (s, fs) := Run(tables, s0, evs[..k]);
      Step(tables, s, evs[k]).1 != [] && Granted(a0, |fs|) && !grants(a0 + |fs|)
    }

    /** The events from the loop head on. */
    ghost predicate Ahead(evs: seq<Stamped>)
      reads this`dumpFile, this`dumpNum, this`dumpPos, io
    {
      WellFormed(localId, io.file, dumpPos) &&
      evs == EventsFrom(localId, dumpFile, dumpNum, io.file, dumpPos)
    }

    /** The loop head: the cursor is at `dumpPos`, with `evs` ahead of it. */
    ghost predicate AtEvent(evs: seq<Stamped>)
      reads this`skip, this`sent, this`flush, this`mev, this`dumpFile, this`dumpNum, this`dumpPos, io, io.ioBuf
    {
      io.Valid() && Idle() && io.Cursor() == dumpPos && Ahead(evs)
    }

    /** The effect of one event on the session and the ring. */
    ghost predicate Stepped(s1: Info, out1: seq<bytes>, e: Stamped)
      reads this`tran, this`filter, this`skipN, this`db, this`tb, this`ct, this`cm, this`out
    {
      var (s, fs) := Step(tables, s1, e);
      View() == s && out == out1 + EncodeAll(fs)
    }

    /** One turn of the event loop; `more` says whether the loop goes on. */
    method Turn(ghost rest: seq<Stamped>) returns (r: Status, more: bool)
      requires AtEvent(rest) && GoodIndex(binlog.index)
      modifies io`off, io`ioPos, io`ioLast, io.ioBuf, this
      ensures r != Err ==> io.Valid() && Idle()
      ensures r == Err ==> out == old(out)
      ensures var fs := if rest == [] then [] else Step(tables, old(View()), rest[0]).1;
              asked == old(asked) + |fs| && (r == Err <==> fs != [] && !grants(old(asked)))
      ensures r == HasBinlog || r == Waiting ==>
                rest == [] && Moved(old(dumpFile), old(dumpNum), r) && View() == old(View()) && out == old(out)
      ensures r == Ok ==>
                |rest| > 0 && Ahead(rest[1..]) && Stepped(old(View()), old(out), rest[0]) &&
                dumpFile == old(dumpFile) && dumpNum == old(dumpNum) && old(dumpPos) < dumpPos <= |io.file|
      ensures more ==> r == Ok && AtEvent(rest[1..])
    {
      hide ParseQuery, ParseTableMap, FromLE, NameNumber, NextAfter, GoodIndex, GoodName, EncodeAll;
      hide Handle, Finish, Emits, RowFrameOf, Listed;
      NoneEncoded(out);
      ghost var pos := dumpPos;
      more := false;
      r := HeaderHandler();
      if r != Ok {
        return;
      }
      if !KnownType(t) {
        return;
      }
      ghost var ev := DecodeAt(localId, io.file, pos).value;
      r := HandleEvent(BodyAt(io.file, pos), Stamped(dumpFile, dumpNum, dumpPos, ev));
      more := r == Ok;
    }

    /** One more event: its frame, if any, gets a chunk, or the run is denied. */
    lemma GrantsExtend(s0: Info, a0: nat, evs: seq<Stamped>, k: nat, s1: Info, a1: nat)
      requires k < |evs| && Run(tables, s0, evs[..k]).0 == s1
      requires a1 == a0 + |Run(tables, s0, evs[..k]).1| && Granted(a0, |Run(tables, s0, evs[..k]).1|)
      ensures var fs := Step(tables, s1, evs[k..][0]).1;
              |Run(tables, s0, evs[..k + 1]).1| == |Run(tables, s0, evs[..k]).1| + |fs| &&
              if fs != [] && !grants(a1) then Denied(s0, a0, evs, k)
              else Granted(a0, |Run(tables, s0, evs[..k + 1]).1|)
    {
      hide Run, Step;
      RunSnoc(tables, s0, evs, k);
    }

    /**
     * The event loop over one file. It ends where the file does (HasBinlog or
     * Waiting), at an event of unknown type (Ok, to be reopened behind it), or
     * when no chunk can be allocated (Err).
     */
    method ReadBinlog(ghost evs: seq<Stamped>) returns (r: Status, ghost k: nat)
      requires AtEvent(evs) && GoodIndex(binlog.index)
      modifies io`off, io`ioPos, io`ioLast, io.ioBuf, this
      ensures k <= |evs|
      ensures r != Err ==> Ran(old(View()), old(out), evs[..k]) && Asked(old(View()), old(asked), evs[..k])
      ensures r == Err ==> out == old(out) + EncodeAll(Run(tables, old(View()), evs[..k]).1)
      ensures r == Err ==> Denied(old(View()), old(asked), evs, k)
      ensures r != Err ==> io.Valid() && Idle() && io.ioPos == io.ioLast
      ensures r == HasBinlog || r == Waiting ==> k == |evs| && Moved(old(dumpFile), old(dumpNum), r)
      ensures r == Ok ==>
                Ahead(evs[k..]) && dumpFile == old(dumpFile) && dumpNum == old(dumpNum) &&
                old(dumpPos) < dumpPos <= |io.file|
    {
      hide Run, Step, Granted, Denied, EncodeAll, WellFormed, EventsFrom, NameNumber, GoodIndex;
      k := 0;
      RunStarts(tables, View(), out, evs);
      NothingAsked(View(), evs);
      while true
        invariant k <= |evs| && AtEvent(evs[k..])
        invariant dumpFile == old(dumpFile) && dumpNum == old(dumpNum) && dumpPos >= old(dumpPos)
        invariant Ran(old(View()), old(out), evs[..k]) && Asked(old(View()), old(asked), evs[..k])
        decreases |io.file| - dumpPos
      {
        ghost var s1, out1, a1 := View(), out, asked;
        var more;
        r, more := Turn(evs[k..]);
        if k < |evs| {
          GrantsExtend(old(View()), old(asked), evs, k, s1, a1);
        }
        if r == Ok {
          RunExtends(tables, old(View()), old(out), evs, k, s1, out1, out);
          k := k + 1;
        }
        if !more {
          break;
        }
      }
      if r != Err {
        io.Discard();
      }
    }

    // ----- The reader thread ----------------------------------------------------

    /** Between files: the session will open `dumpFile` and find `evs` from there on. */
    ghost predicate AtFile(evs: seq<Stamped>)
      reads this`skip, this`sent, this`flush, this`mev, this`dumpFile, this`dumpNum, this`dumpPos, io, io.ioBuf
    {
      io.Valid() && Idle() && io.ioPos == io.ioLast && GoodBinlog(localId, binlog) && dumpFile in binlog.files &&
      WellFormed(localId, binlog.files[dumpFile], StartPos(dumpPos)) &&
      evs == Stream(localId, binlog, dumpFile, dumpNum, StartPos(dumpPos))
    }

    /** Opens a file, seeks past its magic number or to the asked position, and reads it. */
    method ReadFile(ghost evs: seq<Stamped>) returns (r: Status, ghost k: nat)
      requires AtFile(evs)
      modifies io, io.ioBuf, this
      ensures k <= |evs|
      ensures r != Err ==> Ran(old(View()), old(out), evs[..k]) && Asked(old(View()), old(asked), evs[..k])
      ensures r == Err ==> out == old(out) + EncodeAll(Run(tables, old(View()), evs[..k]).1)
      ensures r == Err ==> Denied(old(View()), old(asked), evs, k)
      ensures r == Waiting ==> k == |evs|
      ensures r == Ok || r == HasBinlog ==> AtFile(evs[k..])
      ensures r == HasBinlog ==> old(dumpNum) < dumpNum < U32_LIMIT
      ensures r == Ok ==>
                dumpNum == old(dumpNum) && dumpFile == old(dumpFile) &&
                StartPos(old(dumpPos)) < StartPos(dumpPos) <= |binlog.files[dumpFile]|
    {
      hide WellFormed, EventsFrom, Run, NameNumber, EncodeAll;
      ghost var after := StreamAfter(localId, binlog, dumpNum);
      dumpPos := StartPos(dumpPos);
      StartsInside(localId, binlog.files[dumpFile], dumpPos);
      io.Open(binlog.files[dumpFile], dumpPos);
      ghost var here := EventsFrom(localId, dumpFile, dumpNum, io.file, dumpPos);
      r, k := ReadBinlog(here);
      assert evs[..k] == here[..k] && evs[k..] == here[k..] + after;
      if r == HasBinlog || r == Waiting {
        assert here[k..] + after == after;
      }
    }

    /** Reads one more file of a run that has gone through the first `k0` events. */
    method Continue(ghost s0: Info, ghost out0: seq<bytes>, ghost a0: nat, ghost evs: seq<Stamped>, ghost k0: nat)
      returns (r: Status, ghost k: nat)
      requires k0 <= |evs| && AtFile(evs[k0..]) && Ran(s0, out0, evs[..k0]) && Asked(s0, a0, evs[..k0])
      modifies io, io.ioBuf, this
      ensures k <= |evs|
      ensures out == out0 + EncodeAll(Run(tables, s0, evs[..k]).1)
      ensures r == Waiting ==> k == |evs|
      ensures r != Err ==> Asked(s0, a0, evs[..k])
      ensures r == Err ==> Denied(s0, a0, evs, k)
      ensures r == Ok || r == HasBinlog ==> AtFile(evs[k..]) && Ran(s0, out0, evs[..k])
      ensures r == HasBinlog ==> old(dumpNum) < dumpNum < U32_LIMIT
      ensures r == Ok ==>
                dumpNum == old(dumpNum) && dumpFile == old(dumpFile) &&
                StartPos(old(dumpPos)) < StartPos(dumpPos) <= |binlog.files[dumpFile]|
    {
      hide WellFormed, Stream, GoodBinlog, Run, EncodeAll, AtFile, Idle, StartPos;
      ghost var s1, out1, a1, did := View(), out, asked, 0;
      r, did := ReadFile(evs[k0..]);
      GrantsCompose(s0, a0, evs, k0, did, s1, a1);
      RunsCompose(tables, s0, out0, evs, k0, did, s1, out1, out);
      k := k0 + did;
    }

    /** What the chunks asked for in two runs on end come to. */
    lemma GrantsCompose(s0: Info, a0: nat, evs: seq<Stamped>, k: nat, n: nat, s1: Info, a1: nat)
      requires k + n <= |evs| && Run(tables, s0, evs[..k]).0 == s1
      requires a1 == a0 + |Run(tables, s0, evs[..k]).1| && Granted(a0, |Run(tables, s0, evs[..k]).1|)
      ensures |Run(tables, s0, evs[..k + n]).1| ==
              |Run(tables, s0, evs[..k]).1| + |Run(tables, s1, evs[k..][..n]).1|
      ensures Granted(a1, |Run(tables, s1, evs[k..][..n]).1|) ==> Granted(a0, |Run(tables, s0, evs[..k + n]).1|)
      ensures Denied(s1, a1, evs[k..], n) ==> Denied(s0, a0, evs, k + n)
    {
      hide Run, Step;
      RunAppend(tables, s0, evs[..k], evs[k..][..n]);
      assert evs[..k + n] == evs[..k] + evs[k..][..n];
    }

    /** A denied run has more frames than chunks. */
    lemma DeniedIsShort(s0: Info, a0: nat, evs: seq<Stamped>, k: nat)
      requires Denied(s0, a0, evs, k)
      ensures !Granted(a0, |Run(tables, s0, evs).1|)
    {
      hide Run, Step;
      RunSnoc(tables, s0, evs, k);
      assert evs == evs[..k + 1] + evs[k + 1..];
      RunAppend(tables, s0, evs[..k + 1], evs[k + 1..]);
      assert !grants(a0 + |Run(tables, s0, evs[..k]).1|);
    }

    /**
     * The reader thread, until it waits for the server to write more (Waiting)
     * or cannot allocate a chunk (Err): it puts in the ring exactly the frames
     * of the events it has gone through, and it goes through all there are if and only
     * if the pool grants a chunk for every frame of the run.
     */
    method Dump(ghost evs: seq<Stamped>) returns (r: Status, ghost k: nat)
      requires AtFile(evs)
      modifies io, io.ioBuf, this
      ensures k <= |evs| && (r == Waiting || r == Err)
      ensures out == old(out) + EncodeAll(Run(tables, old(View()), evs[..k]).1)
      ensures r == Waiting <==> Granted(old(asked), |Run(tables, old(View()), evs).1|)
      ensures r == Waiting ==> k == |evs| && out == old(out) + EncodeAll(Run(tables, old(View()), evs).1)
      ensures r == Err ==> Denied(old(View()), old(asked), evs, k)
    {
      k := 0;
      RunStarts(tables, View(), out, evs);
      hide WellFormed, Stream, GoodBinlog, Run, EncodeAll, Granted, Denied;
      NothingAsked(View(), evs);
      while true
        invariant k <= |evs| && AtFile(evs[k..]) && Ran(old(View()), old(out), evs[..k])
        invariant Asked(old(View()), old(asked), evs[..k])
        decreases U32_LIMIT - dumpNum, |binlog.files[dumpFile]| - StartPos(dumpPos)
      {
        r, k := Continue(old(View()), old(out), old(asked), evs, k);
        if r == Waiting || r == Err {
          break;
        }
      }
      if r == Err {
        DeniedIsShort(old(View()), old(asked), evs, k);
      } else {
        assert evs[..k] == evs;
      }
    }

    lemma NothingAsked(s0: Info, evs: seq<Stamped>)
      ensures Asked(s0, asked, evs[..0])
    {
      assert evs[..0] == [];
    }
  }

  lemma OneEncoded(f: Frame)
    ensures EncodeAll([f]) == [Encode(f)]
  {
  }

  lemma NoneEncoded(out: seq<bytes>)
    ensures EncodeAll([]) == [] && out + EncodeAll([]) == out
  {
  }

  lemma DecodeSorts(localId: nat, t: byte, svrid: nat, body: bytes, ev: Event)
    requires KnownType(t) && Decode(localId, t, svrid, body) == Some(ev)
    ensures IsRowsType(t) ==> ev == Rows(t, body)
    ensures t == STOP_EVENT || t == ROTATE_EVENT ==> ev == if svrid == localId then Switch else Quiet
    ensures !IsRowsType(t) && t != STOP_EVENT && t != ROTATE_EVENT ==> !ev.Rows? && ev != Switch
  {
    hide ParseQuery, ParseTableMap;
    SortsOfParse(body);
  }

  lemma SortsOfParse(body: bytes)
    ensures ParseQuery(body).Some? ==> ParseQuery(body).value.Query?
    ensures ParseTableMap(body).Some? ==> ParseTableMap(body).value.TableMap?
  {
  }

  function StartPos(pos: nat): (p: nat) {
    if pos == 0 then MAGIC_LEN else pos
  }

  lemma StartsInside(localId: nat, data: bytes, pos: nat)
    requires WellFormed(localId, data, pos)
    ensures pos <= |data| < U32_LIMIT
  {
  }

  lemma RunStarts(tables: bytes, s0: Info, out0: seq<bytes>, evs: seq<Stamped>)
    ensures evs[0..] == evs && Run(tables, s0, evs[..0]) == (s0, [])
    ensures out0 + EncodeAll([]) == out0
  {
    assert evs[..0] == [];
  }

  /** Two runs on end, with the chunks they have put in the ring. */
  lemma RunsCompose(tables: bytes, s0: Info, out0: seq<bytes>, evs: seq<Stamped>, k: nat, n: nat,
                    s1: Info, out1: seq<bytes>, out2: seq<bytes>)
    requires k + n <= |evs|
    requires Run(tables, s0, evs[..k]).0 == s1 && out1 == out0 + EncodeAll(Run(tables, s0, evs[..k]).1)
    requires out2 == out1 + EncodeAll(Run(tables, s1, evs[k..][..n]).1)
    ensures evs[k..][n..] == evs[k + n..]
    ensures Run(tables, s0, evs[..k + n]).0 == Run(tables, s1, evs[k..][..n]).0
    ensures out2 == out0 + EncodeAll(Run(tables, s0, evs[..k + n]).1)
  {
    hide Run, EncodeAll;
    RunAppend(tables, s0, evs[..k], evs[k..][..n]);
    assert evs[..k + n] == evs[..k] + evs[k..][..n];
    EncodeAllChain(out0, Run(tables, s0, evs[..k]).1, Run(tables, s1, evs[k..][..n]).1);
  }

  /** One more step of a run, with the chunks it has put in the ring so far. */
  lemma RunExtends(tables: bytes, s0: Info, out0: seq<bytes>, evs: seq<Stamped>, k: nat,
                   s1: Info, out1: seq<bytes>, out2: seq<bytes>)
    requires k < |evs|
    requires Run(tables, s0, evs[..k]).0 == s1 && out1 == out0 + EncodeAll(Run(tables, s0, evs[..k]).1)
    requires out2 == out1 + EncodeAll(Step(tables, s1, evs[k..][0]).1)
    ensures evs[k..][1..] == evs[k + 1..]
    ensures Run(tables, s0, evs[..k + 1]).0 == Step(tables, s1, evs[k..][0]).0
    ensures out2 == out0 + EncodeAll(Run(tables, s0, evs[..k + 1]).1)
  {
    hide Run, EncodeAll, Step;
    RunSnoc(tables, s0, evs, k);
    EncodeAllChain(out0, Run(tables, s0, evs[..k]).1, Step(tables, s1, evs[k]).1);
  }

  /** The number of a file, scanned backwards from the end of its name. */
  method NumberOf(name: bytes) returns (n: nat)
    requires GoodName(name)
    ensures n == NameNumber(name)
  {
    var r := Numbers.EstrToU32(name);
    n := r.value;
  }

  /** The scan over the index lines. */
  method FindNext(index: seq<bytes>, num: nat) returns (i: nat)
    requires GoodIndex(index)
    ensures i == NextAfter(index, num, 0)
  {
    i := 0;
    while i < |index|
      invariant i <= |index|
      invariant NextAfter(index, num, 0) == NextAfter(index, num, i)
    {
      var n := NumberOf(index[i]);
      if n > num {
        return;
      }
      i := i + 1;
    }
  }

  /** Database name and statement of a query body. */
  method ReadQuery(query: bytes) returns (db: bytes, effect: TranEffect)
    requires ParseQuery(query).Some?
    ensures ParseQuery(query) == Some(Query(db, effect))
  {
    var dbl := query[8] + 1;
    var p := 13 + FromLE(query[11..13]);
    db := CStr(query[p..p + dbl]);
    p := p + dbl;
    var sl := if SQL_MAX < |query| - p then SQL_MAX else |query| - p;
    var sql := query[p..p + sl];
    assert sql == query[p..][..sl];
    effect := SqlEffect(sql);
  }

  /** Names and columns of a table map body. */
  method ReadTableMap(tm: bytes) returns (m: Event)
    requires ParseTableMap(tm).Some?
    ensures ParseTableMap(tm) == Some(m) && m.TableMap?
  {
    var dbl := tm[8] + 1;
    var db := CStr(tm[9..9 + dbl]);
    var p := 9 + dbl;
    var tbl := tm[p] + 1;
    p := p + 1;
    var tb := CStr(tm[p..p + tbl]);
    p := p + tbl;
    var ct, cm := ReadColumns(tm[p..]);
    m := TableMap(db, tb, ct, cm);
  }

  /** The column part of a table map body. */
  method ReadColumns(s: bytes) returns (ct: bytes, cm: bytes)
    requires ParseColumns(s).Some?
    ensures ParseColumns(s) == Some((ct, cm))
  {
    var (cn, k) := PackedInt(s).value;
    ct := s[k..k + cn];
    var after := s[k + cn..];
    var (ml, j) := PackedInt(after).value;
    cm := after[j..j + ml];
  }
}
