/**
 * What is handed over gets applied: without new work from the reader thread, the other
 * threads can only do so much before there is nothing left to do but look again.
 */
module Liveness {
  import opened Bytes
  import opened ClassTable
  import opened Spsc
  import opened ChunkRing
  import opened Wire
  import opened Transport

  /** Every payload fits the two buffers. */
  ghost predicate Fits(s: Sys) {
    s.l.recvCap >= 4 && forall p <- s.m.put :: 4 + |p| <= s.l.sendCap && |p| <= s.l.recvCap
  }

  /** A thread looking, once more, at a ring or buffer that has nothing for it. */
  ghost predicate Polls(s: Sys, a: Action) {
    match a
    case Dump(c) => (c == Look || c == Find) && s.m.ring.rn == s.m.ring.wn && s.l.sendBuf == []
    case DSent => s.m.ring.rn == s.m.ring.wn && s.l.sendBuf == []
    case Receiver(p) => (p == Check || p == Decide) && s.side.ring.wn - s.side.ring.rn == s.side.ring.num
    case Consumer(c) => (c == Look || c == Find) && s.side.ring.rn == s.side.ring.wn
    case _ => false
  }

  /** A step of another thread than the reader. */
  ghost predicate Steps(s: Sys, a: Action)
    requires Good(s)
  {
    Enabled(s, a) && !a.Reader?
  }

  // ----- Work left ------------------------------------------------------------------------

  /** For payloads not yet copied, from the `i`-th on. */
  function ToCopy(put: seq<bytes>, i: nat): (n: nat)
    decreases |put| - i
  {
    if i >= |put| then 0 else 3 * (4 + |put[i]|) + 8 + ToCopy(put, i + 1)
  }

  /** For where the dump thread stands; it is constant while there is nothing to copy or send. */
  function DumpWork(r: Ring<Option<nat>>, buffered: bool, sending: bool): (n: nat) {
    if r.rn == r.wn && !buffered then 4
    else
      (match r.c
       case CIdle => 4
       case CSeen(wn) => if wn > r.rn || buffered then 3 else 6
       case CClaimed => 2
       case CMoved => 1) +
      if buffered then (if sending then 4 else 7) else (if sending then 1 else 0)
  }

  /** For where the receiver stands with its slot and the frame in it. */
  function StageWork(r: Ring<Option<nat>>, fill: Fill, io: Io): (n: nat) {
    match r.p
    case PIdle => 11
    case PSeen(rn) => if r.wn < rn + r.num then 10 else if r.wn == r.rn + r.num then 11 else 12
    case PMoved => 1
    case PClaimed =>
      match fill
      case Untouched => 9
      case Cleared => if io == Idle then 8 else if io.Want? then 7 else if io.Got? then 6 else 0
      case Granted => if io.Got? then (if io.body then 3 else 5) else if io.Want? then 4 else 0
      case Filled => 2
      case Dead => 0
  }

  /** For where the consumer stands. */
  function ApplyWork(r: Ring<Option<nat>>): (n: nat) {
    match r.c
    case CIdle => 4
    case CSeen(wn) => if wn > r.rn then 3 else if r.wn == r.rn then 4 else 5
    case CClaimed => 2
    case CMoved => 1
  }

  /** Bytes on the way, the further the heavier. */
  function ByteWork(l: Link): (n: int) {
    3 * (|l.sendBuf| - l.sent) + 2 * |l.wire| + (|l.recvBuf| - l.recvPos)
  }

  /** The master's part, up to the bytes in its send buffer. */
  ghost function MasterWork(m: Depot, buffered: bool, sending: bool): (n: int) {
    ToCopy(m.put, |m.out|) + DumpWork(m.ring, buffered, sending) + 4 * (|m.put| - m.ring.rn)
  }

  /** The slave's, for `total` frames in all. */
  function SideWork(d: Depot, io: Io, total: nat): (n: int) {
    12 * (total - d.ring.wn) + StageWork(d.ring, d.fill, io) +
    ApplyWork(d.ring) + 5 * (total - d.ring.rn) + (total - |d.out|)
  }

  /** A bound on the steps that are more than looking again. */
  ghost function Work(s: Sys): (n: int) {
    MasterWork(s.m, s.l.sendBuf != [], s.l.sending) + ByteWork(s.l) + SideWork(s.side, s.l.io, |s.m.put|) +
    if s.ended then 0 else 1
  }

  /** The counters of a depot. */
  lemma Counters(d: Depot)
    requires Inv(d)
    ensures var r := d.ring;
            r.num > 0 && r.rn <= r.wn == |d.put| && r.wn <= r.rn + r.num && r.rn <= |d.out| <= |d.put| &&
            |d.out| == r.rn + (if d.copied then 1 else 0) &&
            (r.p.PSeen? ==> r.p.rn <= r.rn && r.wn <= r.p.rn + r.num) &&
            (r.p == PClaimed || r.p == PMoved ==> r.wn < r.rn + r.num) &&
            (r.c.CSeen? ==> r.rn <= r.c.wn <= r.wn) && (r.c == CClaimed || r.c == CMoved ==> r.rn < r.wn) &&
            (d.copied ==> r.c == CClaimed || r.c == CMoved) && (r.c == CMoved ==> d.copied)
  {
    hide Owns, Spaced, Sized, SlotOf;
  }

  lemma WorkIsNatural(s: Sys)
    requires Good(s)
    ensures Work(s) >= 0
  {
    hide Inv, ToCopy, DumpWork, StageWork, ApplyWork, Stage, Carries, Holds, SlotOf;
    LinkInv(s);
    Counters(s.m);
    Counters(s.side);
    DeliverySizes(s);
  }

  // ----- Every step that is more than looking takes work off --------------------------------

  /** The dump thread on its ring, with nothing copied. */
  lemma DumpRingLowers(m: Depot, c: CStep, buffered: bool, sending: bool)
    requires Inv(m) && CanConsume(m, c) && c != Copy && c != Drop && (c == Look || c == Find ==> !sending)
    ensures var r := Consume(m, c);
            var sends := sending || (c == Find && m.ring.c.wn == m.ring.rn);
            MasterWork(r, buffered, sends) +
            (if (c == Look || c == Find) && m.ring.rn == m.ring.wn && !buffered then 0 else 1)
            <= MasterWork(m, buffered, sending)
  {
    hide Inv, ToCopy;
    Counters(m);
  }

  lemma CopyLowers(m: Depot, buffered: bool)
    requires Inv(m) && CanConsume(m, Copy)
    ensures |m.out| < |m.put|
    ensures MasterWork(Consume(m, Copy), true, false) + 1 + 3 * (4 + |m.put[|m.out|]|) <= MasterWork(m, buffered, false)
  {
    hide Inv;
    Counters(m);
  }

  lemma FlushLowers(m: Depot)
    requires Inv(m) && CanConsume(m, Drop)
    ensures MasterWork(Consume(m, Drop), true, true) + 1 <= MasterWork(m, true, false)
  {
    hide Inv, ToCopy;
    Counters(m);
  }

  lemma SentLowers(m: Depot, buffered: bool)
    requires Inv(m)
    ensures MasterWork(m, false, false) + (if m.ring.rn == m.ring.wn && !buffered then 0 else 1)
            <= MasterWork(m, buffered, true)
  {
    hide Inv, ToCopy;
    Counters(m);
  }

  lemma NothingBufferedFits(s: Sys)
    requires Good(s) && Fits(s) && DumpCan(s, Dump(Drop))
    ensures s.l.sendBuf != []
  {
    hide Inv, Beside, Carries, CanConsume;
    DropClaim(s.m);
    assert |NextPayload(s)| == |s.m.put[|s.m.out|]|;
    assert s.m.put[|s.m.out|] in s.m.put;
  }

  lemma DropClaim(m: Depot)
    requires CanConsume(m, Drop)
    ensures m.ring.c == CClaimed && !m.copied
  {
  }

  lemma DumpLowers(s: Sys, a: Action)
    requires Good(s) && Fits(s) && DumpCan(s, a) && s.l.Inv()
    ensures Work(DoDump(s, a)) + (if Polls(s, a) then 0 else 1) <= Work(s)
  {
    hide Inv, Beside, Under, CanConsume, Consume, NextPayload, MasterWork, SideWork, Link.HasRoom, Fits;
    match a {
      case DWrite(n) =>
      case DSent => SentLowers(s.m, s.l.sendBuf != []);
      case Dump(Copy) =>
        CopyTakes(s);
        CopyLowers(s.m, s.l.sendBuf != []);
        ConsumerMovesOn(s.m, Copy);
        assert |Packet(NextPayload(s))| == 4 + |NextPayload(s)|;
      case Dump(Drop) =>
        NothingBufferedFits(s);
        FlushLowers(s.m);
        ConsumerMovesOn(s.m, Drop);
      case Dump(c) =>
        ConsumerMovesOn(s.m, c);
        DumpRingLowers(s.m, c, s.l.sendBuf != [], s.l.sending);
    }
  }

  /** The receiver on its ring. */
  lemma ReceiverRingLowers(d: Depot, io: Io, p: PStep, total: nat)
    requires Inv(d) && Stage(d, io) && CanProduce(d, p) && |d.put| <= total
    requires p.Alloc? ==> io.Got? && !io.body
    requires p == Fail ==> io.Got?
    requires p.Store? ==> io.Got? && io.body
    ensures var io' := if p == Fail then Stopped else if p.Store? then Idle else io;
            SideWork(Produce(d, p), io', total) +
            (if (p == Check || p == Decide) && d.ring.wn - d.ring.rn == d.ring.num then 0 else 1)
            <= SideWork(d, io, total)
  {
    hide Inv, Sized, SlotOf, Apart;
    Counters(d);
  }

  lemma AskLowers(l: Link, body: bool, size: nat)
    requires l.Inv() && l.io == Idle
    ensures var r := l.Ask(body, size);
            ByteWork(r) <= ByteWork(l) && r.sendBuf == l.sendBuf && r.sending == l.sending &&
            (r.io == Stopped || (r.io.Want? && r.io.body == body) || (r.io.Got? && r.io.body == body))
  {
  }

  /** The receiver on the stream. */
  lemma StreamLowers(d: Depot, l: Link, a: Action, r: Link, total: nat)
    requires l.Inv() && Stage(d, l.io) && d.ring.wp < |d.ring.slots|
    requires StreamTurn(d, l, a, r)
    ensures ByteWork(r) + SideWork(d, r.io, total) + 1 <= ByteWork(l) + SideWork(d, l.io, total)
    ensures r.sendBuf == l.sendBuf && r.sending == l.sending
  {
    hide ApplyWork, Sized;
    if a == NAsk {
      AskLowers(l, false, 4);
    } else if a == NAskBody {
      hide FromLE;
      AskLowers(l.(io := Idle), true, FromLE(l.io.data));
    }
  }

  lemma ReceiverLowers(s: Sys, a: Action)
    requires Good(s) && ReceiverCan(s, a) && s.l.Inv()
    ensures Work(DoReceiver(s, a)) + (if Polls(s, a) then 0 else 1) <= Work(s)
  {
    hide Inv, CanProduce, Produce, MasterWork, SideWork, ByteWork, Link.Inv, Carries, Holds, Stage;
    Counters(s.m);
    DeliverySizes(s);
    InRange(s.side);
    var t := DoReceiver(s, a);
    if a.Receiver? {
      ReceiverRingLowers(s.side, s.l.io, a.p, |s.m.put|);
      assert t.l == s.l || t.l == s.l.(io := t.l.io);
      SameBytes(s.l, t.l.io);
    } else {
      PlaceInBuffer(s.l);
      StreamLowers(s.side, s.l, a, t.l, |s.m.put|);
    }
  }

  lemma PlaceInBuffer(l: Link)
    requires l.Inv()
    ensures l.recvPos <= |l.recvBuf|
  {
  }

  lemma SameBytes(l: Link, io: Io)
    ensures ByteWork(l.(io := io)) == ByteWork(l)
  {
  }

  lemma ConsumerLowers(d: Depot, io: Io, c: CStep, total: nat)
    requires Inv(d) && CanConsume(d, c) && c != Drop && |d.put| <= total
    ensures SideWork(Consume(d, c), io, total) +
            (if (c == Look || c == Find) && d.ring.rn == d.ring.wn then 0 else 1) <= SideWork(d, io, total)
  {
    hide Inv;
    Counters(d);
  }

  lemma ApplyLowers(s: Sys, a: Action)
    requires Good(s) && ConsumerCan(s, a)
    ensures Work(DoConsumer(s, a)) + (if Polls(s, a) then 0 else 1) <= Work(s)
  {
    hide Inv, CanConsume, Consume, MasterWork, SideWork, ByteWork, Carries, Holds, Stage;
    Counters(s.m);
    DeliverySizes(s);
    if a != REnd {
      ConsumerLowers(s.side, s.l.io, a.c, |s.m.put|);
    }
  }

  lemma OthersKeepPut(s: Sys, a: Action)
    requires Good(s) && Steps(s, a)
    ensures Do(s, a).m.put == s.m.put
  {
    hide Inv, Under, Beside, CanProduce, CanConsume, Produce, Consume, NextPayload, Link.Inv, Link.HasRoom;
    LinkInv(s);
    if DumpCan(s, a) && a.Dump? {
      ConsumerMovesOn(s.m, a.c);
    }
  }

  lemma ReaderOnly(s: Sys, a: Action)
    requires Good(s) && Steps(s, a)
    ensures !ReaderCan(s, a) && |s.m.sizes| > 0 && |s.side.sizes| > 0 && Allotted(s, a)
  {
    hide Good, Enabled, Fitting;
    SizesOf(s);
  }

  /**
   * Every step outside the reader thread keeps the state consistent and takes off some
   * of the work left, unless it only looks again; that adds none.
   */
  lemma StepLowers(s: Sys, a: Action)
    requires Good(s) && Fits(s) && Steps(s, a)
    ensures var t := Do(s, a);
            Good(t) && Fits(t) && t.m.put == s.m.put && Work(t) + (if Polls(s, a) then 0 else 1) <= Work(s)
    ensures AllExact(s) ==> AllExact(Do(s, a))
  {
    hide Inv, Under, Beside, AllExact, Work, Polls, ReaderCan, DumpCan, ReceiverCan, ConsumerCan;
    hide DoReader, DoDump, DoReceiver, DoConsumer, Link.Inv, Allotted;
    LinkInv(s);
    ReaderOnly(s, a);
    DoKeepsGood(s, a);
    DoKeepsFrame(s, a);
    OthersKeepPut(s, a);
    if AllExact(s) {
      DoKeepsExact(s, a);
    }
    if DumpCan(s, a) {
      DumpLowers(s, a);
    } else if ReceiverCan(s, a) {
      ReceiverLowers(s, a);
    } else if ConsumerCan(s, a) {
      ApplyLowers(s, a);
    }
  }

  // ----- Something can always be done -----------------------------------------------------------

  /** The receiver has not stopped, nor the consumer given up. */
  ghost predicate Running(s: Sys) {
    Alive(s.l.io) && !s.ended
  }

  /** A step that does more than look again, and keeps the slave running. */
  ghost predicate Progress(s: Sys, a: Action)
    requires Good(s)
  {
    Steps(s, a) && !Polls(s, a) && (Running(s) ==> Running(Do(s, a)))
  }

  lemma DumpIsProgress(s: Sys, a: Action)
    requires Good(s) && DumpCan(s, a) && !Polls(s, a) && !a.Reader?
    ensures Progress(s, a)
  {
    hide Inv, Under, Beside, Polls, NextPayload, CanConsume, Consume, CanProduce, Link.HasRoom, Link.Inv;
    LinkInv(s);
  }

  lemma SendingProgress(s: Sys) returns (a: Action)
    requires Good(s) && s.l.sending && (s.m.ring.rn < s.m.ring.wn || s.l.sendBuf != [])
    ensures Progress(s, a)
  {
    hide Inv, Beside, Progress, Carries;
    LinkInv(s);
    a := if s.l.sent < |s.l.sendBuf| then DWrite(1) else DSent;
    DumpIsProgress(s, a);
  }

  /** The dump thread can move on while its ring or its buffer holds anything. */
  lemma DumpProgress(s: Sys) returns (a: Action)
    requires Good(s) && (s.m.ring.rn < s.m.ring.wn || s.l.sendBuf != [])
    ensures Progress(s, a)
  {
    hide Inv, Under, Beside, Progress, NextPayload, Link.HasRoom;
    Counters(s.m);
    if s.l.sending {
      a := SendingProgress(s);
    } else {
      match s.m.ring.c {
        case CIdle => a := Dump(Look);
        case CSeen(_) => a := Dump(Find);
        case CMoved => a := Dump(Release);
        case CClaimed =>
          a := if s.m.copied then Dump(Leave) else if s.l.HasRoom(NextPayload(s)) then Dump(Copy) else Dump(Drop);
      }
      DumpIsProgress(s, a);
    }
  }

  /** The consumer can move on while its ring holds anything. */
  lemma ConsumerProgress(s: Sys) returns (a: Action)
    requires Good(s) && s.side.ring.rn < s.side.ring.wn && Running(s)
    ensures Progress(s, a)
  {
    hide Inv, Under, Beside, Consume;
    Counters(s.side);
    match s.side.ring.c {
      case CIdle => a := Consumer(Look);
      case CSeen(_) => a := Consumer(Find);
      case CMoved => a := Consumer(Release);
      case CClaimed => a := Consumer(if s.side.copied then Leave else Copy);
    }
  }

  /** Some address lies behind all these chunks. */
  lemma {:induction false} FreshAddress(sizes: seq<nat>, heap: map<nat, bytes>, n: nat) returns (c: nat)
    requires |sizes| > 0
    ensures forall b: nat :: c <= b ==> Apart(sizes, heap, b, n)
    decreases |heap|
  {
    if heap == map[] {
      c := 0;
    } else {
      var d: nat :| d in heap;
      hide Room;
      var c' := FreshAddress(sizes, heap - {d}, n);
      var end := d + Room(sizes, |heap[d]|) + 1;
      c := if c' < end then end else c';
      forall b: nat, e: nat | c <= b && e in heap ensures Clear(sizes, b, n, e, |heap[e]|) {
        if e != d {
          assert Apart(sizes, heap - {d}, b, n) && e in heap - {d};
        }
      }
    }
  }

  lemma GrantPossible(d: Depot, n: nat) returns (c: nat)
    requires Inv(d) && d.ring.p == PClaimed && d.fill == Cleared && GoodLength(n)
    ensures CanProduce(d, Alloc(c, n))
  {
    SizesPositive(d);
    hide Inv, Apart;
    var a := FreshAddress(d.sizes, d.heap, n);
    var b := FreshAddress(d.sizes, d.held, n);
    c := if a < b then b else a;
    assert Apart(d.sizes, d.heap, c, n) && Apart(d.sizes, d.held, c, n);
  }

  lemma SizesPositive(d: Depot)
    requires Inv(d)
    ensures |d.sizes| > 0
  {
    hide Owns, Spaced, Sized, SlotOf;
  }

  /** What the receiver does next, once it has a slot and the bytes it waits for are there. */
  function StreamAction(fill: Fill, io: Io, buffered: nat, c: nat): (a: Action) {
    match fill
    case Untouched => Receiver(Free)
    case Filled => Receiver(Move)
    case _ =>
      match io
      case Want(_, _, need) => if buffered >= need then NTake else NRead(1)
      case Got(body, data) =>
        if body then Receiver(Store(data))
        else if fill == Cleared then Receiver(Alloc(c, FromLE(data)))
        else NAskBody
      case _ => NAsk
  }

  /** The length just received is one that can be asked for. */
  lemma LengthIsGood(s: Sys)
    requires Good(s) && s.l.io.Got? && !s.l.io.body
    ensures GoodLength(FromLE(s.l.io.data)) && |s.rx| < |s.m.out| && FromLE(s.l.io.data) == |s.m.put[|s.rx|]|
  {
    hide Inv, Beside, Carries, Link.Inv, FromLE, U32;
    OutFits(s.m, |s.rx|);
    OutLengths(s.m);
    LengthIsNext(s.l, s.m.out[|s.rx|..]);
    assert s.m.out[|s.rx|..][0] in s.m.out[|s.rx|..];
  }

  lemma StreamActionCan(d: Depot, l: Link, s: Sys, c: nat)
    requires d == s.side && l == s.l && Inv(d) && Stage(d, l.io) && Alive(l.io) && d.ring.p == PClaimed
    requires l.io.Want? && |l.recvBuf| < l.io.need ==> l.wire != [] && l.recvCap > 0
    requires l.io.Got? && !l.io.body && d.fill == Cleared ==> CanProduce(d, Alloc(c, FromLE(l.io.data)))
    ensures ReceiverCan(s, StreamAction(d.fill, l.io, |l.recvBuf|, c))
  {
    hide Inv, Apart, Sized, SlotOf, FromLE;
    InRange(d);
  }

  /** Asking for a length never stops the receiver. */
  lemma AskNeverStops(s: Sys)
    requires Good(s) && s.l.recvCap >= 4 && ReceiverCan(s, NAsk) && s.l.Inv()
    ensures Alive(DoReceiver(s, NAsk).l.io)
  {
    hide Inv, Under, Beside;
  }

  /** Nor does asking for a body: every length that arrives is that of a payload handed over. */
  lemma AskBodyNeverStops(s: Sys)
    requires Good(s) && Fits(s) && ReceiverCan(s, NAskBody) && s.l.Inv()
    ensures Alive(DoReceiver(s, NAskBody).l.io)
  {
    hide Inv, Under, Beside, FromLE;
    LengthIsGood(s);
    OutLengths(s.m);
    assert s.m.put[|s.rx|] in s.m.put;
  }

  /** Nor does reading on by a single byte. */
  lemma ByteReadFits(s: Sys)
    requires Good(s) && ReceiverCan(s, NRead(1)) && s.l.Inv()
    ensures Alive(DoReceiver(s, NRead(1)).l.io)
  {
    hide Inv, Under, Beside;
  }

  lemma ReceiverStaysAlive(s: Sys, a: Action)
    requires Good(s) && Fits(s) && ReceiverCan(s, a) && Alive(s.l.io) && s.l.Inv()
    requires (a.NRead? ==> a == NRead(1)) && a != Receiver(Fail)
    ensures Alive(DoReceiver(s, a).l.io) && DoReceiver(s, a).ended == s.ended
  {
    hide Inv, Under, Beside, CanProduce, Produce, Fits;
    if a == NAsk {
      FitsAsk(s);
      AskNeverStops(s);
    } else if a == NAskBody {
      AskBodyNeverStops(s);
    } else if a.NRead? {
      ByteReadFits(s);
    }
  }

  lemma FitsAsk(s: Sys)
    requires Fits(s)
    ensures s.l.recvCap >= 4
  {
  }

  lemma ReceiverIsProgress(s: Sys, a: Action)
    requires Good(s) && Fits(s) && ReceiverCan(s, a) && Alive(s.l.io) && !Polls(s, a)
    requires (a.NRead? ==> a == NRead(1)) && a != Receiver(Fail)
    ensures Progress(s, a)
  {
    hide Inv, Under, Beside, CanProduce, Produce, Fits, DoReceiver, Polls, Link.Inv;
    LinkInv(s);
    ReceiverStaysAlive(s, a);
  }

  /** The receiver can move on unless it waits for bytes that are not there. */
  lemma ReceiverProgress(s: Sys) returns (a: Action)
    requires Good(s) && Fits(s) && Alive(s.l.io) && s.side.ring.wn - s.side.ring.rn < s.side.ring.num
    requires !(s.l.io.Want? && |s.l.recvBuf| < s.l.io.need && s.l.wire == [])
    ensures Progress(s, a)
  {
    hide Inv, Under, Progress, CanProduce, Stage;
    FitsAsk(s);
    if s.side.ring.p == PClaimed {
      var c := 0;
      if s.l.io.Got? && !s.l.io.body && s.side.fill == Cleared {
        LengthIsGood(s);
        c := GrantPossible(s.side, FromLE(s.l.io.data));
      }
      StreamActionCan(s.side, s.l, s, c);
      a := StreamAction(s.side.fill, s.l.io, |s.l.recvBuf|, c);
    } else {
      a := Receiver(if s.side.ring.p == PIdle then Check else if s.side.ring.p == PMoved then Commit else Decide);
      RingActionCan(s.side, a.p);
    }
    ReceiverIsProgress(s, a);
  }

  lemma RingActionCan(d: Depot, p: PStep)
    requires d.ring.p != PClaimed
    requires p == if d.ring.p == PIdle then Check else if d.ring.p == PMoved then Commit else Decide
    ensures CanProduce(d, p)
  {
  }

  /** The rings empty, nothing buffered or on the wire, the receiver waiting: then all has been applied. */
  lemma QuietMeansAllApplied(s: Sys)
    requires Good(s) && s.m.ring.rn == s.m.ring.wn && s.side.ring.rn == s.side.ring.wn
    requires s.l.sendBuf == [] && s.l.wire == [] && s.l.io.Want? && |s.l.recvBuf| < s.l.io.need
    ensures |s.side.out| == |s.m.put|
  {
    hide Inv, Stage, Holds, SlotOf, Sized;
    Counters(s.m);
    Counters(s.side);
    LinkInv(s);
    OutFits(s.m, |s.rx|);
    QuietMeansDelivered(s.l, s.m.out[|s.rx|..]);
    NotWaiting(s);
  }

  lemma NotWaiting(s: Sys)
    requires Good(s) && s.l.io.Want?
    ensures !Waiting(s.side) && |s.rx| == s.side.ring.wn
  {
    hide Inv, Sized, Holds, SlotOf, Under;
  }

  /**
   * While the slave runs and something handed over has not been applied, some thread
   * other than the reader can take work off, given that the slave's pool grants chunks.
   */
  lemma SomeProgress(s: Sys) returns (a: Action)
    requires Good(s) && Fits(s) && Running(s) && |s.side.out| < |s.m.put|
    ensures Progress(s, a)
  {
    hide Inv, Under, Beside, Progress, Fits;
    Counters(s.m);
    Counters(s.side);
    if s.m.ring.rn < s.m.ring.wn || s.l.sendBuf != [] {
      a := DumpProgress(s);
    } else if s.side.ring.rn < s.side.ring.wn {
      a := ConsumerProgress(s);
    } else {
      if s.l.io.Want? && |s.l.recvBuf| < s.l.io.need && s.l.wire == [] {
        QuietMeansAllApplied(s);
        assert false;
      }
      a := ReceiverProgress(s);
    }
  }

  // ----- Stretches of a run without the reader thread -----------------------------------------------

  ghost predicate IsStretch(run: seq<Sys>, acts: seq<Action>) {
    |run| == |acts| + 1 && Good(run[0]) && Fits(run[0]) &&
    forall i: nat | i < |acts| :: Good(run[i]) ==> Steps(run[i], acts[i]) && run[i + 1] == Do(run[i], acts[i])
  }

  /** How many of the first `i` steps do more than look again. */
  ghost function Doing(run: seq<Sys>, acts: seq<Action>, i: nat): (n: nat)
    requires |run| == |acts| + 1 && i <= |acts|
  {
    if i == 0 then 0 else Doing(run, acts, i - 1) + if Polls(run[i - 1], acts[i - 1]) then 0 else 1
  }

  /**
   * However the other threads go on without the reader, with each payload fitting the
   * buffers, they take no more steps than the work left at the start before all they
   * can do is look again.
   */
  lemma {:induction false} StretchIsBounded(run: seq<Sys>, acts: seq<Action>, i: nat)
    requires IsStretch(run, acts) && i <= |acts|
    ensures Good(run[i]) && Fits(run[i]) && run[i].m.put == run[0].m.put
    ensures Doing(run, acts, i) + Work(run[i]) <= Work(run[0])
    ensures Doing(run, acts, i) <= Work(run[0])
    ensures AllExact(run[0]) ==> AllExact(run[i])
  {
    hide Good, Fits, Steps, Do, Work, Polls, AllExact;
    WorkIsNatural(run[0]);
    if i > 0 {
      StretchIsBounded(run, acts, i - 1);
      StepLowers(run[i - 1], acts[i - 1]);
    }
    WorkIsNatural(run[i]);
  }

  /** All that was handed over has been applied, unchanged where chunks have had room for it. */
  ghost predicate Done(s: Sys, put: seq<bytes>, exact: bool) {
    |s.side.out| == |put| && (exact ==> s.side.out == put)
  }

  lemma AllApplied(s: Sys)
    requires Good(s) && |s.side.out| == |s.m.put|
    ensures AllExact(s) ==> s.side.out == s.m.put
  {
    hide Good, AllExact;
    if AllExact(s) {
      ExactOuts(s);
    }
  }

  /**
   * And where they can do no more than look again, everything handed over has been
   * applied, unless the receiver has stopped or the consumer given up.
   */
  lemma StretchEndsApplied(run: seq<Sys>, acts: seq<Action>)
    requires IsStretch(run, acts)
    requires forall a :: Good(run[|acts|]) && Steps(run[|acts|], a) ==> Polls(run[|acts|], a)
    ensures Done(run[|acts|], run[0].m.put, AllExact(run[0])) || !Running(run[|acts|])
  {
    hide Good, Fits, Do, Polls, Enabled, AllExact, Running;
    StretchIsBounded(run, acts, |acts|);
    var s := run[|acts|];
    DeliverySizes(s);
    if |s.side.out| < |s.m.put| {
      if Running(s) {
        var a := SomeProgress(s);
      }
    } else {
      AllApplied(s);
    }
  }

  /**
   * From every state in which the slave runs, such a stretch leads to everything being applied:
   * one in which the slave's pool grants the chunks asked for and no handler fails.
   */
  lemma {:induction false} Drain(s: Sys) returns (run: seq<Sys>, acts: seq<Action>)
    requires Good(s) && Fits(s) && Running(s)
    ensures IsStretch(run, acts) && run[0] == s && |acts| <= Work(s)
    ensures Done(run[|acts|], s.m.put, AllExact(s)) && Running(run[|acts|])
    decreases Work(s)
  {
    hide Good, Fits, Enabled, Do, Work, Polls, AllExact, Running;
    WorkIsNatural(s);
    DeliverySizes(s);
    if |s.side.out| == |s.m.put| {
      run, acts := [s], [];
      AllApplied(s);
    } else {
      var a := SomeProgress(s);
      StepLowers(s, a);
      var t := Do(s, a);
      WorkIsNatural(t);
      var run1, acts1 := Drain(t);
      run, acts := [s] + run1, [a] + acts1;
      StretchCons(s, a, run1, acts1);
    }
  }

  lemma StretchCons(s: Sys, a: Action, run: seq<Sys>, acts: seq<Action>)
    requires IsStretch(run, acts) && Good(s) && Fits(s) && Steps(s, a) && run[0] == Do(s, a)
    ensures IsStretch([s] + run, [a] + acts) && ([s] + run)[|acts| + 1] == run[|acts|]
  {
    hide Good, Fits, Enabled, Do;
    var run', acts' := [s] + run, [a] + acts;
    forall i: nat | i < |acts'| && Good(run'[i])
      ensures Steps(run'[i], acts'[i]) && run'[i + 1] == Do(run'[i], acts'[i])
    {
      if i > 0 {
        assert run'[i] == run[i - 1] && acts'[i] == acts[i - 1] && run'[i + 1] == run[i];
      }
    }
  }

  // ----- A payload that does not fit -------------------------------------------------------------------

  /** Every payload copied so far fitted the send buffer. */
  ghost predicate CopiedFit(s: Sys) {
    forall j :: 0 <= j < |s.m.out| && j < |s.m.put| ==> 4 + |s.m.put[j]| <= s.l.sendCap
  }

  lemma OnlyCopyTakes(s: Sys, a: Action)
    requires Good(s) && Enabled(s, a) && a != Dump(Copy)
    ensures Do(s, a).m.out == s.m.out
  {
    hide Inv, Under, Beside, CanProduce, CanConsume, Produce, Consume, NextPayload, Link.Inv, Link.HasRoom;
    LinkInv(s);
    if ReaderCan(s, a) {
      ProduceKeepsOut(s.m, a.p);
    } else if DumpCan(s, a) && a.Dump? {
      ConsumerMovesOn(s.m, a.c);
    }
  }

  lemma CopyTakesFitting(s: Sys)
    requires Good(s) && Enabled(s, Dump(Copy))
    ensures |Do(s, Dump(Copy)).m.out| == |s.m.out| + 1 && |s.m.out| < |s.m.put|
    ensures 4 + |s.m.put[|s.m.out|]| <= s.l.sendCap
  {
    hide Inv, Under, Beside, Consume, CanConsume, NextPayload, Link.Inv;
    LinkInv(s);
    CopyTakes(s);
  }

  lemma StepKeepsCopiedFit(s: Sys, a: Action)
    requires Good(s) && Enabled(s, a) && CopiedFit(s)
    ensures CopiedFit(Do(s, a))
  {
    hide Good, Enabled, Do;
    DoKeepsGood(s, a);
    DoKeepsFrame(s, a);
    DeliverySizes(s);
    if a == Dump(Copy) {
      CopyTakesFitting(s);
    } else {
      OnlyCopyTakes(s, a);
    }
  }

  /**
   * A payload larger than the send buffer is never copied: the dump thread flushes and
   * looks again for ever, and neither it nor anything behind it is applied.
   */
  lemma {:induction false} OversizedIsNeverCopied(run: seq<Sys>, acts: seq<Action>, num: nat, num2: nat, i: nat, j: nat)
    requires IsRun(run, acts, num, num2) && i < |run|
    requires j < |run[i].m.put| && 4 + |run[i].m.put[j]| > run[0].l.sendCap
    ensures |run[i].m.out| <= j && |run[i].side.out| <= j
  {
    hide Good, Do, Enabled;
    RunIsGood(run, acts, num, num2, i);
    CopiedAlwaysFit(run, acts, num, num2, i);
    DeliverySizes(run[i]);
  }

  lemma {:induction false} CopiedAlwaysFit(run: seq<Sys>, acts: seq<Action>, num: nat, num2: nat, i: nat)
    requires IsRun(run, acts, num, num2) && i < |run|
    ensures CopiedFit(run[i])
  {
    hide Good, Do, Enabled;
    if i > 0 {
      CopiedAlwaysFit(run, acts, num, num2, i - 1);
      RunIsGood(run, acts, num, num2, i - 1);
      StepKeepsCopiedFit(run[i - 1], acts[i - 1]);
    }
  }
}
