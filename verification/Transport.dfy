/**
 * One connection end to end: the master's reader and dump threads, the byte
 * stream, the slave's receiving and consuming threads, in every interleaving.
 */
module Transport {
  import opened Bytes
  import opened ClassTable
  import opened Spsc
  import opened ChunkRing
  import opened Wire

  datatype Sys = Sys(
    m: Depot,          // the master's ring and the pool of its session
    l: Link,
    side: Depot,       // the slave's; `side.out` are the frames applied
    rx: seq<bytes>,    // frames received whole
    ended: bool)       // the consumer has given up

  datatype Action =
    // master reader
    | Reader(p: PStep)
    // master dump thread
    | Dump(c: CStep) | DWrite(n: nat) | DSent
    // slave receiver
    | Receiver(p: PStep) | NAsk | NRead(n: nat) | NTake | NAskBody
    // slave consumer; it may give up at any time
    | Consumer(c: CStep) | REnd

  ghost predicate Init(s: Sys, num: nat, num2: nat) {
    Start(s.m, num) && Start(s.side, num2) && s.rx == [] && !s.ended &&
    s.l == Link(s.l.sendCap, [], 0, false, [], s.l.recvCap, [], 0, Idle) && s.l.recvCap < U32_LIMIT
  }

  // ----- Invariant --------------------------------------------------------------------

  /** What lies between copied out of the master's ring and received by the slave. */
  ghost predicate Under(s: Sys) {
    |s.rx| <= |s.m.out| && s.rx == s.m.out[..|s.rx|] && Carries(s.l, s.m.out[|s.rx|..])
  }

  /** The receiver is as far with the stream as it is with its slot. */
  ghost predicate Stage(d: Depot, io: Io) {
    if d.ring.p != PClaimed then io == Idle
    else
      match d.fill
      case Untouched => io == Idle
      case Cleared => Alive(io) ==> io == Idle || (io.Want? && !io.body) || (io.Got? && !io.body)
      case Granted =>
        Alive(io) && d.ring.wp < |d.ring.slots| ==>
          (io.Got? && !io.body && Sized(d.ring.slots, d.heap, d.ring.wp, FromLE(io.data))) ||
          (io.Want? && io.body && Sized(d.ring.slots, d.heap, d.ring.wp, |io.got| + io.need)) ||
          (io.Got? && io.body && Sized(d.ring.slots, d.heap, d.ring.wp, |io.data|))
      case Filled => io == Idle
      case Dead => !Alive(io)
  }

  /** The slave's ring holds what was received. */
  ghost predicate Beside(d: Depot, rx: seq<bytes>, io: Io) {
    |rx| == d.ring.wn + (if Waiting(d) then 1 else 0) && d.put == rx[..d.ring.wn] && Stage(d, io) &&
    (Waiting(d) ==> d.ring.num > 0 && SlotOf(d.ring.wn, d.ring.num) < |d.ring.slots| &&
                    Holds(d, SlotOf(d.ring.wn, d.ring.num), rx[d.ring.wn]))
  }

  ghost predicate Good(s: Sys) {
    Inv(s.m) && Inv(s.side) && Under(s) && Beside(s.side, s.rx, s.l.io)
  }

  // ----- Steps --------------------------------------------------------------------------

  ghost predicate ReaderCan(s: Sys, a: Action) {
    a.Reader? && CanProduce(s.m, a.p)
  }

  /** The payload the dump thread's claim points to. */
  ghost function NextPayload(s: Sys): (p: bytes)
    requires Inv(s.m) && s.m.ring.c == CClaimed && !s.m.copied
    ensures |s.m.out| < |s.m.put| && |p| == |s.m.put[|s.m.out|]|
  {
    ClaimedIsLive(s.m);
    Payload(s.m, s.m.ring.rp)
  }

  ghost predicate DumpCan(s: Sys, a: Action)
    requires Inv(s.m)
  {
    match a
    case Dump(c) =>
      CanConsume(s.m, c) && (c == Leave || c == Release || !s.l.sending) &&
      (c == Copy ==> s.l.HasRoom(NextPayload(s))) && (c == Drop ==> !s.l.HasRoom(NextPayload(s)))
    case DWrite(n) => s.l.sending && 0 < n <= |s.l.sendBuf| - s.l.sent
    case DSent => s.l.sending && s.l.sent == |s.l.sendBuf|
    case _ => false
  }

  /** The chunk asked for is as long as the length just received says, or the pool has none. */
  ghost predicate ReceiverCan(s: Sys, a: Action) {
    match a
    case Receiver(p) =>
      CanProduce(s.side, p) &&
      (p.Alloc? ==> s.l.io.Got? && !s.l.io.body && p.n == FromLE(s.l.io.data)) &&
      (p == Fail ==> s.l.io.Got? && !s.l.io.body) &&
      (p.Store? ==> s.l.io.Got? && s.l.io.body && p.data == s.l.io.data)
    case NAsk => s.side.ring.p == PClaimed && s.side.fill == Cleared && s.l.io == Idle
    case NRead(n) => s.l.io.Want? && |s.l.recvBuf| < s.l.io.need && 0 < n <= |s.l.wire| && n <= s.l.recvCap
    case NTake => s.l.io.Want? && |s.l.recvBuf| >= s.l.io.need
    case NAskBody => s.side.ring.p == PClaimed && s.side.fill == Granted && s.l.io.Got? && !s.l.io.body
    case _ => false
  }

  ghost predicate ConsumerCan(s: Sys, a: Action) {
    !s.ended && (a == REnd || (a.Consumer? && a.c != Drop && CanConsume(s.side, a.c)))
  }

  /** Whether some thread stands where this step can be taken. */
  ghost predicate Enabled(s: Sys, a: Action)
    requires Good(s)
  {
    ReaderCan(s, a) || DumpCan(s, a) || ReceiverCan(s, a) || ConsumerCan(s, a)
  }

  ghost function DoReader(s: Sys, a: Action): (t: Sys)
    requires Inv(s.m) && ReaderCan(s, a)
  {
    s.(m := Produce(s.m, a.p))
  }

  ghost function DoDump(s: Sys, a: Action): (t: Sys)
    requires Inv(s.m) && s.l.Inv() && DumpCan(s, a)
  {
    match a
    case Dump(c) =>
      var m := Consume(s.m, c);
      // on an empty ring, and where the next payload does not fit, what is buffered goes out
      if (c == Find && s.m.ring.c.wn == s.m.ring.rn) || c == Drop then s.(m := m, l := s.l.StartSending())
      else if c == Copy then s.(m := m, l := s.l.Append(NextPayload(s)))
      else s.(m := m)
    case DWrite(n) => s.(l := s.l.Write(n))
    case DSent => s.(l := s.l.DoneSending())
  }

  ghost function DoReceiver(s: Sys, a: Action): (t: Sys)
    requires Inv(s.side) && s.l.Inv() && ReceiverCan(s, a)
  {
    match a
    case Receiver(p) =>
      var side := Produce(s.side, p);
      if p.Store? then s.(side := side, l := s.l.HandOn(), rx := s.rx + [p.data])
      else if p == Fail then s.(side := side, l := s.l.(io := Stopped))
      else s.(side := side)
    case NAsk => s.(l := s.l.Ask(false, 4))
    case NRead(n) => s.(l := s.l.Read(n))
    case NTake => s.(l := s.l.Take())
    case NAskBody => s.(l := s.l.AskBody())
  }

  ghost function DoConsumer(s: Sys, a: Action): (t: Sys)
    requires Inv(s.side) && ConsumerCan(s, a)
  {
    if a == REnd then s.(ended := true) else s.(side := Consume(s.side, a.c))
  }

  lemma LinkInv(s: Sys)
    requires Under(s)
    ensures s.l.Inv()
  {
  }

  /** The effect of a step. */
  ghost function Do(s: Sys, a: Action): (t: Sys)
    requires Good(s) && Enabled(s, a)
  {
    LinkInv(s);
    if ReaderCan(s, a) then DoReader(s, a)
    else if DumpCan(s, a) then DoDump(s, a)
    else if ReceiverCan(s, a) then DoReceiver(s, a)
    else DoConsumer(s, a)
  }

  // ----- Each thread keeps the invariant ---------------------------------------------------

  lemma ReaderKeeps(s: Sys, a: Action)
    requires Good(s) && ReaderCan(s, a)
    ensures Good(DoReader(s, a)) && s.m.put <= DoReader(s, a).m.put && DoReader(s, a).m.out == s.m.out
  {
    hide Inv, CanProduce, Produce, Under, Beside;
    ProduceKeepsInv(s.m, a.p);
    ProduceKeepsOut(s.m, a.p);
    UnderIgnoresPut(s, DoReader(s, a));
  }

  lemma UnderIgnoresPut(s: Sys, t: Sys)
    requires Under(s) && t.m.out == s.m.out && t.l == s.l && t.rx == s.rx
    ensures Under(t)
  {
  }

  lemma DumpKeeps(s: Sys, a: Action)
    requires Good(s) && DumpCan(s, a)
    ensures Good(DoDump(s, a)) && DoDump(s, a).m.put == s.m.put
  {
    hide Inv, Under, Beside, CanConsume, Consume, NextPayload, Link.Inv, Link.HasRoom;
    LinkInv(s);
    if a.Dump? {
      ConsumeKeepsInv(s.m, a.c);
      ConsumerMovesOn(s.m, a.c);
    }
    if a == Dump(Copy) {
      CopyKeepsUnder(s);
    } else {
      SendKeepsUnder(s, a);
    }
  }

  lemma CopyKeepsUnder(s: Sys)
    requires Good(s) && DumpCan(s, Dump(Copy))
    ensures Under(DoDump(s, Dump(Copy)))
  {
    LinkInv(s);
    CopyTakes(s);
    hide Inv, Beside, Carries, Consume, CanConsume, NextPayload, Link.HasRoom, Link.Inv;
    AppendCarries(s.l, s.m.out[|s.rx|..], NextPayload(s));
    DropAppend(s.m.out, NextPayload(s), |s.rx|);
  }

  lemma DropAppend(ps: seq<bytes>, p: bytes, n: nat)
    requires n <= |ps|
    ensures (ps + [p])[n..] == ps[n..] + [p] && (ps + [p])[..n] == ps[..n]
  {
  }

  lemma CopyTakes(s: Sys)
    requires Inv(s.m) && CanConsume(s.m, Copy)
    ensures s.m.ring.c == CClaimed && !s.m.copied
    ensures Consume(s.m, Copy).out == s.m.out + [NextPayload(s)]
  {
    hide Inv;
  }

  lemma SendKeepsUnder(s: Sys, a: Action)
    requires Good(s) && a != Dump(Copy) && DumpCan(s, a) && s.l.Inv()
    ensures Under(DoDump(s, a))
  {
    hide Inv, Beside, Carries, CanConsume, Consume, NextPayload, Link.HasRoom, Link.Inv;
    SendEndsCarry(s.l, s.m.out[|s.rx|..]);
    if a.DWrite? {
      WriteCarries(s.l, s.m.out[|s.rx|..], a.n);
    } else if a.Dump? {
      ConsumerMovesOn(s.m, a.c);
    }
  }

  predicate OnStream(a: Action) {
    a == NAsk || a.NRead? || a == NTake || a == NAskBody
  }

  /** What the dump thread copied has lengths that can be asked for. */
  lemma OutFits(m: Depot, i: nat)
    requires Inv(m) && i <= |m.out|
    ensures forall p <- m.out[i..] :: GoodLength(|p|)
  {
    hide Owns, Spaced, Sized, SlotOf;
    forall p | p in m.out[i..] ensures GoodLength(|p|) {
      var j :| i <= j < |m.out| && m.out[j] == p;
      assert m.put[j] in m.put;
    }
  }

  /** One such step of a receiver that is with its slot where `d` says. */
  predicate StreamTurn(d: Depot, l: Link, a: Action, r: Link) {
    l.recvPos <= |l.recvBuf| &&
    match a
    case NAsk => d.ring.p == PClaimed && d.fill == Cleared && l.io == Idle && r == l.Ask(false, 4)
    case NTake => l.io.Want? && |l.recvBuf| >= l.io.need && r == l.Take()
    case NAskBody => d.ring.p == PClaimed && d.fill == Granted && l.io.Got? && !l.io.body && r == l.AskBody()
    case NRead(n) =>
      l.io.Want? && |l.recvBuf| < l.io.need && 0 < n <= |l.wire| && n <= l.recvCap && r == l.Read(n)
    case _ => false
  }

  /** The receiver's steps on the stream alone. */
  lemma StreamKeeps(s: Sys, a: Action)
    requires Good(s) && ReceiverCan(s, a) && OnStream(a) && s.l.Inv()
    ensures Good(DoReceiver(s, a))
  {
    hide Inv, Under, Beside, ReceiverCan, Link.Inv;
    StreamKeepsUnder(s, a);
    StreamKeepsSide(s, a);
    StreamKeepsRings(s, a);
  }

  lemma StreamKeepsRings(s: Sys, a: Action)
    requires Inv(s.side) && s.l.Inv() && ReceiverCan(s, a) && OnStream(a)
    ensures DoReceiver(s, a).m == s.m && DoReceiver(s, a).side == s.side && DoReceiver(s, a).rx == s.rx
  {
    hide Inv, Link.Inv;
  }

  lemma StreamKeepsUnder(s: Sys, a: Action)
    requires Good(s) && ReceiverCan(s, a) && OnStream(a) && s.l.Inv()
    ensures Under(DoReceiver(s, a))
  {
    hide Inv, Beside, Carries, Link.Inv;
    OutFits(s.m, |s.rx|);
    var ps := s.m.out[|s.rx|..];
    match a {
      case NAsk =>
        IdleCarries(s.l, ps);
        AskCarries(s.l, ps, false, 4);
      case NRead(n) => ReadCarries(s.l, ps, n);
      case NTake => TakeCarries(s.l, ps);
      case NAskBody => AskBodyCarries(s.l, ps);
    }
  }

  lemma IdleCarries(l: Link, ps: seq<bytes>)
    requires Carries(l, ps) && l.io == Idle
    ensures l.Inv() && Enc(ps) == [] + (l.Unread() + l.Tail())
  {
  }

  lemma StreamKeepsSide(s: Sys, a: Action)
    requires Inv(s.side) && s.l.Inv() && Beside(s.side, s.rx, s.l.io) && ReceiverCan(s, a) && OnStream(a)
    ensures Beside(s.side, s.rx, DoReceiver(s, a).l.io)
  {
    hide Inv, CanProduce, Holds, Sized, SlotOf;
  }

  lemma InRange(d: Depot)
    requires Inv(d)
    ensures d.ring.num > 0 && d.ring.wp < |d.ring.slots| == d.ring.num
    ensures d.ring.rn <= d.ring.wn <= d.ring.rn + d.ring.num
    ensures d.ring.p == PClaimed ==> d.ring.wp == SlotOf(d.ring.wn, d.ring.num)
  {
    hide Owns, Spaced, Sized;
  }

  // ----- The receiver and its ring

  lemma TurnKeepsBeside(d: Depot, rx: seq<bytes>, io: Io, p: PStep)
    requires Inv(d) && Beside(d, rx, io) && CanProduce(d, p) && (p == Check || p == Decide || p == Free || p == Move)
    ensures Beside(Produce(d, p), rx, io)
  {
    hide Inv, Sized, SlotOf;
    InRange(d);
  }

  lemma GrantKeepsBeside(d: Depot, rx: seq<bytes>, io: Io, c: nat, n: nat)
    requires Inv(d) && Beside(d, rx, io) && CanProduce(d, Alloc(c, n)) && io.Got? && !io.body && n == FromLE(io.data)
    ensures Beside(Produce(d, Alloc(c, n)), rx, io)
  {
    hide Inv, SlotOf, Apart, FromLE;
    InRange(d);
  }

  lemma FailKeepsBeside(d: Depot, rx: seq<bytes>, io: Io)
    requires Inv(d) && Beside(d, rx, io) && CanProduce(d, Fail)
    ensures Beside(Produce(d, Fail), rx, Stopped)
  {
    hide Inv, SlotOf;
  }

  lemma StoreKeepsBeside(d: Depot, rx: seq<bytes>, io: Io, data: bytes)
    requires Inv(d) && Beside(d, rx, io) && CanProduce(d, Store(data))
    ensures Beside(Produce(d, Store(data)), rx + [data], Idle)
  {
    hide Inv, SlotOf, Sized, Holds, Written;
    InRange(d);
    StoreHolds(d, data);
    StoreShape(d, data);
  }

  lemma StoreShape(d: Depot, data: bytes)
    requires Inv(d) && CanProduce(d, Store(data))
    ensures var r := Produce(d, Store(data));
            r.ring == d.ring && r.fill == Filled && r.put == d.put && d.ring.p == PClaimed && !Waiting(d) && Waiting(r)
  {
    hide Inv, SlotOf, Sized;
  }

  lemma StoreHolds(d: Depot, data: bytes)
    requires Inv(d) && CanProduce(d, Store(data))
    ensures d.ring.wp < |Produce(d, Store(data)).ring.slots| && Holds(Produce(d, Store(data)), d.ring.wp, data)
  {
    hide Inv, CanProduce, Overlay, Written;
    StoreFacts(d, data);
    var c := d.ring.slots[d.ring.wp].value;
    WrittenAt(d.heap, c, data, c);
    OverlaySame(c, d.heap[c], data);
  }

  lemma CommitKeepsBeside(d: Depot, rx: seq<bytes>, io: Io)
    requires Inv(d) && Beside(d, rx, io) && CanProduce(d, Commit)
    ensures Beside(Produce(d, Commit), rx, io)
  {
    hide Inv, SlotOf, Sized;
    assert rx[..d.ring.wn + 1] == rx[..d.ring.wn] + [rx[d.ring.wn]];
  }

  lemma ReceiverRingKeepsUnder(s: Sys, p: PStep)
    requires Good(s) && ReceiverCan(s, Receiver(p)) && s.l.Inv()
    ensures Under(DoReceiver(s, Receiver(p)))
  {
    hide Inv, Beside, CanProduce, Produce, Link.Inv, Carries;
    var t := DoReceiver(s, Receiver(p));
    if p.Store? {
      assert p == Store(p.data);
      StoreKeepsUnder(s, p.data);
    } else if p == Fail {
      StoppedCarries(s.l, s.m.out[|s.rx|..]);
      assert t.l == s.l.(io := Stopped) && t.rx == s.rx && t.m == s.m;
    } else {
      UnderIgnoresPut(s, t);
    }
  }

  lemma StoppedCarries(l: Link, ps: seq<bytes>)
    requires l.Inv() && l.io.Got?
    ensures Carries(l.(io := Stopped), ps)
  {
  }

  /** A received frame is the next one copied out on the master. */
  lemma StoreKeepsUnder(s: Sys, data: bytes)
    requires Good(s) && ReceiverCan(s, Receiver(Store(data))) && s.l.Inv()
    ensures Under(DoReceiver(s, Receiver(Store(data))))
  {
    hide Inv, Beside, Carries, CanProduce, Produce, Link.Inv;
    OutFits(s.m, |s.rx|);
    var ps := s.m.out[|s.rx|..];
    BodyIsNext(s.l, ps);
    SplitAt(s.m.out, |s.rx|);
  }

  lemma SplitAt(ps: seq<bytes>, n: nat)
    requires n < |ps|
    ensures ps[..n + 1] == ps[..n] + [ps[n..][0]] && ps[n..][1..] == ps[n + 1..]
  {
  }

  lemma ReceiverRingKeeps(s: Sys, p: PStep)
    requires Good(s) && ReceiverCan(s, Receiver(p)) && s.l.Inv()
    ensures Good(DoReceiver(s, Receiver(p)))
  {
    hide Inv, Beside, Under, CanProduce, Produce, Link.Inv;
    ReceiverRingKeepsUnder(s, p);
    ProduceKeepsInv(s.side, p);
    match p {
      case Alloc(c, n) => GrantKeepsBeside(s.side, s.rx, s.l.io, c, n);
      case Fail => FailKeepsBeside(s.side, s.rx, s.l.io);
      case Store(data) => StoreKeepsBeside(s.side, s.rx, s.l.io, data);
      case Commit => CommitKeepsBeside(s.side, s.rx, s.l.io);
      case _ => TurnKeepsBeside(s.side, s.rx, s.l.io, p);
    }
  }

  lemma ReceiverKeeps(s: Sys, a: Action)
    requires Good(s) && ReceiverCan(s, a) && s.l.Inv()
    ensures Good(DoReceiver(s, a)) && DoReceiver(s, a).m == s.m
  {
    hide Good, Inv, CanProduce, Produce, Link.Inv;
    if a.Receiver? {
      assert a == Receiver(a.p);
      ReceiverRingKeeps(s, a.p);
    } else {
      StreamKeeps(s, a);
    }
  }

  lemma ConsumerKeeps(s: Sys, a: Action)
    requires Good(s) && ConsumerCan(s, a)
    ensures Good(DoConsumer(s, a)) && DoConsumer(s, a).m == s.m
  {
    hide Inv, Under, Beside, CanConsume, Consume;
    if a != REnd {
      ConsumeKeepsInv(s.side, a.c);
      ConsumeKeepsBeside(s.side, s.rx, s.l.io, a.c);
    }
    UnderIgnoresPut(s, DoConsumer(s, a));
  }

  lemma ConsumeKeepsBeside(d: Depot, rx: seq<bytes>, io: Io, c: CStep)
    requires Inv(d) && CanConsume(d, c) && Beside(d, rx, io)
    ensures Beside(Consume(d, c), rx, io)
  {
    hide Inv, Sized, SlotOf;
  }

  /** Every step of every thread keeps the invariant, whatever is written where. */
  lemma DoKeepsGood(s: Sys, a: Action)
    requires Good(s) && Enabled(s, a)
    ensures Good(Do(s, a)) && s.m.put <= Do(s, a).m.put
  {
    LinkInv(s);
    hide Good, Inv, ReaderCan, DumpCan, ReceiverCan, ConsumerCan, DoReader, DoDump, DoReceiver, DoConsumer, Link.Inv;
    if ReaderCan(s, a) {
      ReaderKeeps(s, a);
    } else if DumpCan(s, a) {
      DumpKeeps(s, a);
    } else if ReceiverCan(s, a) {
      ReceiverKeeps(s, a);
    } else {
      ConsumerKeeps(s, a);
    }
  }

  lemma InitGood(s: Sys, num: nat, num2: nat)
    requires Init(s, num, num2)
    ensures Good(s)
  {
    hide Inv, Sized, SlotOf;
    StartInv(s.m, num);
    StartInv(s.side, num2);
    assert s.m.out[0..] == [] && s.l.InFlight() == [];
  }

  // ----- Whole runs ---------------------------------------------------------------------------

  /** `run` is a run: it begins in an initial state and each state follows from the one before. */
  ghost predicate IsRun(run: seq<Sys>, acts: seq<Action>, num: nat, num2: nat) {
    |run| == |acts| + 1 && Init(run[0], num, num2) &&
    forall i: nat | i < |acts| :: Good(run[i]) ==> Enabled(run[i], acts[i]) && run[i + 1] == Do(run[i], acts[i])
  }

  /** What no step changes. */
  ghost predicate SameFrame(s: Sys, t: Sys) {
    t.m.ring.num == s.m.ring.num && t.m.sizes == s.m.sizes &&
    t.side.ring.num == s.side.ring.num && t.side.sizes == s.side.sizes &&
    t.l.sendCap == s.l.sendCap && t.l.recvCap == s.l.recvCap
  }

  lemma DoKeepsFrame(s: Sys, a: Action)
    requires Good(s) && Enabled(s, a)
    ensures SameFrame(s, Do(s, a))
  {
    hide Inv, Under, Beside, CanProduce, CanConsume, Produce, Consume, NextPayload, Link.Inv, Link.HasRoom;
    LinkInv(s);
    if ReaderCan(s, a) {
      ProduceKeepsOut(s.m, a.p);
    } else if DumpCan(s, a) {
      if a.Dump? {
        ConsumerMovesOn(s.m, a.c);
      }
    } else if ReceiverCan(s, a) {
      if a.Receiver? {
        ProduceKeepsOut(s.side, a.p);
      }
    } else if a != REnd {
      ConsumerMovesOn(s.side, a.c);
    }
  }

  /** Every state of every run is consistent, whether or not chunks have room for what is written to them. */
  lemma {:induction false} RunIsGood(run: seq<Sys>, acts: seq<Action>, num: nat, num2: nat, i: nat)
    requires IsRun(run, acts, num, num2) && i < |run|
    ensures Good(run[i])
    ensures run[i].m.ring.num == num && run[i].side.ring.num == num2 && SameFrame(run[0], run[i])
  {
    hide Good, Enabled, Do, Init;
    InitGood(run[0], num, num2);
    InitNums(run[0], num, num2);
    if i > 0 {
      RunIsGood(run, acts, num, num2, i - 1);
      DoKeepsGood(run[i - 1], acts[i - 1]);
      DoKeepsFrame(run[i - 1], acts[i - 1]);
    }
  }

  lemma InitNums(s: Sys, num: nat, num2: nat)
    requires Init(s, num, num2)
    ensures s.m.ring.num == num && s.side.ring.num == num2
    ensures |s.m.sizes| > 0 && |s.side.sizes| > 0 && Increasing(s.m.sizes) && Increasing(s.side.sizes)
  {
  }

  // ----- While chunks have room -----------------------------------------------------------------

  /** Lengths for which both pools hand out a chunk with room. */
  ghost function Fitting(sizes: seq<nat>, sizes2: seq<nat>): (ns: iset<nat>)
    requires |sizes| > 0 && |sizes2| > 0
  {
    iset n: nat | Room(sizes, n) >= n && Room(sizes2, n) >= n
  }

  lemma FittingIff(sizes: seq<nat>, sizes2: seq<nat>, n: nat)
    requires |sizes| > 0 && |sizes2| > 0 && Increasing(sizes) && Increasing(sizes2)
    ensures n in Fitting(sizes, sizes2) <==> Roomy(sizes, n) && Roomy(sizes2, n)
  {
    hide Room, Roomy;
    RoomIff(sizes, n);
    RoomIff(sizes2, n);
  }

  /** Nothing handed over on either side has been changed. */
  ghost predicate AllExact(s: Sys) {
    Inv(s.m) && Inv(s.side) && Exact(s.m) && Exact(s.side) && LengthsIn(s.m, Fitting(s.m.sizes, s.side.sizes))
  }

  /** A chunk the reader asks for has room, and so will the slave's for the same frame. */
  ghost predicate Allotted(s: Sys, a: Action)
    requires |s.m.sizes| > 0 && |s.side.sizes| > 0
  {
    a.Reader? && a.p.Alloc? ==> a.p.n in Fitting(s.m.sizes, s.side.sizes)
  }

  lemma SizesOf(s: Sys)
    requires Good(s)
    ensures |s.m.sizes| > 0 && |s.side.sizes| > 0
  {
    hide Owns, Spaced, Sized, SlotOf, Under, Beside;
  }

  lemma ReaderKeepsExact(s: Sys, a: Action)
    requires Good(s) && AllExact(s) && ReaderCan(s, a) && |s.m.sizes| > 0 && |s.side.sizes| > 0 && Allotted(s, a)
    ensures AllExact(DoReader(s, a))
  {
    hide Inv, Exact, Under, Beside, CanProduce, Produce, Room, LengthsIn;
    ProduceKeepsExact(s.m, a.p);
    ProduceKeepsLengths(s.m, a.p, Fitting(s.m.sizes, s.side.sizes));
    ProduceKeepsOut(s.m, a.p);
  }

  lemma DumpKeepsExact(s: Sys, a: Action)
    requires Good(s) && AllExact(s) && DumpCan(s, a) && s.l.Inv()
    ensures AllExact(DoDump(s, a))
  {
    hide Inv, Exact, Under, Beside, CanConsume, Consume, NextPayload, Fitting, Link.Inv, Link.HasRoom;
    if a.Dump? {
      ConsumeKeepsExact(s.m, a.c);
      ConsumerMovesOn(s.m, a.c);
    }
  }

  /** The length a chunk is asked for on the slave is that of a payload handed over on the master. */
  lemma GrantedLength(s: Sys, c: nat, n: nat)
    requires Good(s) && ReceiverCan(s, Receiver(Alloc(c, n)))
    ensures |s.rx| < |s.m.out| <= |s.m.put| && n == |s.m.put[|s.rx|]|
  {
    hide Inv, Beside, Carries, CanProduce, Link.Inv, FromLE, U32;
    OutFits(s.m, |s.rx|);
    OutLengths(s.m);
    LengthIsNext(s.l, s.m.out[|s.rx|..]);
  }

  lemma OutLengths(m: Depot)
    requires Inv(m)
    ensures |m.out| <= |m.put| && forall j :: 0 <= j < |m.out| ==> |m.out[j]| == |m.put[j]|
  {
    hide Owns, Spaced, Sized, SlotOf;
  }

  lemma ReceiverKeepsExact(s: Sys, a: Action)
    requires Good(s) && AllExact(s) && ReceiverCan(s, a) && s.l.Inv()
    ensures AllExact(DoReceiver(s, a))
  {
    hide Inv, Exact, Under, Beside, CanProduce, Produce, Room, Link.Inv;
    if a.Receiver? {
      if a.p.Alloc? {
        assert a == Receiver(Alloc(a.p.c, a.p.n));
        GrantedLength(s, a.p.c, a.p.n);
        assert s.m.put[|s.rx|] in s.m.put;
      }
      ProduceKeepsExact(s.side, a.p);
      ProduceKeepsOut(s.side, a.p);
    }
  }

  lemma ConsumerKeepsExact(s: Sys, a: Action)
    requires Good(s) && AllExact(s) && ConsumerCan(s, a)
    ensures AllExact(DoConsumer(s, a))
  {
    hide Inv, Exact, Under, Beside, CanConsume, Consume, Fitting;
    if a != REnd {
      ConsumeKeepsExact(s.side, a.c);
      ConsumerMovesOn(s.side, a.c);
    }
  }

  /** No step changes what was handed over, as long as the frames the reader makes have room on both sides. */
  lemma DoKeepsExact(s: Sys, a: Action)
    requires Good(s) && AllExact(s) && Enabled(s, a) && |s.m.sizes| > 0 && |s.side.sizes| > 0 && Allotted(s, a)
    ensures AllExact(Do(s, a))
  {
    LinkInv(s);
    hide Good, AllExact, ReaderCan, DumpCan, ReceiverCan, ConsumerCan, DoReader, DoDump, DoReceiver, DoConsumer;
    if ReaderCan(s, a) {
      ReaderKeepsExact(s, a);
    } else if DumpCan(s, a) {
      DumpKeepsExact(s, a);
    } else if ReceiverCan(s, a) {
      ReceiverKeepsExact(s, a);
    } else {
      ConsumerKeepsExact(s, a);
    }
  }

  /** Every frame written along the run is, in both tables, no class size or one the class search hits rightly. */
  ghost predicate RoomyFrames(s0: Sys, acts: seq<Action>) {
    forall a <- acts :: a.Reader? && a.p.Alloc? ==> Roomy(s0.m.sizes, a.p.n) && Roomy(s0.side.sizes, a.p.n)
  }

  lemma {:induction false} RunIsExact(run: seq<Sys>, acts: seq<Action>, num: nat, num2: nat, i: nat)
    requires IsRun(run, acts, num, num2) && i < |run| && RoomyFrames(run[0], acts)
    ensures Good(run[i]) && AllExact(run[i])
  {
    hide Good, AllExact, Enabled, Do, Init, Fitting, Roomy;
    InitNums(run[0], num, num2);
    RunIsGood(run, acts, num, num2, i);
    if i == 0 {
      InitExact(run[0], num, num2);
    } else {
      RunIsExact(run, acts, num, num2, i - 1);
      RunIsGood(run, acts, num, num2, i - 1);
      var a := acts[i - 1];
      assert a in acts;
      if a.Reader? && a.p.Alloc? {
        FittingIff(run[0].m.sizes, run[0].side.sizes, a.p.n);
      }
      DoKeepsExact(run[i - 1], a);
    }
  }

  lemma InitExact(s: Sys, num: nat, num2: nat)
    requires Init(s, num, num2)
    ensures AllExact(s)
  {
    StartInv(s.m, num);
    StartInv(s.side, num2);
  }

  lemma DeliverySizes(s: Sys)
    requires Good(s)
    ensures |s.side.out| <= |s.side.put| && s.side.put <= s.rx <= s.m.out && |s.m.out| <= |s.m.put|
    ensures forall j :: 0 <= j < |s.side.out| ==> |s.side.out[j]| == |s.m.put[j]|
  {
    hide Inv, Carries, Stage, Holds, SlotOf;
    OutLengths(s.m);
    OutLengths(s.side);
  }

  /**
   * Delivery, in every run and at every moment: what the slave has applied are as many
   * frames, of the same lengths and in the same order, as the first the master handed over;
   * and where every frame has room in the chunks of both pools, they are these
   * frames: none lost, repeated, reordered or changed.
   */
  lemma Delivery(run: seq<Sys>, acts: seq<Action>, num: nat, num2: nat, i: nat)
    requires IsRun(run, acts, num, num2) && i < |run|
    ensures |run[i].side.out| <= |run[i].rx| <= |run[i].m.out| <= |run[i].m.put|
    ensures forall j :: 0 <= j < |run[i].side.out| ==> |run[i].side.out[j]| == |run[i].m.put[j]|
    ensures RoomyFrames(run[0], acts) ==> run[i].side.out <= run[i].rx <= run[i].m.put
    ensures |run[i].m.heap| <= num && |run[i].side.heap| <= num2
  {
    hide Good, Enabled, Do, Init, Roomy, Inv, Exact;
    RunIsGood(run, acts, num, num2, i);
    DeliverySizes(run[i]);
    HeapsFit(run[i]);
    if RoomyFrames(run[0], acts) {
      RunIsExact(run, acts, num, num2, i);
      ExactOuts(run[i]);
    }
  }

  lemma ExactOuts(s: Sys)
    requires Good(s) && AllExact(s)
    ensures s.m.out <= s.m.put && s.side.out <= s.side.put <= s.rx <= s.m.put
  {
    hide Inv, Carries, Stage, Holds, SlotOf, LengthsIn, Fitting, Roomed;
  }

  lemma HeapsFit(s: Sys)
    requires Good(s)
    ensures |s.m.heap| <= s.m.ring.num && |s.side.heap| <= s.side.ring.num
  {
    hide Inv, Under, Beside;
    LiveChunksFitRing(s.m);
    LiveChunksFitRing(s.side);
  }

  /** And what else lives in the two pools is as it was, where it has room itself. */
  lemma {:induction false} HeldIsKept(run: seq<Sys>, acts: seq<Action>, num: nat, num2: nat, i: nat)
    requires IsRun(run, acts, num, num2) && i < |run| && RoomyFrames(run[0], acts)
    ensures |run[0].m.sizes| > 0 && Roomed(run[0].m.sizes, run[0].m.held) ==> run[i].m.held == run[0].m.held
    ensures |run[0].side.sizes| > 0 && Roomed(run[0].side.sizes, run[0].side.held) ==>
              run[i].side.held == run[0].side.held
  {
    hide Good, AllExact, Enabled, Do, Init, Roomy, Roomed;
    if i > 0 {
      HeldIsKept(run, acts, num, num2, i - 1);
      RunIsExact(run, acts, num, num2, i - 1);
      RunIsGood(run, acts, num, num2, i - 1);
      DoKeepsHeld(run[i - 1], acts[i - 1]);
    }
  }

  lemma DoKeepsHeld(s: Sys, a: Action)
    requires Good(s) && AllExact(s) && Enabled(s, a)
    ensures |s.m.sizes| > 0 && Roomed(s.m.sizes, s.m.held) ==> Do(s, a).m.held == s.m.held
    ensures |s.side.sizes| > 0 && Roomed(s.side.sizes, s.side.held) ==> Do(s, a).side.held == s.side.held
  {
    hide Inv, Exact, Under, Beside, CanProduce, CanConsume, Produce, Consume, NextPayload, Link.Inv, Link.HasRoom;
    hide Roomed, LengthsIn, Fitting;
    LinkInv(s);
    if ReaderCan(s, a) {
      if |s.m.sizes| > 0 && Roomed(s.m.sizes, s.m.held) {
        ProduceKeepsHeld(s.m, a.p);
      }
    } else if DumpCan(s, a) {
      if a.Dump? {
        ConsumerMovesOn(s.m, a.c);
      }
    } else if ReceiverCan(s, a) {
      if a.Receiver? && |s.side.sizes| > 0 && Roomed(s.side.sizes, s.side.held) {
        ProduceKeepsHeld(s.side, a.p);
      }
    } else if a != REnd {
      ConsumerMovesOn(s.side, a.c);
    }
  }
}
