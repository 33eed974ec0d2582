/**
 * What becomes of the connection where a chunk has no room for what is written to it:
 * runs in which one frame lands on another that has not been applied yet, or on the command.
 */
module Overruns {
  import opened Bytes
  import opened ClassTable
  import opened Spsc
  import opened ChunkRing
  import opened Wire
  import opened Transport
  import opened Scripts

  // ----- Two frames in a row ----------------------------------------------------------------------

  /** `x`, of which only the first `r` bytes are its own, with `y` written behind those. */
  function Spoilt(x: bytes, r: nat, y: bytes): (z: bytes)
    requires r <= |x|
    ensures |z| == |x|
  {
    x[..r] + if |y| >= |x| - r then y[..|x| - r] else y + x[r + |y|..]
  }

  lemma OverlayTail(a: nat, x: bytes, r: nat, y: bytes)
    requires r <= |x|
    ensures Overlay(a, x, a + r, y) == Spoilt(x, r, y)
  {
  }

  /** A spoilt frame is another one, unless it happens to agree with what is written over it. */
  lemma SpoiltIff(x: bytes, r: nat, y: bytes)
    requires r <= |x| <= r + |y|
    ensures Spoilt(x, r, y) != x <==> y[..|x| - r] != x[r..]
  {
    assert x == x[..r] + x[r..];
  }

  /** The pool's other chunks lie below `a`. */
  ghost predicate Below(sizes: seq<nat>, held: map<nat, bytes>, a: nat)
    requires |sizes| > 0
  {
    forall d <- held :: d < a && d + Room(sizes, |held[d]|) <= a
  }

  lemma BelowApart(sizes: seq<nat>, held: map<nat, bytes>, a: nat, n: nat)
    requires |sizes| > 0 && Below(sizes, held, a)
    ensures Apart(sizes, held, a, n)
  {
    hide Room;
  }

  lemma BelowWritten(sizes: seq<nat>, held: map<nat, bytes>, a: nat, b: nat, c: nat, data: bytes)
    requires |sizes| > 0 && Below(sizes, held, a) && a <= b
    ensures Below(sizes, Written(held, c, data), b)
  {
    hide Room, Overlay;
  }

  /** In a table of positive sizes a chunk has some room. */
  lemma SomeRoom(sizes: seq<nat>, n: nat)
    requires |sizes| > 0 && Increasing(sizes) && sizes[0] > 0 && n > 0
    ensures Room(sizes, n) > 0
  {
    hide HitLow;
    if IdOf(sizes, n).Class? {
      assert sizes[IdOf(sizes, n).i] >= sizes[0];
    }
  }

  /** A depot at its start whose pool has only chunks below `a` in use. */
  ghost predicate Fresh(m: Depot, num: nat, a: nat) {
    Start(m, num) && num >= 2 && m.sizes[0] > 0 && Below(m.sizes, m.held, a)
  }

  /** The depot as the first round leaves it. */
  ghost predicate AfterOne(m: Depot, m1: Depot, num: nat, a: nat, x: bytes)
    requires num > 1
  {
    Ready(m1) && m1.heap == map[a := x] && m1.ring.rn == 0 && m1.ring.wn == 1 && m1.ring.rp == 0 &&
    m1.ring.c == CIdle && m1.ring.wp == 1 && m1.put == [x] && m1.out == [] && !m1.copied &&
    |m1.ring.slots| == m1.ring.num == num && m1.ring.slots[0] == Some(a) && m1.ring.slots[1] == None &&
    m1.sizes == m.sizes && m1.held == Written(m.held, a, x)
  }

  lemma FirstOffer(m: Depot, num: nat, a: nat, x: bytes)
    requires Fresh(m, num, a) && GoodLength(|x|)
    ensures num > 1 && Ready(m) && |m.sizes| > 0
    ensures Apart(m.sizes, m.heap, a, |x|) && Apart(m.sizes, m.held, a, |x|)
    ensures AfterOne(m, Offered(m, a, x), num, a, x)
  {
    hide *;
    FreshFacts(m, num, a);
    BelowApart(m.sizes, m.held, a, |x|);
    EmptyApart(m.sizes, a, |x|);
    OfferSteps(m, a, x);
    OneOffered(m, num, a, x);
  }

  lemma FreshFacts(m: Depot, num: nat, a: nat)
    requires Fresh(m, num, a)
    ensures num > 1 && |m.sizes| > 0 && Below(m.sizes, m.held, a) && m.sizes[0] > 0 && Increasing(m.sizes)
    ensures Ready(m) && m.heap == map[] && m.ring.wp < |m.ring.slots|
  {
    StartFacts(m, num);
    hide Inv, Below;
  }

  lemma EmptyApart(sizes: seq<nat>, a: nat, n: nat)
    requires |sizes| > 0
    ensures Apart(sizes, map[], a, n)
  {
  }

  lemma OneOffered(m: Depot, num: nat, a: nat, x: bytes)
    requires Fresh(m, num, a) && m.ring.wp < |m.ring.slots| && Inv(Offered(m, a, x)) && num > 1
    ensures AfterOne(m, Offered(m, a, x), num, a, x)
  {
    hide Inv, Below, Overlay;
    StartFacts(m, num);
    OneWritten(a, x);
  }

  lemma OneWritten(a: nat, x: bytes)
    ensures Written(map[a := Blank(|x|)], a, x) == map[a := x]
  {
    OverlaySame(a, Blank(|x|), x);
  }

  lemma StartFacts(m: Depot, num: nat)
    requires Start(m, num)
    ensures Inv(m) && m.ring.p == PIdle && m.ring.c == CIdle && m.ring.rn == m.ring.wn == 0 < m.ring.num == num
    ensures |m.ring.slots| == num && m.ring.wp == m.ring.rp == 0 && m.heap == map[] && m.put == m.out == [] && !m.copied
    ensures forall i :: 0 <= i < num ==> m.ring.slots[i] == None
    ensures |m.sizes| > 0 && Increasing(m.sizes)
  {
    StartInv(m, num);
  }

  /** The chunk directly behind that of the first frame is free for the second. */
  lemma NextIsApart(m: Depot, m1: Depot, num: nat, a: nat, x: bytes, n: nat)
    requires num > 1 && AfterOne(m, m1, num, a, x) && |m.sizes| > 0 && Below(m.sizes, m.held, a)
    requires Room(m.sizes, |x|) > 0
    ensures Apart(m1.sizes, m1.heap, a + Room(m.sizes, |x|), n)
    ensures Apart(m1.sizes, m1.held, a + Room(m.sizes, |x|), n)
  {
    hide Inv, Room, Written, Ready, Below;
    var b := a + Room(m.sizes, |x|);
    BelowWritten(m.sizes, m.held, a, b, a, x);
    BelowApart(m.sizes, Written(m.held, a, x), b, n);
  }

  /** What filling the second chunk leaves of the first frame. */
  lemma SecondSpoils(m: Depot, num: nat, a: nat, x: bytes, y: bytes)
    requires Fresh(m, num, a) && GoodLength(|x|) && GoodLength(|y|) && |m.sizes| > 0 && Room(m.sizes, |x|) <= |x|
    requires m.ring.wp < |m.ring.slots|
    ensures num > 1 && AfterOne(m, Offered(m, a, x), num, a, x)
    ensures var b, m1 := a + Room(m.sizes, |x|), Offered(m, a, x);
            Apart(m1.sizes, m1.heap, b, |y|) && Apart(m1.sizes, m1.held, b, |y|) && m1.ring.wp < |m1.ring.slots| &&
            SpoiltIn(Stocked(m1, b, y), x, Room(m.sizes, |x|), y)
  {
    hide *;
    FreshFacts(m, num, a);
    FirstOffer(m, num, a, x);
    Positive(|x|);
    SomeRoom(m.sizes, |x|);
    var r, m1 := Room(m.sizes, |x|), Offered(m, a, x);
    AfterOneFacts(m, m1, num, a, x);
    NextIsApart(m, m1, num, a, x, |y|);
    StockStep(m1, a + r, y);
    TwoStocked(m, m1, num, a, x, r, y);
  }

  /** The first frame, spoilt by the second, is what the consumer finds next. */
  ghost predicate SpoiltIn(m2: Depot, x: bytes, r: nat, y: bytes)
    requires r <= |x|
  {
    Offers(m2, Spoilt(x, r, y)) && m2.put == [x] && m2.out == []
  }

  lemma Positive(n: nat)
    requires GoodLength(n)
    ensures n > 0
  {
  }

  lemma AfterOneFacts(m: Depot, m1: Depot, num: nat, a: nat, x: bytes)
    requires num > 1 && AfterOne(m, m1, num, a, x)
    ensures Ready(m1) && m1.sizes == m.sizes && m1.ring.wp < |m1.ring.slots|
  {
    hide Ready;
  }

  lemma TwoStocked(m: Depot, m1: Depot, num: nat, a: nat, x: bytes, r: nat, y: bytes)
    requires num > 1 && AfterOne(m, m1, num, a, x) && 0 < r <= |x| && m1.ring.wp < |m1.ring.slots|
    requires Inv(Stocked(m1, a + r, y))
    ensures SpoiltIn(Stocked(m1, a + r, y), x, r, y)
  {
    hide Inv, Ready, Overlay, Written, Spoilt;
    OverlayTail(a, x, r, y);
    WrittenAt(map[a := x][a + r := Blank(|y|)], a + r, y, a);
  }

  /**
   * Two frames in a row, the first without room in its chunk and the second in the chunk
   * behind it: what the dump thread then copies, and the slave gets, is the first frame with
   * its end replaced by the beginning of the second.
   */
  lemma MasterSpoils(s: Sys, num: nat, num2: nat, a: nat, x: bytes, y: bytes) returns (run: seq<Sys>, acts: seq<Action>)
    requires Init(s, num, num2) && Fresh(s.m, num, a) && |s.m.sizes| > 0
    requires GoodLength(|x|) && GoodLength(|y|) && 4 + |x| <= s.l.sendCap && !Roomy(s.m.sizes, |x|)
    ensures IsRun(run, acts, num, num2) && run[0] == s && Room(s.m.sizes, |x|) < |x|
    ensures run[|acts|].m.put == [x] && run[|acts|].m.out == [Spoilt(x, Room(s.m.sizes, |x|), y)]
  {
    hide *;
    FreshFacts(s.m, num, a);
    InitGood(s, num, num2);
    RoomIff(s.m.sizes, |x|);
    FirstOffer(s.m, num, a, x);
    SecondSpoils(s.m, num, a, x, y);
    var r, b := Room(s.m.sizes, |x|), a + Room(s.m.sizes, |x|);
    ReaderOffers(s, a, x);
    var t := s.(m := Offered(s.m, a, x));
    AfterOneFacts(s.m, t.m, num, a, x);
    ReaderStocks(t, b, y);
    var u := t.(m := Stocked(t.m, b, y));
    SpoiltFacts(u.m, x, r, y);
    EmptyLink(s, num, num2, Spoilt(x, r, y));
    DumpTakes(u, Spoilt(x, r, y));
    var v := u.(m := Taken(u.m, Spoilt(x, r, y)), l := u.l.Append(Spoilt(x, r, y)));
    LeadsAppend(s, RoundSteps(a, x), t, ByReader(StockSteps(b, y)), u);
    var copy := [Dump(Look), Dump(Find), Dump(Copy)];
    LeadsAppend(s, RoundSteps(a, x) + ByReader(StockSteps(b, y)), u, copy, v);
    acts := RoundSteps(a, x) + ByReader(StockSteps(b, y)) + copy;
    run := LeadsIsRun(s, acts, v);
    IsRunFrom(run, acts, num, num2);
    TakenFacts(u.m, Spoilt(x, r, y));
  }

  lemma SpoiltFacts(m: Depot, x: bytes, r: nat, y: bytes)
    requires r <= |x| && SpoiltIn(m, x, r, y)
    ensures Offers(m, Spoilt(x, r, y)) && m.put == [x] && m.out == []
  {
    hide Offers, Spoilt;
  }

  lemma EmptyLink(s: Sys, num: nat, num2: nat, z: bytes)
    requires Init(s, num, num2) && 4 + |z| <= s.l.sendCap
    ensures !s.l.sending && s.l.HasRoom(z)
  {
  }

  lemma TakenFacts(m: Depot, z: bytes)
    ensures Taken(m, z).put == m.put && Taken(m, z).out == m.out + [z]
  {
  }

  /** The master's depot between the two frames. */
  lemma ReturnedReady(m: Depot, m1: Depot, num: nat, a: nat, x: bytes, n: nat)
    requires num > 1 && AfterOne(m, m1, num, a, x) && |m.sizes| > 0 && Below(m.sizes, m.held, a)
    requires Room(m.sizes, |x|) > 0 && Offers(m1, x)
    ensures var r := Returned(m1, x);
            Ready(r) && r.ring.c == CIdle && r.ring.rn == r.ring.wn &&
            r.sizes == m.sizes && r.ring.wp < |r.ring.slots| &&
            r.put == [x] && r.out == [x] &&
            Apart(r.sizes, r.heap, a + Room(m.sizes, |x|), n) && Apart(r.sizes, r.held, a + Room(m.sizes, |x|), n)
  {
    NextIsApart(m, m1, num, a, x, n);
    ReturnSteps(m1, x);
    hide Inv, Room, Written, Below, Apart, Holds;
  }

  lemma EmptyStart(s: Sys, num: nat, num2: nat)
    requires Init(s, num, num2)
    ensures s.m.ring.c == CIdle && s.m.ring.rn == s.m.ring.wn && s.m.put == s.m.out == [] && s.side.out == []
    ensures !s.ended && s.rx == []
  {
  }

  lemma OfferedPut(m: Depot, c: nat, x: bytes)
    requires m.ring.wp < |m.ring.slots|
    ensures Returned(Offered(m, c, x), x).put == m.put + [x] && Returned(Offered(m, c, x), x).out == m.out + [x]
  {
  }

  /**
   * The same on the slave, whatever the master's table: both frames are handed over and copied out
   * there as they are, and the slave applies the first with its end replaced by
   * the beginning of the second, if its own pool has no room for the first.
   */
  lemma SlaveSpoils(s: Sys, num: nat, num2: nat, a: nat, b: nat, x: bytes, y: bytes)
    returns (run: seq<Sys>, acts: seq<Action>)
    requires Init(s, num, num2) && Fresh(s.m, num, a) && Fresh(s.side, num2, b)
    requires |s.m.sizes| > 0 && |s.side.sizes| > 0
    requires AtRest(s.l, x) && AtRest(s.l, y) && !Roomy(s.side.sizes, |x|)
    ensures IsRun(run, acts, num, num2) && run[0] == s && Room(s.side.sizes, |x|) < |x|
    ensures run[|acts|].m.put == run[|acts|].m.out == [x, y]
    ensures run[|acts|].side.out == [Spoilt(x, Room(s.side.sizes, |x|), y)]
  {
    hide *;
    InitGood(s, num, num2);
    EmptyStart(s, num, num2);
    FreshFacts(s.m, num, a);
    FreshFacts(s.side, num2, b);
    RestFacts(s.l, x);
    RestFacts(s.l, y);
    RoomIff(s.side.sizes, |x|);
    FirstOffer(s.m, num, a, x);
    FirstOffer(s.side, num2, b, x);
    SecondSpoils(s.side, num2, b, x, y);
    Positive(|x|);
    SomeRoom(s.m.sizes, |x|);
    var r, a2 := Room(s.side.sizes, |x|), a + Room(s.m.sizes, |x|);
    // the first frame, all the way into the slave's ring
    FramePasses(s, a, x);
    var m1 := Offered(s.m, a, x);
    OfferSteps(s.m, a, x);
    OfferedOffers(s.m, a, x);
    ReturnedReady(s.m, m1, num, a, x, |y|);
    var t := s.(m := Returned(m1, x), l := s.l.(wire := Packet(x)));
    SlaveOffers(t, b, x);
    var u := t.(side := Offered(s.side, b, x), l := Emptied(t.l, x), rx := t.rx + [x]);
    LeadsAppend(s, PassSteps(a, x), t, ArrivalSteps(b, x), u);
    AfterOneFacts(s.side, u.side, num2, b, x);
    // the second, into the chunk behind it
    FramePasses(u, a2, y);
    OfferedPut(u.m, a2, y);
    var v := u.(m := Returned(Offered(u.m, a2, y), y), l := u.l.(wire := Packet(y)));
    var acts1 := PassSteps(a, x) + ArrivalSteps(b, x);
    LeadsAppend(s, acts1, u, PassSteps(a2, y), v);
    RestFacts(u.l, y);
    SlaveStocks(v, b + r, y);
    var w := v.(side := Stocked(v.side, b + r, y), l := Emptied(v.l, y), rx := v.rx + [y]);
    LeadsAppend(s, acts1 + PassSteps(a2, y), v, BodySteps(b + r, y), w);
    // and the consumer
    SpoiltFacts(w.side, x, r, y);
    ConsumerTakes(w, Spoilt(x, r, y));
    TakenFacts(w.side, Spoilt(x, r, y));
    var z := w.(side := Taken(w.side, Spoilt(x, r, y)));
    var apply := [Consumer(Look)] + [Consumer(Find)] + [Consumer(Copy)];
    LeadsAppend(s, acts1 + PassSteps(a2, y) + BodySteps(b + r, y), w, apply, z);
    acts := acts1 + PassSteps(a2, y) + BodySteps(b + r, y) + apply;
    run := LeadsIsRun(s, acts, z);
    IsRunFrom(run, acts, num, num2);
  }

  // ----- The command ---------------------------------------------------------------------------------------

  /**
   * A command without room in its chunk: the first frame in the chunk behind it is written over
   * the command's end, and the list of tables the reader goes on with is what is there then.
   */
  lemma CommandSpoils(s: Sys, num: nat, num2: nat, cmd: nat, text: bytes, x: bytes)
    returns (run: seq<Sys>, acts: seq<Action>)
    requires Init(s, num, num2) && s.m.held == map[cmd := text] && |s.m.sizes| > 0 && s.m.sizes[0] > 0
    requires GoodLength(|text|) && GoodLength(|x|) && !Roomy(s.m.sizes, |text|)
    ensures IsRun(run, acts, num, num2) && run[0] == s && Room(s.m.sizes, |text|) < |text|
    ensures run[|acts|].m.held == map[cmd := Spoilt(text, Room(s.m.sizes, |text|), x)]
  {
    hide *;
    InitGood(s, num, num2);
    InitStarts(s, num, num2);
    StartFacts(s.m, num);
    RoomIff(s.m.sizes, |text|);
    Positive(|text|);
    SomeRoom(s.m.sizes, |text|);
    var r := Room(s.m.sizes, |text|);
    StartReady(s.m, num);
    CommandApart(s.m.sizes, cmd, text, |x|);
    EmptyApart(s.m.sizes, cmd + r, |x|);
    ReaderStocks(s, cmd + r, x);
    var t := s.(m := Stocked(s.m, cmd + r, x));
    acts := ByReader(StockSteps(cmd + r, x));
    run := LeadsIsRun(s, acts, t);
    IsRunFrom(run, acts, num, num2);
    StockedHeld(s.m, cmd, text, r, x);
  }

  lemma InitStarts(s: Sys, num: nat, num2: nat)
    requires Init(s, num, num2)
    ensures Start(s.m, num) && Start(s.side, num2)
  {
  }

  lemma StartReady(m: Depot, num: nat)
    requires Start(m, num)
    ensures Ready(m) && m.ring.wp < |m.ring.slots|
  {
    StartFacts(m, num);
    hide Inv;
  }

  lemma CommandApart(sizes: seq<nat>, cmd: nat, text: bytes, n: nat)
    requires |sizes| > 0 && Room(sizes, |text|) > 0
    ensures Apart(sizes, map[cmd := text], cmd + Room(sizes, |text|), n)
  {
    hide Room;
  }

  lemma StockedHeld(m: Depot, cmd: nat, text: bytes, r: nat, x: bytes)
    requires m.held == map[cmd := text] && r <= |text| && m.ring.wp < |m.ring.slots|
    ensures Stocked(m, cmd + r, x).held == map[cmd := Spoilt(text, r, x)]
  {
    hide Overlay, Spoilt;
    OverlayTail(cmd, text, r, x);
    WrittenAt(m.held, cmd + r, x, cmd);
  }

  // ----- The tables of the shipped configuration ---------------------------------------------------------

  /** The classes of a pool whose number is not bounded otherwise. */
  ghost predicate IsTable(sizes: seq<nat>, initSize: nat, chunkSize: nat, fn: nat, fd: nat)
    requires fd > 0
  {
    sizes != [] && Increasing(sizes) && sizes[|sizes| - 1] == chunkSize <= SizeAt(initSize, |sizes| - 1, fn, fd) &&
    forall i :: 0 <= i < |sizes| - 1 ==> sizes[i] == SizeAt(initSize, i, fn, fd) < chunkSize
  }

  /** Sizes from 100 bytes on, growing by half: one turn of the loop. */
  lemma NextSize(i: nat, size: nat, next: nat)
    requires SizeAt(100, i, 3, 2) == size && next == (size * 3 / 2 + 7) / 8 * 8
    ensures SizeAt(100, i + 1, 3, 2) == next
  {
    SizeNext(100, i, 3, 2);
  }

  lemma SmallSizes()
    ensures SizeAt(100, 2, 3, 2) == 240 && SizeAt(100, 4, 3, 2) == 544
    ensures SizeAt(100, 8, 3, 2) == 2760 && SizeAt(100, 9, 3, 2) == 4144
  {
    hide SizeAt;
    SizeNext(100, 0, 3, 2);
    NextSize(0, 104, 160);
    NextSize(1, 160, 240);
    NextSize(2, 240, 360);
    NextSize(3, 360, 544);
    NextSize(4, 544, 816);
    NextSize(5, 816, 1224);
    NextSize(6, 1224, 1840);
    NextSize(7, 1840, 2760);
    NextSize(8, 2760, 4144);
  }

  lemma LargeSizes()
    ensures SizeAt(100, 22, 3, 2) == 807016 && SizeAt(100, 23, 3, 2) == 1210528
  {
    hide SizeAt;
    SmallSizes();
    NextSize(9, 4144, 6216);
    NextSize(10, 6216, 9328);
    NextSize(11, 9328, 13992);
    NextSize(12, 13992, 20992);
    NextSize(13, 20992, 31488);
    NextSize(14, 31488, 47232);
    NextSize(15, 47232, 70848);
    NextSize(16, 70848, 106272);
    NextSize(17, 106272, 159408);
    NextSize(18, 159408, 239112);
    NextSize(19, 239112, 358672);
    NextSize(20, 358672, 538008);
    NextSize(21, 538008, 807016);
    NextSize(22, 807016, 1210528);
  }

  lemma {:induction false} SizesRise(i: nat, j: nat)
    requires i <= j
    ensures SizeAt(100, i, 3, 2) <= SizeAt(100, j, 3, 2)
    decreases j
  {
    hide SizeAt;
    if i < j {
      SizesRise(i, j - 1);
      SizeNext(100, j - 1, 3, 2);
    }
  }

  /** How many classes there are is where the sizes pass that of a chunk. */
  lemma TableLength(sizes: seq<nat>, chunkSize: nat, n: nat)
    requires IsTable(sizes, 100, chunkSize, 3, 2) && n > 0
    requires SizeAt(100, n - 1, 3, 2) < chunkSize <= SizeAt(100, n, 3, 2)
    ensures |sizes| == n + 1
  {
    hide SizeAt;
    if |sizes| <= n {
      SizesRise(|sizes| - 1, n - 1);
    }
  }

  lemma RoomyAt(sizes: seq<nat>, k: nat)
    requires Increasing(sizes) && k < |sizes|
    ensures Roomy(sizes, sizes[k]) <==> k == 0 || k - 1 in Midpoints(k, 0, |sizes| - 1)
  {
    hide Midpoints;
  }

  /**
   * With the shipped configuration of both processes, frames of 544 bytes have room in the
   * master's chunks and none in the slave's, and with frames of 240 it is the other way round.
   */
  lemma ShippedTablesDiffer(master: seq<nat>, slave: seq<nat>)
    requires IsTable(master, 100, 0x10_0000, 3, 2) && IsTable(slave, 100, 4096, 3, 2)
    ensures |master| == 24 && |slave| == 10
    ensures Roomy(master, 544) && !Roomy(slave, 544)
    ensures !Roomy(master, 240) && Roomy(slave, 240)
  {
    hide *;
    TableFacts(master, 0x10_0000, 23);
    TableFacts(slave, 4096, 9);
    RoomyAt(master, 4);
    RoomyAt(master, 2);
    RoomyAt(slave, 4);
    RoomyAt(slave, 2);
    Paths();
  }

  lemma TableFacts(sizes: seq<nat>, chunkSize: nat, n: nat)
    requires IsTable(sizes, 100, chunkSize, 3, 2)
    requires (n == 9 && chunkSize == 4096) || (n == 23 && chunkSize == 0x10_0000)
    ensures |sizes| == n + 1 && sizes[4] == 544 && sizes[2] == 240 && Increasing(sizes)
  {
    hide SizeAt, Increasing;
    SmallSizes();
    LargeSizes();
    TableLength(sizes, chunkSize, n);
  }

  /** One look of the search. */
  lemma PathStep(k: nat, low: nat, high: nat, m: nat)
    requires low <= k <= high
    ensures var mid := low + (high - low) / 2;
            m in Midpoints(k, low, high) <==>
            if mid > k then m == mid || m in Midpoints(k, low, mid - 1)
            else if mid < k then m == mid || m in Midpoints(k, mid + 1, high)
            else false
  {
  }

  lemma Paths()
    ensures 3 in Midpoints(4, 0, 23) && 1 !in Midpoints(2, 0, 23)
    ensures 3 !in Midpoints(4, 0, 9) && 1 in Midpoints(2, 0, 9)
  {
    hide Midpoints;
    PathStep(4, 0, 23, 3);
    PathStep(4, 0, 10, 3);
    PathStep(4, 0, 4, 3);
    PathStep(4, 3, 4, 3);
    PathStep(2, 0, 23, 1);
    PathStep(2, 0, 10, 1);
    PathStep(2, 0, 4, 1);
    PathStep(4, 0, 9, 3);
    PathStep(2, 0, 9, 1);
    PathStep(2, 0, 3, 1);
  }
}
