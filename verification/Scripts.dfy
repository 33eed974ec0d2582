/**
 * Steps in a row: what each thread of a connection does with one frame, from claiming a slot
 * to handing it on, as sequences of steps that lead from one state to another.
 */
module Scripts {
  import opened Bytes
  import opened ClassTable
  import opened Spsc
  import opened ChunkRing
  import opened Wire
  import opened Transport

  // ----- Steps in a row -----------------------------------------------------------------

  /** The producer can take these steps, one after the other, and then stands at `r`. */
  ghost predicate Goes(m: Depot, ps: seq<PStep>, r: Depot)
    decreases |ps|
  {
    if ps == [] then r == m
    else Inv(m) && CanProduce(m, ps[0]) && Goes(Produce(m, ps[0]), ps[1..], r)
  }

  /** And so can the threads together. */
  ghost predicate Leads(s: Sys, acts: seq<Action>, t: Sys)
    decreases |acts|
  {
    if acts == [] then t == s
    else Good(s) && Enabled(s, acts[0]) && Leads(Do(s, acts[0]), acts[1..], t)
  }

  lemma {:induction false} LeadsAppend(s: Sys, a: seq<Action>, t: Sys, b: seq<Action>, u: Sys)
    requires Leads(s, a, t) && Leads(t, b, u)
    ensures Leads(s, a + b, u)
    decreases |a|
  {
    hide Good, Enabled, Do;
    if a == [] {
      assert a + b == b;
    } else {
      assert (a + b)[0] == a[0] && (a + b)[1..] == a[1..] + b;
      LeadsAppend(Do(s, a[0]), a[1..], t, b, u);
    }
  }

  lemma LeadsOne(s: Sys, a: Action)
    requires Good(s) && Enabled(s, a)
    ensures Leads(s, [a], Do(s, a)) && Good(Do(s, a))
  {
    hide Good, Enabled, Do;
    DoKeepsGood(s, a);
    assert [a][1..] == [];
    assert Leads(Do(s, a), [], Do(s, a));
  }

  /** Steps that lead on from an initial state make up a run. */
  lemma {:induction false} LeadsIsRun(s: Sys, acts: seq<Action>, t: Sys) returns (run: seq<Sys>)
    requires Leads(s, acts, t)
    ensures |run| == |acts| + 1 && run[0] == s && run[|acts|] == t
    ensures forall i: nat | i < |acts| :: Good(run[i]) ==> Enabled(run[i], acts[i]) && run[i + 1] == Do(run[i], acts[i])
    decreases |acts|
  {
    hide Good, Enabled, Do;
    if acts == [] {
      run := [s];
    } else {
      var rest := LeadsIsRun(Do(s, acts[0]), acts[1..], t);
      run := [s] + rest;
      forall i: nat | i < |acts| && Good(run[i])
        ensures Enabled(run[i], acts[i]) && run[i + 1] == Do(run[i], acts[i])
      {
        if i > 0 {
          assert run[i] == rest[i - 1] && acts[i] == acts[1..][i - 1] && run[i + 1] == rest[i];
        }
      }
    }
  }

  function ByReader(ps: seq<PStep>): (acts: seq<Action>)
    ensures |acts| == |ps|
  {
    seq(|ps|, i requires 0 <= i < |ps| => Reader(ps[i]))
  }

  lemma ReaderStep(s: Sys, p: PStep)
    requires Good(s) && CanProduce(s.m, p)
    ensures Enabled(s, Reader(p)) && Do(s, Reader(p)) == s.(m := Produce(s.m, p)) && Good(Do(s, Reader(p)))
  {
    DoKeepsGood(s, Reader(p));
    hide Inv, Under, Beside, CanProduce, Produce;
  }

  lemma {:induction false} ReaderGoes(s: Sys, ps: seq<PStep>, r: Depot)
    requires Good(s) && Goes(s.m, ps, r)
    ensures Leads(s, ByReader(ps), s.(m := r)) && Good(s.(m := r))
    decreases |ps|
  {
    hide Good, Enabled, Do, Inv, CanProduce, Produce;
    if ps == [] {
      assert s.(m := r) == s;
    } else {
      ReaderStep(s, ps[0]);
      var t := s.(m := Produce(s.m, ps[0]));
      ReaderGoes(t, ps[1..], r);
      assert ByReader(ps)[1..] == ByReader(ps[1..]);
      assert t.(m := r) == s.(m := r);
    }
  }

  // ----- The producer's round ---------------------------------------------------------------

  /** A slot is free, and nothing is left in it. */
  ghost predicate Ready(m: Depot) {
    Inv(m) && m.ring.p == PIdle && m.ring.wn - m.ring.rn < m.ring.num &&
    m.ring.wp < |m.ring.slots| && m.ring.slots[m.ring.wp] == None
  }

  /** The depot once the slot is claimed, and then cleared. */
  function Claimed(m: Depot, fill: Fill): (r: Depot) {
    m.(ring := m.ring.(p := PClaimed), fill := fill)
  }

  /** Once the slot has the new chunk `c`. */
  function WithChunk(m: Depot, c: nat, n: nat): (r: Depot)
    requires m.ring.wp < |m.ring.slots|
  {
    m.(ring := m.ring.(p := PClaimed, slots := m.ring.slots[m.ring.wp := Some(c)]),
       heap := m.heap[c := Blank(n)], fill := Granted)
  }

  /** Once `data` is in it. */
  function Stocked(m: Depot, c: nat, data: bytes): (r: Depot)
    requires m.ring.wp < |m.ring.slots|
  {
    m.(ring := m.ring.(p := PClaimed, slots := m.ring.slots[m.ring.wp := Some(c)]),
       heap := Written(m.heap[c := Blank(|data|)], c, data), held := Written(m.held, c, data), fill := Filled)
  }

  /** And once the slot is handed over. */
  function Offered(m: Depot, c: nat, data: bytes): (r: Depot)
    requires m.ring.wp < |m.ring.slots|
  {
    var r := Stocked(m, c, data);
    r.(ring := r.ring.(p := PIdle, wp := Next(m.ring.wp, m.ring.num), wn := m.ring.wn + 1), put := m.put + [data])
  }

  lemma ClaimSteps(m: Depot)
    requires Ready(m)
    ensures CanProduce(m, Check)
    ensures var m1 := Produce(m, Check);
            Inv(m1) && CanProduce(m1, Decide) && Produce(m1, Decide) == Claimed(m, Untouched)
    ensures Inv(Claimed(m, Untouched)) && CanProduce(Claimed(m, Untouched), Free)
    ensures Inv(Claimed(m, Cleared)) && Produce(Claimed(m, Untouched), Free) == Claimed(m, Cleared)
  {
    hide Inv;
    ProduceKeepsInv(m, Check);
    Started(m);
    ProduceKeepsInv(Produce(m, Check), Decide);
    ProduceKeepsInv(Claimed(m, Untouched), Free);
  }

  lemma Started(m: Depot)
    requires Ready(m)
    ensures CanProduce(m, Check) && Produce(m, Check).ring == m.ring.(p := PSeen(m.ring.rn))
    ensures m.ring.wn - m.ring.rn != m.ring.num
  {
    hide Inv;
  }

  lemma GrantStep(m: Depot, c: nat, n: nat)
    requires Ready(m) && GoodLength(n) && |m.sizes| > 0 && Apart(m.sizes, m.heap, c, n) && Apart(m.sizes, m.held, c, n)
    ensures CanProduce(Claimed(m, Cleared), Alloc(c, n)) && Inv(Claimed(m, Cleared))
    ensures Produce(Claimed(m, Cleared), Alloc(c, n)) == WithChunk(m, c, n) && Inv(WithChunk(m, c, n))
  {
    hide Inv, Apart;
    ClaimSteps(m);
    ProduceKeepsInv(Claimed(m, Cleared), Alloc(c, n));
  }

  lemma StockStep(m: Depot, c: nat, data: bytes)
    requires Ready(m) && GoodLength(|data|) && |m.sizes| > 0
    requires Apart(m.sizes, m.heap, c, |data|) && Apart(m.sizes, m.held, c, |data|)
    ensures Inv(WithChunk(m, c, |data|)) && CanProduce(WithChunk(m, c, |data|), Store(data))
    ensures Produce(WithChunk(m, c, |data|), Store(data)) == Stocked(m, c, data) && Inv(Stocked(m, c, data))
  {
    hide Inv, Apart, Written;
    GrantStep(m, c, |data|);
    ProduceKeepsInv(WithChunk(m, c, |data|), Store(data));
  }

  lemma OfferSteps(m: Depot, c: nat, data: bytes)
    requires Ready(m) && GoodLength(|data|) && |m.sizes| > 0
    requires Apart(m.sizes, m.heap, c, |data|) && Apart(m.sizes, m.held, c, |data|)
    ensures Inv(Stocked(m, c, data)) && CanProduce(Stocked(m, c, data), Move)
    ensures var m1 := Produce(Stocked(m, c, data), Move);
            Inv(m1) && CanProduce(m1, Commit) && Produce(m1, Commit) == Offered(m, c, data)
    ensures Inv(Offered(m, c, data))
  {
    hide Inv, Apart, Written, Overlay;
    StockStep(m, c, data);
    var m0 := Stocked(m, c, data);
    ProduceKeepsInv(m0, Move);
    var m1 := Produce(m0, Move);
    ReadySlot(m);
    WrittenAt(m.heap[c := Blank(|data|)], c, data, c);
    OverlaySame(c, Blank(|data|), data);
    ProduceKeepsInv(m1, Commit);
  }

  lemma ReadySlot(m: Depot)
    requires Ready(m)
    ensures m.ring.num > 0 && m.ring.wp == SlotOf(m.ring.wn, m.ring.num) < |m.ring.slots|
  {
    hide Owns, Spaced, Sized;
  }

  function StockSteps(c: nat, data: bytes): (ps: seq<PStep>) {
    [Check, Decide, Free, Alloc(c, |data|), Store(data)]
  }

  lemma GoesCons(m: Depot, p: PStep, ps: seq<PStep>, r: Depot)
    requires Inv(m) && CanProduce(m, p) && Goes(Produce(m, p), ps, r)
    ensures Goes(m, [p] + ps, r)
  {
    hide Inv, CanProduce, Produce;
    assert ([p] + ps)[1..] == ps;
  }

  lemma StockGoes(m: Depot, c: nat, data: bytes)
    requires Ready(m) && GoodLength(|data|) && |m.sizes| > 0
    requires Apart(m.sizes, m.heap, c, |data|) && Apart(m.sizes, m.held, c, |data|)
    ensures Goes(m, StockSteps(c, data), Stocked(m, c, data))
  {
    hide *;
    IsReady(m);
    StockStep(m, c, data);
    GrantStep(m, c, |data|);
    ClaimSteps(m);
    var r := Stocked(m, c, data);
    GoesNone(r);
    GoesCons(WithChunk(m, c, |data|), Store(data), [], r);
    GoesCons(Claimed(m, Cleared), Alloc(c, |data|), [Store(data)] + [], r);
    GoesCons(Claimed(m, Untouched), Free, [Alloc(c, |data|)] + ([Store(data)] + []), r);
    GoesCons(Produce(m, Check), Decide, [Free] + ([Alloc(c, |data|)] + ([Store(data)] + [])), r);
    GoesCons(m, Check, [Decide] + ([Free] + ([Alloc(c, |data|)] + ([Store(data)] + []))), r);
    StockStepsAre(c, data);
  }

  lemma IsReady(m: Depot)
    requires Ready(m)
    ensures Inv(m) && m.ring.wp < |m.ring.slots|
  {
  }

  lemma GoesNone(m: Depot)
    ensures Goes(m, [], m)
  {
  }

  lemma StockStepsAre(c: nat, data: bytes)
    ensures StockSteps(c, data) == [Check] + ([Decide] + ([Free] + ([Alloc(c, |data|)] + ([Store(data)] + []))))
  {
  }

  lemma OfferGoes(m: Depot, c: nat, data: bytes)
    requires Ready(m) && GoodLength(|data|) && |m.sizes| > 0
    requires Apart(m.sizes, m.heap, c, |data|) && Apart(m.sizes, m.held, c, |data|)
    ensures Goes(Stocked(m, c, data), [Move, Commit], Offered(m, c, data))
  {
    hide *;
    IsReady(m);
    OfferSteps(m, c, data);
    var r := Offered(m, c, data);
    GoesNone(r);
    GoesCons(Produce(Stocked(m, c, data), Move), Commit, [], r);
    GoesCons(Stocked(m, c, data), Move, [Commit] + [], r);
    assert [Move] + ([Commit] + []) == [Move, Commit];
  }

  // ----- The consumer's part --------------------------------------------------------------------

  /** The depot once the next payload is copied out, and once its slot is handed back. */
  function Taken(m: Depot, x: bytes): (r: Depot) {
    m.(ring := m.ring.(c := CClaimed), copied := true, out := m.out + [x])
  }

  function Returned(m: Depot, x: bytes): (r: Depot) {
    m.(ring := m.ring.(rn := m.ring.rn + 1, rp := Next(m.ring.rp, m.ring.num)), out := m.out + [x])
  }

  /** `x` is what the consumer finds next. */
  ghost predicate Offers(m: Depot, x: bytes) {
    Inv(m) && m.ring.c == CIdle && m.ring.rn < m.ring.wn && m.ring.rp < |m.ring.slots| && Holds(m, m.ring.rp, x)
  }

  lemma TakeSteps(m: Depot, x: bytes)
    requires Offers(m, x)
    ensures CanConsume(m, Look)
    ensures var m1 := Consume(m, Look);
            Inv(m1) && m1.ring.c == CSeen(m.ring.wn) && CanConsume(m1, Find) &&
            var m2 := Consume(m1, Find);
            Inv(m2) && m2.ring.c == CClaimed && !m2.copied && CanConsume(m2, Copy) &&
            Consume(m2, Copy) == Taken(m, x) && Inv(Taken(m, x)) &&
            m2.ring.rp < |m2.ring.slots| && Holds(m2, m2.ring.rp, x)
  {
    hide Inv;
    IdleFacts(m);
    ConsumeKeepsInv(m, Look);
    var m1 := Consume(m, Look);
    ConsumeKeepsInv(m1, Find);
    var m2 := Consume(m1, Find);
    ConsumeKeepsInv(m2, Copy);
  }

  lemma IdleFacts(m: Depot)
    requires Inv(m) && m.ring.c == CIdle
    ensures !m.copied
  {
    hide Owns, Spaced, Sized, SlotOf;
  }

  lemma ReturnSteps(m: Depot, x: bytes)
    requires Offers(m, x)
    ensures Inv(Taken(m, x)) && CanConsume(Taken(m, x), Leave)
    ensures var m1 := Consume(Taken(m, x), Leave);
            Inv(m1) && CanConsume(m1, Release) && Consume(m1, Release) == Returned(m, x) && Inv(Returned(m, x))
  {
    hide Inv;
    IdleFacts(m);
    TakeSteps(m, x);
    ConsumeKeepsInv(Taken(m, x), Leave);
    ConsumeKeepsInv(Consume(Taken(m, x), Leave), Release);
  }

  lemma DumpStep(s: Sys, a: Action)
    requires Good(s) && DumpCan(s, a)
    ensures Enabled(s, a) && s.l.Inv() && Do(s, a) == DoDump(s, a) && Good(Do(s, a))
  {
    LinkInv(s);
    NotReader(s, a);
    DoKeepsGood(s, a);
    hide Inv, Under, Beside, ReaderCan, DumpCan, ReceiverCan, ConsumerCan, DoDump, Link.Inv;
  }

  lemma NotReader(s: Sys, a: Action)
    requires Inv(s.m) && DumpCan(s, a)
    ensures !ReaderCan(s, a)
  {
    hide Inv, NextPayload, Link.HasRoom;
  }

  /** The dump thread copies the next payload into its buffer. */
  lemma DumpTakes(s: Sys, x: bytes)
    requires Good(s) && Offers(s.m, x) && !s.l.sending && s.l.HasRoom(x)
    ensures Leads(s, [Dump(Look), Dump(Find), Dump(Copy)], s.(m := Taken(s.m, x), l := s.l.Append(x)))
    ensures Good(s.(m := Taken(s.m, x), l := s.l.Append(x)))
  {
    hide Inv, Under, Beside, Leads, Enabled, Do, Link.Inv, Holds, Link.HasRoom;
    TakeSteps(s.m, x);
    OffersFacts(s.m, x);
    hide Offers, Consume, Taken;
    DumpStep(s, Dump(Look));
    var s1 := Do(s, Dump(Look));
    DumpStep(s1, Dump(Find));
    var s2 := Do(s1, Dump(Find));
    NextIs(s2, x);
    DumpStep(s2, Dump(Copy));
    LeadsOne(s, Dump(Look));
    LeadsOne(s1, Dump(Find));
    LeadsOne(s2, Dump(Copy));
    var s3 := Do(s2, Dump(Copy));
    LeadsAppend(s, [Dump(Look)], s1, [Dump(Find)], s2);
    LeadsAppend(s, [Dump(Look)] + [Dump(Find)], s2, [Dump(Copy)], s3);
    assert [Dump(Look)] + [Dump(Find)] + [Dump(Copy)] == [Dump(Look), Dump(Find), Dump(Copy)];
  }

  lemma OffersFacts(m: Depot, x: bytes)
    requires Offers(m, x)
    ensures Inv(m) && m.ring.c == CIdle && m.ring.rn < m.ring.wn && !m.copied
    ensures Consume(m, Look).ring.rn == m.ring.rn
  {
    hide Inv;
    IdleFacts(m);
  }

  lemma NextIs(s: Sys, x: bytes)
    requires Inv(s.m) && s.m.ring.c == CClaimed && !s.m.copied
    requires s.m.ring.rp < |s.m.ring.slots| && Holds(s.m, s.m.ring.rp, x)
    ensures NextPayload(s) == x
  {
    hide Inv;
  }

  // ----- On the master ------------------------------------------------------------------------------

  function RoundSteps(c: nat, x: bytes): (acts: seq<Action>) {
    ByReader(StockSteps(c, x)) + ByReader([Move, Commit])
  }

  /** The reader fills a slot. */
  lemma ReaderStocks(s: Sys, c: nat, x: bytes)
    requires Good(s) && Ready(s.m) && GoodLength(|x|) && |s.m.sizes| > 0 && s.m.ring.wp < |s.m.ring.slots|
    requires Apart(s.m.sizes, s.m.heap, c, |x|) && Apart(s.m.sizes, s.m.held, c, |x|)
    ensures Leads(s, ByReader(StockSteps(c, x)), s.(m := Stocked(s.m, c, x))) && Good(s.(m := Stocked(s.m, c, x)))
  {
    hide *;
    StockGoes(s.m, c, x);
    ReaderGoes(s, StockSteps(c, x), Stocked(s.m, c, x));
  }

  /** The reader hands a frame over. */
  lemma ReaderOffers(s: Sys, c: nat, x: bytes)
    requires Good(s) && Ready(s.m) && GoodLength(|x|) && |s.m.sizes| > 0 && s.m.ring.wp < |s.m.ring.slots|
    requires Apart(s.m.sizes, s.m.heap, c, |x|) && Apart(s.m.sizes, s.m.held, c, |x|)
    ensures Leads(s, RoundSteps(c, x), s.(m := Offered(s.m, c, x))) && Good(s.(m := Offered(s.m, c, x)))
  {
    hide *;
    ReaderStocks(s, c, x);
    OfferGoes(s.m, c, x);
    var t := s.(m := Stocked(s.m, c, x));
    ReaderGoes(t, [Move, Commit], Offered(s.m, c, x));
    assert t.(m := Offered(s.m, c, x)) == s.(m := Offered(s.m, c, x));
    LeadsAppend(s, ByReader(StockSteps(c, x)), t, ByReader([Move, Commit]), s.(m := Offered(s.m, c, x)));
    RoundStepsAre(c, x);
  }

  lemma RoundStepsAre(c: nat, x: bytes)
    ensures RoundSteps(c, x) == ByReader(StockSteps(c, x)) + ByReader([Move, Commit])
  {
  }

  lemma IsRunFrom(run: seq<Sys>, acts: seq<Action>, num: nat, num2: nat)
    requires |run| == |acts| + 1 && Init(run[0], num, num2)
    requires forall i: nat | i < |acts| ::
               Good(run[i]) ==> Enabled(run[i], acts[i]) && run[i + 1] == Do(run[i], acts[i])
    ensures IsRun(run, acts, num, num2)
  {
    hide Good, Enabled, Do, Init;
  }

  // ----- Across the stream -----------------------------------------------------------------------------

  /** A frame handed over to an idle consumer that has nothing else to do is what it finds. */
  lemma OfferedOffers(m: Depot, c: nat, x: bytes)
    requires Ready(m) && m.ring.c == CIdle && m.ring.rn == m.ring.wn && m.ring.wp < |m.ring.slots|
    requires Inv(Offered(m, c, x))
    ensures Offers(Offered(m, c, x), x) && Offered(m, c, x).ring.rn + 1 == Offered(m, c, x).ring.wn
  {
    SamePlace(m);
    WrittenAt(m.heap[c := Blank(|x|)], c, x, c);
    OverlaySame(c, Blank(|x|), x);
    hide Inv, Overlay, Written;
  }

  lemma SamePlace(m: Depot)
    requires Inv(m) && m.ring.c == CIdle && m.ring.rn == m.ring.wn && m.ring.p == PIdle
    ensures m.ring.rp == m.ring.wp < |m.ring.slots|
  {
    hide Owns, Spaced, Sized;
  }

  lemma ReturnedEmpty(m: Depot, x: bytes)
    requires Offers(m, x) && m.ring.rn + 1 == m.ring.wn && Inv(Returned(m, x))
    ensures var r := Returned(m, x);
            CanConsume(r, Look) && r.ring.c == CIdle &&
            var m1 := Consume(r, Look);
            Inv(m1) && m1.ring.c == CSeen(m1.ring.rn) && CanConsume(m1, Find) && Consume(m1, Find) == r
  {
    hide Inv;
    ConsumeKeepsInv(Returned(m, x), Look);
  }

  /** The link once a frame is buffered, being sent, and on the wire. */
  lemma SendStages(l: Link, x: bytes)
    requires !l.sending && l.sendBuf == [] && l.sent == 0 && l.wire == [] && 4 + |x| <= l.sendCap
    ensures l.HasRoom(x) && |Packet(x)| == 4 + |x|
    ensures l.Append(x) == l.(sendBuf := Packet(x)) && !l.Append(x).sending
    ensures l.Append(x).StartSending() == l.(sendBuf := Packet(x), sending := true)
    ensures l.(sendBuf := Packet(x), sending := true).Write(4 + |x|) ==
            l.(sendBuf := Packet(x), sending := true, sent := 4 + |x|, wire := Packet(x))
    ensures l.(sendBuf := Packet(x), sending := true, sent := 4 + |x|, wire := Packet(x)).DoneSending() ==
            l.(wire := Packet(x))
  {
    assert |Packet(x)| == 4 + |x|;
    hide Packet;
    assert [] + Packet(x) == Packet(x) && Packet(x)[0..4 + |x|] == Packet(x);
  }

  lemma LeadsMore(s: Sys, acts: seq<Action>, t: Sys, a: Action)
    requires Leads(s, acts, t) && Good(t) && Enabled(t, a)
    ensures Leads(s, acts + [a], Do(t, a))
  {
    hide *;
    LeadsOne(t, a);
    LeadsAppend(s, acts, t, [a], Do(t, a));
  }

  function FlushSteps(): (acts: seq<Action>) {
    [Dump(Look), Dump(Find), Dump(Copy)] + [Dump(Leave)] + [Dump(Release)] + [Dump(Look)] + [Dump(Find)]
  }

  lemma FlushStepsAre()
    ensures FlushSteps() ==
            [Dump(Look), Dump(Find), Dump(Copy)] + [Dump(Leave)] + [Dump(Release)] + [Dump(Look)] + [Dump(Find)]
  {
  }

  lemma DumpMoves(s: Sys, c: CStep, m: Depot)
    requires Good(s) && CanConsume(s.m, c) && Consume(s.m, c) == m
    requires c == Leave || c == Release || (c == Look && !s.l.sending)
    ensures Enabled(s, Dump(c)) && Do(s, Dump(c)) == s.(m := m) && Good(s.(m := m))
  {
    hide *;
    LinkOf(s);
    MoveCan(s, c, m);
    DumpStep(s, Dump(c));
  }

  lemma MoveCan(s: Sys, c: CStep, m: Depot)
    requires Inv(s.m) && s.l.Inv() && CanConsume(s.m, c) && Consume(s.m, c) == m
    requires c == Leave || c == Release || (c == Look && !s.l.sending)
    ensures DumpCan(s, Dump(c)) && DoDump(s, Dump(c)) == s.(m := m)
  {
    hide Inv, CanConsume, Consume, NextPayload, Link.Inv;
  }

  lemma DumpFindsNone(s: Sys, m: Depot)
    requires Good(s) && CanConsume(s.m, Find) && Consume(s.m, Find) == m && !s.l.sending
    requires s.m.ring.c == CSeen(s.m.ring.rn)
    ensures Enabled(s, Dump(Find)) && Do(s, Dump(Find)) == s.(m := m, l := s.l.StartSending())
    ensures Good(s.(m := m, l := s.l.StartSending()))
  {
    DumpStep(s, Dump(Find));
    hide Inv, Under, Beside, CanConsume, Consume, NextPayload, Enabled, Do, Link.Inv;
  }

  /** The dump thread copies, hands the slot back and, finding nothing more, starts to send. */
  lemma DumpFlushes(s: Sys, x: bytes)
    requires Good(s) && Offers(s.m, x) && s.m.ring.rn + 1 == s.m.ring.wn
    requires !s.l.sending && s.l.sendBuf == [] && s.l.sent == 0 && s.l.wire == [] && 4 + |x| <= s.l.sendCap
    ensures Leads(s, FlushSteps(), s.(m := Returned(s.m, x), l := s.l.(sendBuf := Packet(x), sending := true)))
    ensures Good(s.(m := Returned(s.m, x), l := s.l.(sendBuf := Packet(x), sending := true)))
  {
    hide *;
    SendStages(s.l, x);
    DumpTakes(s, x);
    ReturnSteps(s.m, x);
    ReturnedEmpty(s.m, x);
    var t := s.(m := Taken(s.m, x), l := s.l.Append(x));
    var m1 := Consume(t.m, Leave);
    var acts := [Dump(Look), Dump(Find), Dump(Copy)];
    DumpMoves(t, Leave, m1);
    LeadsMore(s, acts, t, Dump(Leave));
    var t1 := t.(m := m1);
    DumpMoves(t1, Release, Returned(s.m, x));
    LeadsMore(s, acts + [Dump(Leave)], t1, Dump(Release));
    var t2 := t1.(m := Returned(s.m, x));
    var m3 := Consume(t2.m, Look);
    DumpMoves(t2, Look, m3);
    LeadsMore(s, acts + [Dump(Leave)] + [Dump(Release)], t2, Dump(Look));
    var t3 := t2.(m := m3);
    DumpFindsNone(t3, Returned(s.m, x));
    LeadsMore(s, acts + [Dump(Leave)] + [Dump(Release)] + [Dump(Look)], t3, Dump(Find));
    FlushStepsAre();
    assert t3.(m := Returned(s.m, x), l := t3.l.StartSending()) ==
           s.(m := Returned(s.m, x), l := s.l.(sendBuf := Packet(x), sending := true));
  }

  function WriteSteps(x: bytes): (acts: seq<Action>) {
    FlushSteps() + [DWrite(4 + |x|)] + [DSent]
  }

  lemma DumpWrites(s: Sys, a: Action, l: Link)
    requires Good(s) && s.l.Inv() && (a.DWrite? || a == DSent)
    requires a.DWrite? ==> s.l.sending && 0 < a.n <= |s.l.sendBuf| - s.l.sent && l == s.l.Write(a.n)
    requires a == DSent ==> s.l.sending && s.l.sent == |s.l.sendBuf| && l == s.l.DoneSending()
    ensures Enabled(s, a) && Do(s, a) == s.(l := l) && Good(s.(l := l))
  {
    hide *;
    MasterInv(s);
    CanSend(s, a, l);
    DumpStep(s, a);
  }

  lemma MasterInv(s: Sys)
    requires Good(s)
    ensures Inv(s.m)
  {
    hide Inv, Under, Beside;
  }

  lemma CanSend(s: Sys, a: Action, l: Link)
    requires Inv(s.m) && s.l.Inv() && (a.DWrite? || a == DSent)
    requires a.DWrite? ==> s.l.sending && 0 < a.n <= |s.l.sendBuf| - s.l.sent && l == s.l.Write(a.n)
    requires a == DSent ==> s.l.sending && s.l.sent == |s.l.sendBuf| && l == s.l.DoneSending()
    ensures DumpCan(s, a) && DoDump(s, a) == s.(l := l)
  {
    hide Inv, Link.Inv, NextPayload;
  }

  /** And it sends the frame whole. */
  lemma DumpSends(s: Sys, x: bytes)
    requires Good(s) && Offers(s.m, x) && s.m.ring.rn + 1 == s.m.ring.wn
    requires !s.l.sending && s.l.sendBuf == [] && s.l.sent == 0 && s.l.wire == [] && 4 + |x| <= s.l.sendCap
    ensures Leads(s, WriteSteps(x), s.(m := Returned(s.m, x), l := s.l.(wire := Packet(x))))
    ensures Good(s.(m := Returned(s.m, x), l := s.l.(wire := Packet(x))))
  {
    hide *;
    SendStages(s.l, x);
    DumpFlushes(s, x);
    var t := s.(m := Returned(s.m, x), l := s.l.(sendBuf := Packet(x), sending := true));
    LinkOf(t);
    DumpWrites(t, DWrite(4 + |x|), t.l.(sent := 4 + |x|, wire := Packet(x)));
    LeadsMore(s, FlushSteps(), t, DWrite(4 + |x|));
    var u := t.(l := t.l.(sent := 4 + |x|, wire := Packet(x)));
    LinkOf(u);
    DumpWrites(u, DSent, s.l.(wire := Packet(x)));
    LeadsMore(s, FlushSteps() + [DWrite(4 + |x|)], u, DSent);
    assert u.(l := s.l.(wire := Packet(x))) == s.(m := Returned(s.m, x), l := s.l.(wire := Packet(x)));
    WriteStepsAre(x);
  }

  lemma LinkOf(s: Sys)
    requires Good(s)
    ensures s.l.Inv() && Inv(s.m) && Inv(s.side)
  {
    LinkInv(s);
  }

  lemma WriteStepsAre(x: bytes)
    ensures WriteSteps(x) == FlushSteps() + [DWrite(4 + |x|)] + [DSent]
  {
  }

  // ----- On the slave -------------------------------------------------------------------------------------

  /** The link while a frame is received: asked for its length, with it read and taken, and so for its body. */
  function Asked(l: Link): (r: Link) { l.(io := Want(false, [], 4), recvBuf := [], recvPos := 0) }

  function LengthRead(l: Link, x: bytes): (r: Link) {
    l.(io := Want(false, [], 4), recvBuf := U32(|x|), recvPos := 0, wire := x)
  }

  function LengthTaken(l: Link, x: bytes): (r: Link) {
    l.(io := Got(false, U32(|x|)), recvBuf := U32(|x|), recvPos := 4, wire := x)
  }

  function BodyAsked(l: Link, x: bytes): (r: Link) {
    l.(io := Want(true, [], |x|), recvBuf := [], recvPos := 0, wire := x)
  }

  function BodyRead(l: Link, x: bytes): (r: Link) {
    l.(io := Want(true, [], |x|), recvBuf := x, recvPos := 0, wire := [])
  }

  function BodyTaken(l: Link, x: bytes): (r: Link) {
    l.(io := Got(true, x), recvBuf := x, recvPos := |x|, wire := [])
  }

  function Emptied(l: Link, x: bytes): (r: Link) {
    l.(io := Idle, recvBuf := x, recvPos := |x|, wire := [])
  }

  /** An idle link with one frame on the wire and buffers that hold it. */
  predicate Arrived(l: Link, x: bytes) {
    l.io == Idle && l.recvPos == |l.recvBuf| && l.wire == Packet(x) && GoodLength(|x|) &&
    4 <= l.recvCap && |x| <= l.recvCap
  }

  lemma LengthStages(d: Depot, l: Link, x: bytes)
    requires Arrived(l, x) && d.ring.p == PClaimed && d.fill == Cleared
    ensures StreamTurn(d, l, NAsk, Asked(l)) && StreamTurn(d, Asked(l), NRead(4), LengthRead(l, x))
    ensures StreamTurn(d, LengthRead(l, x), NTake, LengthTaken(l, x))
    ensures LengthTaken(l, x).io == Got(false, U32(|x|)) && FromLE(U32(|x|)) == |x|
  {
    U32RoundTrip(|x|);
    assert |U32(|x|)| == 4;
    hide U32;
    assert Packet(x)[..4] == U32(|x|) && Packet(x)[4..] == x;
    assert [] + U32(|x|) == U32(|x|) && U32(|x|)[..4] == U32(|x|);
  }

  lemma BodyStages(d: Depot, l: Link, x: bytes)
    requires Arrived(l, x) && d.ring.p == PClaimed && d.fill == Granted
    ensures StreamTurn(d, LengthTaken(l, x), NAskBody, BodyAsked(l, x))
    ensures StreamTurn(d, BodyAsked(l, x), NRead(|x|), BodyRead(l, x))
    ensures StreamTurn(d, BodyRead(l, x), NTake, BodyTaken(l, x))
    ensures LengthTaken(l, x).io == Got(false, U32(|x|)) && FromLE(U32(|x|)) == |x|
    ensures BodyTaken(l, x).io == Got(true, x) && BodyTaken(l, x).HandOn() == Emptied(l, x)
  {
    U32RoundTrip(|x|);
    assert |U32(|x|)| == 4;
    hide U32, FromLE;
    assert U32(|x|)[4..] == [] && x[..|x|] == x && x[|x|..] == [] && [] + x == x;
  }

  lemma ReceiverDoes(s: Sys, a: Action, t: Sys)
    requires Good(s) && Inv(s.side) && s.l.Inv() && ReceiverCan(s, a) && DoReceiver(s, a) == t
    ensures Enabled(s, a) && Do(s, a) == t && Good(t)
  {
    hide *;
    ReceiverOnly(s, a);
    EnabledReceiver(s, a);
    DoKeepsGood(s, a);
  }

  lemma EnabledReceiver(s: Sys, a: Action)
    requires Good(s) && Inv(s.side) && s.l.Inv() && ReceiverCan(s, a)
    requires !ReaderCan(s, a) && Inv(s.m) && !DumpCan(s, a)
    ensures Enabled(s, a) && Do(s, a) == DoReceiver(s, a)
  {
    hide Good, Inv, ReaderCan, DumpCan, ReceiverCan, ConsumerCan, DoReceiver, Link.Inv;
  }

  lemma ReceiverOnly(s: Sys, a: Action)
    requires Good(s) && ReceiverCan(s, a)
    ensures !ReaderCan(s, a) && Inv(s.m) && !DumpCan(s, a)
  {
    hide Inv, Under, Beside, CanProduce;
  }

  lemma RingDoes(s: Sys, p: PStep, d: Depot)
    requires Good(s) && Inv(s.side) && CanProduce(s.side, p) && Produce(s.side, p) == d
    requires p == Check || p == Decide || p == Free || p == Move || p == Commit
    ensures Enabled(s, Receiver(p)) && Do(s, Receiver(p)) == s.(side := d) && Good(s.(side := d))
  {
    hide *;
    LinkOf(s);
    RingCan(s, p, d);
    ReceiverDoes(s, Receiver(p), s.(side := d));
  }

  lemma RingCan(s: Sys, p: PStep, d: Depot)
    requires Inv(s.side) && s.l.Inv() && CanProduce(s.side, p) && Produce(s.side, p) == d
    requires p == Check || p == Decide || p == Free || p == Move || p == Commit
    ensures ReceiverCan(s, Receiver(p)) && DoReceiver(s, Receiver(p)) == s.(side := d)
  {
    hide Inv, CanProduce, Produce, Link.Inv;
  }

  lemma StreamDoes(s: Sys, a: Action, l: Link)
    requires Good(s) && s.l.Inv()
    requires StreamTurn(s.side, s.l, a, l)
    ensures Enabled(s, a) && Do(s, a) == s.(l := l) && Good(s.(l := l))
  {
    hide *;
    LinkOf(s);
    StreamCan(s, a, l);
    ReceiverDoes(s, a, s.(l := l));
  }

  lemma StreamCan(s: Sys, a: Action, l: Link)
    requires Inv(s.side) && s.l.Inv()
    requires StreamTurn(s.side, s.l, a, l)
    ensures ReceiverCan(s, a) && DoReceiver(s, a) == s.(l := l)
  {
    hide Inv, Link.Inv, Link.Ask, Link.Read, Link.Take, Link.AskBody;
  }

  lemma AllocDoes(s: Sys, c: nat, n: nat, d: Depot)
    requires Good(s) && Inv(s.side) && CanProduce(s.side, Alloc(c, n)) && Produce(s.side, Alloc(c, n)) == d
    requires s.l.io.Got? && !s.l.io.body && n == FromLE(s.l.io.data)
    ensures Enabled(s, Receiver(Alloc(c, n))) && Do(s, Receiver(Alloc(c, n))) == s.(side := d) && Good(s.(side := d))
  {
    hide *;
    LinkOf(s);
    AllocCan(s, c, n, d);
    ReceiverDoes(s, Receiver(Alloc(c, n)), s.(side := d));
  }

  lemma AllocCan(s: Sys, c: nat, n: nat, d: Depot)
    requires Inv(s.side) && s.l.Inv() && CanProduce(s.side, Alloc(c, n)) && Produce(s.side, Alloc(c, n)) == d
    requires s.l.io.Got? && !s.l.io.body && n == FromLE(s.l.io.data)
    ensures ReceiverCan(s, Receiver(Alloc(c, n))) && DoReceiver(s, Receiver(Alloc(c, n))) == s.(side := d)
  {
    hide Inv, CanProduce, Produce, Link.Inv;
  }

  lemma StoreDoes(s: Sys, x: bytes, d: Depot)
    requires Good(s) && Inv(s.side) && CanProduce(s.side, Store(x)) && Produce(s.side, Store(x)) == d
    requires s.l.io == Got(true, x)
    ensures var t := s.(side := d, l := s.l.HandOn(), rx := s.rx + [x]);
            Enabled(s, Receiver(Store(x))) && Do(s, Receiver(Store(x))) == t && Good(t)
  {
    hide *;
    LinkOf(s);
    StoreCan(s, x, d);
    ReceiverDoes(s, Receiver(Store(x)), s.(side := d, l := s.l.HandOn(), rx := s.rx + [x]));
  }

  lemma StoreCan(s: Sys, x: bytes, d: Depot)
    requires Inv(s.side) && s.l.Inv() && CanProduce(s.side, Store(x)) && Produce(s.side, Store(x)) == d
    requires s.l.io == Got(true, x)
    ensures ReceiverCan(s, Receiver(Store(x)))
    ensures DoReceiver(s, Receiver(Store(x))) == s.(side := d, l := s.l.HandOn(), rx := s.rx + [x])
  {
    hide Inv, CanProduce, Produce, Link.Inv;
  }

  function LengthSteps(): (acts: seq<Action>) {
    [Receiver(Check)] + [Receiver(Decide)] + [Receiver(Free)] + [NAsk] + [NRead(4)] + [NTake]
  }

  function BodySteps(c: nat, x: bytes): (acts: seq<Action>) {
    LengthSteps() + [Receiver(Alloc(c, |x|))] + [NAskBody] + [NRead(|x|)] + [NTake] + [Receiver(Store(x))]
  }

  lemma StepsAre(c: nat, x: bytes)
    ensures LengthSteps() ==
            [Receiver(Check)] + [Receiver(Decide)] + [Receiver(Free)] + [NAsk] + [NRead(4)] + [NTake]
    ensures BodySteps(c, x) ==
            LengthSteps() + [Receiver(Alloc(c, |x|))] + [NAskBody] + [NRead(|x|)] + [NTake] + [Receiver(Store(x))]
  {
  }

  lemma ArrivedFacts(l: Link, x: bytes)
    requires Arrived(l, x)
    ensures l.io == Idle && 4 <= l.recvCap && 0 < |x| <= l.recvCap && GoodLength(|x|) && |U32(|x|)| == 4
  {
  }

  lemma ClaimShape(m: Depot)
    ensures Claimed(m, Cleared).ring.p == PClaimed && Claimed(m, Cleared).fill == Cleared
  {
  }

  lemma ChunkShape(m: Depot, c: nat, n: nat)
    requires m.ring.wp < |m.ring.slots|
    ensures WithChunk(m, c, n).ring.p == PClaimed && WithChunk(m, c, n).fill == Granted
  {
  }

  /** The receiver claims a slot and reads the length of the frame. */
  lemma SlaveReadsLength(s: Sys, x: bytes)
    requires Good(s) && Ready(s.side) && Arrived(s.l, x)
    ensures Leads(s, LengthSteps(), s.(side := Claimed(s.side, Cleared), l := LengthTaken(s.l, x)))
    ensures Good(s.(side := Claimed(s.side, Cleared), l := LengthTaken(s.l, x)))
  {
    hide *;
    StepsAre(0, x);
    ArrivedFacts(s.l, x);
    ClaimSteps(s.side);
    ClaimShape(s.side);
    LinkOf(s);
    LengthStages(Claimed(s.side, Cleared), s.l, x);
    var d := Produce(s.side, Check);
    RingDoes(s, Check, d);
    LeadsOne(s, Receiver(Check));
    var t1 := s.(side := d);
    RingDoes(t1, Decide, Claimed(s.side, Untouched));
    LeadsMore(s, [Receiver(Check)], t1, Receiver(Decide));
    var t2 := t1.(side := Claimed(s.side, Untouched));
    RingDoes(t2, Free, Claimed(s.side, Cleared));
    LeadsMore(s, [Receiver(Check)] + [Receiver(Decide)], t2, Receiver(Free));
    var t3 := t2.(side := Claimed(s.side, Cleared));
    var acts := [Receiver(Check)] + [Receiver(Decide)] + [Receiver(Free)];
    StreamDoes(t3, NAsk, Asked(s.l));
    LeadsMore(s, acts, t3, NAsk);
    var t4 := t3.(l := Asked(s.l));
    LinkOf(t4);
    StreamDoes(t4, NRead(4), LengthRead(s.l, x));
    LeadsMore(s, acts + [NAsk], t4, NRead(4));
    var t5 := t4.(l := LengthRead(s.l, x));
    LinkOf(t5);
    StreamDoes(t5, NTake, LengthTaken(s.l, x));
    LeadsMore(s, acts + [NAsk] + [NRead(4)], t5, NTake);
    assert t5.(l := LengthTaken(s.l, x)) == s.(side := Claimed(s.side, Cleared), l := LengthTaken(s.l, x));
  }

  /** It takes a chunk of that length and reads the frame into it. */
  lemma SlaveStocks(s: Sys, c: nat, x: bytes)
    requires Good(s) && Ready(s.side) && Arrived(s.l, x) && |s.side.sizes| > 0 && s.side.ring.wp < |s.side.ring.slots|
    requires Apart(s.side.sizes, s.side.heap, c, |x|) && Apart(s.side.sizes, s.side.held, c, |x|)
    ensures Leads(s, BodySteps(c, x), s.(side := Stocked(s.side, c, x), l := Emptied(s.l, x), rx := s.rx + [x]))
    ensures Good(s.(side := Stocked(s.side, c, x), l := Emptied(s.l, x), rx := s.rx + [x]))
  {
    hide *;
    StepsAre(c, x);
    ArrivedFacts(s.l, x);
    SlaveReadsLength(s, x);
    GrantStep(s.side, c, |x|);
    StockStep(s.side, c, x);
    ChunkShape(s.side, c, |x|);
    BodyStages(WithChunk(s.side, c, |x|), s.l, x);
    var t := s.(side := Claimed(s.side, Cleared), l := LengthTaken(s.l, x));
    AllocDoes(t, c, |x|, WithChunk(s.side, c, |x|));
    LeadsMore(s, LengthSteps(), t, Receiver(Alloc(c, |x|)));
    var t1 := t.(side := WithChunk(s.side, c, |x|));
    var acts := LengthSteps() + [Receiver(Alloc(c, |x|))];
    LinkOf(t1);
    StreamDoes(t1, NAskBody, BodyAsked(s.l, x));
    LeadsMore(s, acts, t1, NAskBody);
    var t2 := t1.(l := BodyAsked(s.l, x));
    LinkOf(t2);
    StreamDoes(t2, NRead(|x|), BodyRead(s.l, x));
    LeadsMore(s, acts + [NAskBody], t2, NRead(|x|));
    var t3 := t2.(l := BodyRead(s.l, x));
    LinkOf(t3);
    StreamDoes(t3, NTake, BodyTaken(s.l, x));
    LeadsMore(s, acts + [NAskBody] + [NRead(|x|)], t3, NTake);
    var t4 := t3.(l := BodyTaken(s.l, x));
    StoreDoes(t4, x, Stocked(s.side, c, x));
    LeadsMore(s, acts + [NAskBody] + [NRead(|x|)] + [NTake], t4, Receiver(Store(x)));
    assert t4.(side := Stocked(s.side, c, x), l := t4.l.HandOn(), rx := t4.rx + [x]) ==
           s.(side := Stocked(s.side, c, x), l := Emptied(s.l, x), rx := s.rx + [x]);
  }

  function ArrivalSteps(c: nat, x: bytes): (acts: seq<Action>) {
    BodySteps(c, x) + [Receiver(Move)] + [Receiver(Commit)]
  }

  /** And hands the slot over. */
  lemma SlaveOffers(s: Sys, c: nat, x: bytes)
    requires Good(s) && Ready(s.side) && Arrived(s.l, x) && |s.side.sizes| > 0 && s.side.ring.wp < |s.side.ring.slots|
    requires Apart(s.side.sizes, s.side.heap, c, |x|) && Apart(s.side.sizes, s.side.held, c, |x|)
    ensures Leads(s, ArrivalSteps(c, x), s.(side := Offered(s.side, c, x), l := Emptied(s.l, x), rx := s.rx + [x]))
    ensures Good(s.(side := Offered(s.side, c, x), l := Emptied(s.l, x), rx := s.rx + [x]))
  {
    hide *;
    ArrivedFacts(s.l, x);
    SlaveStocks(s, c, x);
    OfferSteps(s.side, c, x);
    var t := s.(side := Stocked(s.side, c, x), l := Emptied(s.l, x), rx := s.rx + [x]);
    var d := Produce(t.side, Move);
    RingDoes(t, Move, d);
    LeadsMore(s, BodySteps(c, x), t, Receiver(Move));
    var t1 := t.(side := d);
    RingDoes(t1, Commit, Offered(s.side, c, x));
    LeadsMore(s, BodySteps(c, x) + [Receiver(Move)], t1, Receiver(Commit));
    assert t1.(side := Offered(s.side, c, x)) ==
           s.(side := Offered(s.side, c, x), l := Emptied(s.l, x), rx := s.rx + [x]);
    ArrivalStepsAre(c, x);
  }

  lemma ArrivalStepsAre(c: nat, x: bytes)
    ensures ArrivalSteps(c, x) == BodySteps(c, x) + [Receiver(Move)] + [Receiver(Commit)]
  {
  }

  lemma ConsumerDoes(s: Sys, c: CStep, d: Depot)
    requires Good(s) && Inv(s.side) && CanConsume(s.side, c) && Consume(s.side, c) == d && c != Drop && !s.ended
    ensures Enabled(s, Consumer(c)) && Do(s, Consumer(c)) == s.(side := d) && Good(s.(side := d))
  {
    hide *;
    LinkOf(s);
    ConsumerOnly(s, c, d);
    DoKeepsGood(s, Consumer(c));
  }

  lemma ConsumerOnly(s: Sys, c: CStep, d: Depot)
    requires Good(s) && Inv(s.side) && CanConsume(s.side, c) && Consume(s.side, c) == d && c != Drop && !s.ended
    ensures Enabled(s, Consumer(c)) && Do(s, Consumer(c)) == s.(side := d)
  {
    hide Inv, Under, Beside, CanConsume, Consume;
  }

  /** The consumer applies what it finds. */
  lemma ConsumerTakes(s: Sys, z: bytes)
    requires Good(s) && Offers(s.side, z) && !s.ended
    ensures Leads(s, [Consumer(Look)] + [Consumer(Find)] + [Consumer(Copy)], s.(side := Taken(s.side, z)))
    ensures Good(s.(side := Taken(s.side, z)))
  {
    hide *;
    LinkOf(s);
    TakeSteps(s.side, z);
    var d1 := Consume(s.side, Look);
    ConsumerDoes(s, Look, d1);
    LeadsOne(s, Consumer(Look));
    var t1 := s.(side := d1);
    var d2 := Consume(d1, Find);
    ConsumerDoes(t1, Find, d2);
    LeadsMore(s, [Consumer(Look)], t1, Consumer(Find));
    var t2 := t1.(side := d2);
    ConsumerDoes(t2, Copy, Taken(s.side, z));
    LeadsMore(s, [Consumer(Look)] + [Consumer(Find)], t2, Consumer(Copy));
    assert t2.(side := Taken(s.side, z)) == s.(side := Taken(s.side, z));
  }

  /** A link at rest: nothing buffered, sent or awaited, with buffers for `x`. */
  predicate AtRest(l: Link, x: bytes) {
    !l.sending && l.sendBuf == [] && l.sent == 0 && l.wire == [] && l.io == Idle && l.recvPos == |l.recvBuf| &&
    4 + |x| <= l.sendCap && 4 <= l.recvCap && |x| <= l.recvCap && GoodLength(|x|)
  }

  lemma RestFacts(l: Link, x: bytes)
    requires AtRest(l, x)
    ensures !l.sending && l.sendBuf == [] && l.sent == 0 && l.wire == [] && 4 + |x| <= l.sendCap && GoodLength(|x|)
    ensures Arrived(l.(wire := Packet(x)), x)
    ensures forall y: bytes :: AtRest(l, y) ==> AtRest(Emptied(l.(wire := Packet(x)), x), y)
  {
  }

  function PassSteps(a: nat, x: bytes): (acts: seq<Action>) {
    RoundSteps(a, x) + WriteSteps(x)
  }

  /** A frame handed over on the master and sent. */
  lemma FramePasses(s: Sys, a: nat, x: bytes)
    requires Good(s) && Ready(s.m) && s.m.ring.c == CIdle && s.m.ring.rn == s.m.ring.wn && AtRest(s.l, x)
    requires |s.m.sizes| > 0 && s.m.ring.wp < |s.m.ring.slots|
    requires Apart(s.m.sizes, s.m.heap, a, |x|) && Apart(s.m.sizes, s.m.held, a, |x|)
    ensures Leads(s, PassSteps(a, x), s.(m := Returned(Offered(s.m, a, x), x), l := s.l.(wire := Packet(x))))
    ensures Good(s.(m := Returned(Offered(s.m, a, x), x), l := s.l.(wire := Packet(x))))
  {
    hide *;
    RestFacts(s.l, x);
    OfferSteps(s.m, a, x);
    OfferedOffers(s.m, a, x);
    ReaderOffers(s, a, x);
    var t := s.(m := Offered(s.m, a, x));
    DumpSends(t, x);
    var u := s.(m := Returned(Offered(s.m, a, x), x), l := s.l.(wire := Packet(x)));
    assert t.(m := Returned(t.m, x), l := t.l.(wire := Packet(x))) == u;
    LeadsAppend(s, RoundSteps(a, x), t, WriteSteps(x), u);
    PassStepsAre(a, x);
  }

  lemma PassStepsAre(a: nat, x: bytes)
    ensures PassSteps(a, x) == RoundSteps(a, x) + WriteSteps(x)
  {
  }
}
