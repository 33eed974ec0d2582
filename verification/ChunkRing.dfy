/**
 * A ring whose slots own chunks of a pool, as both processes use it: the producer frees
 * the chunk left in a slot, takes a new one, fills it and hands the slot over; the
 * consumer copies the chunk out and hands the slot back. Chunks are known by their
 * addresses, so that what is written past the end of one lands in those behind it.
 * Freeing clears the slot here; the slave leaves the old address in it until the next chunk
 * is there, but nobody follows it in between.
 */
module ChunkRing {
  import opened Bytes
  import opened ClassTable
  import opened Spsc

  // ----- Memory ---------------------------------------------------------------------

  /** The bytes `was` at address `d` after `data` has been written at address `c`. */
  function Overlay(d: nat, was: bytes, c: nat, data: bytes): (r: bytes)
    ensures |r| == |was|
  {
    seq(|was|, i requires 0 <= i < |was| => if c <= d + i < c + |data| then data[d + i - c] else was[i])
  }

  /** All chunks after `data` has been written at `c`. */
  function Written(heap: map<nat, bytes>, c: nat, data: bytes): (h: map<nat, bytes>)
    ensures h.Keys == heap.Keys && forall d <- heap :: |h[d]| == |heap[d]|
  {
    map d | d in heap :: Overlay(d, heap[d], c, data)
  }

  /** Chunks of `n` and `k` bytes at `c` and `d` have their own memory. */
  predicate Clear(sizes: seq<nat>, c: nat, n: nat, d: nat, k: nat)
    requires |sizes| > 0
  {
    c != d && (c + Room(sizes, n) <= d || d + Room(sizes, k) <= c)
  }

  /** A chunk of `n` bytes at `c` has its own memory beside all of these. */
  ghost predicate Apart(sizes: seq<nat>, heap: map<nat, bytes>, c: nat, n: nat)
    requires |sizes| > 0
  {
    forall d <- heap :: Clear(sizes, c, n, d, |heap[d]|)
  }

  /** All these chunks have. */
  ghost predicate Spaced(sizes: seq<nat>, heap: map<nat, bytes>, held: map<nat, bytes>)
    requires |sizes| > 0
  {
    (forall c, d :: c in heap && d in heap && c != d ==> Clear(sizes, c, |heap[c]|, d, |heap[d]|)) &&
    (forall c, d :: c in heap && d in held ==> Clear(sizes, c, |heap[c]|, d, |held[d]|))
  }

  /** Every chunk has room for what is in it. */
  ghost predicate Roomed(sizes: seq<nat>, heap: map<nat, bytes>)
    requires |sizes| > 0
  {
    forall d <- heap :: Room(sizes, |heap[d]|) >= |heap[d]|
  }

  /** Writing to one chunk leaves another alone where both have room. */
  lemma OverlaySpares(sizes: seq<nat>, d: nat, was: bytes, c: nat, data: bytes)
    requires |sizes| > 0 && Clear(sizes, c, |data|, d, |was|)
    requires Room(sizes, |data|) >= |data| && Room(sizes, |was|) >= |was|
    ensures Overlay(d, was, c, data) == was
  {
    hide Room;
  }

  lemma OverlaySame(c: nat, was: bytes, data: bytes)
    requires |was| == |data|
    ensures Overlay(c, was, c, data) == data
  {
  }

  /**
   * What a write to one chunk does to another that has room for its own contents: it changes
   * them if and only if that chunk lies behind the one written to, so near that the
   * data reach it, and the bytes there differ.
   */
  lemma OverlayChangesIff(sizes: seq<nat>, d: nat, was: bytes, c: nat, data: bytes)
    requires |sizes| > 0 && Clear(sizes, c, |data|, d, |was|) && Room(sizes, |was|) >= |was|
    ensures Overlay(d, was, c, data) != was <==>
            c + Room(sizes, |data|) <= d &&
            exists i :: 0 <= i < |was| && (d + i < c + |data|) && data[d + i - c] != was[i]
  {
    hide Room;
    var r := Overlay(d, was, c, data);
    if r != was {
      var i :| 0 <= i < |was| && r[i] != was[i];
      assert d + i < c + |data| && data[d + i - c] != was[i];
    } else if c + Room(sizes, |data|) <= d {
      assert forall i :: 0 <= i < |was| && (d + i < c + |data|) ==> r[i] == data[d + i - c];
    }
  }

  // ----- The ring ---------------------------------------------------------------------

  /** How far the producer is with the slot it claimed. */
  datatype Fill = Untouched | Cleared | Granted | Filled | Dead

  /**
   * Slots hold chunk addresses, None for a null pointer; `heap` has the contents of the
   * live chunks, and `held` those of chunks of the same pool that serve something else.
   * `put` lists the payloads handed over so far, and `out` what the consumer has copied.
   * `sizes` are the chunk sizes of the pool.
   */
  datatype Depot = Depot(sizes: seq<nat>, held: map<nat, bytes>, ring: Ring<Option<nat>>, heap: map<nat, bytes>,
                         fill: Fill, put: seq<bytes>, out: seq<bytes>, copied: bool)

  ghost predicate Start(m: Depot, num: nat) {
    Created(m.ring, num) && (forall i :: 0 <= i < num ==> m.ring.slots[i] == None) &&
    m.heap == map[] && m.fill == Untouched && m.put == m.out == [] && !m.copied &&
    |m.sizes| > 0 && Increasing(m.sizes) && Spaced(m.sizes, m.held, map[])
  }

  // ----- Ownership ----------------------------------------------------------------------

  /** Every non-null slot holds a live chunk of its own, and every live chunk is in a slot. */
  ghost predicate Owns(slots: seq<Option<nat>>, heap: map<nat, bytes>) {
    (forall i :: 0 <= i < |slots| && slots[i].Some? ==> slots[i].value in heap) &&
    (forall i, j :: 0 <= i < j < |slots| && slots[i].Some? && slots[j].Some? ==> slots[i].value != slots[j].value) &&
    (forall c <- heap :: Some(c) in slots)
  }

  /** The slot holds a chunk of `n` bytes. */
  ghost predicate Sized(slots: seq<Option<nat>>, heap: map<nat, bytes>, i: nat, n: nat)
    requires i < |slots|
  {
    slots[i].Some? && slots[i].value in heap && |heap[slots[i].value]| == n
  }

  /** And these are its contents. */
  ghost predicate Holds(m: Depot, i: nat, payload: bytes)
    requires i < |m.ring.slots|
  {
    m.ring.slots[i].Some? && m.ring.slots[i].value in m.heap && m.heap[m.ring.slots[i].value] == payload
  }

  predicate GoodLength(n: nat) {
    0 < n < U32_LIMIT
  }

  /** The slot holds a chunk of a length that can be asked for. */
  ghost predicate GoodSlot(m: Depot, i: nat)
    requires i < |m.ring.slots|
  {
    m.ring.slots[i].Some? && m.ring.slots[i].value in m.heap && GoodLength(|m.heap[m.ring.slots[i].value]|)
  }

  /** A payload waits in the slot, not handed over yet. */
  predicate Waiting(m: Depot) {
    m.ring.p == PMoved || (m.ring.p == PClaimed && m.fill == Filled)
  }

  /** What every state keeps, whatever is written past the end of chunks. */
  ghost predicate Inv(m: Depot) {
    m.ring.Inv() && Owns(m.ring.slots, m.heap) && |m.sizes| > 0 &&
    Spaced(m.sizes, m.heap, m.held) &&
    |m.put| == m.ring.wn && (forall p <- m.put :: GoodLength(|p|)) &&
    (forall i :: m.ring.rn <= i < m.ring.wn ==> Sized(m.ring.slots, m.heap, SlotOf(i, m.ring.num), |m.put[i]|)) &&
    (m.ring.p == PClaimed && m.fill == Cleared ==> m.ring.slots[m.ring.wp] == None) &&
    (m.ring.p == PClaimed && (m.fill == Granted || m.fill == Filled) ==> GoodSlot(m, m.ring.wp)) &&
    (m.ring.p == PMoved ==> GoodSlot(m, SlotOf(m.ring.wn, m.ring.num))) &&
    |m.out| == m.ring.rn + (if m.copied then 1 else 0) <= |m.put| &&
    (forall j :: 0 <= j < |m.out| ==> |m.out[j]| == |m.put[j]|) &&
    (m.copied ==> m.ring.c == CClaimed || m.ring.c == CMoved) && (m.ring.c == CMoved ==> m.copied) &&
    (m.fill == Dead ==> m.ring.p == PClaimed)
  }

  /** What is kept besides while every chunk has room: nothing handed over is changed. */
  ghost predicate Exact(m: Depot)
    requires Inv(m)
  {
    Roomed(m.sizes, m.heap) && m.out <= m.put &&
    forall i :: m.ring.rn <= i < m.ring.wn ==> Holds(m, SlotOf(i, m.ring.num), m.put[i])
  }

  // ----- Steps --------------------------------------------------------------------------

  datatype PStep =
    | Check          // reads the consumer's counter
    | Decide
    | Free           // frees the chunk of the last round, if there is one
    | Alloc(c: nat, n: nat)
    | Store(data: bytes)
    | Fail           // the pool has no chunk: the thread ends
    | Move
    | Commit

  datatype CStep =
    | Look           // reads the producer's counter
    | Find
    | Drop           // gives the claim up
    | Copy
    | Leave
    | Release

  ghost predicate CanProduce(m: Depot, a: PStep) {
    match a
    case Check => m.ring.p == PIdle
    case Decide => m.ring.p.PSeen?
    case Free => m.ring.p == PClaimed && m.fill == Untouched
    case Alloc(c, n) =>
      m.ring.p == PClaimed && m.fill == Cleared && GoodLength(n) && |m.sizes| > 0 &&
      Apart(m.sizes, m.heap, c, n) && Apart(m.sizes, m.held, c, n)
    case Store(data) =>
      m.ring.p == PClaimed && m.fill == Granted && m.ring.wp < |m.ring.slots| &&
      Sized(m.ring.slots, m.heap, m.ring.wp, |data|)
    case Fail => m.ring.p == PClaimed && m.fill == Cleared
    case Move => m.ring.p == PClaimed && m.fill == Filled
    case Commit => m.ring.p == PMoved
  }

  predicate CanConsume(m: Depot, a: CStep) {
    match a
    case Look => m.ring.c == CIdle
    case Find => m.ring.c.CSeen?
    case Drop => m.ring.c == CClaimed && !m.copied
    case Copy => m.ring.c == CClaimed && !m.copied
    case Leave => m.ring.c == CClaimed && m.copied
    case Release => m.ring.c == CMoved
  }

  /** Contents of a slot's chunk, as whoever follows the slot's pointer sees them. */
  function Payload(m: Depot, i: nat): (p: bytes)
    requires i < |m.ring.slots| && m.ring.slots[i].Some? && m.ring.slots[i].value in m.heap
  {
    m.heap[m.ring.slots[i].value]
  }

  /** What is in a chunk before anything is written to it is never read. */
  function Blank(n: nat): (s: bytes)
    ensures |s| == n
  {
    seq(n, _ => 0)
  }

  function Freed(m: Depot): (r: Depot)
    requires m.ring.p == PClaimed && m.ring.wp < |m.ring.slots|
  {
    match m.ring.slots[m.ring.wp]
    case None => m.(fill := Cleared)
    case Some(c) => m.(ring := m.ring.PWrite(None), heap := m.heap - {c}, fill := Cleared)
  }

  function Granting(m: Depot, c: nat, n: nat): (r: Depot)
    requires m.ring.p == PClaimed && m.ring.wp < |m.ring.slots|
  {
    m.(ring := m.ring.PWrite(Some(c)), heap := m.heap[c := Blank(n)], fill := Granted)
  }

  /** Writing reaches everything that lies where the data go. */
  function Storing(m: Depot, data: bytes): (r: Depot)
    requires m.ring.wp < |m.ring.slots| && m.ring.slots[m.ring.wp].Some?
  {
    var c := m.ring.slots[m.ring.wp].value;
    m.(heap := Written(m.heap, c, data), held := Written(m.held, c, data), fill := Filled)
  }

  function HandingOver(m: Depot): (r: Depot)
    requires m.ring.p == PMoved && m.ring.num > 0
    requires var i := SlotOf(m.ring.wn, m.ring.num);
             i < |m.ring.slots| && m.ring.slots[i].Some? && m.ring.slots[i].value in m.heap
  {
    m.(ring := m.ring.PCommit(), put := m.put + [Payload(m, SlotOf(m.ring.wn, m.ring.num))])
  }

  ghost function Produce(m: Depot, a: PStep): (r: Depot)
    requires Inv(m) && CanProduce(m, a)
  {
    match a
    case Check => m.(ring := m.ring.PCheck())
    case Decide => m.(ring := m.ring.PDecide(), fill := Untouched)
    case Free => Freed(m)
    case Alloc(c, n) => Granting(m, c, n)
    case Store(data) => Storing(m, data)
    case Fail => m.(fill := Dead)
    case Move => m.(ring := m.ring.PMove())
    case Commit => HandingOver(m)
  }

  ghost function Consume(m: Depot, a: CStep): (r: Depot)
    requires Inv(m) && CanConsume(m, a)
  {
    match a
    case Look => m.(ring := m.ring.CCheck())
    case Find => m.(ring := m.ring.CDecide())
    case Drop => m.(ring := m.ring.CDrop())
    case Copy =>
      ClaimedIsLive(m);
      m.(copied := true, out := m.out + [Payload(m, m.ring.rp)])
    case Leave => m.(ring := m.ring.CMove())
    case Release => m.(ring := m.ring.CCommit(), copied := false)
  }

  /** The consumer never follows a pointer to a freed chunk: its slot leads to a chunk as long as the next payload. */
  lemma ClaimedIsLive(m: Depot)
    requires Inv(m) && m.ring.c == CClaimed && !m.copied
    ensures m.ring.rp < |m.ring.slots| && m.ring.slots[m.ring.rp].Some? && m.ring.slots[m.ring.rp].value in m.heap
    ensures |m.out| < |m.put| && |Payload(m, m.ring.rp)| == |m.put[|m.out|]|
  {
    hide Owns, Spaced;
    assert Sized(m.ring.slots, m.heap, SlotOf(m.ring.rn, m.ring.num), |m.put[m.ring.rn]|);
  }

  // ----- Every step keeps the invariant ----------------------------------------------------

  lemma StartInv(m: Depot, num: nat)
    requires Start(m, num)
    ensures Inv(m) && Exact(m)
  {
  }

  lemma SameSlots(slots: seq<Option<nat>>, heap: map<nat, bytes>, heap': map<nat, bytes>)
    requires Owns(slots, heap) && heap'.Keys == heap.Keys
    ensures Owns(slots, heap')
  {
    forall c | c in heap' ensures Some(c) in slots {
      assert c in heap;
    }
  }

  lemma SlotIsLive(slots: seq<Option<nat>>, heap: map<nat, bytes>, w: nat)
    requires Owns(slots, heap) && w < |slots| && slots[w].Some?
    ensures slots[w].value in heap
  {
  }

  lemma DistinctChunks(slots: seq<Option<nat>>, heap: map<nat, bytes>, i: nat, j: nat)
    requires Owns(slots, heap) && i < |slots| && j < |slots| && i != j && slots[i].Some? && slots[j].Some?
    ensures slots[i].value != slots[j].value
  {
  }

  lemma ClearKeepsOwns(slots: seq<Option<nat>>, heap: map<nat, bytes>, w: nat)
    requires Owns(slots, heap) && w < |slots| && slots[w].Some?
    ensures Owns(slots[w := None], heap - {slots[w].value})
  {
    var s', h' := slots[w := None], heap - {slots[w].value};
    forall c | c in h' ensures Some(c) in s' {
      var i :| 0 <= i < |slots| && slots[i] == Some(c);
      assert s'[i] == Some(c);
    }
  }

  lemma SetKeepsOwns(slots: seq<Option<nat>>, heap: map<nat, bytes>, w: nat, c: nat, payload: bytes)
    requires Owns(slots, heap) && w < |slots| && slots[w] == None && c !in heap
    ensures Owns(slots[w := Some(c)], heap[c := payload])
  {
    var s', h' := slots[w := Some(c)], heap[c := payload];
    forall d | d in h' ensures Some(d) in s' {
      if d == c {
        assert s'[w] == Some(c);
      } else {
        var i :| 0 <= i < |slots| && slots[i] == Some(d);
        assert s'[i] == Some(d);
      }
    }
  }

  /** Steps of either side that leave slots, chunks and payloads alone. */
  lemma QuietKeepsBacked(m: Depot, r: Depot)
    requires Inv(m) && r.ring.Inv() && r.heap == m.heap && r.held == m.held && r.put == m.put && r.sizes == m.sizes
    requires r.ring.slots == m.ring.slots && r.ring.num == m.ring.num && r.ring.wn == m.ring.wn
    requires m.ring.rn <= r.ring.rn
    ensures Owns(r.ring.slots, r.heap) && Spaced(r.sizes, r.heap, r.held)
    ensures |r.put| == r.ring.wn && (forall p <- r.put :: GoodLength(|p|))
    ensures forall i :: r.ring.rn <= i < r.ring.wn ==>
              Sized(r.ring.slots, r.heap, SlotOf(i, r.ring.num), |r.put[i]|)
  {
    hide SlotOf, Owns, Spaced, Sized;
    forall i | r.ring.rn <= i < r.ring.wn
      ensures Sized(r.ring.slots, r.heap, SlotOf(i, r.ring.num), |r.put[i]|)
    {
      assert Sized(m.ring.slots, m.heap, SlotOf(i, m.ring.num), |m.put[i]|);
    }
  }

  lemma PointersKeepInv(m: Depot, a: PStep)
    requires Inv(m) && CanProduce(m, a) && (a == Check || a == Decide || a == Fail || a == Move)
    ensures Inv(Produce(m, a))
  {
    hide SlotOf, Owns, Spaced, Sized;
    var r := Produce(m, a);
    if a != Fail {
      ProducerKeepsInv(m.ring, r.ring);
    }
    QuietKeepsBacked(m, r);
  }

  lemma FreeKeepsInv(m: Depot)
    requires Inv(m) && CanProduce(m, Free)
    ensures Inv(Produce(m, Free))
    ensures m.ring.slots[m.ring.wp].Some? ==> m.ring.slots[m.ring.wp].value in m.heap
  {
    hide SlotOf, Owns, Spaced, Sized;
    var w, r := m.ring.wp, Produce(m, Free);
    if m.ring.slots[w].Some? {
      SlotIsLive(m.ring.slots, m.heap, w);
      ProducerKeepsInv(m.ring, r.ring);
      ClearKeepsOwns(m.ring.slots, m.heap, w);
      FewerSpaced(m.sizes, m.heap, m.held, m.ring.slots[w].value);
      FreeKeepsBacked(m);
    } else {
      QuietKeepsBacked(m, r);
    }
  }

  lemma FewerSpaced(sizes: seq<nat>, heap: map<nat, bytes>, held: map<nat, bytes>, c: nat)
    requires |sizes| > 0 && Spaced(sizes, heap, held)
    ensures Spaced(sizes, heap - {c}, held)
  {
    hide Clear;
  }

  lemma FreeKeepsBacked(m: Depot)
    requires Inv(m) && CanProduce(m, Free) && m.ring.slots[m.ring.wp].Some?
    ensures var r := Produce(m, Free);
            forall i :: r.ring.rn <= i < r.ring.wn ==>
              Sized(r.ring.slots, r.heap, SlotOf(i, r.ring.num), |r.put[i]|)
  {
    hide SlotOf, Owns, Spaced;
    var r, w := Produce(m, Free), m.ring.wp;
    forall i | r.ring.rn <= i < r.ring.wn
      ensures Sized(r.ring.slots, r.heap, SlotOf(i, r.ring.num), |r.put[i]|)
    {
      SlotsDiffer(i, m.ring.wn, m.ring.num);
      assert Sized(m.ring.slots, m.heap, SlotOf(i, m.ring.num), |m.put[i]|);
      DistinctChunks(m.ring.slots, m.heap, SlotOf(i, m.ring.num), w);
    }
  }

  lemma AllocKeepsInv(m: Depot, c: nat, n: nat)
    requires Inv(m) && CanProduce(m, Alloc(c, n))
    ensures Inv(Produce(m, Alloc(c, n)))
  {
    hide SlotOf, Owns, Spaced, Sized, Apart;
    var r := Produce(m, Alloc(c, n));
    NotIn(m.sizes, m.heap, c, n);
    ProducerKeepsInv(m.ring, r.ring);
    SetKeepsOwns(m.ring.slots, m.heap, m.ring.wp, c, Blank(n));
    MoreSpaced(m.sizes, m.heap, m.held, c, Blank(n));
    AllocKeepsBacked(m, c, n);
  }

  lemma NotIn(sizes: seq<nat>, heap: map<nat, bytes>, c: nat, n: nat)
    requires |sizes| > 0 && Apart(sizes, heap, c, n)
    ensures c !in heap
  {
    hide Room;
  }

  lemma MoreSpaced(sizes: seq<nat>, heap: map<nat, bytes>, held: map<nat, bytes>, c: nat, blank: bytes)
    requires |sizes| > 0 && Spaced(sizes, heap, held)
    requires Apart(sizes, heap, c, |blank|) && Apart(sizes, held, c, |blank|)
    ensures Spaced(sizes, heap[c := blank], held)
  {
    hide Room;
    var h := heap[c := blank];
    forall a, b | a in h && b in h && a != b ensures Clear(sizes, a, |h[a]|, b, |h[b]|) {
      if a != c && b == c {
        assert Clear(sizes, c, |blank|, a, |heap[a]|);
      }
    }
  }

  lemma AllocKeepsBacked(m: Depot, c: nat, n: nat)
    requires Inv(m) && CanProduce(m, Alloc(c, n)) && c !in m.heap
    ensures var r := Produce(m, Alloc(c, n));
            forall i :: r.ring.rn <= i < r.ring.wn ==>
              Sized(r.ring.slots, r.heap, SlotOf(i, r.ring.num), |r.put[i]|)
  {
    hide SlotOf, Owns, Spaced, Apart;
    var r := Produce(m, Alloc(c, n));
    forall i | r.ring.rn <= i < r.ring.wn
      ensures Sized(r.ring.slots, r.heap, SlotOf(i, r.ring.num), |r.put[i]|)
    {
      SlotsDiffer(i, m.ring.wn, m.ring.num);
      assert Sized(m.ring.slots, m.heap, SlotOf(i, m.ring.num), |m.put[i]|);
    }
  }

  lemma SameSpaced(sizes: seq<nat>, heap: map<nat, bytes>, held: map<nat, bytes>, c: nat, data: bytes)
    requires |sizes| > 0 && Spaced(sizes, heap, held)
    ensures Spaced(sizes, Written(heap, c, data), Written(held, c, data))
  {
    hide Room, Clear, Overlay;
  }

  lemma StoreKeepsInv(m: Depot, data: bytes)
    requires Inv(m) && CanProduce(m, Store(data))
    ensures Inv(Produce(m, Store(data)))
  {
    hide SlotOf, Owns, Spaced, Overlay;
    var r, c := Produce(m, Store(data)), m.ring.slots[m.ring.wp].value;
    SameSlots(m.ring.slots, m.heap, r.heap);
    SameSpaced(m.sizes, m.heap, m.held, c, data);
    forall i | r.ring.rn <= i < r.ring.wn
      ensures Sized(r.ring.slots, r.heap, SlotOf(i, r.ring.num), |r.put[i]|)
    {
      assert Sized(m.ring.slots, m.heap, SlotOf(i, m.ring.num), |m.put[i]|);
    }
  }

  lemma CommitKeepsInv(m: Depot)
    requires Inv(m) && m.ring.p == PMoved
    ensures Inv(Produce(m, Commit))
    ensures Produce(m, Commit).put == m.put + [Payload(m, SlotOf(m.ring.wn, m.ring.num))]
  {
    hide SlotOf, Owns, Spaced;
    var r := Produce(m, Commit);
    ProducerKeepsInv(m.ring, r.ring);
    forall i | r.ring.rn <= i < r.ring.wn
      ensures Sized(r.ring.slots, r.heap, SlotOf(i, r.ring.num), |r.put[i]|)
    {
      if i < m.ring.wn {
        assert Sized(m.ring.slots, m.heap, SlotOf(i, m.ring.num), |m.put[i]|);
      }
    }
  }

  lemma ProduceKeepsInv(m: Depot, a: PStep)
    requires Inv(m) && CanProduce(m, a)
    ensures Inv(Produce(m, a))
  {
    hide Inv, CanProduce, Produce;
    match a {
      case Free => FreeKeepsInv(m);
      case Alloc(c, n) => AllocKeepsInv(m, c, n);
      case Store(data) => StoreKeepsInv(m, data);
      case Commit =>
        CommitWhenMoved(m);
        CommitKeepsInv(m);
      case _ => PointersKeepInv(m, a);
    }
  }

  lemma CommitWhenMoved(m: Depot)
    requires CanProduce(m, Commit)
    ensures m.ring.p == PMoved
  {
  }

  lemma ConsumeKeepsInv(m: Depot, a: CStep)
    requires Inv(m) && CanConsume(m, a)
    ensures Inv(Consume(m, a))
  {
    hide SlotOf, Owns, Spaced, Sized;
    var r := Consume(m, a);
    if a == Copy {
      ClaimedIsLive(m);
    } else {
      ConsumerKeepsInv(m.ring, r.ring);
    }
    QuietKeepsBacked(m, r);
  }

  /** The producer adds a payload when it hands a slot over, and leaves alone what was copied. */
  lemma ProduceKeepsOut(m: Depot, a: PStep)
    requires Inv(m) && CanProduce(m, a)
    ensures Produce(m, a).out == m.out && m.put <= Produce(m, a).put && (a != Commit ==> Produce(m, a).put == m.put)
    ensures Produce(m, a).sizes == m.sizes && Produce(m, a).ring.num == m.ring.num
  {
    hide Inv;
  }

  /** All payloads and chunks have lengths among these. */
  ghost predicate LengthsIn(m: Depot, ns: iset<nat>) {
    (forall p <- m.put :: |p| in ns) && (forall d <- m.heap :: |m.heap[d]| in ns)
  }

  lemma ProduceKeepsLengths(m: Depot, a: PStep, ns: iset<nat>)
    requires Inv(m) && CanProduce(m, a) && LengthsIn(m, ns) && (a.Alloc? ==> a.n in ns)
    ensures LengthsIn(Produce(m, a), ns)
  {
    hide Inv, Sized, Apart, Overlay, SlotOf;
    if a == Commit {
      MovedSlot(m);
    }
  }

  lemma MovedSlot(m: Depot)
    requires Inv(m) && m.ring.p == PMoved
    ensures m.ring.num > 0 && SlotOf(m.ring.wn, m.ring.num) < |m.ring.slots|
    ensures GoodSlot(m, SlotOf(m.ring.wn, m.ring.num))
  {
    hide Owns, Spaced, Sized, SlotOf;
  }

  // ----- What is kept while every chunk has room ----------------------------------------------

  lemma StoreFacts(m: Depot, data: bytes)
    requires Inv(m) && CanProduce(m, Store(data))
    ensures m.ring.wp < |m.ring.slots| && m.ring.slots[m.ring.wp].Some?
    ensures var c, r := m.ring.slots[m.ring.wp].value, Produce(m, Store(data));
            c in m.heap && |m.heap[c]| == |data| &&
            r.heap == Written(m.heap, c, data) && r.held == Written(m.held, c, data) &&
            (forall d <- m.heap :: d != c ==> Clear(m.sizes, c, |data|, d, |m.heap[d]|)) &&
            Apart(m.sizes, m.held, c, |data|)
  {
    hide Owns, SlotOf, Clear, Written;
  }

  lemma WrittenAt(heap: map<nat, bytes>, c: nat, data: bytes, d: nat)
    requires d in heap
    ensures d in Written(heap, c, data) && Written(heap, c, data)[d] == Overlay(d, heap[d], c, data)
  {
    hide Overlay;
  }

  lemma LocalWrite(sizes: seq<nat>, heap: map<nat, bytes>, c: nat, data: bytes)
    requires |sizes| > 0 && Roomed(sizes, heap) && Room(sizes, |data|) >= |data|
    requires forall d <- heap :: d != c ==> Clear(sizes, c, |data|, d, |heap[d]|)
    requires c in heap ==> |heap[c]| == |data|
    ensures Written(heap, c, data) == if c in heap then heap[c := data] else heap
  {
    hide Overlay, Clear, Room;
    forall d | d in heap ensures Overlay(d, heap[d], c, data) == if d == c then data else heap[d] {
      if d == c {
        OverlaySame(c, heap[c], data);
      } else {
        OverlaySpares(sizes, d, heap[d], c, data);
      }
    }
  }

  /** A chunk with room is filled without touching any other. */
  lemma StoreIsLocal(m: Depot, data: bytes)
    requires Inv(m) && CanProduce(m, Store(data)) && Roomed(m.sizes, m.heap)
    ensures m.ring.slots[m.ring.wp].Some? && m.ring.slots[m.ring.wp].value in m.heap
    ensures var c := m.ring.slots[m.ring.wp].value;
            Produce(m, Store(data)).heap == m.heap[c := data]
    ensures Roomed(m.sizes, m.held) ==> Produce(m, Store(data)).held == m.held
  {
    StoreFacts(m, data);
    hide Inv, CanProduce, Produce, Written, Clear, Room;
    var c := m.ring.slots[m.ring.wp].value;
    LocalWrite(m.sizes, m.heap, c, data);
    if Roomed(m.sizes, m.held) {
      NotIn(m.sizes, m.held, c, |data|);
      LocalWrite(m.sizes, m.held, c, data);
    }
  }

  lemma StoreKeepsExact(m: Depot, data: bytes)
    requires Inv(m) && CanProduce(m, Store(data)) && Exact(m)
    ensures Inv(Produce(m, Store(data))) && Exact(Produce(m, Store(data)))
  {
    hide SlotOf, Owns, Spaced, Written, Room;
    StoreIsLocal(m, data);
    StoreKeepsInv(m, data);
    var r, w := Produce(m, Store(data)), m.ring.wp;
    forall i | r.ring.rn <= i < r.ring.wn ensures Holds(r, SlotOf(i, r.ring.num), r.put[i]) {
      SlotsDiffer(i, m.ring.wn, m.ring.num);
      assert Holds(m, SlotOf(i, m.ring.num), m.put[i]);
      DistinctChunks(m.ring.slots, m.heap, SlotOf(i, m.ring.num), w);
    }
  }

  lemma FreeKeepsExact(m: Depot)
    requires Inv(m) && CanProduce(m, Free) && Exact(m)
    ensures Inv(Produce(m, Free)) && Exact(Produce(m, Free))
  {
    hide SlotOf, Owns, Spaced, Room;
    FreeKeepsInv(m);
    var r, w := Produce(m, Free), m.ring.wp;
    forall i | r.ring.rn <= i < r.ring.wn ensures Holds(r, SlotOf(i, r.ring.num), r.put[i]) {
      SlotsDiffer(i, m.ring.wn, m.ring.num);
      assert Holds(m, SlotOf(i, m.ring.num), m.put[i]);
      if m.ring.slots[w].Some? {
        DistinctChunks(m.ring.slots, m.heap, SlotOf(i, m.ring.num), w);
      }
    }
  }

  lemma AllocKeepsExact(m: Depot, c: nat, n: nat)
    requires Inv(m) && CanProduce(m, Alloc(c, n)) && Exact(m) && Room(m.sizes, n) >= n
    ensures Inv(Produce(m, Alloc(c, n))) && Exact(Produce(m, Alloc(c, n)))
  {
    hide SlotOf, Owns, Spaced, Room, Apart;
    AllocKeepsInv(m, c, n);
    NotIn(m.sizes, m.heap, c, n);
    var r := Produce(m, Alloc(c, n));
    forall i | r.ring.rn <= i < r.ring.wn ensures Holds(r, SlotOf(i, r.ring.num), r.put[i]) {
      SlotsDiffer(i, m.ring.wn, m.ring.num);
      assert Holds(m, SlotOf(i, m.ring.num), m.put[i]);
    }
  }

  lemma CommitKeepsExact(m: Depot)
    requires Inv(m) && CanProduce(m, Commit) && Exact(m)
    ensures Inv(Produce(m, Commit)) && Exact(Produce(m, Commit))
  {
    hide SlotOf, Owns, Spaced, Room;
    CommitKeepsInv(m);
    var r := Produce(m, Commit);
    forall i | r.ring.rn <= i < r.ring.wn ensures Holds(r, SlotOf(i, r.ring.num), r.put[i]) {
      if i < m.ring.wn {
        assert Holds(m, SlotOf(i, m.ring.num), m.put[i]);
      }
    }
  }

  lemma QuietKeepsExact(m: Depot, r: Depot)
    requires Inv(m) && Exact(m) && Inv(r) && r.heap == m.heap && r.put == m.put && r.sizes == m.sizes
    requires r.ring.slots == m.ring.slots && r.ring.num == m.ring.num && r.ring.wn == m.ring.wn
    requires m.ring.rn <= r.ring.rn && r.out <= r.put
    ensures Exact(r)
  {
    hide SlotOf, Owns, Spaced, Sized, Room;
    forall i | r.ring.rn <= i < r.ring.wn ensures Holds(r, SlotOf(i, r.ring.num), r.put[i]) {
      assert Holds(m, SlotOf(i, m.ring.num), m.put[i]);
    }
  }

  /** As long as every chunk asked for has room, no step of the producer changes what was handed over. */
  lemma ProduceKeepsExact(m: Depot, a: PStep)
    requires Inv(m) && CanProduce(m, a) && Exact(m) && (a.Alloc? ==> Room(m.sizes, a.n) >= a.n)
    ensures Inv(Produce(m, a)) && Exact(Produce(m, a))
  {
    hide Inv, Exact, Room;
    match a {
      case Free => FreeKeepsExact(m);
      case Alloc(c, n) => AllocKeepsExact(m, c, n);
      case Store(data) => StoreKeepsExact(m, data);
      case Commit => CommitKeepsExact(m);
      case _ => PointersKeepExact(m, a);
    }
  }

  lemma PointersKeepExact(m: Depot, a: PStep)
    requires Inv(m) && CanProduce(m, a) && Exact(m) && (a == Check || a == Decide || a == Fail || a == Move)
    ensures Inv(Produce(m, a)) && Exact(Produce(m, a))
  {
    hide *;
    PointersKeepInv(m, a);
    ExactOut(m);
    PointersOnly(m, a);
    QuietKeepsExact(m, Produce(m, a));
  }

  lemma PointersOnly(m: Depot, a: PStep)
    requires Inv(m) && CanProduce(m, a) && (a == Check || a == Decide || a == Fail || a == Move)
    ensures var r := Produce(m, a);
            r.heap == m.heap && r.put == m.put && r.out == m.out && r.sizes == m.sizes &&
            r.ring.slots == m.ring.slots && r.ring.num == m.ring.num && r.ring.wn == m.ring.wn && r.ring.rn == m.ring.rn
  {
    hide Inv;
  }

  lemma ExactOut(m: Depot)
    requires Inv(m) && Exact(m)
    ensures m.out <= m.put && |m.sizes| > 0 && Roomed(m.sizes, m.heap)
  {
  }

  /** Nor does the consumer, and what it copies is the next payload as it was handed over. */
  lemma ConsumeKeepsExact(m: Depot, a: CStep)
    requires Inv(m) && CanConsume(m, a) && Exact(m)
    ensures Inv(Consume(m, a)) && Exact(Consume(m, a))
  {
    hide *;
    ConsumeKeepsInv(m, a);
    ExactOut(m);
    ConsumerMovesOn(m, a);
    if a == Copy {
      CopiesNext(m);
    }
    QuietKeepsExact(m, Consume(m, a));
  }

  lemma ConsumerMovesOn(m: Depot, a: CStep)
    requires Inv(m) && CanConsume(m, a)
    ensures var r := Consume(m, a);
            r.heap == m.heap && r.held == m.held && r.put == m.put && r.sizes == m.sizes &&
            r.ring.slots == m.ring.slots && r.ring.num == m.ring.num && r.ring.wn == m.ring.wn &&
            m.ring.rn <= r.ring.rn && (a != Copy ==> r.out == m.out)
  {
    hide Inv;
  }

  lemma CopiesNext(m: Depot)
    requires Inv(m) && CanConsume(m, Copy) && Exact(m)
    ensures |m.out| < |m.put| && Consume(m, Copy).out == m.put[..|m.out| + 1]
  {
    hide *;
    ClaimedHolds(m);
    ClaimedIsLive(m);
    ExactOut(m);
    assert m.put[..|m.out| + 1] == m.put[..|m.out|] + [m.put[|m.out|]];
  }

  lemma ClaimedHolds(m: Depot)
    requires Inv(m) && CanConsume(m, Copy) && Exact(m)
    ensures m.ring.c == CClaimed && !m.copied && Consume(m, Copy).out == m.out + [m.put[|m.out|]]
  {
    ClaimedIsLive(m);
    ClaimFacts(m);
    hide Owns, Spaced, Sized, SlotOf;
    assert Holds(m, SlotOf(m.ring.rn, m.ring.num), m.put[m.ring.rn]);
  }

  /** What else lives in the pool is never touched either, if it has room itself. */
  lemma ProduceKeepsHeld(m: Depot, a: PStep)
    requires Inv(m) && CanProduce(m, a) && Exact(m) && Roomed(m.sizes, m.held)
    ensures Produce(m, a).held == m.held
  {
    hide *;
    ExactOut(m);
    if a.Store? {
      assert a == Store(a.data);
      StoreIsLocal(m, a.data);
    } else {
      OnlyStoreWrites(m, a);
    }
  }

  lemma OnlyStoreWrites(m: Depot, a: PStep)
    requires Inv(m) && CanProduce(m, a) && !a.Store?
    ensures Produce(m, a).held == m.held
  {
    hide Inv;
  }

  /**
   * While the consumer has a claim, no step of the producer touches its slot, frees its
   * chunk or, where chunks have room, changes its contents.
   */
  lemma ClaimedChunkIsStable(m: Depot, a: PStep)
    requires Inv(m) && m.ring.c == CClaimed && CanProduce(m, a)
    ensures m.ring.rn < |m.put| && m.ring.rp < |m.ring.slots| == |Produce(m, a).ring.slots|
    ensures Produce(m, a).ring.slots[m.ring.rp] == m.ring.slots[m.ring.rp]
    ensures Sized(Produce(m, a).ring.slots, Produce(m, a).heap, m.ring.rp, |m.put[m.ring.rn]|)
    ensures Exact(m) && (a.Alloc? ==> Room(m.sizes, a.n) >= a.n) ==>
              Holds(Produce(m, a), m.ring.rp, m.put[m.ring.rn])
  {
    var r := Produce(m, a);
    ProduceKeepsInv(m, a);
    ClaimFacts(m);
    ClaimKept(m, a);
    ClaimFacts(r);
    if Exact(m) && (a.Alloc? ==> Room(m.sizes, a.n) >= a.n) {
      ProduceKeepsExact(m, a);
      hide Inv, CanProduce, Produce, Room;
      assert Holds(r, SlotOf(r.ring.rn, r.ring.num), r.put[r.ring.rn]);
    }
  }

  lemma ClaimFacts(m: Depot)
    requires Inv(m) && m.ring.c == CClaimed
    ensures m.ring.num > 0 && m.ring.rp == SlotOf(m.ring.rn, m.ring.num) < |m.ring.slots|
    ensures m.ring.rn < m.ring.wn == |m.put| && Sized(m.ring.slots, m.heap, m.ring.rp, |m.put[m.ring.rn]|)
  {
    hide Owns, Spaced;
    assert Sized(m.ring.slots, m.heap, SlotOf(m.ring.rn, m.ring.num), |m.put[m.ring.rn]|);
  }

  lemma ClaimKept(m: Depot, a: PStep)
    requires Inv(m) && m.ring.c == CClaimed && CanProduce(m, a)
    ensures var r := Produce(m, a);
            r.ring.c == CClaimed && r.ring.rp == m.ring.rp && r.ring.rn == m.ring.rn < |m.put| &&
            r.ring.num == m.ring.num && m.put <= r.put &&
            |r.ring.slots| == |m.ring.slots| && m.ring.rp < |m.ring.slots| &&
            r.ring.slots[m.ring.rp] == m.ring.slots[m.ring.rp]
  {
    ClaimFacts(m);
    hide Owns, Spaced, Apart, Sized, Written;
    if m.ring.p == PClaimed {
      WriterFacts(m);
      hide SlotOf, Inv;
      SlotsDiffer(m.ring.rn, m.ring.wn, m.ring.num);
    }
  }

  lemma WriterFacts(m: Depot)
    requires Inv(m) && m.ring.p == PClaimed
    ensures m.ring.num > 0 && m.ring.wp == SlotOf(m.ring.wn, m.ring.num) < |m.ring.slots|
    ensures m.ring.rn <= m.ring.wn < m.ring.rn + m.ring.num
  {
    hide Owns, Spaced, Sized;
  }

  // ----- What is not ---------------------------------------------------------------------------

  /**
   * Filling a chunk changes the contents of another with room of its own if and only if that one
   * lies behind the chunk, so near that the data reach it, and the bytes there differ. So
   * nothing in front of the chunk changes, and nothing at all where it has room.
   */
  lemma StoreChangesIff(m: Depot, data: bytes, d: nat)
    requires Inv(m) && CanProduce(m, Store(data)) && d in m.heap && m.ring.slots[m.ring.wp] != Some(d)
    requires |m.sizes| > 0 && Room(m.sizes, |m.heap[d]|) >= |m.heap[d]|
    ensures d in Produce(m, Store(data)).heap
    ensures var c := m.ring.slots[m.ring.wp].value;
            Produce(m, Store(data)).heap[d] != m.heap[d] <==>
            c + Room(m.sizes, |data|) <= d &&
            exists i :: 0 <= i < |m.heap[d]| && (d + i < c + |data|) && data[d + i - c] != m.heap[d][i]
  {
    hide *;
    StoreFacts(m, data);
    var c := m.ring.slots[m.ring.wp].value;
    WrittenAt(m.heap, c, data, d);
    OverlayChangesIff(m.sizes, d, m.heap[d], c, data);
  }

  // ----- Counting --------------------------------------------------------------------------------

  /** Live chunks never outnumber the slots. */
  lemma {:induction false} LiveChunksBounded(slots: seq<Option<nat>>, heap: map<nat, bytes>)
    requires forall c <- heap :: Some(c) in slots
    ensures |heap| <= |slots|
    decreases |slots|
  {
    if slots == [] {
      assert heap == map[] by {
        assert forall c :: c !in heap;
      }
    } else {
      var rest := slots[1..];
      if slots[0].Some? && slots[0].value in heap {
        var c := slots[0].value;
        var heap' := heap - {c};
        forall d | d in heap' ensures Some(d) in rest {
          var i :| 0 <= i < |slots| && slots[i] == Some(d);
          assert rest[i - 1] == Some(d);
        }
        LiveChunksBounded(rest, heap');
        assert heap'.Keys + {c} == heap.Keys;
      } else {
        forall d | d in heap ensures Some(d) in rest {
          var i :| 0 <= i < |slots| && slots[i] == Some(d);
          assert rest[i - 1] == Some(d);
        }
        LiveChunksBounded(rest, heap);
      }
    }
  }

  lemma LiveChunksFitRing(m: Depot)
    requires Inv(m)
    ensures |m.heap| <= m.ring.num
  {
    LiveChunksBounded(m.ring.slots, m.heap);
  }
}
