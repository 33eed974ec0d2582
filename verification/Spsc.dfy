/**
 * The ring buffer between one producer and one consumer thread, as a step
 * system: reading the other side's counter, writing the slot, moving the
 * pointer and raising the counter are separate steps that interleave freely.
 */
module Spsc {

  /** The next slot, as the pointer arithmetic finds it. */
  function Next(p: nat, num: nat): (q: nat) {
    if p + 1 == num then 0 else p + 1
  }

  /** Slot of the `i`-th item ever stored. */
  function SlotOf(i: nat, num: nat): (p: nat)
    requires num > 0
    ensures p < num
  {
    if i == 0 then 0 else Next(SlotOf(i - 1, num), num)
  }

  lemma {:induction false} SlotStep(i: nat, j: nat, num: nat)
    requires num > 0 && i <= j < i + num
    ensures SlotOf(j, num) == SlotOf(i, num) + (j - i) || SlotOf(j, num) == SlotOf(i, num) + (j - i) - num
    decreases j - i
  {
    if i < j {
      SlotStep(i, j - 1, num);
    }
  }

  /** Items less than `num` apart never share a slot; items `num` apart always do. */
  lemma SlotsDiffer(i: nat, j: nat, num: nat)
    requires num > 0 && i < j < i + num
    ensures SlotOf(i, num) != SlotOf(j, num)
  {
    SlotStep(i, j, num);
  }

  /** Producer program counter. `PSeen` holds its possibly stale copy of `rn`. */
  datatype Producer = PIdle | PSeen(rn: nat) | PClaimed | PMoved

  /** Consumer program counter. `CSeen` holds its possibly stale copy of `wn`. */
  datatype Consumer = CIdle | CSeen(wn: nat) | CClaimed | CMoved

  datatype Ring<T> = Ring(num: nat, slots: seq<T>, rn: nat, wn: nat, rp: nat, wp: nat, p: Producer, c: Consumer) {

    /** Every reachable state: counters in order, pointers in track, claims backed. */
    ghost predicate Inv() {
      num > 0 && |slots| == num && rn <= wn <= rn + num &&
      wp == SlotOf(if p == PMoved then wn + 1 else wn, num) &&
      rp == SlotOf(if c == CMoved then rn + 1 else rn, num) &&
      (p.PSeen? ==> p.rn <= rn && wn <= p.rn + num) &&
      (p == PClaimed || p == PMoved ==> wn < rn + num) &&
      (c.CSeen? ==> rn <= c.wn <= wn) &&
      (c == CClaimed || c == CMoved ==> rn < wn)
    }

    // ----- Producer steps -------------------------------------------------------

    /** Reads the consumer's counter. */
    function PCheck(): (r: Ring<T>)
      requires p == PIdle
    {
      this.(p := PSeen(rn))
    }

    /** Full, or a slot to write to. */
    function PDecide(): (r: Ring<T>)
      requires p.PSeen?
    {
      if wn - p.rn == num then this.(p := PIdle) else this.(p := PClaimed)
    }

    function PWrite(x: T): (r: Ring<T>)
      requires p == PClaimed && wp < |slots|
    {
      this.(slots := slots[wp := x])
    }

    function PMove(): (r: Ring<T>)
      requires p == PClaimed
    {
      this.(wp := Next(wp, num), p := PMoved)
    }

    function PCommit(): (r: Ring<T>)
      requires p == PMoved
    {
      this.(wn := wn + 1, p := PIdle)
    }

    // ----- Consumer steps -------------------------------------------------------

    /** Reads the producer's counter. */
    function CCheck(): (r: Ring<T>)
      requires c == CIdle
    {
      this.(c := CSeen(wn))
    }

    /** Empty, or a slot to read. */
    function CDecide(): (r: Ring<T>)
      requires c.CSeen?
    {
      if c.wn == rn then this.(c := CIdle) else this.(c := CClaimed)
    }

    /** Gives up a claim without taking the item. */
    function CDrop(): (r: Ring<T>)
      requires c == CClaimed
    {
      this.(c := CIdle)
    }

    function CMove(): (r: Ring<T>)
      requires c == CClaimed
    {
      this.(rp := Next(rp, num), c := CMoved)
    }

    function CCommit(): (r: Ring<T>)
      requires c == CMoved
    {
      this.(rn := rn + 1, c := CIdle)
    }
  }

  ghost predicate Created<T>(r: Ring<T>, num: nat) {
    num > 0 && r == Ring(num, r.slots, 0, 0, 0, 0, PIdle, CIdle) && |r.slots| == num
  }

  ghost predicate ProducerSteps<T(!new)>(r: Ring<T>, s: Ring<T>) {
    (r.p == PIdle && s == r.PCheck()) ||
    (r.p.PSeen? && s == r.PDecide()) ||
    (r.p == PClaimed && r.wp < |r.slots| && exists x :: s == r.PWrite(x)) ||
    (r.p == PClaimed && s == r.PMove()) ||
    (r.p == PMoved && s == r.PCommit())
  }

  ghost predicate ConsumerSteps<T>(r: Ring<T>, s: Ring<T>) {
    (r.c == CIdle && s == r.CCheck()) ||
    (r.c.CSeen? && s == r.CDecide()) ||
    (r.c == CClaimed && (s == r.CDrop() || s == r.CMove())) ||
    (r.c == CMoved && s == r.CCommit())
  }

  /** One step of either thread. */
  ghost predicate Steps<T(!new)>(r: Ring<T>, s: Ring<T>) {
    ProducerSteps(r, s) || ConsumerSteps(r, s)
  }

  lemma CreatedInv<T>(r: Ring<T>, num: nat)
    requires Created(r, num)
    ensures r.Inv()
  {
  }

  lemma ProducerKeepsInv<T(!new)>(r: Ring<T>, s: Ring<T>)
    requires r.Inv() && ProducerSteps(r, s)
    ensures s.Inv()
  {
    assert SlotOf(r.wn + 1, r.num) == Next(SlotOf(r.wn, r.num), r.num);
  }

  lemma ConsumerKeepsInv<T>(r: Ring<T>, s: Ring<T>)
    requires r.Inv() && ConsumerSteps(r, s)
    ensures s.Inv()
  {
    assert SlotOf(r.rn + 1, r.num) == Next(SlotOf(r.rn, r.num), r.num);
  }

  /** Every step keeps the invariant, however the threads interleave. */
  lemma StepsKeepInv<T(!new)>(r: Ring<T>, s: Ring<T>)
    requires r.Inv() && Steps(r, s)
    ensures s.Inv()
  {
    if ProducerSteps(r, s) {
      ProducerKeepsInv(r, s);
    } else {
      ConsumerKeepsInv(r, s);
    }
  }

  // ----- The bounded queue it refines ---------------------------------------------

  /** Items stored and not yet released, oldest first. */
  ghost function Queue<T>(r: Ring<T>): (q: seq<T>)
    requires r.Inv()
    ensures |q| == r.wn - r.rn <= r.num
  {
    seq(r.wn - r.rn, i requires 0 <= i < r.wn - r.rn => r.slots[SlotOf(r.rn + i, r.num)])
  }

  /** The slot a claiming producer may write is none of those a consumer may read. */
  lemma ProducerSlotIsFree<T>(r: Ring<T>, i: nat)
    requires r.Inv() && r.p == PClaimed && i < r.wn - r.rn
    ensures r.wp != SlotOf(r.rn + i, r.num)
  {
    SlotsDiffer(r.rn + i, r.wn, r.num);
  }

  /** The slot a claiming consumer reads is the head of the queue. */
  lemma ConsumerReadsHead<T>(r: Ring<T>)
    requires r.Inv() && r.c == CClaimed
    ensures r.rp < |r.slots| && Queue(r) != [] && r.slots[r.rp] == Queue(r)[0]
  {
  }

  /** Only three steps are visible on the queue: a commit appends, a release drops the head. */
  lemma WriteKeepsQueue<T>(r: Ring<T>, x: T)
    requires r.Inv() && r.p == PClaimed
    ensures r.PWrite(x).Inv() && Queue(r.PWrite(x)) == Queue(r)
  {
    forall i | 0 <= i < r.wn - r.rn ensures Queue(r.PWrite(x))[i] == Queue(r)[i] {
      ProducerSlotIsFree(r, i);
    }
  }

  /** The slot written last before the pointer moved. */
  ghost function Pending<T>(r: Ring<T>): (x: T)
    requires r.Inv() && r.p == PMoved
  {
    r.slots[SlotOf(r.wn, r.num)]
  }

  lemma CommitAppends<T>(r: Ring<T>)
    requires r.Inv() && r.p == PMoved
    ensures r.PCommit().Inv() && Queue(r.PCommit()) == Queue(r) + [Pending(r)]
  {
  }

  lemma ReleaseDropsHead<T>(r: Ring<T>)
    requires r.Inv() && r.c == CMoved
    ensures r.CCommit().Inv() && Queue(r.CCommit()) == Queue(r)[1..]
  {
    var q, q' := Queue(r), Queue(r.CCommit());
    forall i | 0 <= i < |q'| ensures q'[i] == q[i + 1] {
      assert r.rn + 1 + i == r.rn + (i + 1);
    }
  }

  /**
   * Refinement: each step of the ring either leaves the queue as it is, or
   * appends the item the producer wrote, while there was room, or takes the head.
   */
  lemma RefinesFifo<T(!new)>(r: Ring<T>, s: Ring<T>)
    requires r.Inv() && Steps(r, s)
    ensures s.Inv()
    ensures Queue(s) == Queue(r)
         || (r.p == PMoved && |Queue(r)| < r.num && Queue(s) == Queue(r) + [Pending(r)])
         || (r.c == CMoved && Queue(r) != [] && Queue(s) == Queue(r)[1..])
  {
    StepsKeepInv(r, s);
    if r.p == PClaimed && exists x :: s == r.PWrite(x) {
      var x :| s == r.PWrite(x);
      WriteKeepsQueue(r, x);
    } else if r.p == PMoved && s == r.PCommit() {
      CommitAppends(r);
    } else if r.c == CMoved && s == r.CCommit() {
      ReleaseDropsHead(r);
    } else {
      assert s.slots == r.slots && s.rn == r.rn && s.wn == r.wn && s.num == r.num;
    }
  }
}
