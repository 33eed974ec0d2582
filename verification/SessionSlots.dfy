/**
 * The master's table of session slots: an intrusive free list threaded through the
 * slots' `data` pointers, and an open flag in each slot.
 */
module SessionSlots {
  import opened Bytes

  // ----- What a run of gets and frees means --------------------------------------

  datatype Op = Get | Free(i: nat)

  /** Free slots, the next to hand out first; a slot is open when it is not among them. */
  function StepFree(num: nat, free: seq<nat>, op: Op): (f: seq<nat>) {
    match op
    case Get => if free == [] then [] else free[1..]
    case Free(i) => if i < num && i !in free then [i] + free else free
  }

  /** +1 where the operation opens slot `i`, -1 where it closes it. */
  function Change(num: nat, free: seq<nat>, op: Op, i: nat): (d: int) {
    match op
    case Get => if free != [] && free[0] == i then 1 else 0
    case Free(j) => if j == i && i < num && i !in free then -1 else 0
  }

  function RunFree(num: nat, free: seq<nat>, ops: seq<Op>): (f: seq<nat>)
    decreases |ops|
  {
    if ops == [] then free else RunFree(num, StepFree(num, free, ops[0]), ops[1..])
  }

  /** How often a run hands out slot `i`, less how often it takes it back. */
  function Balance(num: nat, free: seq<nat>, ops: seq<Op>, i: nat): (d: int)
    decreases |ops|
  {
    if ops == [] then 0
    else Change(num, free, ops[0], i) + Balance(num, StepFree(num, free, ops[0]), ops[1..], i)
  }

  predicate Distinct(free: seq<nat>) {
    forall i, j :: 0 <= i < j < |free| ==> free[i] != free[j]
  }

  predicate GoodFree(num: nat, free: seq<nat>) {
    Distinct(free) && forall i :: 0 <= i < |free| ==> free[i] < num
  }

  function Opened(free: seq<nat>, i: nat): (n: nat) {
    if i in free then 0 else 1
  }

  lemma StepKeepsGood(num: nat, free: seq<nat>, op: Op)
    requires GoodFree(num, free)
    ensures GoodFree(num, StepFree(num, free, op))
    ensures forall i: nat :: i < num ==>
              Opened(StepFree(num, free, op), i) == Opened(free, i) + Change(num, free, op, i)
  {
    var f := StepFree(num, free, op);
    forall i: nat | i < num ensures Opened(f, i) == Opened(free, i) + Change(num, free, op, i) {
      if op == Get && free != [] {
        assert free == [free[0]] + f;
      }
    }
  }

  /**
   * Over any run a slot is handed out exactly as often as it is taken back, or once
   * more while it is open: it is never handed out twice in between.
   */
  lemma {:induction false} RunConserves(num: nat, free: seq<nat>, ops: seq<Op>, i: nat)
    requires GoodFree(num, free) && i < num
    ensures GoodFree(num, RunFree(num, free, ops))
    ensures Opened(RunFree(num, free, ops), i) == Opened(free, i) + Balance(num, free, ops, i)
    decreases |ops|
  {
    hide GoodFree, Opened, Change;
    if ops != [] {
      StepKeepsGood(num, free, ops[0]);
      RunConserves(num, StepFree(num, free, ops[0]), ops[1..], i);
    }
  }

  /** Open slots among the first `n`. */
  function OpenBelow(free: seq<nat>, n: nat): (k: nat) {
    if n == 0 then 0 else OpenBelow(free, n - 1) + Opened(free, n - 1)
  }

  lemma {:induction false} OpenBelowSkip(free: seq<nat>, a: nat, n: nat)
    requires a !in free
    ensures OpenBelow(free, n) == OpenBelow([a] + free, n) + (if a < n then 1 else 0)
  {
    if n > 0 {
      OpenBelowSkip(free, a, n - 1);
    }
  }

  /** Free and open slots always add up to all slots. */
  lemma {:induction false} FreePlusOpen(num: nat, free: seq<nat>)
    requires GoodFree(num, free)
    ensures |free| + OpenBelow(free, num) == num
    decreases |free|
  {
    if free == [] {
      NoneFree(num);
    } else {
      FreePlusOpen(num, free[1..]);
      OpenBelowSkip(free[1..], free[0], num);
      assert [free[0]] + free[1..] == free;
    }
  }

  lemma {:induction false} NoneFree(n: nat)
    ensures OpenBelow([], n) == n
  {
    if n > 0 {
      NoneFree(n - 1);
    }
  }

  // ----- The table -------------------------------------------------------------------

  /** What a get comes to. */
  datatype Got = Slot(i: nat) | NullDeref

  /** From `free`, `data` pointers lead along `chain` and end. */
  ghost predicate Threaded(data: seq<Option<nat>>, free: Option<nat>, chain: seq<nat>)
    decreases |chain|
  {
    if chain == [] then free == None
    else free == Some(chain[0]) && chain[0] < |data| && Threaded(data, data[chain[0]], chain[1..])
  }

  lemma {:induction false} ThreadedFrame(data: seq<Option<nat>>, free: Option<nat>, chain: seq<nat>,
                                         d: nat, p: Option<nat>)
    requires Threaded(data, free, chain) && d !in chain && d < |data|
    ensures Threaded(data[d := p], free, chain)
    decreases |chain|
  {
    if chain != [] {
      ThreadedFrame(data, data[chain[0]], chain[1..], d, p);
    }
  }

  /** `lo`, `lo + 1`, up to `hi - 1`. */
  ghost function UpFrom(lo: nat, hi: nat): (s: seq<nat>)
    requires lo <= hi
    ensures |s| == hi - lo && forall j :: 0 <= j < |s| ==> s[j] == lo + j
    decreases hi - lo
  {
    if lo == hi then [] else [lo] + UpFrom(lo + 1, hi)
  }

  class SlotTable {
    const num: nat
    const data: array<Option<nat>>
    const open: array<bool>
    var free: Option<nat>
    var freeNum: nat
    /** The slots on the free list, in order. */
    ghost var chain: seq<nat>

    ghost predicate Valid()
      reads this, data, open
    {
      data.Length == open.Length == num && data as object != open as object &&
      Threaded(data[..], free, chain) && GoodFree(num, chain) && freeNum == |chain| &&
      forall i: nat :: i < num ==> (i in chain <==> !open[i])
    }

    constructor (num: nat)
      requires num > 0
      ensures Valid() && this.num == num && fresh(data) && fresh(open)
      ensures freeNum == num && chain == UpFrom(0, num)
    {
      this.num := num;
      data, open := new Option<nat>[num](_ => None), new bool[num](_ => false);
      free, freeNum, chain := None, num, [];
      new;
      var i := num;
      while i > 0
        invariant i <= num && freeNum == num
        invariant Threaded(data[..], free, chain) && chain == UpFrom(i, num)
        invariant forall j :: 0 <= j < num ==> !open[j]
      {
        i := i - 1;
        ThreadedFrame(data[..], free, chain, i, free);
        ghost var before := data[..];
        data[i] := free;
        assert data[..] == before[i := free];
        free := Some(i);
        chain := [i] + chain;
      }
      forall j: nat | j < num ensures j in chain && !open[j] {
        assert chain[j] == j;
      }
    }

    /** The first slot of the free list. There is no test for an empty list. */
    method GetReqdumpData() returns (r: Got)
      requires Valid()
      modifies this`free, this`freeNum, this`chain, open
      ensures Valid() && chain == StepFree(num, old(chain), Get)
      ensures old(chain) == [] <==> r == NullDeref
      ensures old(chain) != [] ==> r == Slot(old(chain)[0]) && !old(open[chain[0]]) && open[old(chain)[0]]
      ensures forall i :: 0 <= i < num && r != Slot(i) ==> open[i] == old(open[i])
    {
      if free == None {
        return NullDeref;
      }
      var d := free.value;
      assert chain == [d] + chain[1..];
      free := data[d];
      freeNum := freeNum - 1;
      open[d] := true;
      chain := chain[1..];
      r := Slot(d);
    }

    /** Closes an open slot and puts it at the head of the free list; a closed slot is left alone. */
    method FreeReqdumpData(d: nat)
      requires Valid() && d < num
      modifies this`free, this`freeNum, this`chain, open, data
      ensures Valid() && chain == StepFree(num, old(chain), Free(d)) && !open[d]
      ensures forall i :: 0 <= i < num && i != d ==> open[i] == old(open[i])
      ensures !old(open[d]) ==> freeNum == old(freeNum) && data[..] == old(data[..])
    {
      if !open[d] {
        return;
      }
      open[d] := false;
      ThreadedFrame(data[..], free, chain, d, free);
      ghost var before := data[..];
      data[d] := free;
      assert data[..] == before[d := free];
      free := Some(d);
      freeNum := freeNum + 1;
      chain := [d] + chain;
    }

    /** Closes every slot. */
    method FreeallReqdumpData()
      requires Valid()
      modifies this`free, this`freeNum, this`chain, open, data
      ensures Valid() && freeNum == num
      ensures forall i :: 0 <= i < num ==> !open[i]
    {
      var i := 0;
      while i < num
        invariant i <= num && Valid()
        invariant forall j :: 0 <= j < i ==> !open[j]
      {
        if open[i] {
          FreeReqdumpData(i);
        }
        i := i + 1;
      }
      AllClosed(num, chain);
    }
  }

  /** A table with all slots free; None where the outcome is undefined: counting down from no slots runs past zero. */
  method CreateReqdump(num: nat) returns (t: Option<SlotTable>)
    ensures t == None <==> num == 0
    ensures t.Some? ==> fresh(t.value) && t.value.Valid() && t.value.num == num && t.value.freeNum == num
    ensures t.Some? ==> t.value.chain == UpFrom(0, num) && fresh(t.value.data) && fresh(t.value.open)
  {
    if num == 0 {
      return None;
    }
    var table := new SlotTable(num);
    t := Some(table);
  }

  lemma {:induction false} AllClosed(num: nat, free: seq<nat>)
    requires GoodFree(num, free) && forall i: nat :: i < num ==> i in free
    ensures |free| == num
  {
    FreePlusOpen(num, free);
    NoOpen(num, free, num);
  }

  lemma {:induction false} NoOpen(num: nat, free: seq<nat>, n: nat)
    requires n <= num && forall i: nat :: i < num ==> i in free
    ensures OpenBelow(free, n) == 0
  {
    if n > 0 {
      NoOpen(num, free, n - 1);
    }
  }

  /** A get follows a null pointer exactly when every slot is open. */
  lemma ExhaustedIff(t: SlotTable)
    requires t.Valid()
    ensures t.chain == [] <==> forall i :: 0 <= i < t.num ==> t.open[i]
  {
    if t.chain != [] {
      assert t.chain[0] in t.chain;
    }
  }

  /** Following the free list from its head meets each free slot once and ends: no cycle. */
  lemma {:induction false} ChainIsTheList(data: seq<Option<nat>>, free: Option<nat>, chain: seq<nat>, other: seq<nat>)
    requires Threaded(data, free, chain) && Threaded(data, free, other)
    ensures chain == other
    decreases |chain|
  {
    if chain != [] && other != [] {
      ChainIsTheList(data, data[chain[0]], chain[1..], other[1..]);
      assert chain == [chain[0]] + chain[1..] && other == [other[0]] + other[1..];
    }
  }
}
