/** One size class of the pool: its slabs, its bump pointer and its stack of freed chunks. */
module SlabClasses {
  import opened Bytes

  /** `k` chunks of `size` bytes. */
  function Times(k: nat, size: nat): (n: nat) {
    if k == 0 then 0 else Times(k - 1, size) + size
  }

  lemma {:induction false} TimesMono(k: nat, l: nat, size: nat)
    requires k < l
    ensures Times(k, size) + size <= Times(l, size)
    decreases l
  {
    if k < l - 1 {
      TimesMono(k, l - 1, size);
    }
  }

  datatype SlabClass = SlabClass(
    size: nat,
    num: nat,               // chunks to a slab
    chunk: Option<nat>,     // next chunk never handed out, None for null
    free: nat,              // chunks never handed out in the last slab
    slabs: seq<nat>,
    totalSlab: nat,         // room in the slab table
    freeChunks: seq<nat>,   // stack of chunks given back
    totalFree: nat)         // room on the stack
  {
    function SlabLen(): (n: nat) {
      Times(num, size)
    }

    /** `a` is chunk `k` of slab `j`, and was handed out before. */
    ghost predicate CarvedAt(a: nat, j: nat, k: nat) {
      j < |slabs| && k < num && a == slabs[j] + Times(k, size) && (j == |slabs| - 1 ==> k < num - free)
    }

    ghost predicate Carved(a: nat) {
      exists j: nat, k: nat :: CarvedAt(a, j, k)
    }

    /** Every slab lies behind the one before. */
    ghost predicate Stacked() {
      forall i, j :: 0 <= i < j < |slabs| ==> slabs[i] + SlabLen() <= slabs[j]
    }

    /** The bump pointer is at the first chunk not handed out. */
    ghost predicate Shape() {
      size > 0 && num > 0 && free <= num && |slabs| <= totalSlab && |freeChunks| <= totalFree &&
      (chunk.Some? <==> free > 0) &&
      (chunk.Some? ==> |slabs| > 0 && chunk.value == slabs[|slabs| - 1] + Times(num - free, size)) &&
      Stacked()
    }

    /** Every chunk ever handed out is live, on the stack, or lost (the stack could not grow for it). */
    ghost predicate Accounted(live: set<nat>, lost: set<nat>) {
      forall a :: a in live || a in lost || a in freeChunks <==> Carved(a)
    }

    /** And only one of these, once. */
    ghost predicate Apart(live: set<nat>, lost: set<nat>) {
      live !! lost &&
      (forall i :: 0 <= i < |freeChunks| ==> freeChunks[i] !in live && freeChunks[i] !in lost) &&
      (forall i, j :: 0 <= i < j < |freeChunks| ==> freeChunks[i] != freeChunks[j])
    }

    ghost predicate Counted(live: set<nat>, lost: set<nat>) {
      |live| + |lost| + |freeChunks| + free == Times(|slabs|, num)
    }

    ghost predicate Inv(live: set<nat>, lost: set<nat>) {
      Shape() && Accounted(live, lost) && Apart(live, lost) && Counted(live, lost)
    }

    // ----- Handing out, taking back, growing ------------------------------------

    function Pop(): (c: SlabClass)
      requires freeChunks != []
    {
      this.(freeChunks := freeChunks[..|freeChunks| - 1])
    }

    function Bump(): (c: SlabClass)
      requires chunk.Some? && free > 0
    {
      this.(free := free - 1, chunk := if free - 1 > 0 then Some(chunk.value + size) else None)
    }

    /** Pushes a chunk on a stack that has room, or was given room. */
    function Push(a: nat, room: nat): (c: SlabClass) {
      this.(freeChunks := freeChunks + [a], totalFree := room)
    }

    function AddSlab(t: nat): (c: SlabClass) {
      this.(slabs := slabs + [t], chunk := Some(t), free := num)
    }
  }

  function Empty(size: nat, num: nat): (c: SlabClass) {
    SlabClass(size, num, None, 0, [], 0, [], 0)
  }

  lemma EmptyInv(size: nat, num: nat)
    requires size > 0 && num > 0
    ensures Empty(size, num).Inv({}, {})
  {
  }

  /** Chunks are told apart by slab and index. */
  lemma CarvedOnce(c: SlabClass, a: nat, j: nat, k: nat, j': nat, k': nat)
    requires c.Stacked() && c.size > 0 && c.CarvedAt(a, j, k)
    requires j' < |c.slabs| && k' < c.num && a == c.slabs[j'] + Times(k', c.size)
    ensures j == j' && k == k'
  {
    TimesMono(k, c.num, c.size);
    TimesMono(k', c.num, c.size);
    if j == j' {
      if k < k' {
        TimesMono(k, k', c.size);
      } else if k' < k {
        TimesMono(k', k, c.size);
      }
    }
  }

  lemma SameCarved(c: SlabClass, r: SlabClass)
    requires r.slabs == c.slabs && r.num == c.num && r.size == c.size && r.free == c.free
    ensures forall b :: r.Carved(b) <==> c.Carved(b)
  {
    forall b ensures r.Carved(b) <==> c.Carved(b) {
      if r.Carved(b) {
        var j: nat, k: nat :| r.CarvedAt(b, j, k);
        assert c.CarvedAt(b, j, k);
      }
      if c.Carved(b) {
        var j: nat, k: nat :| c.CarvedAt(b, j, k);
        assert r.CarvedAt(b, j, k);
      }
    }
  }

  lemma PopApart(c: SlabClass, live: set<nat>, lost: set<nat>, a: nat)
    requires c.Apart(live, lost) && c.freeChunks != [] && a == c.freeChunks[|c.freeChunks| - 1]
    ensures a !in live && c.Pop().Apart(live + {a}, lost)
  {
  }

  lemma PopAccounted(c: SlabClass, live: set<nat>, lost: set<nat>, a: nat)
    requires c.Accounted(live, lost) && c.freeChunks != [] && a == c.freeChunks[|c.freeChunks| - 1]
    ensures c.Pop().Accounted(live + {a}, lost)
  {
    var r := c.Pop();
    SameCarved(c, r);
    hide SlabClass.Carved;
    assert c.freeChunks == r.freeChunks + [a];
  }

  lemma PopShape(c: SlabClass)
    requires c.Shape() && c.freeChunks != []
    ensures c.Pop().Shape()
  {
  }

  lemma PopInv(c: SlabClass, live: set<nat>, lost: set<nat>)
    requires c.Inv(live, lost) && c.freeChunks != []
    ensures var a := c.freeChunks[|c.freeChunks| - 1];
            a !in live && c.Pop().Inv(live + {a}, lost)
  {
    var a := c.freeChunks[|c.freeChunks| - 1];
    PopApart(c, live, lost, a);
    PopAccounted(c, live, lost, a);
    PopShape(c);
    hide SlabClass.Accounted, SlabClass.Apart, SlabClass.Shape, SlabClass.Carved, Times;
    assert |live + {a}| == |live| + 1;
  }

  lemma PushAccounted(c: SlabClass, live: set<nat>, lost: set<nat>, a: nat, room: nat)
    requires c.Accounted(live, lost) && c.Apart(live, lost) && a in live
    ensures c.Push(a, room).Accounted(live - {a}, lost) && c.Push(a, room).Apart(live - {a}, lost)
  {
    hide SlabClass.Carved;
    SameCarved(c, c.Push(a, room));
  }

  lemma PushInv(c: SlabClass, live: set<nat>, lost: set<nat>, a: nat, room: nat)
    requires c.Inv(live, lost) && a in live && |c.freeChunks| < room
    ensures c.Push(a, room).Inv(live - {a}, lost)
  {
    hide SlabClass.Carved, SlabClass.Accounted, SlabClass.Apart, Times;
    PushAccounted(c, live, lost, a, room);
    assert |live - {a}| == |live| - 1;
  }

  /** The stack could not grow: the chunk is lost, and nothing else changes. */
  lemma LoseInv(c: SlabClass, live: set<nat>, lost: set<nat>, a: nat)
    requires c.Inv(live, lost) && a in live
    ensures c.Inv(live - {a}, lost + {a})
  {
    hide SlabClass.Carved, SlabClass.Shape;
    assert |live - {a}| == |live| - 1;
    assert |lost + {a}| == |lost| + 1;
  }

  /** Handing out the next chunk carves exactly one more. */
  lemma BumpCarves(c: SlabClass, live: set<nat>, lost: set<nat>)
    requires c.Inv(live, lost) && c.chunk.Some?
    ensures !c.Carved(c.chunk.value)
    ensures forall b :: c.Bump().Carved(b) <==> c.Carved(b) || b == c.chunk.value
  {
    var t, r, j0, k0 := c.chunk.value, c.Bump(), |c.slabs| - 1, c.num - c.free;
    if c.Carved(t) {
      var j: nat, k: nat :| c.CarvedAt(t, j, k);
      CarvedOnce(c, t, j, k, j0, k0);
    }
    assert r.CarvedAt(t, j0, k0);
    forall b ensures r.Carved(b) <==> c.Carved(b) || b == t {
      if r.Carved(b) {
        var j: nat, k: nat :| r.CarvedAt(b, j, k);
        assert (j == j0 && k == k0) || c.CarvedAt(b, j, k);
      }
      if c.Carved(b) {
        var j: nat, k: nat :| c.CarvedAt(b, j, k);
        assert r.CarvedAt(b, j, k);
      }
    }
  }

  lemma BumpAccounted(c: SlabClass, live: set<nat>, lost: set<nat>, t: nat)
    requires c.Inv(live, lost) && c.chunk == Some(t)
    ensures t !in live && c.Bump().Accounted(live + {t}, lost) && c.Bump().Apart(live + {t}, lost)
  {
    hide SlabClass.Carved, SlabClass.Shape;
    BumpCarves(c, live, lost);
    assert t !in live && t !in lost && t !in c.freeChunks;
  }

  lemma BumpInv(c: SlabClass, live: set<nat>, lost: set<nat>)
    requires c.Inv(live, lost) && c.chunk.Some?
    ensures c.chunk.value !in live && c.Bump().Inv(live + {c.chunk.value}, lost)
  {
    var t := c.chunk.value;
    BumpAccounted(c, live, lost, t);
    BumpShape(c);
    hide SlabClass.Accounted, SlabClass.Apart;
    assert |live + {t}| == |live| + 1;
  }

  lemma BumpShape(c: SlabClass)
    requires c.Shape() && c.chunk.Some?
    ensures c.Bump().Shape()
  {
    assert Times(c.num - (c.free - 1), c.size) == Times(c.num - c.free, c.size) + c.size;
  }

  lemma AddSlabCarves(c: SlabClass, live: set<nat>, lost: set<nat>, t: nat)
    requires c.Inv(live, lost) && c.free == 0
    ensures forall b :: c.AddSlab(t).Carved(b) <==> c.Carved(b)
  {
    var r := c.AddSlab(t);
    forall b ensures r.Carved(b) <==> c.Carved(b) {
      if r.Carved(b) {
        var j: nat, k: nat :| r.CarvedAt(b, j, k);
        assert c.CarvedAt(b, j, k);
      }
      if c.Carved(b) {
        var j: nat, k: nat :| c.CarvedAt(b, j, k);
        assert r.CarvedAt(b, j, k);
      }
    }
  }

  lemma AddSlabInv(c: SlabClass, live: set<nat>, lost: set<nat>, t: nat)
    requires c.Inv(live, lost) && c.free == 0 && |c.slabs| < c.totalSlab
    requires forall i :: 0 <= i < |c.slabs| ==> c.slabs[i] + c.SlabLen() <= t
    ensures c.AddSlab(t).Inv(live, lost)
  {
    AddSlabCarves(c, live, lost, t);
    assert Times(|c.slabs| + 1, c.num) == Times(|c.slabs|, c.num) + c.num;
  }

  /** A live chunk lies inside one slab of its class. */
  lemma LiveInSlab(c: SlabClass, live: set<nat>, lost: set<nat>, a: nat) returns (j: nat, k: nat)
    requires c.Inv(live, lost) && a in live
    ensures c.CarvedAt(a, j, k) && c.slabs[j] <= a && a + c.size <= c.slabs[j] + c.SlabLen()
  {
    assert c.Carved(a);
    j, k :| c.CarvedAt(a, j, k);
    TimesMono(k, c.num, c.size);
  }

  /** Two live chunks of a class do not overlap. */
  lemma LiveDisjoint(c: SlabClass, live: set<nat>, lost: set<nat>, a: nat, b: nat)
    requires c.Inv(live, lost) && a in live && b in live && a != b
    ensures a + c.size <= b || b + c.size <= a
  {
    var j, k := LiveInSlab(c, live, lost, a);
    var j', k' := LiveInSlab(c, live, lost, b);
    if j == j' {
      if k < k' {
        TimesMono(k, k', c.size);
      } else if k' < k {
        TimesMono(k', k, c.size);
      }
    }
  }
}
