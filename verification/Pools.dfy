/**
 * The slab pool over one preallocated stretch of memory: addresses are offsets
 * from its start.
 */
module Pools {
  import opened Bytes
  import opened SlabClasses
  import opened ClassTable

  // ----- Where slabs lie --------------------------------------------------------------

  ghost predicate Below(c: SlabClass, cur: nat) {
    forall j :: 0 <= j < |c.slabs| ==> c.slabs[j] + c.SlabLen() <= cur
  }

  ghost predicate SlabsApart(c: SlabClass, d: SlabClass) {
    forall j, k :: 0 <= j < |c.slabs| && 0 <= k < |d.slabs| ==>
      c.slabs[j] + c.SlabLen() <= d.slabs[k] || d.slabs[k] + d.SlabLen() <= c.slabs[j]
  }

  /** All slabs lie below `cur`, and no two overlap. */
  ghost predicate Laid(cs: seq<SlabClass>, cur: nat) {
    (forall i :: 0 <= i < |cs| ==> Below(cs[i], cur)) &&
    (forall i, j :: 0 <= i < |cs| && 0 <= j < |cs| && i != j ==> SlabsApart(cs[i], cs[j]))
  }

  /** Bytes in slabs, over all classes. */
  function Used(cs: seq<SlabClass>): (n: nat) {
    if cs == [] then 0 else Used(cs[..|cs| - 1]) + Times(|cs[|cs| - 1].slabs|, cs[|cs| - 1].SlabLen())
  }

  lemma {:induction false} UsedUpdate(cs: seq<SlabClass>, i: nat, c: SlabClass)
    requires i < |cs|
    ensures Used(cs[i := c]) == Used(cs) - Times(|cs[i].slabs|, cs[i].SlabLen()) + Times(|c.slabs|, c.SlabLen())
    decreases |cs|
  {
    var n := |cs| - 1;
    if i < n {
      UsedUpdate(cs[..n], i, c);
      assert cs[i := c][..n] == cs[..n][i := c];
    } else {
      assert cs[i := c][..n] == cs[..n];
    }
  }

  /** What the pool keeps of its classes, with the chunks handed out and lost of each. */
  ghost predicate Good(cs: seq<SlabClass>, live: seq<set<nat>>, lost: seq<set<nat>>, cur: nat) {
    |live| == |lost| == |cs| &&
    (forall i :: 0 <= i < |cs| ==> cs[i].Inv(live[i], lost[i])) &&
    Laid(cs, cur) && Used(cs) == cur
  }

  lemma LaidUpdate(cs: seq<SlabClass>, cur: nat, i: nat, c: SlabClass, top: nat)
    requires Laid(cs, cur) && i < |cs| && cur <= top && c.SlabLen() == cs[i].SlabLen()
    requires forall j :: 0 <= j < |c.slabs| ==>
               (j < |cs[i].slabs| && c.slabs[j] == cs[i].slabs[j]) || cur <= c.slabs[j] <= top - c.SlabLen()
    ensures Laid(cs[i := c], top)
  {
    hide SlabClass.SlabLen;
    var ds := cs[i := c];
    forall k | 0 <= k < |ds| ensures Below(ds[k], top) {
      assert Below(cs[k], cur);
    }
    forall k, l | 0 <= k < |ds| && 0 <= l < |ds| && k != l ensures SlabsApart(ds[k], ds[l]) {
      assert SlabsApart(cs[k], cs[l]) && Below(cs[k], cur) && Below(cs[l], cur);
    }
  }

  /** Changing a class without touching its slabs moves nothing. */
  lemma SameSlabs(cs: seq<SlabClass>, live: seq<set<nat>>, lost: seq<set<nat>>, cur: nat, i: nat, c: SlabClass,
                  given: set<nat>, dropped: set<nat>)
    requires Good(cs, live, lost, cur) && i < |cs| && c.Inv(given, dropped)
    requires c.slabs == cs[i].slabs && c.size == cs[i].size && c.num == cs[i].num
    ensures Good(cs[i := c], live[i := given], lost[i := dropped], cur)
  {
    hide SlabClass.Inv;
    UsedUpdate(cs, i, c);
    LaidUpdate(cs, cur, i, c, cur);
    hide Laid, Used, Times;
  }

  /** A new slab goes at `cur`, above everything. */
  lemma NewSlab(cs: seq<SlabClass>, live: seq<set<nat>>, lost: seq<set<nat>>, cur: nat, i: nat)
    requires Good(cs, live, lost, cur) && i < |cs| && cs[i].chunk == None && |cs[i].slabs| < cs[i].totalSlab
    ensures Good(cs[i := cs[i].AddSlab(cur)], live, lost, cur + cs[i].SlabLen())
  {
    hide SlabClass.Inv, Times;
    var c := cs[i].AddSlab(cur);
    NothingLeft(cs[i], live[i], lost[i]);
    assert Below(cs[i], cur);
    AddSlabInv(cs[i], live[i], lost[i], cur);
    UsedUpdate(cs, i, c);
    LaidUpdate(cs, cur, i, c, cur + cs[i].SlabLen());
    OneMore(|cs[i].slabs|, c.SlabLen());
  }

  lemma OneMore(k: nat, size: nat)
    ensures Times(k + 1, size) == Times(k, size) + size
  {
  }

  lemma NothingLeft(c: SlabClass, live: set<nat>, lost: set<nat>)
    requires c.Inv(live, lost)
    ensures c.chunk == None <==> c.free == 0
  {
  }

  function Sizes(cs: seq<SlabClass>): (s: seq<nat>)
    ensures |s| == |cs|
  {
    seq(|cs|, i requires 0 <= i < |cs| => cs[i].size)
  }

  /** What a request comes to: a chunk of the pool, one of the system's, none left, or a class that is none. */
  datatype Granted = Chunk(t: nat) | Malloced | Exhausted | BadClass

  class Pool {
    const maxSize: nat
    var classes: seq<SlabClass>
    var cur: nat
    var usedSize: nat
    var freeSize: nat
    /** Chunks handed out and not given back, class by class. */
    ghost var live: seq<set<nat>>
    /** Chunks given back when the stack of their class could not grow. */
    ghost var lost: seq<set<nat>>

    ghost predicate Valid()
      reads this
    {
      Good(classes, live, lost, cur) && usedSize == cur && usedSize + freeSize == maxSize
    }

    /** Classes for the given sizes, each with as many chunks to a slab as fill the largest. */
    constructor (sizes: seq<nat>, maxSize: nat)
      requires |sizes| > 0 && forall i :: 0 <= i < |sizes| ==> 0 < sizes[i] <= sizes[|sizes| - 1]
      ensures Valid() && this.maxSize == maxSize && |classes| == |sizes|
      ensures forall i :: 0 <= i < |sizes| ==>
                classes[i] == Empty(sizes[i], sizes[|sizes| - 1] / sizes[i]) && live[i] == {} && lost[i] == {}
    {
      this.maxSize := maxSize;
      classes := seq(|sizes|, i requires 0 <= i < |sizes| => Empty(sizes[i], sizes[|sizes| - 1] / sizes[i]));
      cur, usedSize, freeSize := 0, 0, maxSize;
      live, lost := seq(|sizes|, _ => {}), seq(|sizes|, _ => {});
      new;
      forall i | 0 <= i < |sizes| ensures classes[i].Inv(live[i], lost[i]) {
        NumPositive(sizes[|sizes| - 1], sizes[i]);
        EmptyInv(sizes[i], sizes[|sizes| - 1] / sizes[i]);
      }
      UsedOfEmpty(classes);
    }

    /** Takes `size` bytes off the budget, or none. */
    method Pmemalloc(size: nat) returns (t: Option<nat>)
      modifies this`cur, this`usedSize, this`freeSize
      ensures size > old(freeSize) ==>
                t == None && cur == old(cur) && usedSize == old(usedSize) && freeSize == old(freeSize)
      ensures size <= old(freeSize) ==>
                t == Some(old(cur)) && cur == old(cur) + size &&
                usedSize == old(usedSize) + size && freeSize == old(freeSize) - size
    {
      if size > freeSize {
        return None;
      }
      t := Some(cur);
      cur := cur + size;
      freeSize, usedSize := freeSize - size, usedSize + size;
    }

    /** Makes room in the slab table, doubling it from 16. */
    method PallocGrow(id: nat)
      requires Valid() && id < |classes|
      modifies this`classes
      ensures Valid() && |classes[id].slabs| < classes[id].totalSlab
      ensures var c := old(classes[id]);
              classes[id].totalSlab == if |c.slabs| < c.totalSlab then c.totalSlab
                                       else if c.totalSlab == 0 then 16 else c.totalSlab * 2
      ensures classes == old(classes)[id := old(classes[id]).(totalSlab := classes[id].totalSlab)]
    {
      hide SlabClass.Inv, Laid, Used;
      var c := classes[id];
      SlabRoom(c, live[id], lost[id]);
      if |c.slabs| == c.totalSlab {
        var size := if c.totalSlab == 0 then 16 else c.totalSlab * 2;
        SlabRoomInv(c, live[id], lost[id], size);
        SameSlabs(classes, live, lost, cur, id, c.(totalSlab := size), live[id], lost[id]);
        assert live[id := live[id]] == live && lost[id := lost[id]] == lost;
        classes := classes[id := c.(totalSlab := size)];
      }
    }

    /** Adds a slab to a class that has no chunk left; false, and only a larger slab table, when the budget is spent. */
    method PallocNew(id: nat) returns (ok: bool)
      requires Valid() && id < |classes| && classes[id].chunk == None
      modifies this`classes, this`cur, this`usedSize, this`freeSize
      ensures Valid() && |classes| == |old(classes)|
      ensures ok <==> old(classes[id]).SlabLen() <= old(freeSize)
      ensures forall i :: 0 <= i < |classes| && i != id ==> classes[i] == old(classes[i])
      ensures classes[id].size == old(classes[id]).size && classes[id].num == old(classes[id]).num
      ensures classes[id].freeChunks == old(classes[id]).freeChunks
      ensures !ok ==> classes[id] == old(classes[id]).(totalSlab := classes[id].totalSlab) && cur == old(cur)
      ensures ok ==> classes[id].chunk == Some(old(cur)) && classes[id].slabs == old(classes[id]).slabs + [old(cur)]
      ensures usedSize == old(usedSize) + if ok then old(classes[id]).SlabLen() else 0
    {
      PallocGrow(id);
      var c := classes[id];
      var t := Pmemalloc(c.SlabLen());
      if t == None {
        return false;
      }
      NewSlab(classes, live, lost, old(cur), id);
      classes := classes[id := c.AddSlab(t.value)];
      ok := true;
    }

    /** The last chunk given back, else the next one of the last slab. */
    method Take(id: nat) returns (t: Option<nat>)
      requires Valid() && id < |classes| && (classes[id].chunk.Some? || classes[id].freeChunks != [])
      modifies this`classes, this`live
      ensures Valid() && t.Some? && t.value !in old(live[id])
      ensures old(classes[id]).chunk.Some? || old(classes[id]).freeChunks != []
      ensures old(classes[id]).freeChunks == [] ==> old(classes[id]).free > 0
      ensures classes == old(classes)[id := if old(classes[id]).freeChunks != [] then old(classes[id]).Pop()
                                            else old(classes[id]).Bump()]
      ensures var c := old(classes[id]);
              t == if c.freeChunks == [] then c.chunk else Some(c.freeChunks[|c.freeChunks| - 1])
      ensures classes[id].size == old(classes[id]).size
      ensures live == old(live)[id := old(live[id]) + {t.value}]
    {
      hide SlabClass.Inv, Laid, Used;
      var c := classes[id];
      NothingLeft(c, live[id], lost[id]);
      assert lost[id := lost[id]] == lost;
      if c.freeChunks != [] {
        PopInv(c, live[id], lost[id]);
        t := Some(c.freeChunks[|c.freeChunks| - 1]);
        SameSlabs(classes, live, lost, cur, id, c.Pop(), live[id] + {t.value}, lost[id]);
        hide Good;
        classes := classes[id := c.Pop()];
      } else {
        BumpInv(c, live[id], lost[id]);
        t := c.chunk;
        SameSlabs(classes, live, lost, cur, id, c.Bump(), live[id] + {t.value}, lost[id]);
        hide Good;
        classes := classes[id := c.Bump()];
      }
      live := live[id := live[id] + {t.value}];
    }

    /**
     * A chunk of class `id`: the last one given back, else the next of the last
     * slab, else the first of a new slab. None only when nothing was given back,
     * the last slab is used up and the budget does not cover another.
     */
    method Palloc(id: nat) returns (t: Option<nat>)
      requires Valid() && id < |classes|
      modifies this
      ensures Valid() && |classes| == |old(classes)| && lost == old(lost)
      ensures t == None <==> old(classes[id].chunk) == None && old(classes[id].freeChunks) == [] &&
                             old(classes[id].SlabLen() > freeSize)
      ensures t == None ==> live == old(live) && usedSize == old(usedSize)
      ensures t.Some? ==> t.value !in old(live[id]) && live == old(live)[id := old(live[id]) + {t.value}]
      ensures t.Some? ==>
                var c := old(classes[id]);
                if c.freeChunks != [] then t.value == c.freeChunks[|c.freeChunks| - 1]
                else if c.chunk.Some? then t == c.chunk else t == Some(old(cur))
      ensures t.Some? ==>
                usedSize == old(usedSize) +
                            if old(classes[id]).freeChunks == [] && old(classes[id]).chunk == None
                            then old(classes[id]).SlabLen() else 0
      ensures forall i :: 0 <= i < |classes| && i != id ==> classes[i] == old(classes[i])
      ensures forall i :: 0 <= i < |classes| ==> classes[i].size == old(classes[i].size)
    {
      hide Good, SlabClass.Inv, SlabClass.Pop, Times;
      if classes[id].chunk == None && classes[id].freeChunks == [] {
        var ok := PallocNew(id);
        if !ok {
          return None;
        }
      }
      t := Take(id);
    }

    /**
     * A request for `size` bytes, as the callers put it: the class, then a chunk of
     * it. The chunk has room for the request exactly when `size` is no class size
     * or one that the search hits at its own index.
     */
    method Request(size: nat) returns (id: ClassId, g: Granted)
      requires Valid() && |classes| > 0 && Increasing(Sizes(classes))
      modifies this
      ensures Valid() && Sizes(classes) == old(Sizes(classes)) && id == IdOf(Sizes(classes), size)
      ensures g.Chunk? ==>
                id.Class? && g.t !in old(live[id.i]) && live == old(live)[id.i := old(live[id.i]) + {g.t}]
      ensures g.Chunk? ==> classes[id.i].size == Room(Sizes(classes), size)
      ensures g.Chunk? ==> (size <= classes[id.i].size <==> Roomy(Sizes(classes), size))
      ensures !g.Chunk? ==> live == old(live)
      ensures g == Malloced <==> size > Sizes(classes)[|classes| - 1]
      ensures g == BadClass <==> size == 0
      ensures g == Exhausted <==>
                id.Class? && old(classes[id.i].chunk) == None && old(classes[id.i].freeChunks) == [] &&
                old(classes[id.i].SlabLen() > freeSize)
    {
      hide Good, SlabClass.Inv, Times, HitLow, Roomy;
      var sizes := Sizes(classes);
      id := PallocId(sizes, size);
      RoomIff(sizes, size);
      match id {
        case Zero => return id, BadClass;
        case Overflow => return id, Malloced;
        case Class(i) =>
          var t := Palloc(i);
          assert Sizes(classes) == sizes;
          g := if t == None then Exhausted else Chunk(t.value);
      }
    }

    /**
     * Gives a live chunk back; `grows` says whether there is memory for a larger stack. Exactly
     * when the stack is full and cannot grow, the chunk is dropped without a word; otherwise
     * it is the next one handed out.
     */
    method Pfree(a: nat, id: nat, grows: bool)
      requires Valid() && id < |classes| && a in live[id]
      modifies this`classes, this`live, this`lost
      ensures Valid() && |classes| == |old(classes)|
      ensures live == old(live)[id := old(live[id]) - {a}]
      ensures if old(|classes[id].freeChunks| == classes[id].totalFree) && !grows
              then lost == old(lost)[id := old(lost[id]) + {a}] && classes == old(classes)
              else lost == old(lost) && classes[id].freeChunks == old(classes[id].freeChunks) + [a]
      ensures var c := old(classes[id]);
              classes[id].totalFree == if |c.freeChunks| < c.totalFree || !grows then c.totalFree
                                       else if c.totalFree == 0 then 16 else c.totalFree * 2
      ensures forall i :: 0 <= i < |classes| && i != id ==> classes[i] == old(classes[i])
    {
      hide SlabClass.Inv, Laid, Used;
      var c := classes[id];
      var room := c.totalFree;
      if |c.freeChunks| == c.totalFree {
        if !grows {
          LoseInv(c, live[id], lost[id], a);
          SameSlabs(classes, live, lost, cur, id, c, live[id] - {a}, lost[id] + {a});
          hide Good;
          assert classes[id := c] == classes;
          live, lost := live[id := live[id] - {a}], lost[id := lost[id] + {a}];
          return;
        }
        room := if c.totalFree == 0 then 16 else c.totalFree * 2;
      }
      PushRoom(c, live[id], lost[id]);
      PushInv(c, live[id], lost[id], a, room);
      SameSlabs(classes, live, lost, cur, id, c.Push(a, room), live[id] - {a}, lost[id]);
      hide Good;
      assert lost[id := lost[id]] == lost;
      classes := classes[id := c.Push(a, room)];
      live := live[id := live[id] - {a}];
    }
  }

  lemma SlabRoom(c: SlabClass, live: set<nat>, lost: set<nat>)
    requires c.Inv(live, lost)
    ensures |c.slabs| <= c.totalSlab
  {
  }

  lemma SlabRoomInv(c: SlabClass, live: set<nat>, lost: set<nat>, room: nat)
    requires c.Inv(live, lost) && |c.slabs| <= room
    ensures c.(totalSlab := room).Inv(live, lost)
  {
    SameCarved(c, c.(totalSlab := room));
  }

  lemma PushRoom(c: SlabClass, live: set<nat>, lost: set<nat>)
    requires c.Inv(live, lost)
    ensures |c.freeChunks| <= c.totalFree
  {
  }

  lemma NumPositive(chunkSize: nat, size: nat)
    requires 0 < size <= chunkSize
    ensures chunkSize / size > 0
  {
  }

  lemma {:induction false} UsedOfEmpty(cs: seq<SlabClass>)
    requires forall i :: 0 <= i < |cs| ==> cs[i].slabs == []
    ensures Used(cs) == 0
    decreases |cs|
  {
    if cs != [] {
      UsedOfEmpty(cs[..|cs| - 1]);
    }
  }

  // ----- What validity means ------------------------------------------------------------

  /**
   * Live chunks, of whatever classes, never overlap, and each lies inside the
   * memory handed out so far.
   */
  lemma LiveChunksDisjoint(p: Pool, i: nat, a: nat, j: nat, b: nat)
    requires p.Valid() && i < |p.classes| && j < |p.classes| && a in p.live[i] && b in p.live[j]
    requires i != j || a != b
    ensures a + p.classes[i].size <= b || b + p.classes[j].size <= a
    ensures a + p.classes[i].size <= p.usedSize <= p.maxSize
  {
    var j1, k1 := LiveInSlab(p.classes[i], p.live[i], p.lost[i], a);
    assert Below(p.classes[i], p.cur);
    if i == j {
      LiveDisjoint(p.classes[i], p.live[i], p.lost[i], a, b);
    } else {
      var j2, k2 := LiveInSlab(p.classes[j], p.live[j], p.lost[j], b);
      assert SlabsApart(p.classes[i], p.classes[j]);
    }
  }

  /** A chunk with room for what is written to it is written apart from every other live chunk. */
  lemma RoomyWritesStayApart(p: Pool, i: nat, a: nat, size: nat, j: nat, b: nat)
    requires p.Valid() && i < |p.classes| && j < |p.classes| && a in p.live[i] && b in p.live[j]
    requires i != j || a != b
    requires size <= p.classes[i].size
    ensures a + size <= b || b + p.classes[j].size <= a
  {
    LiveChunksDisjoint(p, i, a, j, b);
  }

  /**
   * Where the chunk behind it is live too, what is written to a chunk stays apart from
   * all other live chunks exactly when it has room in its own.
   */
  lemma WritesStayApartIff(p: Pool, i: nat, a: nat, size: nat)
    requires p.Valid() && i < |p.classes| && a in p.live[i] && a + p.classes[i].size in p.live[i]
    ensures (forall j: nat, b: nat ::
               j < |p.classes| && b in p.live[j] && (i != j || a != b) ==>
                 a + size <= b || b + p.classes[j].size <= a)
            <==> size <= p.classes[i].size
  {
    var b := a + p.classes[i].size;
    assert b in p.live[i] && p.classes[i].size > 0;
    if size <= p.classes[i].size {
      forall j: nat, b: nat | j < |p.classes| && b in p.live[j] && (i != j || a != b)
        ensures a + size <= b || b + p.classes[j].size <= a
      {
        RoomyWritesStayApart(p, i, a, size, j, b);
      }
    }
  }

  /** There is such a chunk wherever two are cut from a slab in a row. */
  lemma NextCutIsNeighbour(c: SlabClass, live: set<nat>, lost: set<nat>)
    requires c.Inv(live, lost) && c.free >= 2
    ensures c.chunk.Some? && c.Bump().chunk == Some(c.chunk.value + c.size)
  {
  }

  /**
   * Conservation: the budget is spent on slabs and nothing else, and the chunks of
   * a class's slabs are the live, stacked, lost and untouched ones.
   */
  lemma Conservation(p: Pool, i: nat)
    requires p.Valid() && i < |p.classes|
    ensures Used(p.classes) + p.freeSize == p.maxSize
    ensures |p.live[i]| + |p.lost[i]| + |p.classes[i].freeChunks| + p.classes[i].free ==
            Times(|p.classes[i].slabs|, p.classes[i].num)
  {
    assert p.classes[i].Inv(p.live[i], p.lost[i]);
  }
}
