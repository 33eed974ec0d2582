/** The pool's size classes: how the table is built, and how a request finds its class. */
module ClassTable {
  import opened Bytes

  const ALIGNMENT: nat := 8

  function Align(n: nat): (a: nat)
    ensures n <= a < n + ALIGNMENT && a % ALIGNMENT == 0
  {
    (n + (ALIGNMENT - 1)) / ALIGNMENT * ALIGNMENT
  }

  /** The next class size, for a growth factor of `fn / fd`. */
  function Grown(size: nat, fn: nat, fd: nat): (g: nat)
    requires fd > 0
  {
    Align(size * fn / fd)
  }

  /** The factor moves this size up by at least one byte. */
  predicate Grows(size: nat, fn: nat, fd: nat) {
    size * fn >= size * fd + fd
  }

  predicate Increasing(sizes: seq<nat>) {
    forall i, j :: 0 <= i < j < |sizes| ==> sizes[i] < sizes[j]
  }

  lemma MulMono(a: nat, b: nat, k: nat)
    requires a <= b
    ensures a * k <= b * k
  {
  }

  lemma MulStrict(a: nat, b: nat, k: nat)
    requires a < b
    ensures a * k + k <= b * k
  {
    MulMono(a + 1, b, k);
  }

  lemma DivRange(x: nat, fd: nat)
    requires fd > 0
    ensures (x / fd) * fd <= x < (x / fd) * fd + fd
  {
  }

  lemma DivAbove(x: nat, size: nat, fd: nat)
    requires fd > 0 && x >= size * fd + fd
    ensures x / fd >= size + 1
  {
    DivRange(x, fd);
    if x / fd <= size {
      MulMono(x / fd, size, fd);
    }
  }

  lemma DivExact(x: nat, size: nat, fd: nat)
    requires fd > 0 && size * fd <= x < size * fd + fd
    ensures x / fd == size
  {
    DivRange(x, fd);
    var q := x / fd;
    if q > size {
      MulStrict(size, q, fd);
    }
    if q < size {
      MulStrict(q, size, fd);
    }
  }

  lemma AlignFixed(n: nat)
    requires n % ALIGNMENT == 0
    ensures Align(n) == n
  {
  }

  lemma ScaleUp(g: nat, size: nat, fn: nat, fd: nat)
    requires g >= size && fn >= fd && Grows(size, fn, fd)
    ensures Grows(g, fn, fd)
  {
    MulMono(size, g, fn - fd);
    assert g * fn == g * fd + g * (fn - fd);
    assert size * fn == size * fd + size * (fn - fd);
  }

  /** Where the factor moves a size up, the next class is strictly larger and moves up too. */
  lemma GrowthGoesOn(size: nat, fn: nat, fd: nat)
    requires fd > 0 && fn >= fd && Grows(size, fn, fd)
    ensures Grown(size, fn, fd) > size && Grows(Grown(size, fn, fd), fn, fd)
  {
    hide Align, Grows;
    assert size * fn / fd >= size + 1 by {
      DivAboveGrows(size, fn, fd);
    }
    ScaleUp(Grown(size, fn, fd), size, fn, fd);
  }

  lemma DivAboveGrows(size: nat, fn: nat, fd: nat)
    requires fd > 0 && Grows(size, fn, fd)
    ensures size * fn / fd >= size + 1
  {
    DivAbove(size * fn, size, fd);
  }

  /** Where it does not, the next class has the same size. */
  lemma NoGrowth(size: nat, fn: nat, fd: nat)
    requires fd > 0 && fn >= fd && !Grows(size, fn, fd) && size % ALIGNMENT == 0
    ensures Grown(size, fn, fd) == size
  {
    hide Align;
    assert size * fn / fd == size by {
      MulMono(fd, fn, size);
      DivExact(size * fn, size, fd);
    }
    AlignFixed(size);
  }

  /** The size after `i` turns of the loop that builds the table. */
  function SizeAt(initSize: nat, i: nat, fn: nat, fd: nat): (s: nat)
    requires fd > 0
    ensures s % ALIGNMENT == 0
  {
    if i == 0 then Align(initSize) else Grown(SizeAt(initSize, i - 1, fn, fd), fn, fd)
  }

  /** The loop comes to a size of zero, by which it divides. */
  ghost predicate DividesByZero(initSize: nat, chunkSize: nat, maxIdx: nat, fn: nat, fd: nat)
    requires fd > 0
  {
    exists i: nat ::
      i < maxIdx && SizeAt(initSize, i, fn, fd) == 0 < chunkSize &&
      forall j: nat :: j < i ==> 0 < SizeAt(initSize, j, fn, fd) < chunkSize
  }

  /** A factor below one never makes a size larger. */
  lemma NeverLarger(size: nat, fn: nat, fd: nat)
    requires fd > 0 && fn < fd && size % ALIGNMENT == 0
    ensures Grown(size, fn, fd) <= size
  {
    MulMono(fn, fd, size);
    DivRange(size * fn, fd);
    var q := size * fn / fd;
    if q > size {
      MulStrict(size, q, fd);
    }
    AlignBelow(q, size);
  }

  lemma AlignBelow(q: nat, size: nat)
    requires q <= size && size % ALIGNMENT == 0
    ensures Align(q) <= size
  {
  }

  /** Aligned sizes stay positive unless the factor takes one below a byte. */
  lemma StaysPositive(size: nat, fn: nat, fd: nat)
    requires fd > 0 && size > 0 && fn >= fd
    ensures Grown(size, fn, fd) > 0
  {
    MulMono(fd, fn, size);
    DivRange(size * fn, fd);
  }

  /**
   * The loop of `rs_create_pool`: the sizes of its turns, then the chunk size; None
   * where it divides by a size of zero, which takes an initial size of zero or a
   * factor below one. From one up the sizes increase strictly when the factor
   * moves the first one; otherwise all but the last are the same.
   */
  method BuildSizes(initSize: nat, chunkSize: nat, maxIdx: nat, fn: nat, fd: nat) returns (r: Option<seq<nat>>)
    requires fd > 0
    ensures r == None <==> DividesByZero(initSize, chunkSize, maxIdx, fn, fd)
    ensures initSize > 0 && fn >= fd ==> r.Some?
    ensures r.Some? ==> 1 <= |r.value| <= maxIdx + 1 && r.value[|r.value| - 1] == chunkSize
    ensures r.Some? ==>
              forall i :: 0 <= i < |r.value| - 1 ==>
                r.value[i] == SizeAt(initSize, i, fn, fd) && 0 < r.value[i] < chunkSize
    ensures r.Some? && |r.value| <= maxIdx ==> SizeAt(initSize, |r.value| - 1, fn, fd) >= chunkSize
    ensures r.Some? && fn >= fd && Grows(Align(initSize), fn, fd) ==> Increasing(r.value)
    ensures r.Some? && fn >= fd && !Grows(Align(initSize), fn, fd) ==>
              forall i :: 0 <= i < |r.value| - 1 ==> r.value[i] == Align(initSize)
  {
    hide Align, Grown, SizeAt, DividesByZero, Grows, Increasing;
    SizeNext(initSize, 0, fn, fd);
    var sizes: seq<nat> := [];
    NoSizes();
    var size := Align(initSize);
    ghost var up := fn >= fd && Grows(size, fn, fd);
    ghost var flat := fn >= fd && !Grows(size, fn, fd);
    while |sizes| < maxIdx && size < chunkSize
      invariant |sizes| <= maxIdx && size == SizeAt(initSize, |sizes|, fn, fd) && size % ALIGNMENT == 0
      invariant forall i :: 0 <= i < |sizes| ==>
                  sizes[i] == SizeAt(initSize, i, fn, fd) && 0 < SizeAt(initSize, i, fn, fd) < chunkSize
      invariant initSize > 0 && fn >= fd ==> size > 0
      invariant up ==> Grows(size, fn, fd) && Increasing(sizes) && (sizes != [] ==> sizes[|sizes| - 1] < size)
      invariant flat ==> !Grows(size, fn, fd) && size == Align(initSize)
      invariant flat ==> forall i :: 0 <= i < |sizes| ==> sizes[i] == size
      decreases maxIdx - |sizes|
    {
      if size == 0 {
        FirstZero(initSize, chunkSize, maxIdx, fn, fd, |sizes|);
        return None;
      }
      SizeNext(initSize, |sizes|, fn, fd);
      if up {
        GrowthGoesOn(size, fn, fd);
      } else if flat {
        NoGrowth(size, fn, fd);
      }
      if fn >= fd {
        StaysPositive(size, fn, fd);
      }
      if up {
        IncreasingSnoc(sizes, size);
      }
      sizes := sizes + [size];
      size := Grown(size, fn, fd);
    }
    NoZero(initSize, chunkSize, maxIdx, fn, fd, sizes);
    if up {
      IncreasingSnoc(sizes, chunkSize);
    }
    sizes := sizes + [chunkSize];
    r := Some(sizes);
  }

  lemma NoSizes()
    ensures Increasing([])
  {
  }

  lemma IncreasingSnoc(sizes: seq<nat>, size: nat)
    requires Increasing(sizes) && (sizes != [] ==> sizes[|sizes| - 1] < size)
    ensures Increasing(sizes + [size])
  {
  }

  lemma NoZero(initSize: nat, chunkSize: nat, maxIdx: nat, fn: nat, fd: nat, built: seq<nat>)
    requires fd > 0 && |built| <= maxIdx
    requires forall i :: 0 <= i < |built| ==> 0 < SizeAt(initSize, i, fn, fd) < chunkSize
    requires |built| == maxIdx || SizeAt(initSize, |built|, fn, fd) >= chunkSize
    ensures !DividesByZero(initSize, chunkSize, maxIdx, fn, fd)
  {
    hide SizeAt;
  }

  lemma FirstZero(initSize: nat, chunkSize: nat, maxIdx: nat, fn: nat, fd: nat, i: nat)
    requires fd > 0 && i < maxIdx && SizeAt(initSize, i, fn, fd) == 0 < chunkSize
    requires forall j :: 0 <= j < i ==> 0 < SizeAt(initSize, j, fn, fd) < chunkSize
    ensures DividesByZero(initSize, chunkSize, maxIdx, fn, fd)
  {
    hide SizeAt;
  }

  lemma SizeNext(initSize: nat, i: nat, fn: nat, fd: nat)
    requires fd > 0
    ensures SizeAt(initSize, 0, fn, fd) == Align(initSize)
    ensures SizeAt(initSize, i + 1, fn, fd) == Grown(SizeAt(initSize, i, fn, fd), fn, fd)
  {
  }

  /** With a factor below one the sizes of a table never increase, but for the last. */
  lemma {:induction false} ShrinkingSizes(initSize: nat, fn: nat, fd: nat, i: nat, j: nat)
    requires 0 < fd && fn < fd && i <= j
    ensures SizeAt(initSize, j, fn, fd) <= SizeAt(initSize, i, fn, fd)
    decreases j
  {
    hide Grown;
    if i < j {
      ShrinkingSizes(initSize, fn, fd, i, j - 1);
      NeverLarger(SizeAt(initSize, j - 1, fn, fd), fn, fd);
    }
  }

  // ----- Finding the class of a request ---------------------------------------------

  datatype ClassId = Class(i: nat) | Overflow | Zero

  /** The least class that is large enough. */
  predicate Fits(sizes: seq<nat>, size: nat, i: nat) {
    i < |sizes| && sizes[i] >= size && forall j :: 0 <= j < i ==> sizes[j] < size
  }

  /** The lower bound of the binary search when it hits class `k`, from bounds `low..high`. */
  function HitLow(k: nat, low: nat, high: nat): (l: nat)
    requires low <= k <= high
    ensures low <= l <= k
    decreases high - low
  {
    var mid := low + (high - low) / 2;
    if mid > k then HitLow(k, low, mid - 1) else if mid < k then HitLow(k, mid + 1, high) else low
  }

  lemma HitStep(k: nat, low: nat, high: nat)
    requires low <= k <= high
    ensures var mid := low + (high - low) / 2;
            HitLow(k, low, high) ==
            if mid > k then HitLow(k, low, mid - 1) else if mid < k then HitLow(k, mid + 1, high) else low
  {
  }

  /**
   * The search as written: on an exact hit it answers the lower bound, not the
   * class it hit.
   */
  method PallocId(sizes: seq<nat>, size: nat) returns (id: ClassId)
    requires |sizes| > 0 && Increasing(sizes)
    ensures size == 0 <==> id == Zero
    ensures size > sizes[|sizes| - 1] <==> id == Overflow
    ensures id.Class? && size !in sizes ==> Fits(sizes, size, id.i)
    ensures forall k :: 0 <= k < |sizes| && sizes[k] == size && size > 0 ==> id == Class(HitLow(k, 0, |sizes| - 1))
    ensures id == IdOf(sizes, size)
  {
    hide HitLow, IdOf;
    var low, high := 0, |sizes| - 1;
    ghost var hit: nat := 0;
    if size in sizes {
      hit :| hit < |sizes| && sizes[hit] == size;
    }
    if size == 0 {
      IdOfUnique(sizes, size, Zero);
      return Zero;
    }
    if size > sizes[|sizes| - 1] {
      IdOfUnique(sizes, size, Overflow);
      return Overflow;
    }
    while low <= high
      invariant 0 <= low <= high + 1 <= |sizes|
      invariant forall j :: 0 <= j < low ==> sizes[j] < size
      invariant forall j :: high < j < |sizes| ==> sizes[j] > size
      invariant low < |sizes| || size > sizes[|sizes| - 1]
      invariant size in sizes ==> low <= hit <= high && HitLow(hit, low, high) == HitLow(hit, 0, |sizes| - 1)
      decreases high - low
    {
      var mid := low + (high - low) / 2;
      if size in sizes {
        HitStep(hit, low, high);
      }
      if sizes[mid] > size {
        high := mid - 1;
      } else if sizes[mid] < size {
        low := mid + 1;
      } else {
        IdOfUnique(sizes, size, Class(low));
        return Class(low);
      }
    }
    IdOfUnique(sizes, size, Class(low));
    id := Class(low);
  }

  /** The classes a binary search over `low..high` looks at before it comes to class `k`. */
  function Midpoints(k: nat, low: nat, high: nat): (ms: seq<nat>)
    requires low <= k <= high
    decreases high - low
  {
    var mid := low + (high - low) / 2;
    if mid > k then [mid] + Midpoints(k, low, mid - 1)
    else if mid < k then [mid] + Midpoints(k, mid + 1, high)
    else []
  }

  /** No class size, or that of the first class, or of one whose predecessor the search looks at before it. */
  predicate Roomy(sizes: seq<nat>, size: nat) {
    forall k :: 0 <= k < |sizes| && sizes[k] == size ==> k == 0 || k - 1 in Midpoints(k, 0, |sizes| - 1)
  }

  lemma {:induction false} MidpointsInRange(k: nat, low: nat, high: nat)
    requires low <= k <= high
    ensures forall m <- Midpoints(k, low, high) :: low <= m <= high
    decreases high - low
  {
    var mid := low + (high - low) / 2;
    if mid > k {
      MidpointsInRange(k, low, mid - 1);
    } else if mid < k {
      MidpointsInRange(k, mid + 1, high);
    }
  }

  /** The lower bound comes up to the class itself only by way of its predecessor. */
  lemma {:induction false} HitAtOwnIff(k: nat, low: nat, high: nat)
    requires low <= k <= high
    ensures HitLow(k, low, high) == k <==> k == low || k - 1 in Midpoints(k, low, high)
    decreases high - low
  {
    var mid := low + (high - low) / 2;
    if mid > k {
      HitAtOwnIff(k, low, mid - 1);
    } else if mid < k {
      HitAtOwnIff(k, mid + 1, high);
      MidpointsInRange(k, mid + 1, high);
    }
  }

  /** First class from `i` on that is large enough. */
  function Least(sizes: seq<nat>, size: nat, i: nat): (k: nat)
    requires i <= |sizes|
    ensures i <= k <= |sizes| && (k < |sizes| ==> sizes[k] >= size)
    ensures forall j :: i <= j < k ==> sizes[j] < size
    decreases |sizes| - i
  {
    if i == |sizes| || sizes[i] >= size then i else Least(sizes, size, i + 1)
  }

  /** What the search answers. */
  function IdOf(sizes: seq<nat>, size: nat): (id: ClassId)
    requires |sizes| > 0
    ensures id.Class? ==> id.i < |sizes|
  {
    if size == 0 then Zero
    else
      var k := Least(sizes, size, 0);
      if k == |sizes| || size > sizes[|sizes| - 1] then Overflow
      else Class(if sizes[k] == size then HitLow(k, 0, |sizes| - 1) else k)
  }

  lemma IdOfUnique(sizes: seq<nat>, size: nat, id: ClassId)
    requires |sizes| > 0 && Increasing(sizes)
    requires size == 0 <==> id == Zero
    requires size > sizes[|sizes| - 1] <==> id == Overflow
    requires id.Class? && size !in sizes ==> Fits(sizes, size, id.i)
    requires forall k :: 0 <= k < |sizes| && sizes[k] == size && size > 0 ==> id == Class(HitLow(k, 0, |sizes| - 1))
    ensures id == IdOf(sizes, size)
  {
    hide HitLow;
    var k := Least(sizes, size, 0);
    if id.Class? {
      assert k < |sizes|;
      if size !in sizes {
        assert id.i == k;
      }
    }
  }

  /**
   * Bytes of memory behind the chunk handed out for a request: those of its class,
   * or, above the largest class, just what was asked for.
   */
  function Room(sizes: seq<nat>, size: nat): (n: nat)
    requires |sizes| > 0
  {
    match IdOf(sizes, size)
    case Class(i) => sizes[i]
    case Overflow => size
    case Zero => 0
  }

  /**
   * The chunk has room for the request exactly when the request is no class size, or one whose
   * place among the classes makes the search hit it with nothing left below.
   */
  lemma RoomIff(sizes: seq<nat>, size: nat)
    requires |sizes| > 0 && Increasing(sizes)
    ensures Room(sizes, size) >= size <==> Roomy(sizes, size)
  {
    hide HitLow, Midpoints;
    var k := Least(sizes, size, 0);
    if k < |sizes| && sizes[k] == size {
      HitAtOwnIff(k, 0, |sizes| - 1);
      assert forall j :: 0 <= j < |sizes| && sizes[j] == size ==> j == k;
    }
  }

  /** Every table of three or more classes has requests that get too small a chunk: the middle class gets the first. */
  lemma MiddleClassTooSmall(sizes: seq<nat>)
    requires |sizes| >= 3 && Increasing(sizes) && sizes[0] > 0
    ensures IdOf(sizes, sizes[(|sizes| - 1) / 2]) == Class(0)
    ensures Room(sizes, sizes[(|sizes| - 1) / 2]) < sizes[(|sizes| - 1) / 2]
  {
    var m := (|sizes| - 1) / 2;
    IdOfUnique(sizes, sizes[m], Class(0)) by {
      assert HitLow(m, 0, |sizes| - 1) == 0;
      hide HitLow;
      assert forall k :: 0 <= k < |sizes| && sizes[k] == sizes[m] ==> k == m;
    }
  }

  /** So every request gets a chunk with room for it exactly when there are at most two classes. */
  lemma AllRequestsHaveRoomIff(sizes: seq<nat>)
    requires |sizes| > 0 && Increasing(sizes) && sizes[0] > 0
    ensures (forall size: nat :: Room(sizes, size) >= size) <==> |sizes| <= 2
  {
    if |sizes| <= 2 {
      forall size: nat ensures Room(sizes, size) >= size {
        RoomIff(sizes, size);
      }
    } else {
      MiddleClassTooSmall(sizes);
    }
  }
}
