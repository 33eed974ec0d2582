/** The event stream of a reader: its order, its tails, and the files it visits. */
module Streams {
  import opened Bytes
  import opened BinlogEvents
  import opened Replication

  predicate After(e: Stamped, num: nat, pos: nat) {
    e.num == NameNumber(e.file) && Before(num, pos, e.num, e.pos)
  }

  lemma OrderedCons(e: Stamped, evs: seq<Stamped>)
    requires e.num == NameNumber(e.file) && Ordered(evs)
    requires forall f <- evs :: After(f, e.num, e.pos)
    ensures Ordered([e] + evs)
  {
    var all := [e] + evs;
    forall i, j | 0 <= i < j < |all| ensures Before(all[i].num, all[i].pos, all[j].num, all[j].pos) {
      assert all[j] == evs[j - 1];
      if i == 0 {
        assert After(evs[j - 1], e.num, e.pos);
      }
    }
  }

  lemma OrderedAppend(a: seq<Stamped>, b: seq<Stamped>, num: nat)
    requires Ordered(a) && Ordered(b)
    requires forall e <- a :: e.num <= num
    requires forall e <- b :: e.num > num
    ensures Ordered(a + b)
  {
    var all := a + b;
    forall i, j | 0 <= i < j < |all| ensures Before(all[i].num, all[i].pos, all[j].num, all[j].pos) {
      if i < |a| <= j {
        assert all[i] in a && all[j] in b;
      }
    }
  }

  lemma {:induction false} EventsOrdered(localId: nat, file: bytes, num: nat, data: bytes, pos: nat)
    requires WellFormed(localId, data, pos) && num == NameNumber(file)
    ensures Ordered(EventsFrom(localId, file, num, data, pos))
    ensures forall e <- EventsFrom(localId, file, num, data, pos) :: e.num == num && After(e, num, pos)
    decreases |data| - pos
  {
    var evs := EventsFrom(localId, file, num, data, pos);
    if evs != [] {
      var next := pos + LenAt(data, pos);
      EventsOrdered(localId, file, num, data, next);
      OrderedCons(evs[0], EventsFrom(localId, file, num, data, next));
    }
  }

  /** Events come in binlog order: by file number, then by offset. */
  lemma {:induction false} StreamOrdered(localId: nat, b: Binlog, file: bytes, num: nat, pos: nat)
    requires GoodBinlog(localId, b) && num == NameNumber(file)
    requires file in b.files && WellFormed(localId, b.files[file], pos)
    ensures Ordered(Stream(localId, b, file, num, pos))
    ensures forall e <- Stream(localId, b, file, num, pos) :: After(e, num, pos)
    decreases U32_LIMIT - num
  {
    hide WellFormed, EventsFrom;
    EventsOrdered(localId, file, num, b.files[file], pos);
    var i := NextAfter(b.index, num, 0);
    if i < |b.index| {
      StreamOrdered(localId, b, b.index[i], NameNumber(b.index[i]), MAGIC_LEN);
    }
    OrderedAppend(EventsFrom(localId, file, num, b.files[file], pos), StreamAfter(localId, b, num), num);
  }

  lemma {:induction false} EventsTail(localId: nat, file: bytes, num: nat, data: bytes, pos: nat, k: nat)
    requires WellFormed(localId, data, pos) && k < |EventsFrom(localId, file, num, data, pos)|
    ensures var evs := EventsFrom(localId, file, num, data, pos);
            evs[k].file == file && evs[k].num == num && WellFormed(localId, data, evs[k].pos) &&
            evs[k + 1..] == EventsFrom(localId, file, num, data, evs[k].pos)
    decreases k
  {
    hide Decode;
    if k > 0 {
      EventsTail(localId, file, num, data, pos + LenAt(data, pos), k - 1);
    }
  }

  /** Where a reader that starts at the stamp of event `k` stands: at the rest of the stream. */
  lemma {:induction false} StreamResumes(localId: nat, b: Binlog, file: bytes, num: nat, pos: nat, k: nat)
    requires GoodBinlog(localId, b)
    requires file in b.files && WellFormed(localId, b.files[file], pos)
    requires k < |Stream(localId, b, file, num, pos)|
    ensures var evs := Stream(localId, b, file, num, pos);
            evs[k].file in b.files && WellFormed(localId, b.files[evs[k].file], evs[k].pos) &&
            evs[k + 1..] == Stream(localId, b, evs[k].file, evs[k].num, evs[k].pos)
    decreases U32_LIMIT - num
  {
    hide WellFormed, EventsFrom, NameNumber;
    var here := EventsFrom(localId, file, num, b.files[file], pos);
    var evs := Stream(localId, b, file, num, pos);
    if k < |here| {
      EventsTail(localId, file, num, b.files[file], pos, k);
      assert evs[k + 1..] == here[k + 1..] + StreamAfter(localId, b, num);
    } else {
      var i := NextAfter(b.index, num, 0);
      StreamResumes(localId, b, b.index[i], NameNumber(b.index[i]), MAGIC_LEN, k - |here|);
      assert evs[k + 1..] == StreamAfter(localId, b, num)[k - |here| + 1..];
    }
  }

  // ----- No listed file is skipped -----------------------------------------------

  predicate IncreasingIndex(index: seq<bytes>) {
    forall i, j :: 0 <= i < j < |index| ==> NameNumber(index[i]) < NameNumber(index[j])
  }

  /** Every event of every file from line `i` of the index on. */
  function FilesFrom(localId: nat, b: Binlog, i: nat): (evs: seq<Stamped>)
    requires GoodBinlog(localId, b) && i <= |b.index|
    decreases |b.index| - i
  {
    if i == |b.index| then []
    else
      EventsFrom(localId, b.index[i], NameNumber(b.index[i]), b.files[b.index[i]], MAGIC_LEN) +
      FilesFrom(localId, b, i + 1)
  }

  lemma {:induction false} NextInOrder(index: seq<bytes>, i: nat, from: nat)
    requires i < |index| && IncreasingIndex(index) && from <= i + 1
    ensures NextAfter(index, NameNumber(index[i]), from) == i + 1
    decreases i + 1 - from
  {
    hide NameNumber;
    if from <= i {
      NextInOrder(index, i, from + 1);
    }
  }

  /** With an increasing index the reader goes through every later file, in order. */
  lemma {:induction false} NoFileSkipped(localId: nat, b: Binlog, i: nat, pos: nat)
    requires GoodBinlog(localId, b) && IncreasingIndex(b.index) && i < |b.index|
    requires WellFormed(localId, b.files[b.index[i]], pos)
    ensures Stream(localId, b, b.index[i], NameNumber(b.index[i]), pos) ==
            EventsFrom(localId, b.index[i], NameNumber(b.index[i]), b.files[b.index[i]], pos) +
            FilesFrom(localId, b, i + 1)
    decreases |b.index| - i
  {
    hide WellFormed, EventsFrom, GoodName, NameNumber;
    NextInOrder(b.index, i, 0);
    if i + 1 < |b.index| {
      NoFileSkipped(localId, b, i + 1, MAGIC_LEN);
    }
  }
}
