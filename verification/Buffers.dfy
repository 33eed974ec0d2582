/** The ring buffer and the socket buffers as the threads call them. */
module Buffers {
  import opened Bytes
  import opened Spsc

  /**
   * The ring of one producer and one consumer. Each call is here one thread's
   * uninterrupted turn; module Spsc has the same steps taken apart.
   */
  class RingBuffer<T(0,!new)> {
    const num: nat
    const slots: array<T>
    var rn: nat
    var wn: nat
    var rp: nat
    var wp: nat
    ghost var p: Producer
    ghost var c: Consumer

    ghost function View(): (r: Ring<T>)
      reads this, slots
    {
      Ring(num, slots[..], rn, wn, rp, wp, p, c)
    }

    constructor (num: nat)
      requires num > 0
      ensures Created(View(), num) && View().Inv() && fresh(slots) && this.num == num
    {
      this.num := num;
      slots := new T[num];
      rn, wn, rp, wp, p, c := 0, 0, 0, 0, PIdle, CIdle;
      new;
      CreatedInv(View(), num);
    }

    /** The slot to fill next, unless the ring is full. */
    method Set() returns (slot: Option<nat>)
      requires View().Inv() && p == PIdle
      modifies this`p
      ensures View() == old(View()).PCheck().PDecide() && View().Inv()
      ensures slot == (if |Queue(old(View()))| == num then None else Some(wp))
      ensures slot.Some? <==> p == PClaimed
    {
      if wn - rn == num {
        return None;
      }
      p := PClaimed;
      slot := Some(wp);
    }

    /** Fills the claimed slot: what the consumer can read stays as it is. */
    method Fill(x: T)
      requires View().Inv() && p == PClaimed
      modifies slots
      ensures View() == old(View()).PWrite(x) && View().Inv()
      ensures Queue(View()) == Queue(old(View()))
    {
      WriteKeepsQueue(View(), x);
      slots[wp] := x;
      assert slots[..] == old(slots[..])[wp := x];
    }

    /** Hands the filled slot over: it joins the queue at the end. */
    method SetAdvance()
      requires View().Inv() && p == PClaimed
      modifies this`wp, this`wn, this`p
      ensures View() == old(View()).PMove().PCommit() && View().Inv()
      ensures Queue(View()) == Queue(old(View())) + [old(slots[wp])]
    {
      ghost var r := View();
      ProducerKeepsInv(r, r.PMove());
      CommitAppends(r.PMove());
      wp := if wp + 1 == num then 0 else wp + 1;
      wn := wn + 1;
      p := PIdle;
      assert View() == r.PMove().PCommit();
      assert Queue(r.PMove()) == Queue(r);
    }

    /** The slot to read next, unless the ring is empty: the head of the queue. */
    method Get() returns (slot: Option<nat>)
      requires View().Inv() && c == CIdle
      modifies this`c
      ensures View() == old(View()).CCheck().CDecide() && View().Inv()
      ensures slot == (if Queue(old(View())) == [] then None else Some(rp))
      ensures slot.Some? ==> c == CClaimed && rp < slots.Length && slots[rp] == Queue(old(View()))[0]
    {
      if wn - rn == 0 {
        return None;
      }
      ConsumerReadsHead(View().(c := CClaimed));
      c := CClaimed;
      slot := Some(rp);
    }

    /** Hands the slot back: the queue loses its head. */
    method GetAdvance()
      requires View().Inv() && c == CClaimed
      modifies this`rp, this`rn, this`c
      ensures View() == old(View()).CMove().CCommit() && View().Inv()
      ensures Queue(View()) == Queue(old(View()))[1..]
    {
      ghost var r := View();
      ConsumerKeepsInv(r, r.CMove());
      ReleaseDropsHead(r.CMove());
      rp := if rp + 1 == num then 0 else rp + 1;
      rn := rn + 1;
      c := CIdle;
      assert View() == r.CMove().CCommit();
      assert Queue(r.CMove()) == Queue(r);
    }
  }

  /** A connected socket: what was written to it, and what will arrive from it. */
  class Socket {
    var written: bytes
    var incoming: bytes
    /** How many writes have answered 0. */
    ghost var failures: nat

    constructor (incoming: bytes)
      ensures written == [] && this.incoming == incoming && failures == 0
    {
      written, this.incoming, failures := [], incoming, 0;
    }

    /** Takes some of the bytes, at least one; 0 when the connection is gone. */
    method Write(data: bytes) returns (n: nat)
      requires data != []
      modifies this`written, this`failures
      ensures n <= |data| && written == old(written) + data[..n]
      ensures failures == old(failures) + if n == 0 then 1 else 0
    {
      n :| n <= |data|;
      failures := failures + if n == 0 then 1 else 0;
      written := written + data[..n];
    }

    /** Some of what arrives, at least one byte and at most `most`; none when nothing is left. */
    method Read(most: nat) returns (data: bytes)
      requires most > 0
      modifies this`incoming
      ensures |data| <= most && old(incoming) == data + incoming
      ensures data == [] <==> old(incoming) == []
    {
      var limit := if most < |incoming| then most else |incoming|;
      var n: nat :| n <= limit && (n == 0 <==> limit == 0);
      data := incoming[..n];
      incoming := incoming[n..];
    }
  }

  datatype Received =
    | Got
    | Failed   // more than the buffer holds, or the connection is gone
    | Overrun  // a read went past the end of the buffer

  class TmpBuf {
    const buf: array<byte>
    var pos: nat
    var last: nat

    ghost predicate Valid()
      reads this
    {
      pos <= last <= buf.Length
    }

    ghost function Unread(): (s: bytes)
      requires Valid()
      reads this, buf
    {
      buf[pos..last]
    }

    constructor (size: nat)
      ensures Valid() && Unread() == [] && fresh(buf) && buf.Length == size
    {
      buf := new byte[size];
      pos, last := 0, 0;
    }

    /** Puts bytes behind what is buffered, which the caller has checked to fit. */
    method Append(data: bytes)
      requires Valid() && |data| <= buf.Length - last
      modifies this`last, buf
      ensures Valid() && Unread() == old(Unread()) + data && pos == old(pos)
    {
      ghost var before := buf[..last];
      for i := 0 to |data|
        modifies buf
        invariant buf[..last] == before
        invariant forall k :: 0 <= k < i ==> buf[last + k] == data[k]
      {
        buf[last + i] := data[i];
      }
      assert buf[last..last + |data|] == data;
      assert buf[pos..last] == before[pos..];
      last := last + |data|;
    }

    /** Writes everything out, however the writes split it; false exactly when one of them answers 0. */
    method SendTmpbuf(s: Socket) returns (ok: bool)
      requires Valid()
      modifies this, s`written, s`failures
      ensures Valid()
      ensures ok <==> s.failures == old(s.failures)
      ensures old(Unread()) == [] ==> ok && s.written == old(s.written) && Unread() == []
      ensures ok ==> s.written == old(s.written) + old(Unread()) && Unread() == []
      ensures ok && old(Unread()) != [] ==> pos == last == 0
      ensures !ok ==> s.written + Unread() == old(s.written) + old(Unread())
    {
      if last - pos == 0 {
        return true;
      }
      while last - pos > 0
        invariant Valid() && last == old(last)
        invariant s.written + Unread() == old(s.written) + old(Unread()) && s.failures == old(s.failures)
      {
        ghost var before := s.written;
        var rest := buf[pos..last];
        var n := s.Write(rest);
        if n == 0 {
          assert rest[..0] == [];
          return false;
        }
        pos := pos + n;
        assert rest == rest[..n] + Unread();
        assert (before + rest[..n]) + Unread() == before + rest;
      }
      pos, last := 0, 0;
      ok := true;
    }

    /**
     * Reads on into the emptied buffer until `need` bytes are there. Every read may
     * return as much as the whole buffer holds, whatever is in it already.
     */
    method FillTo(s: Socket, need: nat) returns (r: Received)
      requires Valid() && pos == last == 0 && need <= buf.Length
      modifies this, buf, s`incoming
      ensures Valid()
      ensures r != Overrun ==> pos == 0 && Unread() + s.incoming == old(s.incoming)
      ensures r != Overrun ==> (r == Got <==> need <= |old(s.incoming)|)
      ensures r == Got ==> last >= need
      ensures r == Overrun ==> need >= 2 && |old(s.incoming)| > buf.Length
      ensures r == Overrun <==> |old(s.incoming)| - |s.incoming| > buf.Length
    {
      while last - pos < need
        invariant Valid() && pos == 0
        invariant Unread() + s.incoming == old(s.incoming)
        decreases need - last
      {
        var more := s.Read(buf.Length);
        if more == [] {
          return Failed;
        }
        if |more| > buf.Length - last {
          return Overrun;
        }
        ghost var before := Unread();
        Append(more);
        assert (before + more) + s.incoming == before + (more + s.incoming);
      }
      r := Got;
    }

    /** The first `n` buffered bytes. */
    method Take(n: nat) returns (data: bytes)
      requires Valid() && n <= last - pos
      modifies this`pos
      ensures Valid() && |data| == n && old(Unread()) == data + Unread()
    {
      data := buf[pos..pos + n];
      pos := pos + n;
    }

    /** Exactly `size` bytes, from the buffer and as many reads as it takes. */
    method RecvTmpbuf(s: Socket, size: nat) returns (r: Received, data: bytes)
      requires Valid()
      modifies this, buf, s`incoming
      ensures Valid()
      ensures r != Overrun ==> (r == Got <==> size <= buf.Length && size <= |old(Unread() + s.incoming)|)
      ensures r == Got ==> |data| == size && old(Unread() + s.incoming) == data + (Unread() + s.incoming)
      ensures r == Overrun ==> |old(Unread())| + 2 <= size <= buf.Length < |old(s.incoming)|
      ensures r == Overrun <==> |old(s.incoming)| - |s.incoming| > buf.Length
    {
      data := [];
      if size > buf.Length {
        return Failed, data;
      }
      if last - pos >= size {
        data := Take(size);
        assert (data + Unread()) + s.incoming == data + (Unread() + s.incoming);
        return Got, data;
      }
      data := buf[pos..last];
      pos, last := 0, 0;
      r := FillTo(s, size - |data|);
      if r == Got {
        var rest := Take(size - |data|);
        assert data + ((rest + Unread()) + s.incoming) == (data + rest) + (Unread() + s.incoming);
        data := data + rest;
      }
    }
  }
}
