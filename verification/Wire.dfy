/**
 * The stream between the two rings: the dump thread's coalescing send buffer, a
 * byte stream that may split anywhere, and the receive buffer of the slave.
 */
module Wire {
  import opened Bytes

  function Packet(p: bytes): (s: bytes) {
    U32(|p|) + p
  }

  /** Length-prefixed frames, back to back. */
  function Enc(ps: seq<bytes>): (s: bytes) {
    if ps == [] then [] else Enc(ps[..|ps| - 1]) + Packet(ps[|ps| - 1])
  }

  lemma {:induction false} EncCons(p: bytes, ps: seq<bytes>)
    ensures Enc([p] + ps) == Packet(p) + Enc(ps)
    decreases |ps|
  {
    var all := [p] + ps;
    if ps == [] {
      assert all[..0] == [] && all[|all| - 1] == p;
    } else {
      assert all[..|all| - 1] == [p] + ps[..|ps| - 1];
      EncCons(p, ps[..|ps| - 1]);
    }
  }

  lemma EncFirst(ps: seq<bytes>)
    requires ps != []
    ensures Enc(ps) == Packet(ps[0]) + Enc(ps[1..])
  {
    assert ps == [ps[0]] + ps[1..];
    EncCons(ps[0], ps[1..]);
  }

  /**
   * What the receiving thread is doing: nothing, collecting `need` more bytes of
   * a length or a body, holding a whole one, or stopped. `Overrun` is a read
   * that ran past the end of the buffer.
   */
  datatype Io =
    | Idle
    | Want(body: bool, got: bytes, need: nat)
    | Got(body: bool, data: bytes)
    | Stopped
    | Overrun

  datatype Link = Link(sendCap: nat, sendBuf: bytes, sent: nat, sending: bool, wire: bytes,
                       recvCap: nat, recvBuf: bytes, recvPos: nat, io: Io) {
    ghost predicate Inv() {
      sent <= |sendBuf| <= sendCap && (sending || sent == 0) &&
      recvPos <= |recvBuf| && (io != Overrun ==> |recvBuf| <= recvCap) &&
      (io.Want? ==> recvPos == 0 && (!io.body ==> |io.got| + io.need == 4) && |io.got| + io.need <= recvCap) &&
      (io.Got? ==> |io.data| <= recvCap && (!io.body ==> |io.data| == 4)) &&
      recvCap < U32_LIMIT
    }

    /** Buffered but not yet taken on the slave. */
    function Unread(): (s: bytes)
      requires recvPos <= |recvBuf|
    {
      recvBuf[recvPos..]
    }

    /** Taken off the buffer, but not yet a frame handed on. */
    function Held(): (s: bytes) {
      match io
      case Want(body, got, need) => if body then U32(|got| + need) + got else got
      case Got(body, data) => if body then Packet(data) else data
      case _ => []
    }

    /** Still on the way to the slave's buffer. */
    function Tail(): (s: bytes)
      requires sent <= |sendBuf|
    {
      wire + sendBuf[sent..]
    }

    /** Every byte between the dump thread's copy and the slave's next frame. */
    function InFlight(): (s: bytes)
      requires sent <= |sendBuf| && recvPos <= |recvBuf|
    {
      Held() + (Unread() + Tail())
    }

    // ----- Dump thread ----------------------------------------------------------

    predicate HasRoom(p: bytes) {
      sendCap - |sendBuf| >= 4 + |p|
    }

    function Append(p: bytes): (l: Link)
      requires !sending && HasRoom(p)
    {
      this.(sendBuf := sendBuf + Packet(p))
    }

    function StartSending(): (l: Link)
      requires !sending
    {
      this.(sending := true)
    }

    /** One `write` that takes `n` bytes. */
    function Write(n: nat): (l: Link)
      requires sending && 0 < n <= |sendBuf| - sent
    {
      this.(wire := wire + sendBuf[sent..sent + n], sent := sent + n)
    }

    function DoneSending(): (l: Link)
      requires sending && sent == |sendBuf|
    {
      this.(sendBuf := [], sent := 0, sending := false)
    }

    // ----- Slave ------------------------------------------------------------------

    /** Asks for `size` bytes: from the buffer if they are there, else by reading on. */
    function Ask(body: bool, size: nat): (l: Link)
      requires recvPos <= |recvBuf|
    {
      if size > recvCap then this.(io := Stopped)
      else if |Unread()| >= size then this.(io := Got(body, Unread()[..size]), recvPos := recvPos + size)
      else this.(io := Want(body, Unread(), size - |Unread()|), recvBuf := [], recvPos := 0)
    }

    /** One `read` at the end of what is buffered; it is allowed the whole buffer size. */
    function Read(n: nat): (l: Link)
      requires io.Want? && |recvBuf| < io.need && 0 < n <= |wire| && n <= recvCap
    {
      var l := this.(recvBuf := recvBuf + wire[..n], wire := wire[n..]);
      if |recvBuf| + n > recvCap then l.(io := Overrun) else l
    }

    function Take(): (l: Link)
      requires io.Want? && |recvBuf| >= io.need
    {
      this.(io := Got(io.body, io.got + recvBuf[..io.need]), recvPos := io.need)
    }

    /** The four length bytes are in: ask for the body. */
    function AskBody(): (l: Link)
      requires io.Got? && !io.body && recvPos <= |recvBuf|
    {
      this.(io := Idle).Ask(true, FromLE(io.data))
    }

    function HandOn(): (l: Link)
      requires io.Got? && io.body
    {
      this.(io := Idle)
    }
  }

  predicate Alive(io: Io) {
    io != Stopped && io != Overrun
  }

  /** The frames still under way are exactly the bytes in flight. */
  ghost predicate Carries(l: Link, ps: seq<bytes>) {
    l.Inv() && (Alive(l.io) ==> Enc(ps) == l.InFlight())
  }

  // ----- The sender's steps --------------------------------------------------------

  lemma Regroup(a: bytes, b: bytes, c: bytes, d: bytes)
    ensures a + ((b + c) + d) == (a + b) + (c + d)
    ensures (a + (b + c)) + d == a + (b + (c + d))
  {
  }

  lemma AppendCarries(l: Link, ps: seq<bytes>, p: bytes)
    requires Carries(l, ps) && !l.sending && l.HasRoom(p)
    ensures Carries(l.Append(p), ps + [p])
  {
    assert |Packet(p)| == 4 + |p|;
    hide Packet;
    var r := l.Append(p);
    assert (ps + [p])[..|ps|] == ps;
    assert r.sendBuf[r.sent..] == l.sendBuf[l.sent..] + Packet(p) by {
      AppendSuffix(l.sendBuf, Packet(p), l.sent);
    }
    Regroup([], l.wire, l.sendBuf[l.sent..], Packet(p));
    assert r.Tail() == l.Tail() + Packet(p);
    Regroup(l.Held(), l.Unread(), l.Tail(), Packet(p));
  }

  lemma AppendSuffix(a: bytes, b: bytes, i: nat)
    requires i <= |a|
    ensures (a + b)[i..] == a[i..] + b
  {
  }

  lemma WriteCarries(l: Link, ps: seq<bytes>, n: nat)
    requires Carries(l, ps) && l.sending && 0 < n <= |l.sendBuf| - l.sent
    ensures Carries(l.Write(n), ps)
  {
    var r := l.Write(n);
    assert l.Tail() == r.Tail();
  }

  lemma SendEndsCarry(l: Link, ps: seq<bytes>)
    requires Carries(l, ps)
    ensures !l.sending ==> Carries(l.StartSending(), ps)
    ensures l.sending && l.sent == |l.sendBuf| ==> Carries(l.DoneSending(), ps)
  {
    if l.sending && l.sent == |l.sendBuf| {
      assert l.Tail() == l.DoneSending().Tail();
    }
  }

  // ----- The receiver's steps --------------------------------------------------------

  lemma AskCarries(l: Link, ps: seq<bytes>, body: bool, size: nat)
    requires l.Inv() && l.io == Idle && (!body ==> size == 4)
    requires Enc(ps) == (if body then U32(size) else []) + (l.Unread() + l.Tail())
    ensures Carries(l.Ask(body, size), ps)
  {
    hide Enc, U32;
    var r := l.Ask(body, size);
    var prefix := if body then U32(size) else [];
    if r.io.Got? {
      GotRest(l, r, prefix, size);
    } else if r.io.Want? {
      assert r.Held() == prefix + l.Unread();
      WantRest(l, r, prefix);
    }
  }

  lemma GotRest(l: Link, r: Link, prefix: bytes, size: nat)
    requires l.recvPos <= |l.recvBuf| && l.sent <= |l.sendBuf| && size <= |l.Unread()| && r.io.Got?
    requires r == l.(io := r.io, recvPos := l.recvPos + size) && r.Held() == prefix + l.Unread()[..size]
    ensures r.InFlight() == prefix + (l.Unread() + l.Tail())
  {
    assert l.Unread() == l.Unread()[..size] + r.Unread();
    Regroup(prefix, l.Unread()[..size], r.Unread(), l.Tail());
  }

  lemma WantRest(l: Link, r: Link, prefix: bytes)
    requires l.recvPos <= |l.recvBuf| && l.sent <= |l.sendBuf|
    requires r == l.(io := r.io, recvBuf := [], recvPos := 0) && r.Held() == prefix + l.Unread()
    ensures r.InFlight() == prefix + (l.Unread() + l.Tail())
  {
    Regroup(prefix, l.Unread(), [], l.Tail());
    assert r.Unread() == [] && l.Unread() + [] == l.Unread();
  }

  lemma ReadCarries(l: Link, ps: seq<bytes>, n: nat)
    requires Carries(l, ps) && l.io.Want? && |l.recvBuf| < l.io.need && 0 < n <= |l.wire| && n <= l.recvCap
    ensures Carries(l.Read(n), ps)
  {
    hide Enc, U32;
    var r := l.Read(n);
    if r.io.Want? {
      var unsent := l.sendBuf[l.sent..];
      assert l.wire == l.wire[..n] + r.wire;
      assert r.Unread() == l.Unread() + l.wire[..n];
      Regroup(l.Unread(), l.wire[..n], r.wire, unsent);
      assert l.Unread() + l.Tail() == r.Unread() + r.Tail();
    }
  }

  lemma TakeCarries(l: Link, ps: seq<bytes>)
    requires Carries(l, ps) && l.io.Want? && |l.recvBuf| >= l.io.need
    ensures Carries(l.Take(), ps)
  {
    hide Enc, U32;
    var r := l.Take();
    var taken := l.recvBuf[..l.io.need];
    assert l.Unread() == taken + r.Unread() && r.Tail() == l.Tail();
    assert r.Held() == l.Held() + taken;
    Regroup(l.Held(), taken, r.Unread(), l.Tail());
  }

  /** A whole length is the length of the next frame. */
  lemma LengthIsNext(l: Link, ps: seq<bytes>)
    requires Carries(l, ps) && l.io.Got? && !l.io.body && (forall p <- ps :: |p| < U32_LIMIT)
    ensures ps != [] && l.io.data == U32(|ps[0]|) && FromLE(l.io.data) == |ps[0]|
  {
    assert |Enc(ps)| >= 4;
    EncFirst(ps);
    assert Enc(ps)[..4] == U32(|ps[0]|);
    assert l.InFlight()[..4] == l.io.data;
    U32RoundTrip(|ps[0]|);
  }

  lemma AskBodyCarries(l: Link, ps: seq<bytes>)
    requires Carries(l, ps) && l.io.Got? && !l.io.body && (forall p <- ps :: |p| < U32_LIMIT)
    ensures Carries(l.AskBody(), ps)
  {
    LengthIsNext(l, ps);
    assert l.Held() == U32(|ps[0]|);
    AskCarries(l.(io := Idle), ps, true, |ps[0]|);
  }

  /** A whole body is the next frame, and handing it on leaves the rest under way. */
  lemma BodyIsNext(l: Link, ps: seq<bytes>)
    requires Carries(l, ps) && l.io.Got? && l.io.body && (forall p <- ps :: |p| < U32_LIMIT)
    ensures ps != [] && l.io.data == ps[0] && Carries(l.HandOn(), ps[1..])
  {
    var data := l.io.data;
    assert |Enc(ps)| >= 4;
    EncFirst(ps);
    assert Enc(ps)[..4] == U32(|ps[0]|) && l.InFlight()[..4] == U32(|data|);
    U32RoundTrip(|ps[0]|);
    U32RoundTrip(|data|);
    var n := 4 + |data|;
    assert Enc(ps)[4..n] == ps[0] && l.InFlight()[4..n] == data;
    assert Enc(ps)[n..] == Enc(ps[1..]) && l.InFlight()[n..] == l.HandOn().InFlight();
  }

  // ----- Nothing is left behind --------------------------------------------------------

  /** With nothing sent or buffered on the way and the slave waiting for more, no frame is under way. */
  lemma QuietMeansDelivered(l: Link, ps: seq<bytes>)
    requires Carries(l, ps) && l.io.Want? && |l.recvBuf| < l.io.need
    requires l.wire == [] && l.sent == |l.sendBuf| && (forall p <- ps :: |p| < U32_LIMIT)
    ensures ps == []
  {
    if ps != [] {
      EncFirst(ps);
      assert |Enc(ps)| >= 4 + |ps[0]|;
      assert |l.InFlight()| == |l.Held()| + |l.recvBuf|;
      if l.io.body {
        assert Enc(ps)[..4] == U32(|ps[0]|) && l.InFlight()[..4] == U32(|l.io.got| + l.io.need);
        U32RoundTrip(|ps[0]|);
        BodySize(l, |ps[0]|);
      }
    }
  }

  lemma BodySize(l: Link, n: nat)
    requires l.io.Want? && n < U32_LIMIT && U32(n) == U32(|l.io.got| + l.io.need)
    requires |l.io.got| + l.io.need < U32_LIMIT
    ensures n == |l.io.got| + l.io.need
  {
    U32RoundTrip(n);
    U32RoundTrip(|l.io.got| + l.io.need);
  }

  // ----- Reads past the buffer ---------------------------------------------------------

  /** What the system may return for a read. */
  predicate CanRead(l: Link, n: nat) {
    l.io.Want? && |l.recvBuf| < l.io.need && 0 < n <= |l.wire| && n <= l.recvCap
  }

  predicate CanReads(l: Link, ns: seq<nat>)
    decreases |ns|
  {
    ns == [] || (CanRead(l, ns[0]) && CanReads(l.Read(ns[0]), ns[1..]))
  }

  /** The reads of one request, split in any way. */
  function Reads(l: Link, ns: seq<nat>): (r: Link)
    requires CanReads(l, ns)
    decreases |ns|
  {
    if ns == [] then l else Reads(l.Read(ns[0]), ns[1..])
  }

  /**
   * The next read may run past the end of the buffer exactly when something is buffered
   * behind its start and more is there than the buffer holds.
   */
  lemma SomeReadOverrunsIff(l: Link)
    requires l.Inv() && l.io.Want? && |l.recvBuf| < l.io.need
    ensures (exists n: nat :: CanRead(l, n) && l.Read(n).io == Overrun) <==>
            l.recvBuf != [] && |l.recvBuf| + |l.wire| > l.recvCap
  {
    if l.recvBuf != [] && |l.recvBuf| + |l.wire| > l.recvCap {
      var n := if |l.wire| < l.recvCap then |l.wire| else l.recvCap;
      assert CanRead(l, n) && l.Read(n).io == Overrun;
    }
  }

  lemma ReadsCons(l: Link, n: nat, ns: seq<nat>)
    requires CanRead(l, n) && CanReads(l.Read(n), ns)
    ensures CanReads(l, [n] + ns) && Reads(l, [n] + ns) == Reads(l.Read(n), ns)
  {
    assert ([n] + ns)[0] == n && ([n] + ns)[1..] == ns;
  }

  lemma {:induction false} OverrunNeeds(l: Link, ns: seq<nat>)
    requires l.io.Want? && CanReads(l, ns) && Reads(l, ns).io == Overrun
    ensures |l.recvBuf| + |l.wire| > l.recvCap && (l.recvBuf != [] || l.io.need >= 2)
    decreases |ns|
  {
    if l.Read(ns[0]).io != Overrun {
      OverrunNeeds(l.Read(ns[0]), ns[1..]);
    }
  }

  /**
   * Some way of splitting the stream makes a request that has to read run past the end
   * of the buffer exactly when it lacks two bytes or more and more is there than the
   * buffer holds.
   */
  lemma RequestOverrunsIff(l: Link)
    requires l.Inv() && l.io.Want? && l.recvBuf == [] && l.io.need > 0
    ensures (exists ns :: CanReads(l, ns) && Reads(l, ns).io == Overrun) <==>
            l.io.need >= 2 && |l.wire| > l.recvCap
  {
    if l.io.need >= 2 && |l.wire| > l.recvCap {
      var r := l.Read(1);
      assert CanRead(r, l.recvCap) && r.Read(l.recvCap).io == Overrun;
      ReadsCons(r, l.recvCap, []);
      ReadsCons(l, 1, [l.recvCap] + []);
    }
    forall ns | CanReads(l, ns) && Reads(l, ns).io == Overrun ensures l.io.need >= 2 && |l.wire| > l.recvCap {
      OverrunNeeds(l, ns);
    }
  }
}
