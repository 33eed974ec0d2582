/** The configuration reader: a character machine over the text of one file. */
module Config {
  import opened Bytes

  const HASH: byte := 35
  const OPEN: byte := 91
  const CLOSE: byte := 93
  const SPACE: byte := 32
  const TAB: byte := 9

  const MODULE_MAX_LEN: nat := 20
  const KEY_MAX_LEN: nat := 20
  const VALUE_MAX_LEN: nat := 200
  const BUFFER_LEN: nat := 1024

  /** Characters the buffers are declared for, without the final NUL. */
  const KEY_ROOM: nat := 12
  const MODULE_ROOM: nat := 6

  /** The section wanted, the registered keys, and the room of the key and section name buffers. */
  datatype Reader = Reader(name: bytes, known: set<bytes>, keyRoom: nat, moduleRoom: nat)

  datatype Setting = Setting(key: bytes, value: bytes)

  datatype Status = Reading | Failed | Overrun

  /** The local variables of the reader; `m`, `k` and `v` up to the write pointer. */
  datatype State = State(comment: bool, inModule: bool, key: bool, value: bool, i: nat,
                         m: bytes, k: bytes, v: bytes, applied: seq<Setting>, status: Status)

  const START: State := State(false, false, false, false, 0, [], [], [], [], Reading)

  predicate IsBlank(c: byte) {
    c == NEWLINE || c == SPACE || c == TAB
  }

  // ----- One character -----------------------------------------------------------

  function ModuleChar(r: Reader, st: State, c: byte): (s: State) {
    if st.i > MODULE_MAX_LEN || c == NEWLINE then st.(status := Failed)
    else if |st.m| > r.moduleRoom then st.(status := Overrun)
    else if c != CLOSE then st.(m := st.m + [c], i := st.i + 1)
    else if r.name <= CStr(st.m) then st.(inModule := false, key := true, k := [], i := 0)
    else st.(inModule := false)
  }

  function KeyChar(r: Reader, st: State, c: byte): (s: State) {
    if st.k == [] && IsBlank(c) then st
    else if st.i > KEY_MAX_LEN || c == NEWLINE then st.(status := Failed)
    else if |st.k| > r.keyRoom then st.(status := Overrun)
    else if c != SPACE then st.(k := st.k + [c], i := st.i + 1)
    else st.(value := true, key := false, v := [])
  }

  function ValueChar(r: Reader, st: State, c: byte): (s: State) {
    if st.v == [] && IsBlank(c) then st
    else if st.i > VALUE_MAX_LEN then st.(status := Failed)
    else if c != NEWLINE then st.(v := st.v + [c], i := st.i + 1)
    else if CStr(st.k) !in r.known then st.(status := Failed)
    else st.(applied := st.applied + [Setting(CStr(st.k), CStr(st.v))], value := false, key := true, k := [], i := 0)
  }

  function Char(r: Reader, st: State, c: byte): (s: State) {
    if c == HASH && !st.comment then st.(comment := true)
    else if st.comment then st.(comment := c != NEWLINE)
    else if c == OPEN then st.(inModule := true, i := 0, value := false, key := false, m := [])
    else if st.inModule then ModuleChar(r, st, c)
    else if st.key then KeyChar(r, st, c)
    else if st.value then ValueChar(r, st, c)
    else st
  }

  /** All characters of `s`, up to the first that ends the reading. */
  function Feed(r: Reader, st: State, s: bytes): (t: State)
    decreases |s|
  {
    if s == [] || st.status != Reading then st else Feed(r, Char(r, st, s[0]), s[1..])
  }

  lemma {:induction false} FeedAppend(r: Reader, st: State, a: bytes, b: bytes)
    ensures Feed(r, st, a + b) == Feed(r, Feed(r, st, a), b)
    decreases |a|
  {
    hide Char;
    if a == [] {
      assert a + b == b;
    } else if st.status == Reading {
      assert (a + b)[1..] == a[1..] + b;
      FeedAppend(r, Char(r, st, a[0]), a[1..], b);
    }
  }

  lemma {:induction false} FeedSnoc(r: Reader, st: State, s: bytes, n: nat)
    requires n < |s|
    ensures Feed(r, st, s[..n + 1]) ==
            if Feed(r, st, s[..n]).status != Reading then Feed(r, st, s[..n]) else Char(r, Feed(r, st, s[..n]), s[n])
  {
    hide Char;
    assert s[..n + 1] == s[..n] + [s[n]];
    FeedAppend(r, st, s[..n], [s[n]]);
  }

  // ----- The file, read in pieces ----------------------------------------------------

  function Flatten(chunks: seq<bytes>): (s: bytes) {
    if chunks == [] then [] else Flatten(chunks[..|chunks| - 1]) + chunks[|chunks| - 1]
  }

  /** The reader at work: its local variables, changed in place. */
  class ConfReader {
    const r: Reader
    var comment: bool
    var inModule: bool
    var key: bool
    var value: bool
    var i: nat
    var m: bytes
    var k: bytes
    var v: bytes
    var applied: seq<Setting>
    var status: Status

    ghost function View(): (st: State)
      reads this
    {
      State(comment, inModule, key, value, i, m, k, v, applied, status)
    }

    constructor (r: Reader)
      ensures this.r == r && View() == START
    {
      this.r := r;
      comment, inModule, key, value, i := false, false, false, false, 0;
      m, k, v, applied, status := [], [], [], [], Reading;
    }

    /** One turn of the character loop. */
    method Next(c: byte)
      requires status == Reading
      modifies this
      ensures View() == Char(r, old(View()), c)
    {
      if c == HASH && !comment {
        comment := true;
        return;
      }
      if comment {
        if c == NEWLINE {
          comment := false;
        }
        return;
      }
      if c == OPEN {
        inModule, i, value, key, m := true, 0, false, false, [];
        return;
      }
      if inModule {
        NextOfModule(c);
      } else if key {
        NextOfKey(c);
      } else if value {
        NextOfValue(c);
      }
    }

    method NextOfModule(c: byte)
      modifies this
      ensures View() == ModuleChar(r, old(View()), c)
    {
      if i > MODULE_MAX_LEN || c == NEWLINE {
        status := Failed;
        return;
      }
      if |m| > r.moduleRoom {
        status := Overrun;
        return;
      }
      if c != CLOSE {
        m, i := m + [c], i + 1;
        return;
      }
      inModule := false;
      if r.name <= CStr(m) {
        key, k, i := true, [], 0;
      }
    }

    method NextOfKey(c: byte)
      modifies this
      ensures View() == KeyChar(r, old(View()), c)
    {
      if k == [] && IsBlank(c) {
        return;
      }
      if i > KEY_MAX_LEN || c == NEWLINE {
        status := Failed;
        return;
      }
      if |k| > r.keyRoom {
        status := Overrun;
        return;
      }
      if c != SPACE {
        k, i := k + [c], i + 1;
        return;
      }
      value, key, v := true, false, [];
    }

    method NextOfValue(c: byte)
      modifies this
      ensures View() == ValueChar(r, old(View()), c)
    {
      if v == [] && IsBlank(c) {
        return;
      }
      if i > VALUE_MAX_LEN {
        status := Failed;
        return;
      }
      if c != NEWLINE {
        v, i := v + [c], i + 1;
        return;
      }
      if CStr(k) !in r.known {
        status := Failed;
        return;
      }
      applied := applied + [Setting(CStr(k), CStr(v))];
      value, key, k, i := false, true, [], 0;
    }

    /** One buffer. */
    method Buffer(buf: bytes)
      modifies this
      ensures View() == Feed(r, old(View()), buf)
    {
      hide Char;
      var s := 0;
      assert buf[..0] == [];
      while s < |buf| && status == Reading
        invariant s <= |buf| && View() == Feed(r, old(View()), buf[..s])
      {
        FeedSnoc(r, old(View()), buf, s);
        Next(buf[s]);
        s := s + 1;
      }
      assert buf == buf[..s] + buf[s..];
      FeedAppend(r, old(View()), buf[..s], buf[s..]);
    }
  }

  /**
   * The reader over a file that arrives in the given pieces, and ends, or cannot
   * be read on. What it applies and whether it succeeds depends on the bytes and
   * not on how they were cut.
   */
  method InitConf(r: Reader, chunks: seq<bytes>, readFails: bool) returns (ok: bool, applied: seq<Setting>)
    requires forall b <- chunks :: 0 < |b| <= BUFFER_LEN
    ensures ok <==> Feed(r, START, Flatten(chunks)).status == Reading && !readFails
    ensures applied == Feed(r, START, Flatten(chunks)).applied
  {
    hide Char, Feed;
    var c := new ConfReader(r);
    var n := 0;
    assert chunks[..0] == [];
    FeedNothing(r, START);
    while n < |chunks| && c.status == Reading
      invariant n <= |chunks| && c.View() == Feed(r, START, Flatten(chunks[..n]))
    {
      assert chunks[..n + 1][..n] == chunks[..n];
      FeedAppend(r, START, Flatten(chunks[..n]), chunks[n]);
      c.Buffer(chunks[n]);
      n := n + 1;
    }
    WholeFile(r, chunks, n, c.View());
    return c.status == Reading && !readFails, c.applied;
  }

  lemma WholeFile(r: Reader, chunks: seq<bytes>, n: nat, st: State)
    requires n <= |chunks| && st == Feed(r, START, Flatten(chunks[..n]))
    requires n == |chunks| || st.status != Reading
    ensures Feed(r, START, Flatten(chunks)) == st
  {
    hide Char, Feed;
    FlattenAppend(chunks[..n], chunks[n..]);
    assert chunks[..n] + chunks[n..] == chunks;
    FeedAppend(r, START, Flatten(chunks[..n]), Flatten(chunks[n..]));
    if st.status != Reading {
      FeedStopped(r, st, Flatten(chunks[n..]));
    } else {
      assert chunks[n..] == [];
      FeedNothing(r, st);
    }
  }

  lemma FeedNothing(r: Reader, st: State)
    ensures Feed(r, st, []) == st
  {
  }

  lemma FeedStopped(r: Reader, st: State, s: bytes)
    requires st.status != Reading
    ensures Feed(r, st, s) == st
  {
  }

  lemma {:induction false} FlattenAppend(a: seq<bytes>, b: seq<bytes>)
    ensures Flatten(a + b) == Flatten(a) + Flatten(b)
    decreases |b|
  {
    if b == [] {
      assert a + b == a;
    } else {
      assert (a + b)[..|a + b| - 1] == a + b[..|b| - 1];
      FlattenAppend(a, b[..|b| - 1]);
    }
  }
}
