/** The slave's decoder of row images. */
module RowImages {
  import opened Bytes
  import opened BinlogEvents
  import opened ClassTable
  import opened ColumnTypes

  datatype Outcome =
    | Finished
    | Refused   // the decoder gives up with an error
    | Fault     // it would dereference null, or read or write outside its memory
    | Endless   // rows without columns take no bytes: the loop never ends

  datatype Op = Write | BeforeUpdate | Update | Delete

  /**
   * A row as read for the table's handler: None for a column left as it was. The handler's
   * object gets the values of the columns that have a place.
   */
  datatype RowCall = RowCall(op: Op, row: seq<Option<bytes>>)

  // ----- Where values go ------------------------------------------------------------

  /**
   * Where a column's value is copied: nowhere, into a field of the object that has `room`
   * bytes for it, or into a chunk of the slave's data pool. Other kinds are refused.
   */
  datatype Place = Skipped | Field(room: nat) | Chunk | OtherPlace

  /** The places of a table's columns, and the chunk sizes of the data pool. */
  datatype Target = Target(places: seq<Place>, sizes: seq<nat>)

  /**
   * What copying a value stops the decoder with, if anything. A chunk for nothing is taken from
   * in front of the pool's classes, and one without room is written past its end.
   */
  function CopyStop(to: Target, i: nat, v: bytes): (o: Option<Outcome>)
    ensures o.Some? ==> o.value != Finished
  {
    if i >= |to.places| then Some(Fault)
    else
      match to.places[i]
      case Skipped => None
      case Field(room) => if |v| <= room then None else Some(Fault)
      case Chunk => if v != [] && |to.sizes| > 0 && Room(to.sizes, |v|) >= |v| then None else Some(Fault)
      case OtherPlace => Some(Refused)
  }

  // ----- Bits -------------------------------------------------------------------

  function Shr(b: nat, k: nat): (n: nat) {
    if k == 0 then b else Shr(b / 2, k - 1)
  }

  predicate BitAt(s: bytes, i: nat)
    requires i / 8 < |s|
  {
    Shr(s[i / 8], i % 8) % 2 == 1
  }

  function BitmapLen(cn: nat): (n: nat) {
    (cn + 7) / 8
  }

  // ----- The event's head ---------------------------------------------------------

  datatype Head = Head(ct: bytes, cm: bytes, cn: nat, used: bytes, usedAfter: bytes, start: nat, to: Target)

  /** Column types and metadata as sent by the master, then the head of the rows event. */
  function ParseHead(data: bytes, kind: byte, to: Target): (r: Option<Head>)
    ensures r.Some? ==> r.value.start <= |data| && |r.value.used| == BitmapLen(r.value.cn)
    ensures r.Some? && kind == UPDATE_ROWS_EVENT ==> |r.value.usedAfter| == BitmapLen(r.value.cn)
  {
    if 4 > |data| then None
    else
      var types := 4 + FromLE(data[..4]);
      if types + 4 > |data| then None
      else
        var metas := types + 4 + FromLE(data[types..types + 4]);
        if metas + 8 > |data| then None
        else ParseBitmaps(data, kind, data[4..types], data[types + 4..metas], metas + 8, to)
  }

  function ParseBitmaps(data: bytes, kind: byte, ct: bytes, cm: bytes, at: nat, to: Target): (r: Option<Head>)
    requires at <= |data|
    ensures r.Some? ==> r.value.start <= |data| && |r.value.used| == BitmapLen(r.value.cn)
    ensures r.Some? && kind == UPDATE_ROWS_EVENT ==> |r.value.usedAfter| == BitmapLen(r.value.cn)
  {
    match PackedInt(data[at..])
    case None => None
    case Some((n, cl)) =>
      var cn := n % U32_LIMIT;
      var used := at + cl;
      var after := used + BitmapLen(cn);
      var start := if kind == UPDATE_ROWS_EVENT then after + BitmapLen(cn) else after;
      if start > |data| then None else Some(Head(ct, cm, cn, data[used..after], data[after..start], start, to))
  }

  // ----- One column ---------------------------------------------------------------

  /**
   * Where the decoder is: data offset, metadata offset, and the metadata length of
   * the type it last looked up (None before the first).
   */
  datatype Cursor = Cursor(p: nat, k: nat, meta: Option<nat>)

  datatype ColumnResult = Column(c: Cursor, value: Option<bytes>) | ColumnStop(o: Outcome)

  /** An unused or NULL column moves the metadata cursor by the length last looked up. */
  function ReadColumn(data: bytes, h: Head, used: bytes, nulls: bytes, i: nat, c: Cursor): (r: ColumnResult)
    requires i < h.cn && |used| == |nulls| == BitmapLen(h.cn)
    ensures r.Column? ==> c.p <= r.c.p && (c.p <= |data| ==> r.c.p <= |data|)
    ensures r.ColumnStop? ==> r.o != Finished
  {
    if i >= |h.ct| then ColumnStop(Fault)
    else if !BitAt(used, i) || BitAt(nulls, i) then
      if c.meta == None then ColumnStop(Fault) else Column(c.(k := c.k + c.meta.value), None)
    else
      var m := ColumnMetaOf(h.ct[i]);
      if m.handler == NoHandler then ColumnStop(Refused)
      else
        match LayoutOf(h.ct[i], h.cm, c.k)
        case None => ColumnStop(Fault)
        case Some(l) =>
          match Take(l, data, c.p)
          case None => ColumnStop(Fault)
          case Some((value, next)) =>
            match CopyStop(h.to, i, value)
            case Some(o) => ColumnStop(o)
            case None => Column(Cursor(next, c.k + m.metaLen, Some(m.metaLen)), Some(value))
  }

  // ----- One row --------------------------------------------------------------------

  datatype RowResult = Row(c: Cursor, row: seq<Option<bytes>>) | RowStop(o: Outcome)

  function ReadColumns(data: bytes, h: Head, used: bytes, nulls: bytes, i: nat, c: Cursor,
                       row: seq<Option<bytes>>): (r: RowResult)
    requires i <= h.cn && |used| == |nulls| == BitmapLen(h.cn)
    ensures r.Row? ==> c.p <= r.c.p && (c.p <= |data| ==> r.c.p <= |data|)
    ensures r.RowStop? ==> r.o != Finished
    decreases h.cn - i
  {
    if i == h.cn then Row(c, row)
    else
      match ReadColumn(data, h, used, nulls, i, c)
      case ColumnStop(o) => RowStop(o)
      case Column(c', value) => ReadColumns(data, h, used, nulls, i + 1, c', row + [value])
  }

  function UsedBits(h: Head, kind: byte, before: bool): (s: bytes) {
    if kind != UPDATE_ROWS_EVENT || !before then h.used else h.usedAfter
  }

  predicate GoodHead(h: Head, kind: byte) {
    |h.used| == BitmapLen(h.cn) && (kind == UPDATE_ROWS_EVENT ==> |h.usedAfter| == BitmapLen(h.cn))
  }

  /** A row: its NULL bitmap and its columns. The metadata cursor starts over; the last lookup does not. */
  function ReadRow(data: bytes, h: Head, kind: byte, p: nat, meta: Option<nat>, before: bool): (r: RowResult)
    requires GoodHead(h, kind)
    ensures r.Row? ==> p + BitmapLen(h.cn) <= r.c.p <= |data|
    ensures r.RowStop? ==> r.o != Finished
  {
    var q := p + BitmapLen(h.cn);
    if q > |data| then RowStop(Fault)
    else ReadColumns(data, h, UsedBits(h, kind, before), data[p..q], 0, Cursor(q, 0, meta), [])
  }

  // ----- All rows -------------------------------------------------------------------

  function OpOf(kind: byte, before: bool): (op: Option<Op>) {
    if kind == WRITE_ROWS_EVENT then Some(Write)
    else if kind == UPDATE_ROWS_EVENT then Some(if before then Update else BeforeUpdate)
    else if kind == DELETE_ROWS_EVENT then Some(Delete)
    else None
  }

  function ReadRows(data: bytes, h: Head, kind: byte, p: nat, meta: Option<nat>, before: bool):
    (r: (seq<RowCall>, Outcome))
    requires GoodHead(h, kind)
    decreases |data| - p
  {
    if p >= |data| then ([], Finished)
    else
      match ReadRow(data, h, kind, p, meta, before)
      case RowStop(o) => ([], o)
      case Row(c, row) =>
        if OpOf(kind, before) == None then ([], Refused)
        else if h.cn == 0 then ([], Endless)
        else
          var rest := ReadRows(data, h, kind, c.p, c.meta, kind == UPDATE_ROWS_EVENT && !before);
          ([RowCall(OpOf(kind, before).value, row)] + rest.0, rest.1)
  }

  /** The handler calls a rows event leads to, and how the decoder ends. */
  function DecodeRows(data: bytes, kind: byte, to: Target): (r: (seq<RowCall>, Outcome)) {
    match ParseHead(data, kind, to)
    case None => ([], Fault)
    case Some(h) => ReadRows(data, h, kind, h.start, None, false)
  }

  /** What is left of a decoding when the handler of call `refuse`, or the one that frees its row, fails. */
  function UpTo(r: (seq<RowCall>, Outcome), refuse: Option<nat>): (heard: (seq<RowCall>, Outcome))
    ensures heard.0 <= r.0
  {
    if refuse.Some? && refuse.value < |r.0| then (r.0[..refuse.value + 1], Refused) else r
  }

  // ----- The loops ------------------------------------------------------------------

  /** The column loop of one row. */
  method ParseColumnValues(data: bytes, h: Head, used: bytes, nulls: bytes, start: Cursor) returns (r: RowResult)
    requires |used| == |nulls| == BitmapLen(h.cn)
    ensures r == ReadColumns(data, h, used, nulls, 0, start, [])
  {
    hide BitAt, Shr, ColumnMetaOf, LayoutOf, Take, CopyStop;
    var p: nat, k: nat, meta := start.p, start.k, start.meta;
    var row, i, j := [], 0, 0;
    while i < h.cn
      invariant i == j <= h.cn
      invariant ReadColumns(data, h, used, nulls, i, Cursor(p, k, meta), row) ==
                ReadColumns(data, h, used, nulls, 0, start, [])
    {
      if i >= |h.ct| {
        return RowStop(Fault);
      }
      var value: Option<bytes> := None;
      if BitAt(used, i) && !BitAt(nulls, j) {
        var m := ColumnMetaOf(h.ct[i]);
        if m.handler == NoHandler {
          return RowStop(Refused);
        }
        meta := Some(m.metaLen);
        var l := LayoutOf(h.ct[i], h.cm, k);
        if l == None {
          return RowStop(Fault);
        }
        var taken := Take(l.value, data, p);
        if taken == None {
          return RowStop(Fault);
        }
        var stop := CopyStop(h.to, i, taken.value.0);
        if stop.Some? {
          return RowStop(stop.value);
        }
        value, p := Some(taken.value.0), taken.value.1;
      }
      if meta == None {
        return RowStop(Fault);
      }
      k := k + meta.value;
      row, i, j := row + [value], i + 1, j + 1;
    }
    r := Row(Cursor(p, k, meta), row);
  }

  method ParseRow(data: bytes, h: Head, kind: byte, p: nat, meta: Option<nat>, before: bool) returns (r: RowResult)
    requires GoodHead(h, kind)
    ensures r == ReadRow(data, h, kind, p, meta, before)
  {
    var q := p + BitmapLen(h.cn);
    if q > |data| {
      return RowStop(Fault);
    }
    r := ParseColumnValues(data, h, UsedBits(h, kind, before), data[p..q], Cursor(q, 0, meta));
  }

  /** The row loop of `rs_dm_binlog_row`. */
  method DmBinlogRow(data: bytes, kind: byte, to: Target, refuse: Option<nat>)
    returns (calls: seq<RowCall>, outcome: Outcome)
    ensures (calls, outcome) == UpTo(DecodeRows(data, kind, to), refuse)
  {
    var head := ParseHead(data, kind, to);
    calls := [];
    if head == None {
      return calls, Fault;
    }
    var h := head.value;
    ghost var whole := ReadRows(data, h, kind, h.start, None, false);
    assert whole == DecodeRows(data, kind, to);
    hide *;
    var p, meta, before := h.start, None, false;
    while p < |data|
      invariant GoodHead(h, kind) && (refuse.Some? ==> |calls| <= refuse.value)
      invariant calls + ReadRows(data, h, kind, p, meta, before).0 == whole.0
      invariant ReadRows(data, h, kind, p, meta, before).1 == whole.1
      decreases |data| - p
    {
      var r := ParseRow(data, h, kind, p, meta, before);
      var op := OpOf(kind, before);
      if r.RowStop? || op == None || h.cn == 0 {
        RowsStop(data, h, kind, p, meta, before, calls);
        NotCut(whole, refuse);
        return calls, if r.RowStop? then r.o else if op == None then Refused else Endless;
      }
      RowsNext(data, h, kind, p, meta, before, calls);
      calls := calls + [RowCall(op.value, r.row)];
      if refuse == Some(|calls| - 1) {
        ghost var next := kind == UPDATE_ROWS_EVENT && !before;
        CutThere(calls, ReadRows(data, h, kind, r.c.p, r.c.meta, next).0, whole, refuse);
        return calls, Refused;
      }
      p, meta := r.c.p, r.c.meta;
      before := kind == UPDATE_ROWS_EVENT && !before;
    }
    RowsEnd(data, h, kind, p, meta, before, calls);
    NotCut(whole, refuse);
    outcome := Finished;
  }

  lemma CutThere(calls: seq<RowCall>, more: seq<RowCall>, whole: (seq<RowCall>, Outcome), refuse: Option<nat>)
    requires calls + more == whole.0 && refuse.Some? && |calls| == refuse.value + 1
    ensures UpTo(whole, refuse) == (calls, Refused)
  {
  }

  lemma NotCut(whole: (seq<RowCall>, Outcome), refuse: Option<nat>)
    requires refuse.Some? ==> |whole.0| <= refuse.value
    ensures UpTo(whole, refuse) == whole
  {
  }

  lemma RowsEnd(data: bytes, h: Head, kind: byte, p: nat, meta: Option<nat>, before: bool, calls: seq<RowCall>)
    requires GoodHead(h, kind) && p >= |data|
    ensures ReadRows(data, h, kind, p, meta, before).1 == Finished
    ensures calls + ReadRows(data, h, kind, p, meta, before).0 == calls
  {
  }

  lemma RowsStop(data: bytes, h: Head, kind: byte, p: nat, meta: Option<nat>, before: bool, calls: seq<RowCall>)
    requires GoodHead(h, kind) && p < |data|
    requires ReadRow(data, h, kind, p, meta, before).RowStop? || OpOf(kind, before) == None || h.cn == 0
    ensures calls + ReadRows(data, h, kind, p, meta, before).0 == calls
    ensures ReadRows(data, h, kind, p, meta, before).1 ==
            if ReadRow(data, h, kind, p, meta, before).RowStop? then ReadRow(data, h, kind, p, meta, before).o
            else if OpOf(kind, before) == None then Refused else Endless
  {
  }

  lemma RowsNext(data: bytes, h: Head, kind: byte, p: nat, meta: Option<nat>, before: bool, calls: seq<RowCall>)
    requires GoodHead(h, kind) && p < |data| && h.cn > 0 && OpOf(kind, before).Some?
    requires ReadRow(data, h, kind, p, meta, before).Row?
    ensures var r := ReadRow(data, h, kind, p, meta, before);
            var rest := ReadRows(data, h, kind, r.c.p, r.c.meta, kind == UPDATE_ROWS_EVENT && !before);
            p < r.c.p &&
            calls + ReadRows(data, h, kind, p, meta, before).0 ==
            (calls + [RowCall(OpOf(kind, before).value, r.row)]) + rest.0 &&
            ReadRows(data, h, kind, p, meta, before).1 == rest.1
  {
    hide ReadRow;
  }
}
