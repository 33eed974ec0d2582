/** The binary log as the master reads it: event headers, event bodies, files and the index. */
module BinlogEvents {
  import opened Bytes

  const HEADER_LEN: nat := 19
  const MAGIC_LEN: nat := 4
  const EVENT_NUM: nat := 27
  const SQL_MAX: nat := 1024
  const NAME_MAX: nat := 64
  const COLUMN_MAX: nat := 4096
  const META_MAX: nat := 8192

  const QUERY_EVENT: byte := 2
  const STOP_EVENT: byte := 3
  const ROTATE_EVENT: byte := 4
  const INTVAR_EVENT: byte := 5
  const XID_EVENT: byte := 16
  const TABLE_MAP_EVENT: byte := 19
  const WRITE_ROWS_EVENT: byte := 23
  const UPDATE_ROWS_EVENT: byte := 24
  const DELETE_ROWS_EVENT: byte := 25

  const BEGIN_SQL: bytes := [66, 69, 71, 73, 78]
  const COMMIT_SQL: bytes := [67, 79, 77, 77, 73, 84]

  datatype TranEffect = Keeps | Opens | Closes

  /** What one event means to the reader. Names are C strings. */
  datatype Event =
    | Query(qdb: bytes, effect: TranEffect)
    | Xid
    | TableMap(db: bytes, tb: bytes, ct: bytes, cm: bytes)
    | Rows(kind: byte, data: bytes)
    | Quiet    // skipped, or read and ignored
    | Switch   // stop or rotate event of the local server: go to the next file
    | Unknown  // type code outside 1..27

  // ----- Headers --------------------------------------------------------------

  function TypeCode(h: bytes): (t: byte)
    requires |h| == HEADER_LEN
  {
    h[4]
  }

  function ServerId(h: bytes): (n: nat)
    requires |h| == HEADER_LEN
  {
    FromLE(h[5..9])
  }

  function EventLen(h: bytes): (n: nat)
    requires |h| == HEADER_LEN
  {
    FromLE(h[9..13])
  }

  predicate KnownType(t: byte) {
    1 <= t as nat <= EVENT_NUM
  }

  predicate IsRowsType(t: byte) {
    t == WRITE_ROWS_EVENT || t == UPDATE_ROWS_EVENT || t == DELETE_ROWS_EVENT
  }

  // ----- Bodies ---------------------------------------------------------------

  /**
   * The packed integer reader: value and number of bytes taken. Above 250 it
   * copies from the marker byte itself. None when it would read past the end.
   */
  function PackedInt(s: bytes): (r: Option<(nat, nat)>)
    ensures r.Some? ==> 1 <= r.value.1 <= |s|
  {
    if s == [] then None
    else if s[0] <= 250 then Some((s[0], 1))
    else
      var k := if s[0] <= 252 then 2 else if s[0] <= 253 then 3 else if s[0] <= 254 then 4 else 8;
      if k > |s| then None else Some((FromLE(s[..k]), k))
  }

  /** A packed integer as MySQL writes it. */
  function Packed(n: nat): (s: bytes) {
    if n <= 250 then [n]
    else if n < 0x1_0000 then [252] + ToLE(n, 2)
    else if n < 0x100_0000 then [253] + ToLE(n, 3)
    else [254] + ToLE(n, 8)
  }

  /** The reader gets a number, and its length, right exactly up to 250. */
  lemma PackedIntIff(n: nat, rest: bytes)
    ensures PackedInt(Packed(n) + rest) == Some((n, |Packed(n)|)) <==> n <= 250
  {
    hide ToLE, FromLE;
    var s := Packed(n) + rest;
    assert s[0] == Packed(n)[0];
  }

  function SqlEffect(sql: bytes): (e: TranEffect) {
    if BEGIN_SQL <= sql then Opens else if COMMIT_SQL <= sql then Closes else Keeps
  }

  /** None where the C code would run outside its buffers, and where a name lacks its closing NUL. */
  function ParseQuery(body: bytes): (r: Option<Event>) {
    if |body| < 13 || body[8] > NAME_MAX then None
    else
      var dbl := body[8] + 1;
      var at := 13 + FromLE(body[11..13]);
      if at + dbl > |body| || NUL !in body[at..at + dbl] then None
      else
        var rest := body[at + dbl..];
        var sql := rest[..if SQL_MAX < |rest| then SQL_MAX else |rest|];
        Some(Query(CStr(body[at..at + dbl]), SqlEffect(sql)))
  }

  /** Column types and metadata: what follows the names in a table map body. */
  function ParseColumns(s: bytes): (r: Option<(bytes, bytes)>) {
    match PackedInt(s)
    case None => None
    case Some((cn, k)) =>
      if cn > COLUMN_MAX || k + cn > |s| then None
      else
        var after := s[k + cn..];
        match PackedInt(after)
        case None => None
        case Some((ml, j)) =>
          if ml > META_MAX || j + ml > |after| then None
          else Some((s[k..k + cn], after[j..j + ml]))
  }

  function ParseTableMap(body: bytes): (r: Option<Event>)
    ensures r.Some? ==> r.value.TableMap?
  {
    if |body| < 9 || body[8] > NAME_MAX then None
    else
      var dbl := body[8] + 1;
      if 9 + dbl >= |body| || body[9 + dbl] > NAME_MAX then None
      else
        var tbl := body[9 + dbl] + 1;
        if 10 + dbl + tbl > |body| then None
        else if NUL !in body[9..9 + dbl] || NUL !in body[10 + dbl..10 + dbl + tbl] then None
        else
          match ParseColumns(body[10 + dbl + tbl..])
          case None => None
          case Some((ct, cm)) =>
            Some(TableMap(CStr(body[9..9 + dbl]), CStr(body[10 + dbl..10 + dbl + tbl]), ct, cm))
  }

  function Decode(localId: nat, t: byte, svrid: nat, body: bytes): (r: Option<Event>) {
    if !KnownType(t) then Some(Unknown)
    else if t == QUERY_EVENT then
      if |body| > SQL_MAX * 2 then Some(Quiet) else ParseQuery(body)
    else if t == STOP_EVENT || t == ROTATE_EVENT then
      Some(if svrid == localId then Switch else Quiet)
    else if t == INTVAR_EVENT then
      if |body| < 9 then None else Some(Quiet)
    else if t == XID_EVENT then
      if |body| > 8 then None else Some(Xid)
    else if t == TABLE_MAP_EVENT then ParseTableMap(body)
    else if IsRowsType(t) then Some(Rows(t, body))
    else Some(Quiet)
  }

  // ----- Files ----------------------------------------------------------------

  predicate HasHeader(data: bytes, pos: nat) {
    pos + HEADER_LEN <= |data|
  }

  function HeaderAt(data: bytes, pos: nat): (h: bytes)
    requires HasHeader(data, pos)
    ensures |h| == HEADER_LEN
  {
    data[pos..pos + HEADER_LEN]
  }

  function LenAt(data: bytes, pos: nat): (n: nat)
    requires HasHeader(data, pos)
  {
    EventLen(HeaderAt(data, pos))
  }

  predicate WholeAt(data: bytes, pos: nat) {
    HasHeader(data, pos) && LenAt(data, pos) >= HEADER_LEN && pos + LenAt(data, pos) <= |data|
  }

  function BodyAt(data: bytes, pos: nat): (b: bytes)
    requires WholeAt(data, pos)
    ensures |b| == LenAt(data, pos) - HEADER_LEN
  {
    data[pos + HEADER_LEN..pos + LenAt(data, pos)]
  }

  function DecodeAt(localId: nat, data: bytes, pos: nat): (r: Option<Event>)
    requires WholeAt(data, pos)
  {
    var h := HeaderAt(data, pos);
    Decode(localId, TypeCode(h), ServerId(h), BodyAt(data, pos))
  }

  /**
   * From `pos` on the file is a run of whole, readable events, up to its end
   * (or a torn header) or up to the event that closes it.
   */
  predicate WellFormed(localId: nat, data: bytes, pos: nat)
    decreases |data| - pos
  {
    pos <= |data| < U32_LIMIT &&
    (HasHeader(data, pos) ==>
      WholeAt(data, pos) && DecodeAt(localId, data, pos).Some? &&
      (DecodeAt(localId, data, pos).value == Switch || WellFormed(localId, data, pos + LenAt(data, pos))))
  }

  /** An event and where it lies: its file, the file's number, its end offset. */
  datatype Stamped = Stamped(file: bytes, num: nat, pos: nat, ev: Event)

  function EventsFrom(localId: nat, file: bytes, num: nat, data: bytes, pos: nat): (evs: seq<Stamped>)
    requires WellFormed(localId, data, pos)
    decreases |data| - pos
  {
    if !HasHeader(data, pos) || DecodeAt(localId, data, pos).value == Switch then []
    else
      var next := pos + LenAt(data, pos);
      [Stamped(file, num, next, DecodeAt(localId, data, pos).value)] + EventsFrom(localId, file, num, data, next)
  }

  // ----- The index file -------------------------------------------------------

  /** The digits at the end of a file name. */
  function NameNumber(name: bytes): (n: nat) {
    DecimalValue(name[|name| - DigitSuffix(name)..])
  }

  /** A binlog file name: a C string that ends in a number of 32 bits, after something else. */
  predicate GoodName(name: bytes) {
    DigitSuffix(name) < |name| && DigitSuffix(name) <= 10 && NameNumber(name) < U32_LIMIT &&
    NUL !in name
  }

  /** First line of the index, at or after line `i`, whose number exceeds `num`. */
  function NextAfter(index: seq<bytes>, num: nat, i: nat): (j: nat)
    requires i <= |index|
    ensures i <= j <= |index|
    ensures j < |index| ==> NameNumber(index[j]) > num
    decreases |index| - i
  {
    if i == |index| || NameNumber(index[i]) > num then i else NextAfter(index, num, i + 1)
  }

  /** Files, by name, and the order the index gives them. */
  datatype Binlog = Binlog(index: seq<bytes>, files: map<bytes, bytes>)

  predicate GoodIndex(index: seq<bytes>) {
    forall i :: 0 <= i < |index| ==> GoodName(index[i])
  }

  predicate GoodBinlog(localId: nat, b: Binlog) {
    GoodIndex(b.index) &&
    forall i :: 0 <= i < |b.index| ==>
      b.index[i] in b.files && WellFormed(localId, b.files[b.index[i]], MAGIC_LEN)
  }

  /** Every event still to be read by a reader that stands at `pos` of `file`. */
  function Stream(localId: nat, b: Binlog, file: bytes, num: nat, pos: nat): (evs: seq<Stamped>)
    requires GoodBinlog(localId, b)
    requires file in b.files && WellFormed(localId, b.files[file], pos)
    decreases U32_LIMIT - num
  {
    EventsFrom(localId, file, num, b.files[file], pos) + StreamAfter(localId, b, num)
  }

  function StreamAfter(localId: nat, b: Binlog, num: nat): (evs: seq<Stamped>)
    requires GoodBinlog(localId, b)
    decreases U32_LIMIT - num, 0
  {
    var i := NextAfter(b.index, num, 0);
    if i == |b.index| then []
    else Stream(localId, b, b.index[i], NameNumber(b.index[i]), MAGIC_LEN)
  }
}
