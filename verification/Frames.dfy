/** Data frames: what the master puts in its ring and the slave takes apart. */
module Frames {
  import opened Bytes

  /** A resume position: binlog file name and offset. */
  datatype Stamp = Stamp(file: bytes, pos: nat)

  datatype Frame =
    | PosFrame(at: Stamp)
    | RowFrame(at: Stamp, kind: byte, db: bytes, tb: bytes, ct: bytes, cm: bytes, data: bytes)

  /** `file,pos` as printed in front of every frame and kept in slave.info. */
  function StampText(at: Stamp): (s: bytes) {
    at.file + [COMMA] + Digits(at.pos)
  }

  function TableName(db: bytes, tb: bytes): (s: bytes) {
    db + [DOT] + tb
  }

  /** Column types, column metadata and the body of the rows event. */
  function RowPayload(ct: bytes, cm: bytes, data: bytes): (s: bytes) {
    U32(|ct|) + ct + U32(|cm|) + cm + data
  }

  function Encode(f: Frame): (s: bytes) {
    match f
    case PosFrame(at) => StampText(at) + [NEWLINE, 0]
    case RowFrame(at, kind, db, tb, ct, cm, data) =>
      StampText(at) + [NEWLINE, kind, COMMA] + TableName(db, tb) + [NUL] + RowPayload(ct, cm, data)
  }

  function EncodeAll(fs: seq<Frame>): (s: seq<bytes>)
    ensures |s| == |fs|
    ensures forall i :: 0 <= i < |fs| ==> s[i] == Encode(fs[i])
  {
    seq(|fs|, i requires 0 <= i < |fs| => Encode(fs[i]))
  }

  lemma EncodeAllAppend(a: seq<Frame>, b: seq<Frame>)
    ensures EncodeAll(a + b) == EncodeAll(a) + EncodeAll(b)
  {
  }

  lemma EncodeAllChain(out0: seq<bytes>, a: seq<Frame>, b: seq<Frame>)
    ensures (out0 + EncodeAll(a)) + EncodeAll(b) == out0 + EncodeAll(a + b)
  {
    EncodeAllAppend(a, b);
  }

  /** What a frame asks the slave to do. */
  datatype Split =
    | Malformed
    | PositionOnly(info: bytes)
    | Dispatch(info: bytes, kind: byte, table: bytes, payload: bytes)

  predicate IsRowKind(t: byte) {
    t == 23 || t == 24 || t == 25
  }

  /** A frame whose text fields can be found again. */
  predicate GoodFrame(f: Frame) {
    NUL !in f.at.file && NEWLINE !in f.at.file &&
    (f.RowFrame? ==> IsRowKind(f.kind) && NUL !in f.db && NUL !in f.tb)
  }

  /** What taking a good frame apart must yield. */
  function Meaning(f: Frame): (m: Split) {
    match f
    case PosFrame(at) => PositionOnly(StampText(at))
    case RowFrame(at, kind, db, tb, ct, cm, data) =>
      Dispatch(StampText(at), kind, TableName(db, tb), RowPayload(ct, cm, data))
  }

  /**
   * The slave's index arithmetic on a received chunk: up to the first newline is
   * the position text, then the type byte, a comma, the table name up to a NUL,
   * and `rl` bytes of row data. Malformed where it finds no newline, an unknown
   * type, or would run past the chunk.
   */
  function SplitFrame(chunk: bytes): (r: Split) {
    var nl := IndexOf(chunk, NEWLINE);
    if nl >= IndexOf(chunk, NUL) || nl + 1 >= |chunk| then Malformed
    else
      var info := chunk[..nl];
      var len := |chunk| - nl;
      var t := chunk[nl + 1];
      if t == 0 then PositionOnly(info)
      else if !IsRowKind(t) || nl + 3 > |chunk| then Malformed
      else
        var name := chunk[nl + 3..];
        var tl := IndexOf(name, NUL);
        var rl := len - 4 - tl;
        if rl < 0 then Malformed
        else Dispatch(info, t, name[..tl], name[tl + 1..tl + 1 + rl])
  }

  lemma StampTextIsText(at: Stamp)
    requires NUL !in at.file && NEWLINE !in at.file
    ensures NUL !in StampText(at) && NEWLINE !in StampText(at)
  {
    var d := Digits(at.pos);
    forall i | 0 <= i < |d| ensures d[i] != NUL && d[i] != NEWLINE {
      assert IsDigit(d[i]);
    }
  }

  lemma IndexOfAppend2(a: bytes, c: byte, b: bytes, s: bytes)
    requires c !in a && s == a + [c] + b
    ensures IndexOf(s, c) == |a|
  {
    IndexOfAppend(a, c, b);
  }

  lemma SplitPositionText(info: bytes, s: bytes)
    requires NUL !in info && NEWLINE !in info
    requires s == info + [NEWLINE, 0]
    ensures SplitFrame(s) == PositionOnly(info)
  {
    IndexOfAppend2(info, NEWLINE, [0], s);
    IndexOfAppend2(info + [NEWLINE], NUL, [], s);
    assert s[..|info|] == info;
  }

  lemma RowTextIndices(info: bytes, kind: byte, table: bytes, payload: bytes, head: bytes, name: bytes)
    requires NUL !in info && NEWLINE !in info && NUL !in table && kind != NUL
    requires head == info + [NEWLINE, kind, COMMA] && name == table + [NUL] + payload
    ensures IndexOf(head + name, NEWLINE) == |info|
    ensures IndexOf(head + name, NUL) == |head| + |table|
    ensures IndexOf(name, NUL) == |table|
  {
    IndexOfAppend2(info, NEWLINE, [kind, COMMA] + name, head + name);
    IndexOfAppend2(head + table, NUL, payload, head + name);
    IndexOfAppend2(table, NUL, payload, name);
  }

  lemma SplitByIndices(s: bytes, k: nat, tl: nat)
    requires k + 4 + tl <= |s| && IsRowKind(s[k + 1])
    requires IndexOf(s, NEWLINE) == k < IndexOf(s, NUL)
    requires IndexOf(s[k + 3..], NUL) == tl
    ensures SplitFrame(s) == Dispatch(s[..k], s[k + 1], s[k + 3..][..tl], s[k + 3..][tl + 1..])
  {
    hide IndexOf;
    var name := s[k + 3..];
    assert tl + 1 + (|s| - k - 4 - tl) == |name|;
    assert name[tl + 1..|name|] == name[tl + 1..];
  }

  lemma SplitRowText(info: bytes, kind: byte, table: bytes, payload: bytes, s: bytes)
    requires NUL !in info && NEWLINE !in info && NUL !in table && IsRowKind(kind)
    requires s == info + [NEWLINE, kind, COMMA] + (table + [NUL] + payload)
    ensures SplitFrame(s) == Dispatch(info, kind, table, payload)
  {
    var name := table + [NUL] + payload;
    RowTextIndices(info, kind, table, payload, info + [NEWLINE, kind, COMMA], name);
    assert s[|info| + 3..] == name;
    SplitByIndices(s, |info|, |table|);
    assert s[..|info|] == info && name[..|table|] == table && name[|table| + 1..] == payload;
  }

  /**
   * What becomes of any chunk whose text before the first newline has no NUL: the byte behind the newline decides,
   * 0 for a position alone and a row type for rows, if there is a NUL to end the table name.
   */
  lemma TypedChunk(info: bytes, t: byte, rest: bytes)
    requires NUL !in info && NEWLINE !in info
    ensures var r := SplitFrame(info + ([NEWLINE, t] + rest));
            if t == 0 then r == PositionOnly(info)
            else if (t == 23 || t == 24 || t == 25) && rest != [] && NUL in rest[1..]
            then r.Dispatch? && r.info == info && r.kind == t && NUL !in r.table &&
                 rest[1..] == r.table + [NUL] + r.payload
            else r == Malformed
  {
    var s, nl := info + ([NEWLINE, t] + rest), |info|;
    NewlineFirst(info, t, rest);
    hide IndexOf;
    assert s[..nl] == info && s[nl + 1] == t;
    if rest != [] {
      var name := rest[1..];
      assert s[nl + 3..] == name;
      NameParts(name);
      if NUL in name && IsRowKind(t) {
        SplitByIndices(s, nl, IndexOf(name, NUL));
      }
    }
  }

  /** A name in front of its NUL, if there is one. */
  lemma {:induction false} NameParts(name: bytes)
    ensures IndexOf(name, NUL) < |name| <==> NUL in name
    ensures NUL in name ==>
              var tl := IndexOf(name, NUL); NUL !in name[..tl] && name == name[..tl] + [NUL] + name[tl + 1..]
  {
    if name != [] && name[0] != NUL {
      var rest, tl := name[1..], IndexOf(name[1..], NUL);
      NameParts(rest);
      assert name == [name[0]] + rest;
      if NUL in rest {
        assert name[..tl + 1] == [name[0]] + rest[..tl] && name[tl + 2..] == rest[tl + 1..];
      }
    }
  }

  lemma NewlineFirst(info: bytes, t: byte, rest: bytes)
    requires NUL !in info && NEWLINE !in info
    ensures IndexOf(info + ([NEWLINE, t] + rest), NEWLINE) == |info| < IndexOf(info + ([NEWLINE, t] + rest), NUL)
  {
    IndexOfSkip(info, [NEWLINE, t] + rest, NEWLINE);
    IndexOfSkip(info, [NEWLINE, t] + rest, NUL);
  }

  /** A chunk without a newline in front of its first NUL, or with nothing behind the newline, is malformed. */
  lemma UntypedChunk(chunk: bytes)
    requires NEWLINE !in CStr(chunk) || IndexOf(chunk, NEWLINE) + 1 == |chunk|
    ensures SplitFrame(chunk) == Malformed
  {
    var nl, end := IndexOf(chunk, NEWLINE), IndexOf(chunk, NUL);
    IndexOfFirst(chunk, NEWLINE);
    if nl < end {
      assert chunk[..end][nl] == NEWLINE;
    }
  }

  /** The slave recovers every field; the row data is exactly the rest of the chunk. */
  lemma SplitEncode(f: Frame)
    requires GoodFrame(f)
    ensures SplitFrame(Encode(f)) == Meaning(f)
  {
    StampTextIsText(f.at);
    match f
    case PosFrame(at) =>
      SplitPositionText(StampText(at), Encode(f));
    case RowFrame(at, kind, db, tb, ct, cm, data) =>
      var table, payload := TableName(db, tb), RowPayload(ct, cm, data);
      assert Encode(f) == StampText(at) + [NEWLINE, kind, COMMA] + (table + [NUL] + payload);
      SplitRowText(StampText(at), kind, table, payload, Encode(f));
  }

  /**
   * Building a frame on the master: `len` is computed before anything is
   * printed and is the size of the chunk asked for. snprintf cuts its text to
   * `len - 1` characters and ends it with a NUL.
   */
  method BuildPosFrame(file: bytes, pos: nat) returns (chunk: bytes, len: nat)
    ensures chunk == Encode(PosFrame(Stamp(file, pos)))
    ensures len == |chunk|
  {
    var istr := Digits(pos);
    len := |istr| + |file| + 1 + 1 + 1;
    var text := file + [COMMA] + istr + [NEWLINE, 0];
    chunk := text[..len - 1] + [NUL];
    assert text[..len - 1] + [NUL] == text;
  }

  method BuildRowFrame(file: bytes, pos: nat, kind: byte, db: bytes, tb: bytes, ct: bytes, cm: bytes, data: bytes)
    returns (chunk: bytes, len: nat)
    ensures chunk == Encode(RowFrame(Stamp(file, pos), kind, db, tb, ct, cm, data))
    ensures len == |chunk|
  {
    var istr := Digits(pos);
    len := |istr| + |file| + 1 + 1 + 1;
    len := len + (|data| + |tb| + 3 + |db| + 4 + |ct| + 4 + |cm|);
    var text := file + [COMMA] + istr + [NEWLINE, kind, COMMA] + db + [DOT] + tb + [NUL];
    assert |text| < len;
    chunk := text;
    chunk := chunk + U32(|ct|) + ct;
    chunk := chunk + U32(|cm|) + cm;
    chunk := chunk + data[..len - |text| - 8 - |ct| - |cm|];
    assert data[..len - |text| - 8 - |ct| - |cm|] == data;
    assert chunk == Encode(RowFrame(Stamp(file, pos), kind, db, tb, ct, cm, data));
  }
}
