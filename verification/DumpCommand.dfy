/** The command a slave sends to start or restart a dump, and how the master reads it. */
module DumpCommand {
  import opened Bytes
  import opened BinlogEvents
  import opened Frames
  import Numbers

  /** Where to start, which tables, and how long to sleep on an empty ring. */
  datatype Request = Request(file: bytes, num: nat, pos: nat, tables: Option<bytes>, usec: nat)

  /** What follows the four length bytes: `info\n,tables,\0` and the sleep time. */
  function CommandText(info: bytes, tables: bytes, usec: nat): (s: bytes) {
    info + [NEWLINE] + ([COMMA] + tables + [COMMA]) + [NUL] + U32(usec)
  }

  /** Index of the last `c` in `s`, or `|s|`. */
  function LastIndexOf(s: bytes, c: byte): (i: nat)
    ensures i <= |s|
    decreases |s|
  {
    if s == [] then 0
    else if s[|s| - 1] == c then |s| - 1
    else
      var i := LastIndexOf(s[..|s| - 1], c);
      if i == |s| - 1 then |s| else i
  }

  /**
   * How the master's parser ends: it gives up, or it has the fields, or it has
   * read outside the command or converted a power of ten that is too large, and
   * then its outcome is undefined.
   */
  datatype Parsed<+T> = GivesUp | Undefined | Parsed(value: T)

  /** A search that has reached a byte `NUL` gives up; without one it leaves the command. */
  function NotFound<T>(cbuf: bytes): (r: Parsed<T>)
    ensures r.GivesUp? <==> NUL in cbuf
  {
    IndexOfFirst(cbuf, NUL);
    if IndexOf(cbuf, NUL) < |cbuf| then GivesUp else Undefined
  }

  /** Up to the first newline: file name, its number, offset, and what follows. */
  function ParseStart(cbuf: bytes): (r: Parsed<(bytes, nat, nat, bytes)>) {
    var end := IndexOf(cbuf, NUL);
    var i := IndexOf(cbuf, COMMA);
    if i >= end then NotFound(cbuf)
    else
      match Numbers.ScanBack(cbuf[..i])
      case None => Undefined
      case Some(num) =>
        var after := cbuf[i + 1..];
        var n := IndexOf(after, NEWLINE);
        if i + 1 + n >= end then NotFound(cbuf)
        else Parsed((cbuf[..i], num, DecimalValue(after[..DigitPrefix(after)]) % U32_LIMIT, after[n + 1..]))
  }

  /** Behind the newline: the table list in its commas, a NUL, and the sleep time. */
  function ParseTables(rest: bytes): (r: Parsed<(Option<bytes>, nat)>) {
    if rest == [] then Undefined
    else if rest[0] != COMMA then GivesUp
    else
      var end := IndexOf(rest, NUL);
      var tables := rest[..end];
      var last := LastIndexOf(tables, COMMA);
      if end == |rest| then Undefined
      else if last == end || last < 2 then GivesUp
      else if last + 6 > |rest| then Undefined
      else Parsed((if [COMMA, COMMA] <= tables then None else Some(tables), FromLE(rest[last + 2..last + 6])))
  }

  /** The command as a whole. */
  function ParseCommand(cbuf: bytes): (r: Parsed<Request>) {
    match ParseStart(cbuf)
    case GivesUp => GivesUp
    case Undefined => Undefined
    case Parsed((file, num, pos, rest)) =>
      match ParseTables(rest)
      case GivesUp => GivesUp
      case Undefined => Undefined
      case Parsed((tables, usec)) => Parsed(Request(file, num, pos, tables, usec))
  }

  /** The slave builds the packet behind its length, which counts everything after itself. */
  method SendDumpCmd(info: bytes, tables: bytes, usec: nat) returns (packet: bytes)
    ensures packet == U32(|CommandText(info, tables, usec)|) + CommandText(info, tables, usec)
  {
    var l := |info| + 2 + |tables| + 2 + 4;
    packet := U32(l);
    packet := packet + (info + [NEWLINE, COMMA] + tables + [COMMA, NUL]);
    packet := packet + U32(usec);
    assert info + [NEWLINE, COMMA] + tables + [COMMA, NUL] + U32(usec) == CommandText(info, tables, usec);
  }

  method ParseDumpCmd(cbuf: bytes) returns (r: Parsed<Request>)
    ensures r == ParseCommand(cbuf)
  {
    var head := ReadStart(cbuf);
    match head
    case GivesUp => return GivesUp;
    case Undefined => return Undefined;
    case Parsed((file, num, pos, rest)) =>
      var tail := ReadTables(rest);
      match tail
      case GivesUp => return GivesUp;
      case Undefined => return Undefined;
      case Parsed((tables, usec)) => return Parsed(Request(file, num, pos, tables, usec));
  }

  method ReadStart(cbuf: bytes) returns (r: Parsed<(bytes, nat, nat, bytes)>)
    ensures r == ParseStart(cbuf)
  {
    var end := IndexOf(cbuf, NUL);
    var i := IndexOf(cbuf, COMMA);
    if i >= end {
      return NotFound(cbuf);
    }
    var num := Numbers.EstrToU32(cbuf[..i]);
    if num.None? {
      return Undefined;
    }
    var after := cbuf[i + 1..];
    var pos := Numbers.StrToU32(after);
    var n := IndexOf(after, NEWLINE);
    if i + 1 + n >= end {
      return NotFound(cbuf);
    }
    return Parsed((cbuf[..i], num.value, pos, after[n + 1..]));
  }

  method ReadTables(rest: bytes) returns (r: Parsed<(Option<bytes>, nat)>)
    ensures r == ParseTables(rest)
  {
    if rest == [] {
      return Undefined;
    }
    if rest[0] != COMMA {
      return GivesUp;
    }
    var end := IndexOf(rest, NUL);
    if end == |rest| {
      return Undefined;
    }
    var tables := rest[..end];
    var p := LastIndexOf(tables, COMMA);
    if p == end || p < 2 {
      return GivesUp;
    }
    p := p + 2;
    if p + 4 > |rest| {
      return Undefined;
    }
    var usec := FromLE(rest[p..p + 4]);
    r := Parsed((if [COMMA, COMMA] <= tables then None else Some(tables), usec));
  }

  // ----- Round trip -------------------------------------------------------------

  /** A start position the slave can send: its file name is a good name without comma or newline. */
  predicate GoodStamp(at: Stamp) {
    GoodName(at.file) && COMMA !in at.file && NEWLINE !in at.file && at.pos < U32_LIMIT
  }

  lemma DigitsOnly(d: bytes, c: byte)
    requires AllDigits(d) && !IsDigit(c)
    ensures c !in d
  {
  }

  lemma StartIndices(file: bytes, digits: bytes, rest: bytes, after: bytes)
    requires COMMA !in file && AllDigits(digits) && after == digits + ([NEWLINE] + rest)
    ensures IndexOf(file + [COMMA] + after, COMMA) == |file|
    ensures IndexOf(after, NEWLINE) == |digits| == DigitPrefix(after)
  {
    IndexOfAppend(file, COMMA, after);
    DigitsOnly(digits, NEWLINE);
    IndexOfSkip(digits, [NEWLINE] + rest, NEWLINE);
    DigitPrefixOf(digits, [NEWLINE] + rest);
  }

  lemma NulComesLater(text: bytes, rest: bytes)
    requires NUL !in text
    ensures |text| < IndexOf(text + ([NEWLINE] + rest), NUL)
  {
    IndexOfSkip(text, [NEWLINE] + rest, NUL);
  }

  lemma GoodNameIsCString(name: bytes)
    requires GoodName(name)
    ensures NUL !in name
  {
  }

  lemma StartPieces(file: bytes, digits: bytes, rest: bytes, after: bytes, s: bytes)
    requires after == digits + ([NEWLINE] + rest) && s == file + [COMMA] + after
    ensures s[..|file|] == file && s[|file| + 1..] == after
    ensures after[..|digits|] == digits && after[|digits| + 1..] == rest
  {
  }

  lemma GoodNameScans(name: bytes)
    requires GoodName(name)
    ensures Numbers.ScanBack(name) == Some(NameNumber(name))
  {
  }

  lemma ParsesStart(cbuf: bytes, file: bytes, num: nat, digits: bytes, rest: bytes, after: bytes)
    requires |file| < |cbuf| && cbuf[..|file|] == file && cbuf[|file| + 1..] == after
    requires |digits| < |after| && after[..|digits|] == digits && after[|digits| + 1..] == rest
    requires IndexOf(cbuf, COMMA) == |file| && |file| + 1 + |digits| < IndexOf(cbuf, NUL)
    requires IndexOf(after, NEWLINE) == |digits| == DigitPrefix(after) && Numbers.ScanBack(file) == Some(num)
    ensures AllDigits(digits)
    ensures ParseStart(cbuf) == Parsed((file, num, DecimalValue(digits) % U32_LIMIT, rest))
  {
    hide Numbers.ScanBack, DecimalValue, IndexOf, NotFound;
  }

  lemma StartRoundTrip(at: Stamp, rest: bytes)
    requires GoodStamp(at)
    ensures ParseStart(StampText(at) + [NEWLINE] + rest) == Parsed((at.file, NameNumber(at.file), at.pos, rest))
  {
    hide GoodName, NameNumber, Numbers.ScanBack, DecimalValue, Digits, ParseStart, IndexOf, DigitPrefix;
    var digits := Digits(at.pos);
    var s := StampText(at) + [NEWLINE] + rest;
    var after := digits + ([NEWLINE] + rest);
    GoodNameIsCString(at.file);
    GoodNameScans(at.file);
    assert s == at.file + [COMMA] + after;
    StartIndices(at.file, digits, rest, after);
    StampTextIsText(at);
    NulComesLater(StampText(at), rest);
    assert s == StampText(at) + ([NEWLINE] + rest);
    StartPieces(at.file, digits, rest, after, s);
    ParsesStart(s, at.file, NameNumber(at.file), digits, rest, after);
    DigitsRoundTrip(at.pos);
  }

  /** What becomes of a list in its commas, ended by a NUL: it depends on whether four bytes follow. */
  lemma TablesOutcome(list: bytes, more: bytes)
    requires NUL !in list
    ensures ParseTables([COMMA] + list + [COMMA] + [NUL] + more) ==
            if list == [] then GivesUp
            else if |more| < 4 then Undefined
            else Parsed((if list[0] == COMMA then None else Some([COMMA] + list + [COMMA]), FromLE(more[..4])))
  {
    hide FromLE;
    var quoted := [COMMA] + list + [COMMA];
    var s := quoted + [NUL] + more;
    IndexOfAppend(quoted, NUL, more);
    assert s[..|quoted|] == quoted;
    assert LastIndexOf(quoted, COMMA) == |quoted| - 1;
    if |more| >= 4 {
      assert s[|quoted| + 1..|quoted| + 5] == more[..4];
    }
    assert [COMMA, COMMA] <= quoted <==> quoted[1] == COMMA;
  }

  /** A list without a comma at its head, or with no other behind it, is turned down. */
  lemma NoList(text: bytes, more: bytes)
    requires NUL !in text
    ensures text == [] || text[0] != COMMA ==> ParseTables(text + [NUL] + more) == GivesUp
    ensures text != [] && text[0] == COMMA && COMMA !in text[1..] ==> ParseTables(text + [NUL] + more) == GivesUp
    ensures text != [] && text[0] == COMMA ==> ParseTables(text) == Undefined
  {
    var s := text + [NUL] + more;
    IndexOfAppend(text, NUL, more);
    assert s[..|text|] == text;
    if text != [] {
      assert s[0] == text[0];
      if COMMA !in text[1..] {
        LastOfOne(text, COMMA);
      }
      if text[0] == COMMA {
        IndexOfFirst(text, NUL);
      }
    }
  }

  lemma {:induction false} LastOfOne(s: bytes, c: byte)
    requires s != [] && c !in s[1..]
    ensures LastIndexOf(s, c) == if s[0] == c then 0 else |s|
    decreases |s|
  {
    if |s| > 1 {
      var t := s[..|s| - 1];
      assert t[1..] == s[1..][..|s| - 2];
      assert s[|s| - 1] == s[1..][|s| - 2];
      LastOfOne(t, c);
    }
  }

  /** A search that finds nothing in front of the first NUL. */
  lemma {:induction false} NotInCStr(s: bytes, c: byte)
    requires c !in CStr(s)
    ensures IndexOf(s, c) >= IndexOf(s, NUL)
    decreases |s|
  {
    if s != [] && s[0] != NUL {
      assert CStr(s) == [s[0]] + CStr(s[1..]);
      NotInCStr(s[1..], c);
    }
  }

  /** Without a comma in front of its first NUL a command is turned down, if it has a NUL. */
  lemma NoComma(cbuf: bytes)
    requires COMMA !in CStr(cbuf)
    ensures ParseCommand(cbuf) == if NUL in cbuf then GivesUp else Undefined
  {
    NotInCStr(cbuf, COMMA);
    hide IndexOf, CStr, ParseTables;
  }

  /** So it is without a newline behind the comma. */
  lemma NoNewline(file: bytes, after: bytes)
    requires COMMA !in file && NUL !in file && Numbers.ScanBack(file).Some? && NEWLINE !in CStr(after)
    ensures ParseCommand(file + [COMMA] + after) == if NUL in after then GivesUp else Undefined
  {
    var cbuf := file + [COMMA] + after;
    NotInCStr(after, NEWLINE);
    IndexOfAppend(file, COMMA, after);
    IndexOfSkip(file + [COMMA], after, NUL);
    hide Numbers.ScanBack, ParseTables, IndexOf, CStr;
    assert cbuf[..|file|] == file && cbuf[|file| + 1..] == after;
  }

  /**
   * Reading a command back: an empty table list is turned down, a list that
   * begins with a comma counts as no list, and anything else returns exactly
   * what was sent, with the number of the file.
   */
  lemma CommandRoundTrip(at: Stamp, tables: bytes, usec: nat)
    requires GoodStamp(at) && NUL !in tables && usec < U32_LIMIT
    ensures ParseCommand(CommandText(StampText(at), tables, usec)) ==
            if tables == [] then GivesUp
            else Parsed(Request(at.file, NameNumber(at.file), at.pos,
                                if tables[0] == COMMA then None else Some([COMMA] + tables + [COMMA]), usec))
  {
    var rest := [COMMA] + tables + [COMMA] + [NUL] + U32(usec);
    assert CommandText(StampText(at), tables, usec) == StampText(at) + [NEWLINE] + rest;
    StartRoundTrip(at, rest);
    U32RoundTrip(usec);
    TablesOutcome(tables, U32(usec));
    assert U32(usec)[..4] == U32(usec);
  }
}
