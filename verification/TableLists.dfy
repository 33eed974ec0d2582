/** The slave's table list as text, and the substring test the master runs on it. */
module TableLists {
  import opened Bytes
  import opened Frames
  import opened Replication

  /** `,db1.tb1,db2.tb2,` for the configured `db1.tb1,db2.tb2`. */
  function TableList(entries: seq<bytes>): (s: bytes)
    ensures |s| >= 1 && s[0] == COMMA
  {
    if entries == [] then [COMMA] else [COMMA] + entries[0] + TableList(entries[1..])
  }

  predicate NoCommas(entries: seq<bytes>) {
    forall e <- entries :: COMMA !in e
  }

  function Quoted(name: bytes): (s: bytes) {
    [COMMA] + name + [COMMA]
  }

  /** At the head of the list the test succeeds exactly on the first entry. */
  lemma MatchesHead(entries: seq<bytes>, name: bytes)
    requires entries != [] && COMMA !in entries[0] && COMMA !in name
    ensures OccursAt(TableList(entries), Quoted(name), 0) <==> entries[0] == name
  {
    hide IndexOf;
    var e, rest := entries[0], TableList(entries[1..]);
    var s, q := TableList(entries), Quoted(name);
    assert s == [COMMA] + e + rest && rest == [COMMA] + rest[1..];
    if e == name {
      assert s[..|q|] == q;
    }
    if OccursAt(s, q, 0) {
      var tail := s[1..];
      assert s[..|q|] == q;
      assert tail == e + [COMMA] + rest[1..];
      assert tail == name + [COMMA] + s[|q|..];
      IndexOfAppend(e, COMMA, rest[1..]);
      IndexOfAppend(name, COMMA, s[|q|..]);
      assert tail[..|e|] == e && tail[..|name|] == name;
    }
  }

  /** Behind the head it is the same search in the rest of the list. */
  lemma MatchesTail(entries: seq<bytes>, q: bytes, i: nat)
    requires entries != [] && COMMA !in entries[0] && i > 0 && q != [] && q[0] == COMMA
    ensures OccursAt(TableList(entries), q, i) <==>
            i > |entries[0]| && OccursAt(TableList(entries[1..]), q, i - |entries[0]| - 1)
  {
    var e, rest := entries[0], TableList(entries[1..]);
    var s := TableList(entries);
    assert s == [COMMA] + e + rest;
    assert i <= |e| ==> s[i] == e[i - 1] && e[i - 1] in e;
    if OccursAt(s, q, i) {
      assert s[i] == s[i..i + |q|][0] == q[0];
    }
    if i > |e| && i + |q| <= |s| {
      assert s[|e| + 1..] == rest;
      assert s[i..i + |q|] == rest[i - |e| - 1..i - |e| - 1 + |q|];
    }
  }

  lemma {:induction false} MemberOccurs(entries: seq<bytes>, name: bytes) returns (i: nat)
    requires NoCommas(entries) && COMMA !in name && name in entries
    ensures OccursAt(TableList(entries), Quoted(name), i)
  {
    if entries[0] == name {
      MatchesHead(entries, name);
      i := 0;
    } else {
      i := MemberOccurs(entries[1..], name);
      i := i + |entries[0]| + 1;
      MatchesTail(entries, Quoted(name), i);
    }
  }

  lemma {:induction false} OccursMember(entries: seq<bytes>, name: bytes, i: nat)
    requires NoCommas(entries) && COMMA !in name
    requires OccursAt(TableList(entries), Quoted(name), i)
    ensures name in entries
  {
    if i == 0 {
      MatchesHead(entries, name);
    } else {
      MatchesTail(entries, Quoted(name), i);
      OccursMember(entries[1..], name, i - |entries[0]| - 1);
    }
  }

  lemma OccursIffMember(entries: seq<bytes>, name: bytes)
    requires NoCommas(entries) && COMMA !in name
    ensures Occurs(TableList(entries), Quoted(name)) <==> name in entries
  {
    var s, q := TableList(entries), Quoted(name);
    if Occurs(s, q) {
      var i: nat :| i <= |s| && OccursAt(s, q, i);
      OccursMember(entries, name, i);
    }
    if name in entries {
      var i := MemberOccurs(entries, name);
      assert i <= |s|;
    }
  }

  /** The handler's test is membership in the configured list. */
  lemma ListedIffMember(entries: seq<bytes>, db: bytes, tb: bytes)
    requires NoCommas(entries) && COMMA !in db && COMMA !in tb
    requires |db| + |tb| + 3 <= NEEDLE_MAX
    ensures Listed(TableList(entries), db, tb) <==> TableName(db, tb) in entries
  {
    OccursIffMember(entries, TableName(db, tb));
  }

  // ----- Names that overflow the handler's buffer ------------------------------------------

  /** A name that reaches behind the entry would hold its comma. */
  lemma PrefixOfEntry(e: bytes, r: bytes, name: bytes)
    requires COMMA !in name
    ensures name <= e + ([COMMA] + r) <==> name <= e
  {
    var t := e + ([COMMA] + r);
    assert t[|e|] == COMMA && t[..|e|] == e;
    if name <= e {
      assert t[..|name|] == e[..|name|];
    }
  }

  /** Without the closing comma the head matches every name it begins. */
  lemma OpenMatchesHead(entries: seq<bytes>, name: bytes)
    requires entries != [] && COMMA !in entries[0] && COMMA !in name
    ensures OccursAt(TableList(entries), [COMMA] + name, 0) <==> name <= entries[0]
  {
    var e, rest := entries[0], TableList(entries[1..]);
    var s, q := TableList(entries), [COMMA] + name;
    var tail := e + ([COMMA] + rest[1..]);
    assert s == [COMMA] + tail by {
      assert rest == [COMMA] + rest[1..];
    }
    hide TableList;
    PrefixOfEntry(e, rest[1..], name);
    HeadOccurs(tail, name);
  }

  lemma HeadOccurs(tail: bytes, name: bytes)
    ensures OccursAt([COMMA] + tail, [COMMA] + name, 0) <==> name <= tail
  {
    var s, q := [COMMA] + tail, [COMMA] + name;
    assert s[1..] == tail && q[1..] == name;
    if |name| <= |tail| {
      assert s[..|q|] == [COMMA] + tail[..|name|];
      assert s[..|q|] == q <==> s[..|q|][1..] == q[1..];
    }
  }

  lemma {:induction false} OpenMemberOccurs(entries: seq<bytes>, name: bytes, e: bytes) returns (i: nat)
    requires NoCommas(entries) && COMMA !in name && e in entries && name <= e
    ensures OccursAt(TableList(entries), [COMMA] + name, i)
  {
    if name <= entries[0] {
      OpenMatchesHead(entries, name);
      i := 0;
    } else {
      i := OpenMemberOccurs(entries[1..], name, e);
      i := i + |entries[0]| + 1;
      MatchesTail(entries, [COMMA] + name, i);
    }
  }

  lemma {:induction false} OpenOccursMember(entries: seq<bytes>, name: bytes, i: nat) returns (e: bytes)
    requires NoCommas(entries) && COMMA !in name && name != []
    requires OccursAt(TableList(entries), [COMMA] + name, i)
    ensures e in entries && name <= e
  {
    if i == 0 {
      OpenMatchesHead(entries, name);
      e := entries[0];
    } else {
      MatchesTail(entries, [COMMA] + name, i);
      e := OpenOccursMember(entries[1..], name, i - |entries[0]| - 1);
    }
  }

  /**
   * Two names of 64 characters overflow the handler's text buffer: the closing comma is
   * cut off, and the search succeeds exactly when an entry begins with the name.
   */
  lemma LongestNamesMatchPrefixes(entries: seq<bytes>, db: bytes, tb: bytes)
    requires NoCommas(entries) && COMMA !in db && COMMA !in tb && |db| + |tb| == 128
    ensures Listed(TableList(entries), db, tb) <==> exists e <- entries :: TableName(db, tb) <= e
  {
    var s, name := TableList(entries), TableName(db, tb);
    assert Needle(db, tb) == [COMMA] + name;
    hide TableList, TableName;
    if Listed(s, db, tb) {
      var i: nat :| i <= |s| && OccursAt(s, [COMMA] + name, i);
      var e := OpenOccursMember(entries, name, i);
    }
    if e: bytes :| e in entries && name <= e {
      var i := OpenMemberOccurs(entries, name, e);
      assert i <= |s|;
    }
  }
}
