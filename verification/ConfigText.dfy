/** Configuration text as it is written, and what the reader makes of it. */
module ConfigText {
  import opened Bytes
  import opened Config

  datatype Line =
    | Section(name: bytes)
    | Pair(key: bytes, value: bytes)
    | Comment(text: bytes)
    | Empty(blanks: bytes)

  predicate Plain(s: bytes) {
    HASH !in s && OPEN !in s && NEWLINE !in s
  }

  /** What a line may be made of. */
  predicate GoodLine(l: Line) {
    match l
    case Section(name) => Plain(name) && CLOSE !in name
    case Pair(key, value) =>
      Plain(key) && Plain(value) && SPACE !in key && key != [] && value != [] && !IsBlank(key[0]) && !IsBlank(value[0])
    case Comment(text) => NEWLINE !in text
    case Empty(blanks) => forall b <- blanks :: b == SPACE || b == TAB
  }

  function Print(l: Line): (s: bytes) {
    match l
    case Section(name) => [OPEN] + name + [CLOSE, NEWLINE]
    case Pair(key, value) => key + [SPACE] + value + [NEWLINE]
    case Comment(text) => [HASH] + text + [NEWLINE]
    case Empty(blanks) => blanks + [NEWLINE]
  }

  function PrintAll(ls: seq<Line>): (s: bytes) {
    if ls == [] then [] else Print(ls[0]) + PrintAll(ls[1..])
  }

  /** Whether the lines after this one are in the wanted section. */
  function InSection(r: Reader, l: Line, on: bool): (b: bool) {
    if l.Section? then r.name <= CStr(l.name) else on
  }

  /** The line keeps the limits; those on pairs only matter in the wanted section. */
  predicate Fits(r: Reader, l: Line, on: bool) {
    match l
    case Section(name) => |name| <= MODULE_MAX_LEN && |name| <= r.moduleRoom
    case Pair(key, value) =>
      on ==> |key| <= KEY_MAX_LEN && |key| <= r.keyRoom && |key| + |value| <= VALUE_MAX_LEN && CStr(key) in r.known
    case _ => true
  }

  predicate AllFit(r: Reader, ls: seq<Line>, on: bool) {
    ls == [] || (Fits(r, ls[0], on) && AllFit(r, ls[1..], InSection(r, ls[0], on)))
  }

  function SettingsOf(l: Line, on: bool): (s: seq<Setting>) {
    if on && l.Pair? then [Setting(CStr(l.key), CStr(l.value))] else []
  }

  /** The settings of the wanted section, in order. */
  function Settings(r: Reader, ls: seq<Line>, on: bool): (s: seq<Setting>) {
    if ls == [] then [] else SettingsOf(ls[0], on) + Settings(r, ls[1..], InSection(r, ls[0], on))
  }

  /** Between lines: ready for a key in the wanted section, idle in any other. */
  predicate At(st: State, on: bool, applied: seq<Setting>) {
    st.status == Reading && !st.comment && !st.inModule && !st.value && st.key == on &&
    (on ==> st.k == [] && st.i == 0) && st.applied == applied
  }

  // ----- Characters of one kind --------------------------------------------------------

  lemma {:induction false} CommentChars(r: Reader, st: State, t: bytes)
    requires st.status == Reading && st.comment && NEWLINE !in t
    ensures Feed(r, st, t) == st
    decreases |t|
  {
    if t != [] {
      CommentChars(r, st, t[1..]);
    }
  }

  lemma {:induction false} IdleChars(r: Reader, st: State, t: bytes, applied: seq<Setting>)
    requires At(st, false, applied) && HASH !in t && OPEN !in t
    ensures Feed(r, st, t) == st
    decreases |t|
  {
    if t != [] {
      IdleChars(r, st, t[1..], applied);
    }
  }

  lemma {:induction false} BlankChars(r: Reader, st: State, t: bytes, applied: seq<Setting>)
    requires At(st, true, applied) && forall b <- t :: IsBlank(b)
    ensures Feed(r, st, t) == st
    decreases |t|
  {
    if t != [] {
      assert IsBlank(t[0]);
      BlankChars(r, st, t[1..], applied);
    }
  }

  predicate InModule(st: State) {
    st.status == Reading && !st.comment && st.inModule && st.i == |st.m|
  }

  /** A name is taken in as far as the limits go. */
  lemma {:induction false} NameChars(r: Reader, st: State, t: bytes)
    requires InModule(st) && Plain(t) && CLOSE !in t
    ensures var n := |st.m| + |t|;
            if t == [] || (n - 1 <= MODULE_MAX_LEN && n - 1 <= r.moduleRoom)
            then Feed(r, st, t) == st.(m := st.m + t, i := n)
            else Feed(r, st, t).status != Reading
    decreases |t|
  {
    if t != [] {
      var s := Char(r, st, t[0]);
      if s.status == Reading {
        assert s.m + t[1..] == st.m + t;
        NameChars(r, s, t[1..]);
      }
    } else {
      assert st.m + t == st.m;
    }
  }

  predicate InKey(st: State) {
    st.status == Reading && !st.comment && !st.inModule && st.key && st.i == |st.k|
  }

  lemma {:induction false} KeyChars(r: Reader, st: State, t: bytes)
    requires InKey(st) && Plain(t) && SPACE !in t && (st.k == [] && t != [] ==> !IsBlank(t[0]))
    ensures var n := |st.k| + |t|;
            if t == [] || (n - 1 <= KEY_MAX_LEN && n - 1 <= r.keyRoom)
            then Feed(r, st, t) == st.(k := st.k + t, i := n)
            else Feed(r, st, t).status != Reading
    decreases |t|
  {
    if t != [] {
      var s := Char(r, st, t[0]);
      if s.status == Reading {
        assert s.k + t[1..] == st.k + t;
        KeyChars(r, s, t[1..]);
      }
    } else {
      assert st.k + t == st.k;
    }
  }

  predicate InValue(st: State) {
    st.status == Reading && !st.comment && !st.inModule && !st.key && st.value && st.i == |st.k| + |st.v|
  }

  lemma {:induction false} ValueChars(r: Reader, st: State, t: bytes)
    requires InValue(st) && Plain(t) && (st.v == [] && t != [] ==> !IsBlank(t[0]))
    ensures var n := |st.k| + |st.v| + |t|;
            if t == [] || n - 1 <= VALUE_MAX_LEN
            then Feed(r, st, t) == st.(v := st.v + t, i := n)
            else Feed(r, st, t).status != Reading
    decreases |t|
  {
    if t != [] {
      var s := Char(r, st, t[0]);
      if s.status == Reading {
        assert s.v + t[1..] == st.v + t;
        ValueChars(r, s, t[1..]);
      }
    } else {
      assert st.v + t == st.v;
    }
  }

  // ----- One line ------------------------------------------------------------------------

  lemma FeedOne(r: Reader, st: State, c: byte)
    ensures Feed(r, st, [c]) == if st.status == Reading then Char(r, st, c) else st
  {
    FeedNothing(r, Char(r, st, c));
  }

  /** A key and the space behind it. */
  lemma KeyPart(r: Reader, st: State, key: bytes, applied: seq<Setting>)
    requires At(st, true, applied) && Plain(key) && SPACE !in key && key != [] && !IsBlank(key[0])
    ensures var t := Feed(r, st, key + [SPACE]);
            if |key| <= KEY_MAX_LEN && |key| <= r.keyRoom
            then InValue(t) && t.k == key && t.v == [] && t.applied == applied
            else t.status != Reading
  {
    FeedAppend(r, st, key, [SPACE]);
    KeyChars(r, st, key);
    FeedOne(r, Feed(r, st, key), SPACE);
    assert st.k + key == key;
  }

  /** A value and the newline that applies it. */
  lemma ValuePart(r: Reader, st: State, value: bytes, applied: seq<Setting>)
    requires InValue(st) && st.v == [] && st.applied == applied && Plain(value) && value != [] && !IsBlank(value[0])
    ensures var t := Feed(r, st, value + [NEWLINE]);
            if |st.k| + |value| <= VALUE_MAX_LEN && CStr(st.k) in r.known
            then At(t, true, applied + [Setting(CStr(st.k), CStr(value))])
            else t.status != Reading
  {
    hide CStr;
    FeedAppend(r, st, value, [NEWLINE]);
    ValueChars(r, st, value);
    FeedOne(r, Feed(r, st, value), NEWLINE);
    assert st.v + value == value;
  }

  lemma PairLine(r: Reader, st: State, l: Line, applied: seq<Setting>)
    requires At(st, true, applied) && l.Pair? && GoodLine(l)
    ensures var t := Feed(r, st, Print(l));
            if Fits(r, l, true) then At(t, true, applied + SettingsOf(l, true)) else t.status != Reading
  {
    hide Feed, CStr, Char;
    var a, b := l.key + [SPACE], l.value + [NEWLINE];
    assert Print(l) == a + b;
    FeedAppend(r, st, a, b);
    KeyPart(r, st, l.key, applied);
    var t := Feed(r, st, a);
    if t.status == Reading {
      ValuePart(r, t, l.value, applied);
    } else {
      FeedStopped(r, t, b);
    }
  }

  lemma SectionLine(r: Reader, st: State, l: Line, on: bool, applied: seq<Setting>)
    requires At(st, on, applied) && l.Section? && GoodLine(l)
    ensures var t := Feed(r, st, Print(l));
            if Fits(r, l, on) then At(t, InSection(r, l, on), applied) else t.status != Reading
  {
    hide CStr;
    var name := l.name;
    var s1 := Char(r, st, OPEN);
    assert Print(l) == ([OPEN] + name) + ([CLOSE] + [NEWLINE]);
    FeedAppend(r, st, [OPEN] + name, [CLOSE] + [NEWLINE]);
    FeedAppend(r, st, [OPEN], name);
    FeedOne(r, st, OPEN);
    NameChars(r, s1, name);
    assert s1.m + name == name;
    var s2 := Feed(r, s1, name);
    FeedAppend(r, s2, [CLOSE], [NEWLINE]);
    FeedOne(r, s2, CLOSE);
    FeedOne(r, Feed(r, s2, [CLOSE]), NEWLINE);
    hide Feed;
  }

  lemma CommentLine(r: Reader, st: State, l: Line, on: bool, applied: seq<Setting>)
    requires At(st, on, applied) && l.Comment? && GoodLine(l)
    ensures At(Feed(r, st, Print(l)), on, applied)
  {
    assert Print(l) == [HASH] + (l.text + [NEWLINE]);
    FeedAppend(r, st, [HASH], l.text + [NEWLINE]);
    FeedOne(r, st, HASH);
    var s := Char(r, st, HASH);
    FeedAppend(r, s, l.text, [NEWLINE]);
    CommentChars(r, s, l.text);
    FeedOne(r, s, NEWLINE);
  }

  /** Every kind of line, in or out of the wanted section. */
  lemma OneLine(r: Reader, st: State, l: Line, on: bool, applied: seq<Setting>)
    requires At(st, on, applied) && GoodLine(l)
    ensures var t := Feed(r, st, Print(l));
            if Fits(r, l, on) then At(t, InSection(r, l, on), applied + SettingsOf(l, on)) else t.status != Reading
  {
    hide Feed, Char, CStr;
    assert applied + [] == applied;
    match l
    case Section(_) => SectionLine(r, st, l, on, applied);
    case Comment(_) => CommentLine(r, st, l, on, applied);
    case Pair(key, value) =>
      if on {
        PairLine(r, st, l, applied);
      } else {
        IdleChars(r, st, Print(l), applied);
      }
    case Empty(_) =>
      if on {
        BlankChars(r, st, Print(l), applied);
      } else {
        IdleChars(r, st, Print(l), applied);
      }
  }

  // ----- Whole files ------------------------------------------------------------------------

  predicate GoodLines(ls: seq<Line>) {
    forall l <- ls :: GoodLine(l)
  }

  function InSectionAfter(r: Reader, ls: seq<Line>, on: bool): (b: bool) {
    if ls == [] then on else InSectionAfter(r, ls[1..], InSection(r, ls[0], on))
  }

  lemma {:induction false} FeedLines(r: Reader, st: State, ls: seq<Line>, on: bool, applied: seq<Setting>)
    requires At(st, on, applied) && GoodLines(ls)
    ensures var t := Feed(r, st, PrintAll(ls));
            if AllFit(r, ls, on) then At(t, InSectionAfter(r, ls, on), applied + Settings(r, ls, on))
            else t.status != Reading
    decreases |ls|
  {
    hide Char, Fits, Print, CStr, InSection, SettingsOf, GoodLine, At;
    if ls == [] {
      FeedNothing(r, st);
      assert applied + [] == applied;
    } else {
      OneLine(r, st, ls[0], on, applied);
      FeedAppend(r, st, Print(ls[0]), PrintAll(ls[1..]));
      var t := Feed(r, st, Print(ls[0]));
      if Fits(r, ls[0], on) {
        FeedLines(r, t, ls[1..], InSection(r, ls[0], on), applied + SettingsOf(ls[0], on));
        assert (applied + SettingsOf(ls[0], on)) + Settings(r, ls[1..], InSection(r, ls[0], on)) ==
               applied + Settings(r, ls, on);
      } else {
        FeedStopped(r, t, PrintAll(ls[1..]));
      }
    }
  }

  /**
   * Reading what was written succeeds exactly when all lines keep the limits, and
   * then applies exactly the settings of the wanted section, in order, whatever
   * other sections, comments and empty lines there are.
   */
  lemma ReadsWhatIsWritten(r: Reader, ls: seq<Line>)
    requires GoodLines(ls)
    ensures Feed(r, START, PrintAll(ls)).status == Reading <==> AllFit(r, ls, false)
    ensures AllFit(r, ls, false) ==> Feed(r, START, PrintAll(ls)).applied == Settings(r, ls, false)
  {
    hide Feed, AllFit, Settings, PrintAll, InSectionAfter;
    FeedLines(r, START, ls, false, []);
    assert [] + Settings(r, ls, false) == Settings(r, ls, false);
  }

  /** A last setting without its newline is dropped, and the reader reports success. */
  lemma LastLineNeedsNewline(r: Reader, ls: seq<Line>, key: bytes, value: bytes)
    requires GoodLines(ls) && AllFit(r, ls, false) && InSectionAfter(r, ls, false)
    requires GoodLine(Pair(key, value)) && Fits(r, Pair(key, value), true)
    ensures var t := Feed(r, START, PrintAll(ls) + (key + [SPACE] + value));
            t.status == Reading && t.applied == Settings(r, ls, false)
  {
    hide Feed, AllFit, Settings, PrintAll, InSectionAfter, CStr, Char;
    FeedLines(r, START, ls, false, []);
    var applied := [] + Settings(r, ls, false);
    var st := Feed(r, START, PrintAll(ls));
    FeedAppend(r, START, PrintAll(ls), key + [SPACE] + value);
    FeedAppend(r, st, key + [SPACE], value);
    KeyPart(r, st, key, applied);
    ValueChars(r, Feed(r, st, key + [SPACE]), value);
  }

  /** A key longer than its declared buffer never gets through, though the limit checked is 20. */
  lemma LongKeysOverrun(name: bytes, known: set<bytes>, key: bytes, value: bytes)
    requires GoodLine(Section(name)) && NUL !in name && |name| <= MODULE_ROOM && GoodLine(Pair(key, value))
    requires KEY_ROOM < |key| <= KEY_MAX_LEN
    ensures var r := Reader(name, known, KEY_ROOM, MODULE_ROOM);
            Feed(r, START, PrintAll([Section(name), Pair(key, value)])).status != Reading
  {
    hide CStr;
    var r, ls := Reader(name, known, KEY_ROOM, MODULE_ROOM), [Section(name), Pair(key, value)];
    CStrWhole(name);
    ReadsWhatIsWritten(r, ls);
    assert ls[1..] == [Pair(key, value)];
  }

  lemma {:induction false} IndexOfMissing(s: bytes, c: byte)
    requires c !in s
    ensures IndexOf(s, c) == |s|
  {
    if s != [] {
      IndexOfMissing(s[1..], c);
    }
  }

  lemma CStrWhole(s: bytes)
    requires NUL !in s
    ensures CStr(s) == s
  {
    IndexOfMissing(s, NUL);
  }
}
