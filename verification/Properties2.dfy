// Properties2: tables of strings written to and read from text.  A character
// is a UTF-16 code unit.
module Properties2 {

  type Char = n: nat | n < 0x10000

  type Text = seq<Char>

  type Table = map<Text, Text>

  const TAB: Char := 9
  const LF: Char := 10
  const CR: Char := 13
  const SPACE: Char := 32
  const BANG: Char := 33
  const HASH: Char := 35
  const ZERO: Char := 48
  const COLON: Char := 58
  const EQUALS: Char := 61
  const UPPER_A: Char := 65
  const BACKSLASH: Char := 92
  const LOWER_A: Char := 97
  const LOWER_N: Char := 110
  const LOWER_R: Char := 114
  const LOWER_T: Char := 116
  const LOWER_U: Char := 117

  lemma Codes()
    ensures TAB == '\t' as int && LF == '\n' as int && CR == '\r' as int && SPACE == ' ' as int && BANG == '!' as int
    ensures HASH == '#' as int && ZERO == '0' as int && COLON == ':' as int && EQUALS == '=' as int && BACKSLASH == '\\' as int
    ensures UPPER_A == 'A' as int && LOWER_A == 'a' as int
    ensures LOWER_N == 'n' as int && LOWER_R == 'r' as int && LOWER_T == 't' as int && LOWER_U == 'u' as int
  {
  }

  predicate IsBlank(c: Char) { c == SPACE || c == TAB }

  predicate IsLineEnd(c: Char) { c == LF || c == CR }

  predicate EndsKey(c: Char) { c == EQUALS || c == COLON || IsBlank(c) || IsLineEnd(c) }

  // ---- writing -------------------------------------------------------

  function ToHex(nibble: nat): Char
    requires nibble < 16
  {
    if nibble < 10 then ZERO + nibble else UPPER_A + (nibble - 10)
  }

  function Unicode(c: Char): Text {
    [BACKSLASH, LOWER_U, ToHex(c / 4096), ToHex(c / 256 % 16), ToHex(c / 16 % 16), ToHex(c % 16)]
  }

  // One character of a value
  function Escaped(c: Char): Text {
    if c == BACKSLASH then [BACKSLASH, BACKSLASH]
    else if c == TAB then [BACKSLASH, LOWER_T]
    else if c == LF then [BACKSLASH, LOWER_N]
    else if c == CR then [BACKSLASH, LOWER_R]
    else if c < SPACE || c >= 127 then Unicode(c)
    else [c]
  }

  // Values are written in printable ASCII, and what is that already but for the
  // backslash is written as it is.
  lemma EscapedIsAscii(c: Char)
    ensures forall x :: x in Escaped(c) ==> 32 <= x <= 126
    ensures 32 <= c <= 126 && c != 92 ==> Escaped(c) == [c]
  {
    ToHexIsAscii();
  }

  lemma ToHexIsAscii()
    ensures forall n: nat {:trigger ToHex(n)} :: n < 16 ==> 48 <= ToHex(n) <= 70
  {
  }

  function Printed(v: Text): Text { if v == [] then [] else Escaped(v[0]) + Printed(v[1..]) }

  datatype Entry = Entry(key: Text, val: Text)

  // Keys are written as they are.
  function Line(e: Entry): Text { e.key + [EQUALS] + Printed(e.val) + [LF] }

  function Lines(entries: seq<Entry>): Text { if entries == [] then [] else Line(entries[0]) + Lines(entries[1..]) }

  datatype Option<+T> = None | Some(value: T)

  function Comment(text: Text, eol: Text): Text { [HASH] + text + eol }

  function Saved(header: Option<Text>, date: Text, eol: Text, entries: seq<Entry>): Text {
    (if header.Some? then Comment(header.value, eol) else []) + Comment(date, eol) + Lines(entries)
  }

  // ---- reading -------------------------------------------------------

  function LineSkipped(s: Text): (r: Text)
    ensures |r| <= |s|
  {
    if s == [] || IsLineEnd(s[0]) then s else LineSkipped(s[1..])
  }

  function BlanksSkipped(s: Text): (r: Text)
    ensures |r| <= |s|
  {
    if s == [] || !IsBlank(s[0]) then s else BlanksSkipped(s[1..])
  }

  // What is read, and what is left
  datatype Read<T> = Read(got: T, rest: Text)

  function KeyRead(s: Text): (r: Read<Text>)
    ensures |r.rest| + |r.got| == |s|
    ensures s != [] && !EndsKey(s[0]) ==> r.got != []
  {
    if s == [] || EndsKey(s[0]) then Read([], s)
    else
      var more := KeyRead(s[1..]);
      Read([s[0]] + more.got, more.rest)
  }

  function UsSkipped(s: Text): (r: Text)
    ensures |r| <= |s|
  {
    if s == [] || s[0] != LOWER_U then s else UsSkipped(s[1..])
  }

  function HexValue(c: Char): Option<nat> {
    if ZERO <= c < ZERO + 10 then Some(c - ZERO)
    else if LOWER_A <= c < LOWER_A + 6 then Some(10 + c - LOWER_A)
    else if UPPER_A <= c < UPPER_A + 6 then Some(10 + c - UPPER_A)
    else None
  }

  // The digits of an escape, after i of them came to d; a character that is no
  // digit ends it, and is lost.
  function HexRead(s: Text, i: nat, d: nat): (r: Read<nat>)
    requires i <= 4
    ensures |r.rest| <= |s|
    decreases 4 - i
  {
    if i == 4 then Read(d, s)
    else if s == [] then Read(d, [])
    else if HexValue(s[0]).None? then Read(d, s[1..])
    else HexRead(s[1..], i + 1, d * 16 + HexValue(s[0]).value)
  }

  lemma HexStep(s: Text, i: nat, d: nat)
    requires i < 4
    ensures HexRead(s, i, d)
         == if s == [] then Read(d, [])
            else if HexValue(s[0]).None? then Read(d, s[1..])
            else HexRead(s[1..], i + 1, d * 16 + HexValue(s[0]).value)
  {
  }

  lemma HexDone(s: Text, d: nat)
    ensures HexRead(s, 4, d) == Read(d, s)
  {
  }

  // What follows a backslash; a line end and the blanks after it are nothing.
  function EscapeRead(s: Text): (r: Read<Text>)
    ensures |r.rest| <= |s|
  {
    if s == [] then Read([0xFFFF], [])
    else if s[0] == CR then
      if |s| > 1 && (s[1] == LF || IsBlank(s[1])) then Read([], BlanksSkipped(s[2..])) else Read([], s[1..])
    else if s[0] == LF then Read([], BlanksSkipped(s[1..]))
    else if s[0] == LOWER_T then Read([TAB], s[1..])
    else if s[0] == LOWER_N then Read([LF], s[1..])
    else if s[0] == LOWER_R then Read([CR], s[1..])
    else if s[0] == LOWER_U then
      var hex := HexRead(UsSkipped(s[1..]), 0, 0);
      Read([hex.got % 0x10000], hex.rest)
    else Read([s[0]], s[1..])
  }

  function ValueRead(s: Text): (r: Read<Text>)
    ensures |r.rest| <= |s|
    decreases |s|
  {
    if s == [] || IsLineEnd(s[0]) then Read([], s)
    else
      var first := if s[0] == BACKSLASH then EscapeRead(s[1..]) else Read([s[0]], s[1..]);
      var more := ValueRead(first.rest);
      Read(first.got + more.got, more.rest)
  }

  lemma ValueStep(s: Text)
    requires s != [] && !IsLineEnd(s[0])
    ensures var first := if s[0] == BACKSLASH then EscapeRead(s[1..]) else Read([s[0]], s[1..]);
            ValueRead(s) == Read(first.got + ValueRead(first.rest).got, ValueRead(first.rest).rest)
  {
  }

  lemma ValueEnds(s: Text)
    requires s == [] || IsLineEnd(s[0])
    ensures ValueRead(s) == Read([], s)
  {
  }

  // A key, what comes between it and its value, and the value
  function EntryRead(s: Text): (r: Read<Entry>)
    requires s != [] && !IsBlank(s[0]) && !IsLineEnd(s[0])
    ensures |r.rest| < |s|
  {
    var key := KeyRead(s);
    var val := ValueRead(AfterKey(key.rest));
    Read(Entry(key.got, val.got), val.rest)
  }

  function AfterKey(s: Text): (r: Text)
    ensures |r| <= |s|
    ensures s != [] && (s[0] == EQUALS || s[0] == COLON) ==> |r| < |s|
  {
    var t := BlanksSkipped(s);
    BlanksSkipped(if t != [] && (t[0] == EQUALS || t[0] == COLON) then t[1..] else t)
  }

  function Loaded(s: Text, t: Table): Table
    decreases |s|
  {
    if s == [] then t
    else if s[0] == HASH || s[0] == BANG then Loaded(LineSkipped(s[1..]), t)
    else if IsBlank(s[0]) || IsLineEnd(s[0]) then Loaded(s[1..], t)
    else
      var e := EntryRead(s);
      Loaded(e.rest, t[e.got.key := e.got.val])
  }

  // ---- one value, one line -------------------------------------------

  // Reading a printed character gives it back.
  lemma ReadsEscaped(c: Char, s: Text)
    ensures ValueRead(Escaped(c) + s) == Read([c] + ValueRead(s).got, ValueRead(s).rest)
  {
    var e := Escaped(c);
    if e == [c] {
      assert (e + s)[1..] == s;
    } else {
      assert (e + s)[1..] == e[1..] + s;
      assert EscapeRead(e[1..] + s) == Read([c], s) by {
        if e == Unicode(c) {
          ReadsUnicode(c, s);
        } else {
          assert (e[1..] + s)[1..] == s;
        }
      }
    }
  }

  lemma ReadsUnicode(c: Char, s: Text)
    ensures EscapeRead(Unicode(c)[1..] + s) == Read([c], s)
  {
    hide HexRead, ToHex;
    var digits := Unicode(c)[2..] + s;
    assert (Unicode(c)[1..] + s)[1..] == digits;
    assert UsSkipped(digits) == digits by {
      HexIsNotU(c / 4096);
    }
    ReadsFour(c, s);
  }

  lemma HexIsNotU(n: nat)
    requires n < 16
    ensures ToHex(n) != LOWER_U
  {
  }

  // Hexadecimal digits are read in either case, and nothing else is one.
  lemma HexValueIff(c: Char, n: nat)
    ensures HexValue(c) == Some(n) <==> n < 16 && (c == ToHex(n) || (n >= 10 && c == ToHex(n) + 32))
  {
  }

  // So an escape of four digits, of either case each, is read as their number.
  lemma ReadsEitherCase(digits: Text, v: seq<nat>, s: Text)
    requires |digits| == 4 == |v| && forall k :: 0 <= k < 4 ==>
      v[k] < 16 && (digits[k] == ToHex(v[k]) || (v[k] >= 10 && digits[k] == ToHex(v[k]) + 32))
    ensures EscapeRead([LOWER_U] + digits + s) == Read([v[0] * 4096 + v[1] * 256 + v[2] * 16 + v[3]], s)
  {
    hide HexRead, HexValue, ToHex;
    forall k | 0 <= k < 4 ensures HexValue(digits[k]) == Some(v[k]) {
      HexValueIff(digits[k], v[k]);
    }
    var t := digits + s;
    assert ([LOWER_U] + digits + s)[1..] == t && t[0] == digits[0];
    NotU(digits[0]);
    assert UsSkipped(t) == t;
    HexStep(t, 0, 0);
    HexStep(t[1..], 1, v[0]);
    HexStep(t[2..], 2, v[0] * 16 + v[1]);
    HexStep(t[3..], 3, v[0] * 256 + v[1] * 16 + v[2]);
    assert t[1..][1..] == t[2..] && t[2..][1..] == t[3..] && t[3..][1..] == s;
    HexDone(s, v[0] * 4096 + v[1] * 256 + v[2] * 16 + v[3]);
  }

  lemma NotU(c: Char)
    requires HexValue(c).Some?
    ensures c != LOWER_U
  {
  }

  lemma ReadsFour(c: Char, s: Text)
    ensures HexRead(Unicode(c)[2..] + s, 0, 0) == Read(c, s)
  {
    hide HexRead, ToHex;
    var a, b, d, e := ToHex(c / 4096), ToHex(c / 256 % 16), ToHex(c / 16 % 16), ToHex(c % 16);
    assert Unicode(c)[2..] + s == [a] + ([b] + ([d] + ([e] + s)));
    ReadsDigit(c / 4096, [b] + ([d] + ([e] + s)), 0, 0);
    ReadsDigit(c / 256 % 16, [d] + ([e] + s), 1, c / 4096);
    ReadsDigit(c / 16 % 16, [e] + s, 2, c / 256);
    ReadsDigit(c % 16, s, 3, c / 16);
    HexDone(s, c);
  }

  lemma ReadsDigit(n: nat, s: Text, i: nat, d: nat)
    requires n < 16 && i < 4
    ensures HexRead([ToHex(n)] + s, i, d) == HexRead(s, i + 1, d * 16 + n)
  {
    assert ([ToHex(n)] + s)[1..] == s;
  }

  lemma {:induction false} ReadsPrinted(v: Text, s: Text)
    ensures ValueRead(Printed(v) + [LF] + s) == Read(v, [LF] + s)
  {
    hide Escaped;
    if v == [] {
      assert Printed(v) + [LF] + s == [LF] + s;
    } else {
      ReadsPrinted(v[1..], s);
      ReadsEscaped(v[0], Printed(v[1..]) + [LF] + s);
      assert Printed(v) + [LF] + s == Escaped(v[0]) + (Printed(v[1..]) + [LF] + s);
      assert [v[0]] + v[1..] == v;
    }
  }

  function DropSpaces(v: Text): Text { if v == [] || v[0] != SPACE then v else DropSpaces(v[1..]) }

  lemma {:induction false} SpacesSkipped(v: Text, s: Text)
    ensures BlanksSkipped(Printed(v) + [LF] + s) == Printed(DropSpaces(v)) + [LF] + s
  {
    var t := Printed(v) + [LF] + s;
    if v != [] {
      assert t[0] == Escaped(v[0])[0];
      if v[0] == SPACE {
        SpacesSkipped(v[1..], s);
        assert t[1..] == Printed(v[1..]) + [LF] + s;
      }
    }
  }

  // ---- keys ----------------------------------------------------------

  // A key that is read as it was written
  predicate Plain(key: Text) {
    && (forall c :: c in key ==> !EndsKey(c))
    && (key != [] ==> key[0] != HASH && key[0] != BANG)
  }

  // Such are the keys without =, :, spaces, tabs and line ends that begin with
  // neither # nor !.
  lemma PlainIff(key: Text)
    ensures Plain(key) <==>
      && (forall k :: 0 <= k < |key| ==> key[k] !in {61, 58, 32, 9, 10, 13})
      && (key != [] ==> key[0] != 35 && key[0] != 33)
  {
    assert forall c :: EndsKey(c) <==> c in {61, 58, 32, 9, 10, 13};
    hide EndsKey;
    assert (forall c :: c in key ==> !EndsKey(c)) <==> forall k :: 0 <= k < |key| ==> !EndsKey(key[k]);
  }

  lemma {:induction false} ReadsKey(key: Text, s: Text)
    requires forall c :: c in key ==> !EndsKey(c)
    ensures KeyRead(key + [EQUALS] + s) == Read(key, [EQUALS] + s)
  {
    var t := key + [EQUALS] + s;
    if key == [] {
      assert t == [EQUALS] + s;
    } else {
      ReadsKey(key[1..], s);
      assert t[1..] == key[1..] + [EQUALS] + s;
      assert [key[0]] + key[1..] == key;
    }
  }

  lemma {:induction false} KeysReadPlain(s: Text)
    ensures forall c :: c in KeyRead(s).got ==> !EndsKey(c)
    ensures s != [] && KeyRead(s).got != [] ==> KeyRead(s).got[0] == s[0]
  {
    if s != [] && !EndsKey(s[0]) {
      KeysReadPlain(s[1..]);
    }
  }

  // Only such keys are ever read.
  lemma {:induction false} LoadsPlainKeys(s: Text, t: Table)
    ensures forall key :: key in Loaded(s, t) ==> key in t || Plain(key)
    decreases |s|
  {
    hide EntryRead, AfterKey, LineSkipped;
    if s != [] {
      if s[0] == HASH || s[0] == BANG {
        LoadsPlainKeys(LineSkipped(s[1..]), t);
      } else if IsBlank(s[0]) || IsLineEnd(s[0]) {
        LoadsPlainKeys(s[1..], t);
      } else {
        EntryKey(s);
        var e := EntryRead(s);
        LoadsPlainKeys(e.rest, t[e.got.key := e.got.val]);
      }
    }
  }

  lemma EntryKey(s: Text)
    requires s != [] && !IsBlank(s[0]) && !IsLineEnd(s[0]) && s[0] != HASH && s[0] != BANG
    ensures Plain(EntryRead(s).got.key)
  {
    KeysReadPlain(s);
  }

  // ---- the round trip ------------------------------------------------

  function Dropped(e: Entry): Entry { Entry(e.key, DropSpaces(e.val)) }

  // A line gives its entry back, but for the spaces its value starts with.
  lemma ReadsLine(e: Entry, s: Text)
    requires Plain(e.key)
    ensures (Line(e) + s)[0] !in {HASH, BANG, SPACE, TAB, LF, CR}
    ensures EntryRead(Line(e) + s) == Read(Dropped(e), [LF] + s)
  {
    hide ValueRead, Printed, DropSpaces, KeyRead;
    var value := Printed(e.val) + [LF] + s;
    var t := Line(e) + s;
    assert t == e.key + [EQUALS] + value;
    assert t[0] == if e.key == [] then EQUALS else e.key[0];
    assert e.key != [] ==> e.key[0] in e.key;
    ReadsKey(e.key, value);
    assert ([EQUALS] + value)[1..] == value;
    SpacesSkipped(e.val, s);
    assert BlanksSkipped([EQUALS] + value) == [EQUALS] + value;
    assert AfterKey([EQUALS] + value) == Printed(DropSpaces(e.val)) + [LF] + s;
    ReadsPrinted(DropSpaces(e.val), s);
  }

  function Put(t: Table, entries: seq<Entry>): Table
    decreases |entries|
  {
    if entries == [] then t else Put(t[entries[0].key := entries[0].val], entries[1..])
  }

  function AllDropped(entries: seq<Entry>): seq<Entry> {
    seq(|entries|, i requires 0 <= i < |entries| => Dropped(entries[i]))
  }

  lemma {:induction false} LoadsLines(entries: seq<Entry>, t: Table)
    requires forall e :: e in entries ==> Plain(e.key)
    ensures Loaded(Lines(entries), t) == Put(t, AllDropped(entries))
  {
    hide EntryRead, Line, Plain, Dropped;
    if entries != [] {
      var e := entries[0];
      var rest := Lines(entries[1..]);
      ReadsLine(e, rest);
      assert ([LF] + rest)[1..] == rest;
      var t' := t[e.key := Dropped(e).val];
      LoadsLine(e, rest, t);
      LoadsLines(entries[1..], t');
      assert AllDropped(entries)[1..] == AllDropped(entries[1..]);
    }
  }

  lemma LoadsLine(e: Entry, s: Text, t: Table)
    requires Plain(e.key)
    ensures Loaded(Line(e) + s, t) == Loaded(s, t[e.key := Dropped(e).val])
    ensures Dropped(e).key == e.key
  {
    hide EntryRead, Line, Plain, DropSpaces;
    ReadsLine(e, s);
    assert ([LF] + s)[1..] == s;
    assert Loaded([LF] + s, t[e.key := Dropped(e).val]) == Loaded(s, t[e.key := Dropped(e).val]);
    var l := Line(e) + s;
    assert l != [] && !IsBlank(l[0]) && !IsLineEnd(l[0]);
  }

  predicate OneLine(s: Text) { forall c :: c in s ==> !IsLineEnd(c) }

  // A line separator
  predicate IsEol(eol: Text) { eol == [LF] || eol == [CR] || eol == [CR, LF] }

  lemma {:induction false} SkipsLine(h: Text, s: Text)
    requires OneLine(h) && s != [] && IsLineEnd(s[0])
    ensures LineSkipped(h + s) == s
  {
    if h == [] {
      assert h + s == s;
    } else {
      assert (h + s)[1..] == h[1..] + s;
      SkipsLine(h[1..], s);
    }
  }

  lemma CommentsSkipped(h: Text, eol: Text, s: Text, t: Table)
    requires OneLine(h) && IsEol(eol)
    ensures Loaded(Comment(h, eol) + s, t) == Loaded(s, t)
  {
    hide EntryRead;
    var text := Comment(h, eol) + s;
    assert text[1..] == h + (eol + s);
    SkipsLine(h, eol + s);
    assert Loaded(text, t) == Loaded(eol + s, t);
    assert (eol + s)[1..] == eol[1..] + s;
    assert Loaded(eol + s, t) == Loaded(eol[1..] + s, t);
    if eol == [CR, LF] {
      assert (eol[1..] + s)[1..] == s;
      assert Loaded(eol[1..] + s, t) == Loaded(s, t);
    } else {
      assert eol[1..] + s == s;
    }
  }

  // A header of more lines is a comment up to the first line end only; from
  // there on it is loaded.
  lemma HeaderLeaks(h: Text, more: Text, eol: Text, s: Text, t: Table)
    requires OneLine(h)
    ensures Loaded(Comment(h + [LF] + more, eol) + s, t) == Loaded(more + eol + s, t)
  {
    hide EntryRead;
    var text := Comment(h + [LF] + more, eol) + s;
    assert text[1..] == h + ([LF] + more + eol + s);
    SkipsLine(h, [LF] + more + eol + s);
    assert ([LF] + more + eol + s)[1..] == more + eol + s;
    assert Loaded([LF] + more + eol + s, t) == Loaded(more + eol + s, t);
  }

  // What loading finds in what was saved, over any comment of one line: the
  // entries without the spaces their values start with.
  lemma LoadsSaved(header: Option<Text>, date: Text, eol: Text, entries: seq<Entry>)
    requires (header.Some? ==> OneLine(header.value)) && OneLine(date) && IsEol(eol)
    requires forall e :: e in entries ==> Plain(e.key)
    ensures Loaded(Saved(header, date, eol, entries), map[]) == Put(map[], AllDropped(entries))
  {
    hide Loaded, Lines, AllDropped, Comment, OneLine, IsEol, Plain;
    SavedLoads(header, date, eol, entries);
    LoadsLines(entries, map[]);
  }

  lemma SavedLoads(header: Option<Text>, date: Text, eol: Text, entries: seq<Entry>)
    requires (header.Some? ==> OneLine(header.value)) && OneLine(date) && IsEol(eol)
    ensures Loaded(Saved(header, date, eol, entries), map[]) == Loaded(Lines(entries), map[])
  {
    hide Loaded, Lines, Comment, OneLine, IsEol;
    var rest := Comment(date, eol) + Lines(entries);
    CommentsSkipped(date, eol, Lines(entries), map[]);
    if header.Some? {
      CommentsSkipped(header.value, eol, rest, map[]);
      assert Saved(header, date, eol, entries) == Comment(header.value, eol) + rest;
    } else {
      assert Saved(header, date, eol, entries) == rest;
    }
  }

  // Each entry of the table once, in any order
  ghost predicate Enumerates(entries: seq<Entry>, t: Table) {
    && (forall i, j :: 0 <= i < j < |entries| ==> entries[i].key != entries[j].key)
    && (forall e :: e in entries ==> e.key in t && t[e.key] == e.val)
    && (forall key :: key in t ==> Entry(key, t[key]) in entries)
  }

  predicate SameAt(t: Table, u: Table, key: Text) { (key in t <==> key in u) && (key in t ==> t[key] == u[key]) }

  lemma {:induction false} PutHas(t: Table, entries: seq<Entry>)
    requires forall i, j :: 0 <= i < j < |entries| ==> entries[i].key != entries[j].key
    ensures forall e :: e in entries ==> e.key in Put(t, entries) && Put(t, entries)[e.key] == e.val
    ensures forall key :: (forall e :: e in entries ==> e.key != key) ==> SameAt(t, Put(t, entries), key)
    decreases |entries|
  {
    if entries != [] {
      var rest := entries[1..];
      var t' := t[entries[0].key := entries[0].val];
      assert forall i :: 0 <= i < |rest| ==> rest[i] == entries[i + 1];
      PutHas(t', rest);
      assert entries == [entries[0]] + rest;
      forall e | e in rest ensures e.key != entries[0].key {
        var i :| 0 <= i < |rest| && rest[i] == e;
        assert entries[i + 1] == e;
      }
      assert SameAt(t', Put(t', rest), entries[0].key);
      forall key | forall e :: e in entries ==> e.key != key ensures SameAt(t, Put(t, entries), key) {
        assert entries[0] in entries;
        assert forall e :: e in rest ==> e in entries;
        assert SameAt(t', Put(t', rest), key);
      }
    }
  }

  // A table comes back exactly when its keys are plain and none of its values
  // starts with a space.
  lemma RoundTripIff(header: Option<Text>, date: Text, eol: Text, t: Table, entries: seq<Entry>)
    requires (header.Some? ==> OneLine(header.value)) && OneLine(date) && IsEol(eol)
    requires Enumerates(entries, t)
    ensures Loaded(Saved(header, date, eol, entries), map[]) == t
       <==> forall key :: key in t ==> Plain(key) && !(t[key] != [] && t[key][0] == SPACE)
  {
    hide Loaded, Saved, OneLine, IsEol, Plain, Put, DropSpaces;
    var r := Loaded(Saved(header, date, eol, entries), map[]);
    LoadsPlainKeys(Saved(header, date, eol, entries), map[]);
    if forall key :: key in t ==> Plain(key) {
      LoadsSaved(header, date, eol, entries);
      var ds := AllDropped(entries);
      PutHas(map[], ds);
      forall key | key in t ensures key in r && r[key] == DropSpaces(t[key]) {
        var i :| 0 <= i < |entries| && entries[i] == Entry(key, t[key]);
        assert ds[i] == Entry(key, DropSpaces(t[key])) && ds[i] in ds;
      }
      forall key | key !in t ensures key !in r {
        forall e | e in ds ensures e.key != key {
          var i :| 0 <= i < |ds| && ds[i] == e;
          assert entries[i] in entries;
        }
        assert SameAt(map[], Put(map[], ds), key);
      }
      forall key | key in t ensures DropSpaces(t[key]) == t[key] <==> !(t[key] != [] && t[key][0] == SPACE) {
        DropsIff(t[key]);
      }
    }
  }

  lemma {:induction false} DropsIff(v: Text)
    ensures |DropSpaces(v)| <= |v|
    ensures DropSpaces(v) == v <==> !(v != [] && v[0] == SPACE)
  {
    if v != [] && v[0] == SPACE {
      DropsIff(v[1..]);
    }
  }

  // ---- headers of several lines --------------------------------------

  // A text that can be read for itself: it ends with a line end, and each
  // escape in it is followed by a character that stops what escapes look for.
  ghost predicate Sealed(s: Text) {
    s != [] && IsLineEnd(s[|s| - 1]) && forall p :: 0 <= p < |s| && s[p] == BACKSLASH ==> exists h :: p < h < |s| && s[h] == HASH
  }

  lemma SealedSuffix(s: Text, k: nat)
    requires Sealed(s) && k < |s|
    ensures Sealed(s[k..])
  {
    var r := s[k..];
    assert r[|r| - 1] == s[|s| - 1];
    forall p | 0 <= p < |r| && r[p] == BACKSLASH ensures exists h :: p < h < |r| && r[h] == HASH {
      assert s[p + k] == BACKSLASH;
      var h :| p + k < h < |s| && s[h] == HASH;
      assert r[h - k] == HASH;
    }
  }

  // What is left of a text, as a suffix of it
  ghost predicate Suffix(r: Text, s: Text) { |r| <= |s| && r == s[|s| - |r|..] }

  lemma SuffixTrans(q: Text, r: Text, s: Text)
    requires Suffix(q, r) && Suffix(r, s)
    ensures Suffix(q, s)
  {
  }

  lemma {:induction false} BlanksApart(s: Text, b: Text)
    requires exists k :: 0 <= k < |s| && !IsBlank(s[k])
    ensures BlanksSkipped(s + b) == BlanksSkipped(s) + b && BlanksSkipped(s) != [] && Suffix(BlanksSkipped(s), s)
  {
    if IsBlank(s[0]) {
      var k :| 0 <= k < |s| && !IsBlank(s[k]);
      assert s[1..][k - 1] == s[k] && (s + b)[1..] == s[1..] + b;
      BlanksApart(s[1..], b);
    }
  }

  lemma {:induction false} LineApart(s: Text, b: Text)
    requires exists k :: 0 <= k < |s| && IsLineEnd(s[k])
    ensures LineSkipped(s + b) == LineSkipped(s) + b && LineSkipped(s) != [] && Suffix(LineSkipped(s), s)
  {
    if !IsLineEnd(s[0]) {
      var k :| 0 <= k < |s| && IsLineEnd(s[k]);
      assert s[1..][k - 1] == s[k] && (s + b)[1..] == s[1..] + b;
      LineApart(s[1..], b);
    }
  }

  lemma {:induction false} KeyApart(s: Text, b: Text)
    requires exists k :: 0 <= k < |s| && EndsKey(s[k])
    ensures KeyRead(s + b) == Read(KeyRead(s).got, KeyRead(s).rest + b) && KeyRead(s).rest != [] && Suffix(KeyRead(s).rest, s)
  {
    if !EndsKey(s[0]) {
      var k :| 0 <= k < |s| && EndsKey(s[k]);
      assert s[1..][k - 1] == s[k] && (s + b)[1..] == s[1..] + b;
      KeyApart(s[1..], b);
    }
  }

  lemma UsStep(s: Text)
    requires s != []
    ensures UsSkipped(s) == if s[0] == LOWER_U then UsSkipped(s[1..]) else s
  {
  }

  lemma {:induction false} UsApart(s: Text, b: Text)
    requires HASH in s
    ensures UsSkipped(s + b) == UsSkipped(s) + b
    ensures Suffix(UsSkipped(s), s) && HASH in UsSkipped(s)
  {
    hide UsSkipped;
    UsStep(s);
    UsStep(s + b);
    if s[0] == LOWER_U {
      HashOn(s, 1);
      assert (s + b)[1..] == s[1..] + b;
      UsApart(s[1..], b);
      assert Suffix(s[1..], s);
      SuffixTrans(UsSkipped(s[1..]), s[1..], s);
    }
  }

  // A hash sign is still ahead after other characters.
  lemma {:induction false} HashOn(s: Text, k: nat)
    requires HASH in s && k <= |s| && forall i :: 0 <= i < k ==> s[i] != HASH
    ensures HASH in s[k..]
  {
    assert s == s[..k] + s[k..];
  }

  lemma {:induction false} HexApart(s: Text, b: Text, i: nat, d: nat)
    requires i <= 4 && HASH in s
    ensures HexRead(s + b, i, d) == Read(HexRead(s, i, d).got, HexRead(s, i, d).rest + b)
    ensures Suffix(HexRead(s, i, d).rest, s)
    decreases 4 - i
  {
    hide HexRead;
    if i == 4 {
      HexDone(s, d);
      HexDone(s + b, d);
    } else {
      HexStep(s, i, d);
      HexStep(s + b, i, d);
      assert (s + b)[1..] == s[1..] + b;
      if HexValue(s[0]).Some? {
        HashOn(s, 1);
        HexApart(s[1..], b, i + 1, d * 16 + HexValue(s[0]).value);
      }
    }
  }

  // The blanks after a line end that is escaped, where a hash sign stops them
  lemma HashStopsBlanks(s: Text, k: nat, b: Text)
    requires k <= |s| && HASH in s[k..]
    ensures BlanksSkipped((s + b)[k..]) == BlanksSkipped(s[k..]) + b
    ensures BlanksSkipped(s[k..]) != [] && Suffix(BlanksSkipped(s[k..]), s)
  {
    hide BlanksSkipped;
    assert (s + b)[k..] == s[k..] + b;
    var h :| 0 <= h < |s[k..]| && s[k..][h] == HASH;
    BlanksApart(s[k..], b);
    SuffixTrans(BlanksSkipped(s[k..]), s[k..], s);
  }

  lemma EscapeApart(s: Text, b: Text)
    requires s != [] && IsLineEnd(s[|s| - 1]) && HASH in s
    ensures EscapeRead(s + b) == Read(EscapeRead(s).got, EscapeRead(s).rest + b)
    ensures EscapeRead(s).rest != [] && Suffix(EscapeRead(s).rest, s)
  {
    hide BlanksSkipped, HexRead, UsSkipped, Suffix;
    assert (s + b)[1..] == s[1..] + b;
    TailIsSuffix(s);
    if s[0] == CR {
      HashOn(s, 1);
      assert (s + b)[1] == s[1];
      if s[1] == LF || IsBlank(s[1]) {
        HashOn(s, 2);
        HashStopsBlanks(s, 2, b);
      }
    } else if s[0] == LF {
      HashOn(s, 1);
      HashStopsBlanks(s, 1, b);
    } else if s[0] == LOWER_U {
      HashOn(s, 1);
      HexEscapeApart(s[1..], b);
      SuffixTrans(HexRead(UsSkipped(s[1..]), 0, 0).rest, s[1..], s);
    }
  }

  lemma TailIsSuffix(s: Text)
    requires s != [] && IsLineEnd(s[|s| - 1])
    ensures Suffix(s[1..], s) && (HASH in s ==> s[1..] != [])
  {
  }

  lemma HexEscapeApart(s: Text, b: Text)
    requires s != [] && IsLineEnd(s[|s| - 1]) && HASH in s
    ensures HexRead(UsSkipped(s + b), 0, 0) == Read(HexRead(UsSkipped(s), 0, 0).got, HexRead(UsSkipped(s), 0, 0).rest + b)
    ensures HexRead(UsSkipped(s), 0, 0).rest != [] && Suffix(HexRead(UsSkipped(s), 0, 0).rest, s)
  {
    hide UsSkipped, HexRead;
    UsApart(s, b);
    var r := UsSkipped(s);
    assert r[|r| - 1] == s[|s| - 1];
    HexApart(r, b, 0, 0);
    HexLeaves(r, 0, 0);
    SuffixTrans(HexRead(r, 0, 0).rest, r, s);
  }

  // An escape leaves the line end at the end of the text.
  lemma {:induction false} HexLeaves(s: Text, i: nat, d: nat)
    requires i <= 4 && s != [] && IsLineEnd(s[|s| - 1]) && HASH in s
    ensures HexRead(s, i, d).rest != []
    decreases 4 - i
  {
    hide HexRead;
    if i == 4 {
      HexDone(s, d);
    } else {
      HexStep(s, i, d);
      if HexValue(s[0]).Some? {
        HashOn(s, 1);
        HexLeaves(s[1..], i + 1, d * 16 + HexValue(s[0]).value);
      }
    }
  }

  lemma {:induction false} ValueApart(s: Text, b: Text)
    requires Sealed(s)
    ensures ValueRead(s + b) == Read(ValueRead(s).got, ValueRead(s).rest + b)
    ensures ValueRead(s).rest != [] && Suffix(ValueRead(s).rest, s)
    decreases |s|
  {
    hide EscapeRead, Sealed, ValueRead;
    SealedEnds(s);
    if IsLineEnd(s[0]) {
      ValueEnds(s);
      ValueEnds(s + b);
    } else {
      assert (s + b)[1..] == s[1..] + b;
      ValueStep(s);
      ValueStep(s + b);
      SealedSuffix(s, 1);
      SealedEnds(s[1..]);
      var first := if s[0] == BACKSLASH then EscapeRead(s[1..]) else Read([s[0]], s[1..]);
      if s[0] == BACKSLASH {
        SealedHash(s);
        EscapeApart(s[1..], b);
      }
      assert Suffix(first.rest, s[1..]) && first.rest != [];
      SuffixTrans(first.rest, s[1..], s);
      SealedSuffix(s, |s| - |first.rest|);
      ValueApart(first.rest, b);
      SuffixTrans(ValueRead(first.rest).rest, first.rest, s);
    }
  }

  lemma SealedEnds(s: Text)
    requires Sealed(s)
    ensures s != [] && IsLineEnd(s[|s| - 1])
  {
  }

  lemma SealedHash(s: Text)
    requires Sealed(s) && s[0] == BACKSLASH
    ensures HASH in s[1..]
  {
    var h :| 0 < h < |s| && s[h] == HASH;
    assert s[1..][h - 1] == HASH;
  }

  lemma AfterKeyApart(s: Text, b: Text)
    requires s != [] && IsLineEnd(s[|s| - 1])
    ensures AfterKey(s + b) == AfterKey(s) + b && AfterKey(s) != [] && Suffix(AfterKey(s), s)
  {
    hide BlanksSkipped;
    BlanksApart(s, b);
    var t := BlanksSkipped(s);
    assert t[|t| - 1] == s[|s| - 1];
    SeparatorApart(t, b);
    SuffixTrans(AfterSeparator(t), t, s);
  }

  // The rest of AfterKey, once blanks are skipped
  function AfterSeparator(t: Text): Text {
    BlanksSkipped(if t != [] && (t[0] == EQUALS || t[0] == COLON) then t[1..] else t)
  }

  lemma SeparatorApart(t: Text, b: Text)
    requires t != [] && IsLineEnd(t[|t| - 1])
    ensures AfterSeparator(t + b) == AfterSeparator(t) + b && AfterSeparator(t) != [] && Suffix(AfterSeparator(t), t)
  {
    hide BlanksSkipped;
    if t[0] == EQUALS || t[0] == COLON {
      assert (t + b)[1..] == t[1..] + b && t[1..][|t| - 2] == t[|t| - 1];
      BlanksApart(t[1..], b);
      SuffixTrans(BlanksSkipped(t[1..]), t[1..], t);
    } else {
      BlanksApart(t, b);
    }
  }

  lemma EntryApart(s: Text, b: Text)
    requires Sealed(s) && !IsBlank(s[0]) && !IsLineEnd(s[0])
    ensures EntryRead(s + b) == Read(EntryRead(s).got, EntryRead(s).rest + b)
    ensures EntryRead(s).rest != [] && Suffix(EntryRead(s).rest, s)
  {
    hide KeyRead, ValueRead, AfterKey, Sealed;
    SealedEnds(s);
    assert EndsKey(s[|s| - 1]);
    KeyApart(s, b);
    var r := KeyRead(s).rest;
    assert r[|r| - 1] == s[|s| - 1];
    AfterKeyApart(r, b);
    var v := AfterKey(r);
    SuffixTrans(v, r, s);
    SealedSuffix(s, |s| - |v|);
    ValueApart(v, b);
    SuffixTrans(ValueRead(v).rest, v, s);
  }

  // A sealed text and what follows it are loaded one after the other.
  lemma {:induction false} LoadsApart(s: Text, b: Text, t: Table)
    requires s == [] || Sealed(s)
    ensures Loaded(s + b, t) == Loaded(b, Loaded(s, t))
    decreases |s|
  {
    hide EntryRead, LineSkipped, Sealed;
    if s == [] {
      assert s + b == b;
    } else {
      SealedEnds(s);
      assert (s + b)[1..] == s[1..] + b && (s + b)[0] == s[0];
      if s[0] == HASH || s[0] == BANG {
        assert s[1..][|s| - 2] == s[|s| - 1];
        LineApart(s[1..], b);
        var r := LineSkipped(s[1..]);
        SuffixTrans(r, s[1..], s);
        SealedSuffix(s, |s| - |r|);
        LoadsApart(r, b, t);
      } else if IsBlank(s[0]) || IsLineEnd(s[0]) {
        if |s| > 1 {
          SealedSuffix(s, 1);
        }
        LoadsApart(s[1..], b, t);
      } else {
        EntryApart(s, b);
        var e := EntryRead(s);
        SealedSuffix(s, |s| - |e.rest|);
        LoadsApart(e.rest, b, t[e.got.key := e.got.val]);
      }
    }
  }

  // What is written before the entries
  function Head(header: Option<Text>, date: Text, eol: Text): Text {
    (if header.Some? then Comment(header.value, eol) else []) + Comment(date, eol)
  }

  // The entries that loading finds in it
  function HeadTable(header: Option<Text>, date: Text, eol: Text): Table { Loaded(Head(header, date, eol), map[]) }

  // A date has no line end and no backslash.
  predicate IsDate(date: Text) { OneLine(date) && BACKSLASH !in date }

  lemma HeadSealed(header: Option<Text>, date: Text, eol: Text)
    requires IsDate(date) && IsEol(eol)
    ensures Sealed(Head(header, date, eol))
  {
    var top := if header.Some? then Comment(header.value, eol) else [];
    var s, n := Head(header, date, eol), |top|;
    assert s == top + ([HASH] + date + eol);
    assert s[|s| - 1] == eol[|eol| - 1] && s[n] == HASH;
    forall p | n <= p < |s| ensures s[p] != BACKSLASH {
      if p > n + |date| {
        assert s[p] == eol[p - n - 1 - |date|];
      } else if p > n {
        assert s[p] == date[p - n - 1] && date[p - n - 1] in date;
      }
    }
  }

  // Under any header: the entries of the table, over those of the header
  lemma LoadsUnderHeader(header: Option<Text>, date: Text, eol: Text, entries: seq<Entry>)
    requires IsDate(date) && IsEol(eol)
    ensures Loaded(Saved(header, date, eol, entries), map[]) == Loaded(Lines(entries), HeadTable(header, date, eol))
  {
    hide Loaded, Lines, Sealed, IsDate, IsEol, Comment;
    HeadSealed(header, date, eol);
    assert Saved(header, date, eol, entries) == Head(header, date, eol) + Lines(entries);
    LoadsApart(Head(header, date, eol), Lines(entries), map[]);
  }

  // A table that is kept but for what its header may do to it
  ghost predicate Savable(t: Table) {
    forall key :: key in t ==> Plain(key) && !(t[key] != [] && t[key][0] == SPACE)
  }

  // Under any header, a table comes back exactly when its keys are plain, none
  // of its values starts with a space, and every key that the header brings
  // along is one of its own.
  lemma RoundTripHeaderIff(header: Option<Text>, date: Text, eol: Text, t: Table, entries: seq<Entry>)
    requires IsDate(date) && IsEol(eol) && Enumerates(entries, t)
    ensures Loaded(Saved(header, date, eol, entries), map[]) == t
       <==> Savable(t) && HeadTable(header, date, eol).Keys <= t.Keys
  {
    hide Loaded, Saved, IsDate, IsEol, Plain, Put, DropSpaces, HeadTable;
    var r, h := Loaded(Saved(header, date, eol, entries), map[]), HeadTable(header, date, eol);
    LoadsPlainKeys(Saved(header, date, eol, entries), map[]);
    LoadsUnderHeader(header, date, eol, entries);
    if forall key :: key in t ==> Plain(key) {
      LoadsLines(entries, h);
      PutOver(h, t, entries);
      forall key | key in t ensures DropSpaces(t[key]) == t[key] <==> !(t[key] != [] && t[key][0] == SPACE) {
        DropsIff(t[key]);
      }
      assert r.Keys == h.Keys + t.Keys;
    }
  }

  // Writing the entries over another table
  lemma PutOver(h: Table, t: Table, entries: seq<Entry>)
    requires Enumerates(entries, t)
    ensures var r := Put(h, AllDropped(entries));
      && (forall key :: key in r <==> key in h || key in t)
      && (forall key :: key in t && key in r ==> r[key] == DropSpaces(t[key]))
  {
    hide Put, DropSpaces;
    var ds := AllDropped(entries);
    var r := Put(h, ds);
    PutHas(h, ds);
    forall key | key in t ensures key in r && r[key] == DropSpaces(t[key]) {
      var i :| 0 <= i < |entries| && entries[i] == Entry(key, t[key]);
      assert ds[i] == Entry(key, DropSpaces(t[key])) && ds[i] in ds;
    }
    forall key | key !in t ensures key in r <==> key in h {
      forall e | e in ds ensures e.key != key {
        var i :| 0 <= i < |ds| && ds[i] == e;
        assert entries[i] in entries;
      }
      assert SameAt(h, Put(h, ds), key);
    }
  }

  // Every line is blank or, after blanks, a comment.
  predicate Silent(s: Text)
    decreases |s|
  {
    if s == [] then true
    else if s[0] == HASH || s[0] == BANG then Silent(LineSkipped(s[1..]))
    else (IsBlank(s[0]) || IsLineEnd(s[0])) && Silent(s[1..])
  }

  lemma {:induction false} SilentIff(s: Text, t: Table)
    ensures Loaded(s, t).Keys >= t.Keys
    ensures Loaded(s, map[]) == map[] <==> Silent(s)
    decreases |s|
  {
    hide EntryRead, LineSkipped;
    if s != [] {
      if s[0] == HASH || s[0] == BANG {
        SilentIff(LineSkipped(s[1..]), t);
      } else if IsBlank(s[0]) || IsLineEnd(s[0]) {
        SilentIff(s[1..], t);
      } else {
        var e := EntryRead(s);
        SilentIff(e.rest, t[e.got.key := e.got.val]);
        SilentIff(e.rest, map[e.got.key := e.got.val]);
        assert e.got.key in Loaded(s, map[]);
      }
    }
  }

  // A silent text stays so, and a text with an entry keeps it, when a line end
  // and a silent text follow.
  lemma {:induction false} SilentApart(s: Text, b: Text)
    requires b != [] && IsLineEnd(b[0]) && Silent(b)
    ensures Silent(s + b) <==> Silent(s)
    decreases |s|
  {
    if s == [] {
      assert s + b == b;
    } else {
      assert (s + b)[1..] == s[1..] + b;
      if s[0] == HASH || s[0] == BANG {
        if exists k :: 0 <= k < |s[1..]| && IsLineEnd(s[1..][k]) {
          LineApart(s[1..], b);
          SilentApart(LineSkipped(s[1..]), b);
        } else {
          SkipsLine(s[1..], b);
          NoLine(s[1..]);
        }
      } else {
        SilentApart(s[1..], b);
      }
    }
  }

  lemma {:induction false} NoLine(s: Text)
    requires forall k :: 0 <= k < |s| ==> !IsLineEnd(s[k])
    ensures LineSkipped(s) == []
  {
    if s != [] {
      NoLine(s[1..]);
    }
  }

  lemma DateSilent(date: Text, eol: Text)
    requires OneLine(date) && IsEol(eol)
    ensures Silent(Comment(date, eol)) && Silent(eol + Comment(date, eol))
  {
    var c := Comment(date, eol);
    assert c[1..] == date + eol;
    SkipsLine(date, eol);
    assert eol[1..] == [] || eol[1..] == [LF];
    assert Silent(eol[1..]) && Silent(eol);
    var e := eol + c;
    assert e[1..] == eol[1..] + c;
    if eol[1..] == [] {
      assert e[1..] == c;
    } else {
      assert e[1..][1..] == c;
    }
  }

  // The header brings no entries exactly when each of its later lines is blank
  // or a comment.
  lemma HeadSilentIff(h: Text, date: Text, eol: Text)
    requires IsDate(date) && IsEol(eol)
    ensures HeadTable(Some(h), date, eol) == map[] <==> Silent(LineSkipped(h))
  {
    hide Silent, LineSkipped, Loaded;
    var b := eol + Comment(date, eol);
    var s := Head(Some(h), date, eol);
    DateSilent(date, eol);
    assert s == [HASH] + h + b;
    SilentComment(h, b);
    SilentIff(s, map[]);
  }

  lemma SilentComment(h: Text, b: Text)
    requires b != [] && IsLineEnd(b[0]) && Silent(b)
    ensures Silent([HASH] + h + b) <==> Silent(LineSkipped(h))
  {
    var s := [HASH] + h;
    SilentApart(s, b);
    assert s[1..] == h;
  }

  // So every table that can be saved at all comes back, whatever the order,
  // exactly when each later line of the header is blank or a comment.
  lemma HeaderHarmlessIff(h: Text, date: Text, eol: Text)
    requires IsDate(date) && IsEol(eol)
    ensures (forall t, entries :: Enumerates(entries, t) && Savable(t) ==> Loaded(Saved(Some(h), date, eol, entries), map[]) == t)
       <==> Silent(LineSkipped(h))
  {
    hide Loaded, Saved, Silent, LineSkipped, HeadTable, Savable;
    HeadSilentIff(h, date, eol);
    forall t, entries | Enumerates(entries, t)
      ensures Loaded(Saved(Some(h), date, eol, entries), map[]) == t
         <==> Savable(t) && HeadTable(Some(h), date, eol).Keys <= t.Keys
    {
      RoundTripHeaderIff(Some(h), date, eol, t, entries);
    }
    EmptySavable();
    var none: Table, nothing: seq<Entry> := map[], [];
    assert Enumerates(nothing, none);
    if HeadTable(Some(h), date, eol) != map[] {
      assert HeadTable(Some(h), date, eol).Keys != {};
    }
  }

  lemma EmptySavable()
    ensures Savable(map[])
  {
  }

  // ---- the code ------------------------------------------------------

  class Reader {
    const text: Text
    var pos: nat

    constructor (text: Text)
      ensures this.text == text && pos == 0
    {
      this.text, this.pos := text, 0;
    }

    // What is left, from a character already taken on, or -1
    ghost predicate At(ch: int, s: Text)
      reads this
    {
      && pos <= |text|
      && if ch < 0 then s == [] && pos == |text| else s != [] && s[0] == ch && s[1..] == text[pos..]
    }

    method Next() returns (ch: int)
      requires pos <= |text|
      modifies this
      ensures At(ch, old(text[pos..])) && ch >= -1
    {
      if pos < |text| {
        ch := text[pos];
        pos := pos + 1;
      } else {
        ch := -1;
      }
    }

    // from one character to the next
    method Advance(ghost s: Text, ch: int) returns (next: int)
      requires At(ch, s)
      modifies this
      ensures next >= -1 && At(next, if s == [] then [] else s[1..])
    {
      next := Next();
    }

    method SkipLine(ghost s: Text, first: int) returns (ch: int)
      requires At(first, s)
      modifies this
      ensures ch >= -1 && At(ch, LineSkipped(s))
    {
      ch := if first < 0 then -1 else first;
      ghost var r := s;
      while ch >= 0 && ch != LF && ch != CR
        invariant ch >= -1 && At(ch, r) && LineSkipped(r) == LineSkipped(s)
        decreases |r|
      {
        ch := Advance(r, ch);
        r := r[1..];
      }
    }

    method SkipBlanks(ghost s: Text, first: int) returns (ch: int)
      requires At(first, s)
      modifies this
      ensures ch >= -1 && At(ch, BlanksSkipped(s))
    {
      ch := if first < 0 then -1 else first;
      ghost var r := s;
      while ch == SPACE || ch == TAB
        invariant ch >= -1 && At(ch, r) && BlanksSkipped(r) == BlanksSkipped(s)
        decreases |r|
      {
        ch := Advance(r, ch);
        r := r[1..];
      }
    }

    method ReadKey(ghost s: Text, first: int) returns (key: Text, ch: int)
      requires At(first, s) && first >= 0
      modifies this
      ensures ch >= -1 && key == KeyRead(s).got && At(ch, KeyRead(s).rest)
    {
      key, ch := [], first;
      ghost var r := s;
      while ch >= 0 && ch != EQUALS && ch != COLON && ch != SPACE && ch != TAB && ch != LF && ch != CR
        invariant ch >= -1 && At(ch, r)
        invariant key + KeyRead(r).got == KeyRead(s).got
        invariant KeyRead(r).rest == KeyRead(s).rest
        decreases |r|
      {
        assert key + ([r[0]] + KeyRead(r[1..]).got) == (key + [r[0]]) + KeyRead(r[1..]).got;
        key := key + [ch];
        ch := Advance(r, ch);
        r := r[1..];
      }
    }

    // The four digits of an escape, after the letters that start it
    method ReadHex(ghost s: Text, first: int) returns (d: nat, next: int)
      requires At(first, s)
      modifies this
      ensures next >= -1 && d == HexRead(s, 0, 0).got && At(next, HexRead(s, 0, 0).rest)
    {
      hide HexRead;
      var ch := if first < 0 then -1 else first;
      d, next := 0, ch;
      ghost var r := s;
      var i := 0;
      while i < 4
        invariant 0 <= i <= 4 && ch >= -1 && At(ch, r) && next == ch
        invariant HexRead(r, i, d) == HexRead(s, 0, 0)
      {
        HexStep(r, i, d);
        next := Advance(r, ch);
        r := if r == [] then [] else r[1..];
        if ZERO <= ch < ZERO + 10 {
          d := d * 16 + (ch - ZERO);
        } else if LOWER_A <= ch < LOWER_A + 6 {
          d := d * 16 + (10 + ch - LOWER_A);
        } else if UPPER_A <= ch < UPPER_A + 6 {
          d := d * 16 + (10 + ch - UPPER_A);
        } else {
          break;
        }
        ch := next;
        i := i + 1;
      }
      if i == 4 {
        HexDone(r, d);
      }
    }

    // What follows a backslash: a character, or no character where a line goes
    // on.
    method ReadEscape(ghost s: Text, first: int) returns (got: Text, ch: int)
      requires At(first, s)
      modifies this
      ensures ch >= -1 && got == EscapeRead(s).got && At(ch, EscapeRead(s).rest)
    {
      ch := if first < 0 then -1 else first;
      if ch == CR {
        ch := Advance(s, ch);
        if ch == LF || ch == SPACE || ch == TAB {
          ch := Advance(s[1..], ch);
          ch := SkipBlanks(s[2..], ch);
        }
        got := [];
      } else if ch == LF {
        ch := Advance(s, ch);
        ch := SkipBlanks(s[1..], ch);
        got := [];
      } else if ch == LOWER_U {
        ch := Advance(s, ch);
        ghost var r := s[1..];
        while ch == LOWER_U
          invariant ch >= -1 && At(ch, r) && UsSkipped(r) == UsSkipped(s[1..])
          decreases |r|
        {
          ch := Advance(r, ch);
          r := r[1..];
        }
        var d, next := ReadHex(r, ch);
        got, ch := [d % 0x10000], next;
      } else {
        var c := if ch == LOWER_T then TAB else if ch == LOWER_N then LF else if ch == LOWER_R then CR else ch;
        got := [c % 0x10000];
        ch := Advance(s, ch);
      }
    }

    method ReadValue(ghost s: Text, first: int) returns (val: Text, ch: int)
      requires At(first, s)
      modifies this
      ensures ch >= -1 && val == ValueRead(s).got && At(ch, ValueRead(s).rest)
    {
      hide ValueRead, EscapeRead;
      ch := if first < 0 then -1 else first;
      val := [];
      ghost var r := s;
      while ch >= 0 && ch != LF && ch != CR
        invariant ch >= -1 && At(ch, r)
        invariant val + ValueRead(r).got == ValueRead(s).got
        invariant ValueRead(r).rest == ValueRead(s).rest
        decreases |r|
      {
        ghost var all := ValueRead(r).got;
        ghost var before := val;
        ValueStep(r);
        if ch == BACKSLASH {
          ch := Advance(r, ch);
          ghost var e := EscapeRead(r[1..]);
          var got: Text;
          got, ch := ReadEscape(r[1..], ch);
          val := val + got;
          r := e.rest;
          assert all == got + ValueRead(r).got;
          assert before + (got + ValueRead(r).got) == val + ValueRead(r).got;
        } else {
          val := val + [ch];
          ch := Advance(r, ch);
          assert all == [r[0]] + ValueRead(r[1..]).got;
          assert before + ([r[0]] + ValueRead(r[1..]).got) == val + ValueRead(r[1..]).got;
          r := r[1..];
        }
      }
      ValueEnds(r);
    }
  }

  class Writer {
    var text: Text

    constructor ()
      ensures text == []
    {
      text := [];
    }

    method Write(s: Text)
      modifies this
      ensures text == old(text) + s
    {
      text := text + s;
    }
  }

  class Properties {
    var table: Table

    constructor ()
      ensures table == map[]
    {
      table := map[];
    }

    method Load(input: Reader)
      requires input.pos <= |input.text|
      modifies this, input
      ensures table == Loaded(old(input.text[input.pos..]), old(table))
    {
      ghost var s := input.text[input.pos..];
      ghost var r := s;
      var ch := input.Next();
      while true
        invariant ch >= -1 && input.At(ch, r)
        invariant Loaded(r, table) == Loaded(s, old(table))
        decreases |r|
      {
        if ch == -1 {
          return;
        }
        if ch == HASH || ch == BANG {
          ch := input.Advance(r, ch);
          ch := input.SkipLine(r[1..], ch);
          r := LineSkipped(r[1..]);
        } else if ch == LF || ch == CR || ch == SPACE || ch == TAB {
          ch := input.Advance(r, ch);
          r := r[1..];
        } else {
          var e;
          e, ch := LoadEntry(input, r, ch);
          r := EntryRead(r).rest;
          table := table[e.key := e.val];
        }
      }
    }

    method LoadEntry(input: Reader, ghost s: Text, first: int) returns (e: Entry, ch: int)
      requires input.At(first, s) && first >= 0 && !IsBlank(s[0]) && !IsLineEnd(s[0])
      modifies input
      ensures ch >= -1 && e == EntryRead(s).got && input.At(ch, EntryRead(s).rest)
    {
      hide KeyRead, ValueRead, BlanksSkipped;
      var key;
      key, ch := input.ReadKey(s, first);
      ghost var r := KeyRead(s).rest;
      ch := input.SkipBlanks(r, ch);
      r := BlanksSkipped(r);
      if ch == EQUALS || ch == COLON {
        ch := input.Advance(r, ch);
        r := r[1..];
      }
      ch := input.SkipBlanks(r, ch);
      r := BlanksSkipped(r);
      var val;
      val, ch := input.ReadValue(r, ch);
      e := Entry(key, val);
    }

    method WriteLine(output: Writer, e: Entry)
      modifies output
      ensures output.text == old(output.text) + Line(e)
    {
      hide Escaped;
      ghost var before := output.text;
      output.Write(e.key);
      output.Write([EQUALS]);
      ghost var start := output.text;
      for i := 0 to |e.val|
        invariant output.text + Printed(e.val[i..]) == start + Printed(e.val)
      {
        ghost var sofar := output.text;
        assert e.val[i..][1..] == e.val[i + 1..];
        output.Write(Escaped(e.val[i]));
        assert sofar + (Escaped(e.val[i]) + Printed(e.val[i + 1..])) == output.text + Printed(e.val[i + 1..]);
      }
      assert output.text + [] == output.text;
      output.Write([LF]);
      assert output.text == before + Line(e);
    }

    // What is written for the entries, in the order they are enumerated.
    // Loading it into an empty table gives this table exactly when the keys are
    // plain and no value starts with a space.
    method Save(output: Writer, header: Option<Text>, date: Text, eol: Text, entries: seq<Entry>)
      requires Enumerates(entries, table) && IsEol(eol) && OneLine(date)
      modifies output
      ensures output.text == old(output.text) + Saved(header, date, eol, entries)
    {
      hide Enumerates, IsEol, OneLine, Comment, Line, Lines;
      ghost var start := output.text;
      ghost var head := if header.Some? then Comment(header.value, eol) else [];
      if header.Some? {
        WriteComment(output, header.value, eol);
      }
      assert output.text == start + head;
      WriteComment(output, date, eol);
      ghost var middle := output.text;
      for k := 0 to |entries|
        invariant output.text + Lines(entries[k..]) == middle + Lines(entries)
      {
        ghost var before := output.text;
        LinesStep(entries, k);
        WriteLine(output, entries[k]);
        assert before + (Line(entries[k]) + Lines(entries[k + 1..])) == output.text + Lines(entries[k + 1..]);
      }
      LinesEnd(entries);
      assert output.text == middle + Lines(entries);
      assert start + head + Comment(date, eol) + Lines(entries) == start + (head + Comment(date, eol) + Lines(entries));
    }

    method WriteComment(output: Writer, text: Text, eol: Text)
      modifies output
      ensures output.text == old(output.text) + Comment(text, eol)
    {
      output.Write([HASH]);
      output.Write(text + eol);
      assert old(output.text) + [HASH] + (text + eol) == old(output.text) + ([HASH] + text + eol);
    }
  }

  lemma LinesStep(entries: seq<Entry>, k: nat)
    requires k < |entries|
    ensures Lines(entries[k..]) == Line(entries[k]) + Lines(entries[k + 1..])
  {
    assert entries[k..][1..] == entries[k + 1..];
  }

  lemma LinesEnd(entries: seq<Entry>)
    ensures Lines(entries[|entries|..]) == []
  {
  }
}
