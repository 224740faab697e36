/** The text of the pin file: the parse loop of `readAll` and the print loop of
    `writeAll` (clients/core/store.go), and exactly when they undo each other. */
module PinFile {
  import opened Wrappers
  import opened GoStrings
  import opened Base64
  import opened Pinning

  type Pins = map<Bytes, Pin>

  /** What is at the store's path: nothing, or a file with these bytes. */
  type Contents = Option<Bytes>

  datatype StoreError =
    | MalformedLine(line: nat)
    | MalformedPin(line: nat, name: Bytes)
    | PinNotFound(name: Bytes)
    | EmptyName
    | InputOutput

  // ---- Reading ----

  datatype Line = Ignored | NoField | BadPin(name: Bytes) | Entry(name: Bytes, pin: Pin)

  /** What one line of the file says. */
  function ReadLine(raw: Bytes): Line {
    var line := TrimSpace(raw);
    if line == [] || line[0] == HASH then Ignored
    else if SPACE !in line then NoField
    else
      var name, encoded := Before(line, SPACE), After(line, SPACE);
      match Decode(encoded)
      case None => BadPin(name)
      case Some(bytes) => if |bytes| == 32 then Entry(name, bytes) else BadPin(name)
  }

  predicate Bad(l: Line) {
    l.NoField? || l.BadPin?
  }

  function ErrorOf(l: Line, no: nat): StoreError
    requires Bad(l)
  {
    if l.NoField? then MalformedLine(no) else MalformedPin(no, l.name)
  }

  /** The parse loop, from line number `no` with `acc` already read. */
  function ParseLines(lines: seq<Bytes>, no: nat, acc: Pins): (r: Result<Pins, StoreError>)
    ensures r.Err? ==> r.error.MalformedLine? || r.error.MalformedPin?
  {
    if lines == [] then Ok(acc)
    else
      var l := ReadLine(lines[0]);
      if Bad(l) then Err(ErrorOf(l, no))
      else ParseLines(lines[1..], no + 1, if l.Entry? then acc[l.name := l.pin] else acc)
  }

  function Parse(data: Bytes): Result<Pins, StoreError> {
    ParseLines(Split(data, NEWLINE), 1, map[])
  }

  /** `readAll` when the read itself succeeds; a missing file is an empty store. */
  function ParseContents(c: Contents): (r: Result<Pins, StoreError>)
    ensures r.Err? ==> r.error.MalformedLine? || r.error.MalformedPin?
  {
    match c
    case None => Ok(map[])
    case Some(data) => Parse(data)
  }

  predicate Parses(c: Contents) {
    ParseContents(c).Ok?
  }

  function PinsIn(c: Contents): Pins
    requires Parses(c)
  {
    ParseContents(c).value
  }

  // ---- Writing ----

  function PrintLine(name: Bytes, pin: Pin): Bytes {
    name + [SPACE] + PinString(pin)
  }

  /** The print loop when the map hands out its keys in this order. */
  function Print(order: seq<Bytes>, m: Pins): Bytes
    requires forall n :: n in order ==> n in m
  {
    if order == [] then []
    else PrintLine(order[0], m[order[0]]) + [NEWLINE] + Print(order[1..], m)
  }

  /** `order` is a possible iteration order of `m`: every key once. */
  ghost predicate IsOrder(order: seq<Bytes>, m: Pins) {
    && (forall n :: n in order <==> n in m)
    && (forall i, j :: 0 <= i < j < |order| ==> order[i] != order[j])
  }

  /** The bytes are what the print loop produces for `m`, in some order. */
  ghost predicate Serializes(data: Bytes, m: Pins) {
    exists order :: IsOrder(order, m) && data == Print(order, m)
  }

  /** The names that survive being written to the file and read back. */
  predicate SafeName(n: Bytes) {
    n != [] && SPACE !in n && NEWLINE !in n && LeadingSpace(n) == 0 && n[0] != HASH
  }

  predicate AllSafe(m: Pins) {
    forall n :: n in m ==> SafeName(n)
  }

  // ---- What a successful parse means ----

  /** The last line that sets the pin of `n`, or -1. */
  function LastEntry(lines: seq<Bytes>, n: Bytes): (i: int)
    ensures -1 <= i < |lines|
  {
    if lines == [] then -1
    else
      var l := ReadLine(lines[|lines| - 1]);
      if l.Entry? && l.name == n then |lines| - 1 else LastEntry(lines[..|lines| - 1], n)
  }

  lemma {:induction false} LastEntryIsLast(lines: seq<Bytes>, n: Bytes)
    ensures var i := LastEntry(lines, n);
            && (i >= 0 ==> ReadLine(lines[i]).Entry? && ReadLine(lines[i]).name == n)
            && (forall k :: i < k < |lines| ==> !(ReadLine(lines[k]).Entry? && ReadLine(lines[k]).name == n))
  {
    hide ReadLine;
    if lines != [] {
      LastEntryIsLast(lines[..|lines| - 1], n);
    }
  }

  lemma {:induction false} LastEntryCons(first: Bytes, rest: seq<Bytes>, n: Bytes)
    ensures LastEntry([first] + rest, n) ==
            (var i := LastEntry(rest, n);
             if i >= 0 then i + 1
             else if ReadLine(first).Entry? && ReadLine(first).name == n then 0 else -1)
  {
    hide ReadLine;
    var lines := [first] + rest;
    if rest == [] {
      assert lines[..0] == [];
    } else {
      LastEntryCons(first, rest[..|rest| - 1], n);
      assert lines[..|lines| - 1] == [first] + rest[..|rest| - 1];
    }
  }

  /** `m` gives `n` the pin of its last line, or what `acc` gave it when no line names it. */
  ghost predicate LastLineWins(lines: seq<Bytes>, acc: Pins, m: Pins, n: Bytes) {
    var i := LastEntry(lines, n);
    if i >= 0 then n in m && Entry(n, m[n]) == ReadLine(lines[i])
    else (n in m <==> n in acc) && (n in m ==> m[n] == acc[n])
  }

  lemma {:induction false} ParsedLastLineWins(lines: seq<Bytes>, no: nat, acc: Pins, n: Bytes)
    requires ParseLines(lines, no, acc).Ok?
    ensures LastLineWins(lines, acc, ParseLines(lines, no, acc).value, n)
  {
    hide ReadLine;
    if lines != [] {
      var l, rest := ReadLine(lines[0]), lines[1..];
      assert lines == [lines[0]] + rest;
      ParsedLastLineWins(rest, no + 1, if l.Entry? then acc[l.name := l.pin] else acc, n);
      LastEntryCons(lines[0], rest, n);
    }
  }

  /** `i` is the first bad line. */
  ghost predicate FirstBad(lines: seq<Bytes>, i: nat) {
    i < |lines| && Bad(ReadLine(lines[i])) && forall k :: 0 <= k < i ==> !Bad(ReadLine(lines[k]))
  }

  predicate NoBadLine(lines: seq<Bytes>) {
    forall i :: 0 <= i < |lines| ==> !Bad(ReadLine(lines[i]))
  }

  lemma {:induction false} ParsesUnlessBad(lines: seq<Bytes>, no: nat, acc: Pins)
    ensures ParseLines(lines, no, acc).Ok? <==> NoBadLine(lines)
  {
    hide ReadLine, Bad;
    if lines != [] && !Bad(ReadLine(lines[0])) {
      var l := ReadLine(lines[0]);
      ParsesUnlessBad(lines[1..], no + 1, if l.Entry? then acc[l.name := l.pin] else acc);
      assert NoBadLine(lines) <==> NoBadLine(lines[1..]) by {
        assert lines == [lines[0]] + lines[1..];
      }
    }
  }

  lemma {:induction false} ParseStopsAtFirstBad(lines: seq<Bytes>, no: nat, acc: Pins, i: nat)
    requires FirstBad(lines, i)
    ensures ParseLines(lines, no, acc) == Err(ErrorOf(ReadLine(lines[i]), no + i))
  {
    hide ReadLine, Bad, ErrorOf;
    if i > 0 {
      var l := ReadLine(lines[0]);
      assert forall k :: 0 <= k < |lines| - 1 ==> lines[1..][k] == lines[k + 1];
      ParseStopsAtFirstBad(lines[1..], no + 1, if l.Entry? then acc[l.name := l.pin] else acc, i - 1);
    }
  }

  /** The line, trimmed, is the name, a space, and the rest. */
  predicate NameAndText(raw: Bytes, name: Bytes, text: Bytes) {
    SPACE !in name && TrimSpace(raw) == name + [SPACE] + text
  }

  predicate Skipped(raw: Bytes) {
    TrimSpace(raw) == [] || TrimSpace(raw)[0] == '#' as int
  }

  predicate DecodesTo(text: Bytes, pin: Pin) {
    Decode(text) == Some(pin)
  }

  /** What a line says, by its form: blank lines and comments nothing; a line without a space is malformed;
      otherwise what stands before the first space is the name, and the rest has to be the base64 of a pin. */
  lemma ReadLineExactly(raw: Bytes)
    ensures ReadLine(raw) == Ignored <==> Skipped(raw)
    ensures ReadLine(raw) == NoField <==> !Skipped(raw) && SPACE !in TrimSpace(raw)
    ensures forall n, p: Pin :: ReadLine(raw) == Entry(n, p) <==>
              !Skipped(raw) && exists text :: NameAndText(raw, n, text) && DecodesTo(text, p)
    ensures forall n :: ReadLine(raw) == BadPin(n) <==>
              !Skipped(raw) && exists text :: NameAndText(raw, n, text) && forall p: Pin :: !DecodesTo(text, p)
  {
    hide TrimSpace, Decode, Before, After;
    var line := TrimSpace(raw);
    var name, encoded := Before(line, SPACE), After(line, SPACE);
    CutJoins(line, SPACE);
    assert SPACE in line ==> NameAndText(raw, name, encoded);
    forall n, text | NameAndText(raw, n, text) ensures SPACE in line && n == name && text == encoded {
      CutAt(n, SPACE, text);
    }
    assert Decode(encoded).Some? && |Decode(encoded).value| == 32 ==> DecodesTo(encoded, Decode(encoded).value);
  }

  /** The error names the first bad line and what is wrong with it. */
  lemma ErrorExactly(data: Bytes, i: nat)
    ensures var lines := Split(data, NEWLINE);
            && (Parse(data) == Err(MalformedLine(i + 1)) <==> FirstBad(lines, i) && ReadLine(lines[i]) == NoField)
            && (forall n :: Parse(data) == Err(MalformedPin(i + 1, n)) <==> FirstBad(lines, i) && ReadLine(lines[i]) == BadPin(n))
  {
    hide ReadLine, Split, ParseLines;
    var lines := Split(data, NEWLINE);
    ParseMeaning(data);
    if Parse(data).Err? {
      var k := SomeFirstBad(lines, |lines|);
    }
  }

  lemma {:induction false} SomeFirstBad(lines: seq<Bytes>, n: nat) returns (i: nat)
    requires n <= |lines| && exists k :: 0 <= k < n && Bad(ReadLine(lines[k]))
    ensures FirstBad(lines, i)
  {
    hide ReadLine, Bad;
    if exists k :: 0 <= k < n - 1 && Bad(ReadLine(lines[k])) {
      i := SomeFirstBad(lines, n - 1);
    } else {
      i := n - 1;
    }
  }

  /** For every file: it parses exactly when no line is bad, and then every name it yields is safe and
      carries the pin of its last line; when it does not parse, the error names the first bad line. */
  lemma ParseMeaning(data: Bytes)
    ensures var lines, r := Split(data, NEWLINE), Parse(data);
            && (r.Ok? <==> NoBadLine(lines))
            && (r.Ok? ==> AllSafe(r.value) && forall n :: LastLineWins(lines, map[], r.value, n))
            && (forall i: nat :: FirstBad(lines, i) ==> r == Err(ErrorOf(ReadLine(lines[i]), 1 + i)))
  {
    hide ReadLine, Split, ParseLines, NoBadLine;
    var lines := Split(data, NEWLINE);
    ParsesUnlessBad(lines, 1, map[]);
    forall i: nat | FirstBad(lines, i) ensures Parse(data) == Err(ErrorOf(ReadLine(lines[i]), 1 + i)) {
      ParseStopsAtFirstBad(lines, 1, map[], i);
    }
    if Parse(data).Ok? {
      forall n ensures LastLineWins(lines, map[], Parse(data).value, n) {
        ParsedLastLineWins(lines, 1, map[], n);
      }
      forall n | n in Parse(data).value ensures SafeName(n) {
        LastEntryIsLast(lines, n);
        assert LastLineWins(lines, map[], Parse(data).value, n);
        EntryNameIsSafe(lines[LastEntry(lines, n)]);
      }
    }
  }

  lemma ParsedNamesAreSafe(c: Contents)
    requires Parses(c)
    ensures AllSafe(PinsIn(c))
  {
    if c.Some? {
      ParseMeaning(c.value);
    }
  }

  lemma EntryNameIsSafe(raw: Bytes)
    requires NEWLINE !in raw && ReadLine(raw).Entry?
    ensures SafeName(ReadLine(raw).name)
  {
    hide Decode, TrimSpace;
    var line := TrimSpace(raw);
    TrimSpaceHasNoLeadingSpace(raw);
    TrimSpaceKeeps(raw, NEWLINE);
    var name := Before(line, SPACE);
    LeadingSpaceOfPrefix(name, line);
    assert name != [] by {
      assert line[..1] == [line[0]];
      assert line[0] != SPACE;
    }
  }

  // ---- Printing, then reading ----

  /** A space after a non-empty name never completes or breaks a white-space rune at its front. */
  lemma LeadingSpaceBeforeSpace(n: Bytes, tail: Bytes)
    requires n != []
    ensures LeadingSpace(n + [SPACE] + tail) == LeadingSpace(n)
  {
    var s := n + [SPACE] + tail;
    assert s[..1] == n[..1];
    if |n| == 1 {
      assert s[1] == SPACE;
    } else {
      assert s[..2] == n[..2];
      if |n| == 2 {
        assert s[2] == SPACE;
      } else {
        assert s[..3] == n[..3];
      }
    }
  }

  lemma {:induction false} TrimLeftBeforeSpace(n: Bytes, tail: Bytes)
    requires TrimLeft(n) != []
    ensures TrimLeft(n + [SPACE] + tail) == TrimLeft(n) + [SPACE] + tail
    decreases |n|
  {
    hide LeadingSpace;
    LeadingSpaceBeforeSpace(n, tail);
    var k := LeadingSpace(n);
    if k > 0 {
      var s := n + [SPACE] + tail;
      assert s[k..] == n[k..] + [SPACE] + tail;
      TrimLeftBeforeSpace(n[k..], tail);
    }
  }

  /** What the printed line of a name that is not all blank says, by the name with its leading
      white space removed. */
  lemma ReadPrintedLine(n: Bytes, p: Pin)
    requires TrimLeft(n) != []
    ensures var t := TrimLeft(n);
            && (t[0] == HASH ==> ReadLine(PrintLine(n, p)) == Ignored)
            && (t[0] != HASH && SPACE in t ==> Bad(ReadLine(PrintLine(n, p))))
            && (t[0] != HASH && SPACE !in t ==> ReadLine(PrintLine(n, p)) == Entry(t, p))
  {
    hide Decode, TrimSpace, LeadingSpace, IndexByte, Before, After, Encode;
    var t, e := TrimLeft(n), PinString(p);
    TrimPrintedLine(n, p);
    if t[0] != HASH {
      CutPrintedLine(t, e);
      if SPACE !in t {
        DecodeEncode(p);
      }
    }
  }

  lemma PinStringEnd(p: Pin)
    ensures var e := PinString(p); e != [] && SPACE < e[|e| - 1] < 0x80
  {
  }

  lemma TrimPrintedLine(n: Bytes, p: Pin)
    requires TrimLeft(n) != []
    ensures TrimSpace(PrintLine(n, p)) == TrimLeft(n) + [SPACE] + PinString(p)
  {
    PinStringEnd(p);
    hide LeadingSpace, TrimLeft, TrimSpace, PinString;
    var t, e := TrimLeft(n), PinString(p);
    TrimLeftBeforeSpace(n, e);
    TrimSpaceAfterTrimLeft(PrintLine(n, p));
    assert LeadingSpace(t) == 0;
    LeadingSpaceBeforeSpace(t, e);
    TrimSpaceFixed(t + [SPACE] + e);
  }

  lemma CutPrintedLine(t: Bytes, e: Bytes)
    ensures var line := t + [SPACE] + e;
            if SPACE in t then Decode(After(line, SPACE)) == None
            else Before(line, SPACE) == t && After(line, SPACE) == e
  {
    hide Decode;
    if SPACE in t {
      var i := IndexByte(t, SPACE);
      var a, b := t[..i], t[i + 1..] + [SPACE] + e;
      assert t + [SPACE] + e == a + [SPACE] + b;
      CutAt(a, SPACE, b);
      ForeignByteRejected(b, SPACE);
    } else {
      CutAt(t, SPACE, e);
    }
  }

  /** A blank name leaves a line with nothing but the pin on it. */
  lemma {:induction false} TrimLeftOfBlank(n: Bytes, tail: Bytes)
    requires TrimLeft(n) == []
    ensures TrimLeft(n + [SPACE] + tail) == TrimLeft(tail)
    decreases |n|
  {
    hide LeadingSpace, TrimLeft;
    if n == [] {
      BlankEnd(tail);
      assert n + [SPACE] == [SPACE];
    } else {
      BlankFront(n, tail);
      TrimLeftOfBlank(n[LeadingSpace(n)..], tail);
    }
  }

  lemma BlankEnd(tail: Bytes)
    ensures TrimLeft([SPACE] + tail) == TrimLeft(tail)
  {
    hide LeadingSpace, TrimLeft;
    var s := [SPACE] + tail;
    LeadingSpaceOfSpace(s);
    TrimLeftOnce(s);
    assert s[1..] == tail;
  }

  lemma BlankFront(n: Bytes, tail: Bytes)
    requires n != [] && TrimLeft(n) == []
    ensures var k := LeadingSpace(n);
            && 0 < k && TrimLeft(n[k..]) == []
            && TrimLeft(n + [SPACE] + tail) == TrimLeft(n[k..] + [SPACE] + tail)
  {
    hide LeadingSpace, TrimLeft;
    TrimLeftOnce(n);
    LeadingSpaceBeforeSpace(n, tail);
    TrimLeftPast(n, tail, LeadingSpace(n));
  }

  lemma TrimLeftPast(n: Bytes, tail: Bytes, k: nat)
    requires 0 < k <= |n| && LeadingSpace(n + [SPACE] + tail) == k
    ensures TrimLeft(n + [SPACE] + tail) == TrimLeft(n[k..] + [SPACE] + tail)
  {
    hide LeadingSpace, TrimLeft;
    TrimLeftOnce(n + [SPACE] + tail);
    assert (n + [SPACE] + tail)[k..] == n[k..] + [SPACE] + tail;
  }

  lemma LeadingSpaceOfSpace(s: Bytes)
    requires s != [] && s[0] == SPACE
    ensures LeadingSpace(s) == 1
  {
    assert s[..1] == [SPACE];
  }

  lemma PinStringHasNoSpace(p: Pin)
    ensures var e := PinString(p);
            SPACE !in e && HASH !in e[..1] && NEWLINE !in e && e != [] && TrimLeft(e) == e && TrimSpace(e) == e
  {
    hide EncodeWith;
    PinStringIsTrimmed(p);
    LeadingSpaceOfText(PinString(p));
    PinStringStart(p);
  }

  lemma PinStringStart(p: Pin)
    ensures PinString(p)[..1] == [Digit(p[0] / 4)] && Digit(p[0] / 4) != HASH
  {
  }

  lemma BlankLineTrims(n: Bytes, p: Pin)
    requires TrimLeft(n) == []
    ensures TrimSpace(PrintLine(n, p)) == PinString(p)
  {
    hide LeadingSpace, PinString, TrimLeft, TrimSpace;
    TrimLeftOfBlank(n, PinString(p));
    PinStringHasNoSpace(p);
    TrimSpaceAfterTrimLeft(PrintLine(n, p));
  }

  lemma NoFieldOnLine(raw: Bytes)
    requires var line := TrimSpace(raw); line != [] && line[0] != HASH && SPACE !in line
    ensures ReadLine(raw) == NoField
  {
    hide TrimSpace, Decode, Before, After;
  }

  lemma BlankLineIsBad(n: Bytes, p: Pin)
    requires TrimLeft(n) == []
    ensures Bad(ReadLine(PrintLine(n, p)))
  {
    hide ReadLine, PrintLine, PinString, TrimLeft, TrimSpace, LeadingSpace;
    BlankLineTrims(n, p);
    PinStringHasNoSpace(p);
    PinStringFirst(p);
    NoFieldOnLine(PrintLine(n, p));
  }

  lemma PinStringFirst(p: Pin)
    ensures PinString(p) != [] && PinString(p)[0] != HASH
  {
    hide PinString, TrimLeft, TrimSpace, LeadingSpace;
    PinStringHasNoSpace(p);
    var e := PinString(p);
    assert e[..1] == [e[0]];
  }

  // ---- What the line printed for one name reads as ----

  /** The lines that the entry of one name takes in the file; more than one if the name has a newline. */
  function OwnLines(n: Bytes, p: Pin): (lines: seq<Bytes>)
    ensures |lines| > 0
  {
    Split(PrintLine(n, p), NEWLINE)
  }

  /** The entry of `n` leaves the file readable. */
  predicate Readable(n: Bytes, p: Pin) {
    Parse(PrintLine(n, p)).Ok?
  }

  /** What the entry of `n` says when it is read by itself. */
  function Says(n: Bytes, p: Pin): Pins {
    match Parse(PrintLine(n, p))
    case Ok(m) => m
    case Err(_) => map[]
  }

  /** The entry printed for `n` with pin `p` reads as pin `q` for the name `k`. */
  predicate LineGives(n: Bytes, p: Pin, k: Bytes, q: Pin) {
    k in Says(n, p) && Says(n, p)[k] == q
  }

  lemma OneLineParses(raw: Bytes)
    requires NEWLINE !in raw
    ensures var l := ReadLine(raw);
            Parse(raw) == if Bad(l) then Err(ErrorOf(l, 1)) else if l.Entry? then Ok(map[l.name := l.pin]) else Ok(map[])
  {
    hide ReadLine, Bad, ErrorOf;
    var lines, l := [raw], ReadLine(raw);
    SplitAbsent(raw);
    assert lines[1..] == [];
    assert ParseLines([], 2, if l.Entry? then map[l.name := l.pin] else map[]).Ok?;
    if l.Entry? {
      assert map[][l.name := l.pin] == map[l.name := l.pin];
    }
  }

  lemma SplitAbsent(n: Bytes)
    requires NEWLINE !in n
    ensures Split(n, NEWLINE) == [n]
  {
  }

  /** The entry of a name without a newline says its own pin under the name with its leading white space
      removed, or nothing if that reads as a comment; if that is empty or has a space, the entry cannot be
      read. */
  lemma NewlineFreeSays(n: Bytes, p: Pin)
    requires NEWLINE !in n
    ensures var t := TrimLeft(n);
            if t == [] || (t[0] != HASH && SPACE in t) then !Readable(n, p)
            else Readable(n, p) && Says(n, p) == if t[0] == HASH then map[] else map[t := p]
  {
    hide ReadLine, TrimLeft, Parse, LeadingSpace, PinString;
    PinStringHasNoSpace(p);
    OneLineParses(PrintLine(n, p));
    if TrimLeft(n) == [] {
      BlankLineIsBad(n, p);
    } else {
      ReadPrintedLine(n, p);
    }
  }

  /** An entry reads back as itself exactly when its name is safe. */
  lemma SaysItself(n: Bytes, p: Pin)
    ensures Readable(n, p) && Says(n, p) == map[n := p] <==> SafeName(n)
  {
    hide SafeName, Parse;
    if SafeName(n) {
      SafeNameTrims(n);
      NewlineFreeSays(n, p);
    }
    if Readable(n, p) {
      ParseMeaning(PrintLine(n, p));
      assert Says(n, p) == map[n := p] ==> n in Parse(PrintLine(n, p)).value;
    }
  }

  lemma SafeNameTrims(n: Bytes)
    requires SafeName(n)
    ensures NEWLINE !in n && TrimLeft(n) == n && n != [] && n[0] != HASH && SPACE !in n
  {
    hide LeadingSpace;
  }

  /** The last line of an entry is the last line of its name, with the pin. */
  lemma LastOwnLine(n: Bytes, p: Pin)
    ensures var names, lines := Split(n, NEWLINE), OwnLines(n, p);
            && |lines| == |names|
            && lines[|lines| - 1] == PrintLine(names[|names| - 1], p)
            && lines[..|lines| - 1] == names[..|names| - 1]
  {
    hide PinString, Split;
    PinStringHasNoSpace(p);
    var tail := [SPACE] + PinString(p);
    SplitLengthened(n, NEWLINE, tail);
    assert PrintLine(n, p) == n + tail;
    var names := Split(n, NEWLINE);
    assert names[|names| - 1] + tail == PrintLine(names[|names| - 1], p);
  }

  /** An entry gives a pin that is not its own exactly when some line of its name but the last says so, no
      later line sets the same name again, and every line can be read. */
  lemma OtherPinExactly(n: Bytes, p: Pin, k: Bytes, q: Pin)
    requires q != p
    ensures var lines := OwnLines(n, p);
            LineGives(n, p, k, q) <==>
              && NoBadLine(lines)
              && 0 <= LastEntry(lines, k) < |Split(n, NEWLINE)| - 1
              && ReadLine(Split(n, NEWLINE)[LastEntry(lines, k)]) == Entry(k, q)
    ensures LineGives(n, p, k, q) ==> NEWLINE in n
  {
    hide ReadLine, ParseLines, PrintLine, Split, NoBadLine;
    var names, lines := Split(n, NEWLINE), OwnLines(n, p);
    ParseMeaning(PrintLine(n, p));
    LastOwnLine(n, p);
    LastEntryIsLast(lines, k);
    var last := lines[|lines| - 1];
    var i := LastEntry(lines, k);
    if Readable(n, p) {
      assert LastLineWins(lines, map[], Says(n, p), k);
      if i == |lines| - 1 {
        OwnPinOnLastLine(names[|names| - 1], p, k);
      } else if i >= 0 {
        assert lines[..|lines| - 1][i] == lines[i] && names[..|names| - 1][i] == names[i];
      }
    }
    if NEWLINE !in n {
      SplitAbsent(n);
    }
  }

  /** Under a name without a newline only its own pin is given, to the name without its leading white space. */
  lemma NewlineFreeGives(n: Bytes, p: Pin, k: Bytes, q: Pin)
    requires NEWLINE !in n && LineGives(n, p, k, q)
    ensures k == TrimLeft(n) && q == p
  {
    hide Parse, TrimLeft;
    NewlineFreeSays(n, p);
  }

  lemma OwnPinOnLastLine(n: Bytes, p: Pin, k: Bytes)
    requires NEWLINE !in n && ReadLine(PrintLine(n, p)).Entry? && ReadLine(PrintLine(n, p)).name == k
    ensures ReadLine(PrintLine(n, p)).pin == p
  {
    hide ReadLine, TrimLeft, LeadingSpace, PrintLine;
    if TrimLeft(n) == [] {
      BlankLineIsBad(n, p);
    } else {
      ReadPrintedLine(n, p);
    }
  }

  // ---- What a printed map reads as, whatever its names ----

  /** What the entries say, one after the other; a later one wins. */
  function Merged(order: seq<Bytes>, m: Pins): Pins
    requires forall n :: n in order ==> n in m
  {
    if order == [] then map[] else Says(order[0], m[order[0]]) + Merged(order[1..], m)
  }

  predicate AllReadable(order: seq<Bytes>, m: Pins)
    requires forall n :: n in order ==> n in m
  {
    forall n :: n in order ==> Readable(n, m[n])
  }

  lemma {:induction false} ParseAppend(a: seq<Bytes>, b: seq<Bytes>, no: nat, acc: Pins)
    ensures ParseLines(a + b, no, acc) ==
            match ParseLines(a, no, acc) case Err(e) => Err(e) case Ok(m) => ParseLines(b, no + |a|, m)
  {
    hide ReadLine, Bad, ErrorOf;
    if a == [] {
      assert a + b == b;
    } else {
      var l := ReadLine(a[0]);
      assert (a + b)[1..] == a[1..] + b;
      if !Bad(l) {
        ParseAppend(a[1..], b, no + 1, if l.Entry? then acc[l.name := l.pin] else acc);
      }
    }
  }

  /** What was read before only underlies what is read next. */
  lemma {:induction false} ParseOver(lines: seq<Bytes>, no: nat, acc: Pins)
    ensures ParseLines(lines, no, acc).Ok? <==> ParseLines(lines, 1, map[]).Ok?
    ensures ParseLines(lines, no, acc).Ok? ==> ParseLines(lines, no, acc).value == acc + ParseLines(lines, 1, map[]).value
  {
    hide ReadLine, NoBadLine;
    ParsesUnlessBad(lines, no, acc);
    ParsesUnlessBad(lines, 1, map[]);
    if ParseLines(lines, no, acc).Ok? {
      var r, s := ParseLines(lines, no, acc).value, ParseLines(lines, 1, map[]).value;
      forall n ensures n in r <==> n in acc + s
               ensures n in r ==> r[n] == (acc + s)[n] {
        ParsedLastLineWins(lines, no, acc, n);
        ParsedLastLineWins(lines, 1, map[], n);
      }
      assert r == acc + s;
    }
  }

  /** For every map and every order: the printed file can be read exactly when every entry can, and then it
      reads as what the entries say, merged in that order. */
  lemma {:induction false} PrintedReads(order: seq<Bytes>, m: Pins)
    requires forall n :: n in order ==> n in m
    ensures Parse(Print(order, m)).Ok? <==> AllReadable(order, m)
    ensures AllReadable(order, m) ==> Parse(Print(order, m)).value == Merged(order, m)
  {
    hide PrintLine, ParseLines, Split;
    if order == [] {
      NothingParses();
    } else {
      var line, rest := PrintLine(order[0], m[order[0]]), Print(order[1..], m);
      var first := Split(line, NEWLINE);
      PrintedReads(order[1..], m);
      SplitJoined(line, NEWLINE, rest);
      ParseAppend(first, Split(rest, NEWLINE), 1, map[]);
      if Readable(order[0], m[order[0]]) {
        ParseOver(Split(rest, NEWLINE), 1 + |first|, Says(order[0], m[order[0]]));
      }
      assert AllReadable(order, m) <==> Readable(order[0], m[order[0]]) && AllReadable(order[1..], m) by {
        assert order == [order[0]] + order[1..];
      }
    }
  }

  lemma BlankIsIgnored()
    ensures ReadLine([]) == Ignored
  {
  }

  /** The text of the file, for names without newlines: one line for each key, of the name, a space and the
      pin's base64, each ended by a newline. */
  lemma {:induction false} PrintedText(order: seq<Bytes>, m: Pins)
    requires forall n :: n in order ==> n in m && NEWLINE !in n
    ensures var lines := Split(Print(order, m), NEWLINE);
            && |lines| == |order| + 1 && lines[|order|] == []
            && forall i :: 0 <= i < |order| ==> lines[i] == order[i] + Ascii(" ") + Encode(m[order[i]])
  {
    hide Split, Ascii, Encode, PrintLine;
    if order == [] {
      SplitAbsent([]);
    } else {
      var n, tail := order[0], order[1..];
      var line, rest := PrintLine(n, m[n]), Print(tail, m);
      PrintedText(tail, m);
      LineText(n, m[n]);
      SplitJoined(line, NEWLINE, rest);
      SplitAbsent(line);
      var lines, others := Split(Print(order, m), NEWLINE), Split(rest, NEWLINE);
      assert lines == [line] + others;
      forall i | 0 <= i < |order| ensures lines[i] == order[i] + Ascii(" ") + Encode(m[order[i]]) {
        if i > 0 {
          assert lines[i] == others[i - 1] && order[i] == tail[i - 1];
        }
      }
    }
  }

  lemma LineText(n: Bytes, p: Pin)
    requires NEWLINE !in n
    ensures PrintLine(n, p) == n + Ascii(" ") + Encode(p) && NEWLINE !in PrintLine(n, p)
  {
    hide Encode, Ascii, TrimLeft, TrimSpace;
    PinStringHasNoSpace(p);
    SpaceText();
  }

  lemma SpaceText()
    ensures Ascii(" ") == [SPACE]
  {
  }

  lemma NothingParses()
    ensures Parse([]) == Ok(map[])
  {
    BlankIsIgnored();
    OneLineParses([]);
  }

  /** Entry `i` of the order gives `k` the pin `q`. */
  ghost predicate GivenAt(order: seq<Bytes>, m: Pins, i: int, k: Bytes, q: Pin)
    requires forall n :: n in order ==> n in m
  {
    0 <= i < |order| && LineGives(order[i], m[order[i]], k, q)
  }

  lemma {:induction false} MergedMeaning(order: seq<Bytes>, m: Pins, k: Bytes)
    requires forall n :: n in order ==> n in m
    ensures k in Merged(order, m) ==> exists i :: GivenAt(order, m, i, k, Merged(order, m)[k])
    ensures forall i :: 0 <= i < |order| && k in Says(order[i], m[order[i]]) ==> k in Merged(order, m)
  {
    hide Says;
    if order != [] {
      MergedMeaning(order[1..], m, k);
      if k in Merged(order[1..], m) {
        var i :| GivenAt(order[1..], m, i, k, Merged(order[1..], m)[k]);
        assert GivenAt(order, m, i + 1, k, Merged(order, m)[k]);
      } else if k in Says(order[0], m[order[0]]) {
        assert GivenAt(order, m, 0, k, Merged(order, m)[k]);
      }
      forall i | 0 <= i < |order| && k in Says(order[i], m[order[i]]) ensures k in Merged(order, m) {
        if i > 0 {
          assert order[1..][i - 1] == order[i];
        }
      }
    }
  }

  /** Safe names merge to themselves. */
  lemma SafeMerged(order: seq<Bytes>, m: Pins, part: Pins)
    requires IsOrder(order, part) && AllSafe(part)
    requires forall n :: n in part ==> n in m && m[n] == part[n]
    ensures AllReadable(order, m) && Merged(order, m) == part
  {
    hide SafeName, Parse, Merged;
    forall n | n in order ensures Readable(n, m[n]) && Says(n, m[n]) == map[n := m[n]] {
      SaysItself(n, m[n]);
    }
    hide Says, Readable;
    var merged := Merged(order, m);
    forall k ensures k in merged <==> k in part
             ensures k in merged ==> merged[k] == part[k] {
      MergedMeaning(order, m, k);
      if k in part {
        var i :| 0 <= i < |order| && order[i] == k;
        assert k in Says(order[i], m[order[i]]);
      }
    }
    assert merged == part;
  }

  /** Reading what was printed gives the same map exactly when every name in it is safe, whatever
      order the map was printed in. */
  lemma RoundTripExact(order: seq<Bytes>, m: Pins)
    requires IsOrder(order, m)
    ensures Parse(Print(order, m)) == Ok(m) <==> AllSafe(m)
  {
    hide Parse, SafeName, Print, Readable, Says;
    if AllSafe(m) {
      PrintedReads(order, m);
      SafeMerged(order, m, m);
    }
    if Parse(Print(order, m)) == Ok(m) {
      ParseMeaning(Print(order, m));
    }
  }

  // ---- One update of a file that parses ----

  /** A Save on a file that parses leaves exactly the updated map behind if and only if its name is
      safe; a Forget always does. */
  lemma UpdateExact(c: Contents, n: Bytes, p: Pin)
    requires Parses(c)
    ensures forall data :: Serializes(data, PinsIn(c)[n := p]) ==> (Parse(data) == Ok(PinsIn(c)[n := p]) <==> SafeName(n))
    ensures forall data :: Serializes(data, PinsIn(c) - {n}) ==> Parse(data) == Ok(PinsIn(c) - {n})
  {
    hide SafeName, Parse, Print;
    ParsedNamesAreSafe(c);
    var saved, forgotten := PinsIn(c)[n := p], PinsIn(c) - {n};
    forall data | Serializes(data, saved) ensures Parse(data) == Ok(saved) <==> SafeName(n) {
      var order :| IsOrder(order, saved) && data == Print(order, saved);
      RoundTripExact(order, saved);
      assert n in saved;
    }
    forall data | Serializes(data, forgotten) ensures Parse(data) == Ok(forgotten) {
      var order :| IsOrder(order, forgotten) && data == Print(order, forgotten);
      RoundTripExact(order, forgotten);
    }
  }

  lemma {:induction false} SomeOrder(m: Pins) returns (order: seq<Bytes>)
    ensures IsOrder(order, m)
    decreases |m|
  {
    order := [];
    if m != map[] {
      var n :| n in m;
      var rest := m - {n};
      assert rest.Keys == m.Keys - {n};
      var front := SomeOrder(rest);
      order := front + [n];
      assert forall k :: k in m <==> k in rest || k == n;
    }
  }

  /** The other entries of a file that parses say themselves. */
  lemma OthersSayThemselves(c: Contents, n: Bytes, p: Pin)
    requires Parses(c)
    ensures forall k :: k in PinsIn(c) && k != n ==> Readable(k, PinsIn(c)[k]) && Says(k, PinsIn(c)[k]) == map[k := PinsIn(c)[k]]
  {
    hide Parse, SafeName, Readable, Says;
    ParsedNamesAreSafe(c);
    forall k | k in PinsIn(c) ensures Readable(k, PinsIn(c)[k]) && Says(k, PinsIn(c)[k]) == map[k := PinsIn(c)[k]] {
      SaysItself(k, PinsIn(c)[k]);
    }
  }

  /** What the entries merge to when all names but `n` say themselves. */
  lemma MergedWithOne(order: seq<Bytes>, m: Pins, n: Bytes)
    requires IsOrder(order, m) && n in m
    requires forall k :: k in m && k != n ==> Says(k, m[k]) == map[k := m[k]]
    ensures var others, own, r := m - {n}, Says(n, m[n]), Merged(order, m);
            && r.Keys == others.Keys + own.Keys
            && forall k :: k in r ==> (k in own && r[k] == own[k]) || (k in others && r[k] == others[k])
  {
    hide Says, Merged;
    var others, own, r := m - {n}, Says(n, m[n]), Merged(order, m);
    forall k ensures k in r <==> k in others || k in own
             ensures k in r ==> (k in own && r[k] == own[k]) || (k in others && r[k] == others[k]) {
      MergedMeaning(order, m, k);
      if k in others || k in own {
        var from := if k in own then n else k;
        assert from in order;
        var i :| 0 <= i < |order| && order[i] == from;
        assert k in Says(order[i], m[order[i]]);
      }
      if k in r {
        var i :| GivenAt(order, m, i, k, r[k]);
        assert order[i] in order;
      }
    }
  }

  /** What a Save leaves, under any name at all: the file can be read exactly when the new entry can, and
      then it holds the names of the other entries and those the new entry gives, each with a pin that one
      of the two says. */
  lemma SaveReadsBack(c: Contents, n: Bytes, p: Pin, data: Bytes)
    requires Parses(c) && Serializes(data, PinsIn(c)[n := p])
    ensures Parse(data).Ok? <==> Readable(n, p)
    ensures Parse(data).Ok? ==>
              var others, own, r := PinsIn(c) - {n}, Says(n, p), Parse(data).value;
              && r.Keys == others.Keys + own.Keys
              && forall k :: k in r ==> (k in own && r[k] == own[k]) || (k in others && r[k] == others[k])
  {
    hide Parse, Print, Merged, Says, Readable;
    var m := PinsIn(c)[n := p];
    var order :| IsOrder(order, m) && data == Print(order, m);
    PrintedReads(order, m);
    OthersSayThemselves(c, n, p);
    assert n in m && n in order;
    if AllReadable(order, m) {
      MergedWithOne(order, m, n);
      assert m - {n} == PinsIn(c) - {n};
    }
  }

  /** A later entry wins. */
  lemma {:induction false} MergedSnoc(order: seq<Bytes>, n: Bytes, m: Pins)
    requires n in m && forall k :: k in order ==> k in m
    ensures Merged(order + [n], m) == Merged(order, m) + Says(n, m[n])
  {
    hide Says;
    var all := order + [n];
    if order == [] {
      assert all[1..] == [];
    } else {
      assert all[1..] == order[1..] + [n];
      MergedSnoc(order[1..], n, m);
    }
  }

  /** The file reads `q` under `k`. */
  predicate ReadsAs(data: Bytes, k: Bytes, q: Pin) {
    Parse(data).Ok? && k in Parse(data).value && Parse(data).value[k] == q
  }

  /** A Save on a file that parses can leave a file that reads `q` under `k`, when `q` is not the pin that
      `k` keeps from before, exactly if the line printed for the saved name says so. And when `q` is not the
      saved pin either, exactly if a line of that name before its last says so, no later line of it sets
      `k`, and all of them can be read. */
  lemma SaveSaysExactly(c: Contents, n: Bytes, p: Pin, k: Bytes, q: Pin)
    requires Parses(c)
    requires k in PinsIn(c) && k != n ==> PinsIn(c)[k] != q
    ensures (exists data :: Serializes(data, PinsIn(c)[n := p]) && ReadsAs(data, k, q)) <==> LineGives(n, p, k, q)
    ensures q != p ==>
              var lines := OwnLines(n, p);
              (exists data :: Serializes(data, PinsIn(c)[n := p]) && ReadsAs(data, k, q)) <==>
                && NoBadLine(lines)
                && 0 <= LastEntry(lines, k) < |Split(n, NEWLINE)| - 1
                && ReadLine(Split(n, NEWLINE)[LastEntry(lines, k)]) == Entry(k, q)
  {
    hide Parse, Print, Says, Readable, NoBadLine, ReadLine, OwnLines, Split;
    if q != p {
      OtherPinExactly(n, p, k, q);
    }
    forall data | Serializes(data, PinsIn(c)[n := p]) && ReadsAs(data, k, q) ensures LineGives(n, p, k, q) {
      SaveReadsBack(c, n, p, data);
    }
    if LineGives(n, p, k, q) {
      var data := SaveThatSays(c, n, p, k, q);
    }
  }

  lemma SaveThatSays(c: Contents, n: Bytes, p: Pin, k: Bytes, q: Pin) returns (data: Bytes)
    requires Parses(c) && LineGives(n, p, k, q)
    ensures Serializes(data, PinsIn(c)[n := p]) && ReadsAs(data, k, q)
  {
    hide Parse, Says, Readable, Serializes;
    ReadableIfGives(n, p, k, q);
    data := SaveEndingIn(c, n, p);
  }

  /** When the key order puts the new entry last, all that it says wins. */
  lemma SaveEndingIn(c: Contents, n: Bytes, p: Pin) returns (data: Bytes)
    requires Parses(c) && Readable(n, p)
    ensures Serializes(data, PinsIn(c)[n := p])
    ensures Parse(data) == Ok((PinsIn(c) - {n}) + Says(n, p))
  {
    hide Parse, Print, Says, Readable, Merged, IsOrder, SafeName;
    var m, rest := PinsIn(c)[n := p], PinsIn(c) - {n};
    var others := OrderEndingIn(m, n);
    assert m - {n} == rest;
    data := Print(others + [n], m);
    ParsedNamesAreSafe(c);
    SafeMerged(others, m, rest);
    OthersSayThemselves(c, n, p);
    assert AllReadable(others + [n], m);
    PrintedReads(others + [n], m);
    MergedSnoc(others, n, m);
  }

  lemma ReadableIfGives(n: Bytes, p: Pin, k: Bytes, q: Pin)
    requires LineGives(n, p, k, q)
    ensures Readable(n, p)
  {
    hide Parse;
  }

  lemma OrderEndingIn(m: Pins, n: Bytes) returns (others: seq<Bytes>)
    requires n in m
    ensures IsOrder(others + [n], m) && IsOrder(others, m - {n})
    ensures forall k :: k in others ==> k in m
    ensures forall k :: k in others + [n] ==> k in m
  {
    others := SomeOrder(m - {n});
    var order := others + [n];
    forall i, j | 0 <= i < j < |order| ensures order[i] != order[j] {
      assert order[i] == others[i];
      if j < |others| {
        assert order[j] == others[j];
      } else {
        assert others[i] in others;
      }
    }
  }

  // ---- The names that do not survive ----

  /** A name whose line is read back as a comment. */
  predicate CommentName(n: Bytes) {
    NEWLINE !in n && TrimLeft(n) != [] && TrimLeft(n)[0] == HASH
  }

  /** A Save under a name that reads as a comment succeeds and leaves the map without that name. */
  lemma CommentSaveDropped(c: Contents, n: Bytes, p: Pin, data: Bytes)
    requires Parses(c) && CommentName(n) && Serializes(data, PinsIn(c)[n := p])
    ensures Parse(data) == Ok(PinsIn(c))
  {
    hide Parse, Readable, Says, TrimLeft, SafeName, Serializes;
    SaveReadsBack(c, n, p, data);
    NewlineFreeSays(n, p);
    CommentNameUnsafe(n);
    ParsedNamesAreSafe(c);
    assert PinsIn(c) - {n} == PinsIn(c);
    assert Parse(data).value == PinsIn(c);
  }

  lemma CommentNameUnsafe(n: Bytes)
    requires CommentName(n)
    ensures !SafeName(n)
  {
  }

  /** A Save makes the file unreadable exactly when some line of the new entry is bad; for a name without
      a newline, exactly when the name is blank at the front up to its end, or has a space past its leading
      white space and is not a comment. */
  lemma SaveBreaksFileExactly(c: Contents, n: Bytes, p: Pin, data: Bytes)
    requires Parses(c) && Serializes(data, PinsIn(c)[n := p])
    ensures Parse(data).Err? <==> !NoBadLine(OwnLines(n, p))
    ensures NEWLINE !in n ==> var t := TrimLeft(n); Parse(data).Err? <==> t == [] || (t[0] != HASH && SPACE in t)
  {
    hide Parse, Says, NoBadLine, OwnLines, TrimLeft, Serializes;
    SaveReadsBack(c, n, p, data);
    ReadableMeaning(n, p);
    if NEWLINE !in n {
      NewlineFreeSays(n, p);
    }
  }

  lemma ReadableMeaning(n: Bytes, p: Pin)
    ensures Readable(n, p) <==> NoBadLine(OwnLines(n, p))
  {
    hide Split, ParseLines, NoBadLine;
    ParseMeaning(PrintLine(n, p));
  }

  /** The name that smuggles the line of another name in front of its own. */
  function TwoLineName(n1: Bytes, q: Pin, n2: Bytes): Bytes {
    PrintLine(n1, q) + [NEWLINE] + n2
  }

  /** A name with a newline can say any pin for another name, whatever its own pin is. */
  lemma TwoLineNameSays(n1: Bytes, q: Pin, n2: Bytes, p: Pin)
    requires SafeName(n1) && SafeName(n2) && n1 != n2
    ensures var name := TwoLineName(n1, q, n2);
            && Parse(PrintLine(name, p) + [NEWLINE]) == Ok(map[n1 := q, n2 := p])
            && Readable(name, p) && Says(name, p) == map[n1 := q, n2 := p]
            && name != [] && TrimSpace(name) != []
  {
    hide Parse, SafeName, LeadingSpace, PinString, TrimLeft, TrimSpace, Print, Readable, Says, Merged;
    var name := TwoLineName(n1, q, n2);
    var both := map[n1 := q, n2 := p];
    assert PrintLine(name, p) + [NEWLINE] == PrintLine(n1, q) + [NEWLINE] + (PrintLine(n2, p) + [NEWLINE]);
    TwoLinesPrint(n1, n2, both);
    RoundTripExact([n1, n2], both);
    OnePrints(name, map[name := p]);
    PrintedReads([name], map[name := p]);
    OneMerged(name, map[name := p]);
    TwoLineNameNotBlank(n1, q, n2);
  }

  lemma TwoLinesPrint(n1: Bytes, n2: Bytes, m: Pins)
    requires n1 in m && n2 in m
    ensures Print([n1, n2], m) == PrintLine(n1, m[n1]) + [NEWLINE] + (PrintLine(n2, m[n2]) + [NEWLINE])
  {
    hide PrintLine;
    var order := [n1, n2];
    assert order[1..] == [n2];
    OnePrints(n2, m);
  }

  lemma OnePrints(n: Bytes, m: Pins)
    requires n in m
    ensures Print([n], m) == PrintLine(n, m[n]) + [NEWLINE]
  {
    hide PrintLine;
    var order := [n];
    assert order[1..] == [];
  }

  lemma OneMerged(n: Bytes, m: Pins)
    requires n in m
    ensures Merged([n], m) == Says(n, m[n])
  {
    hide Says;
    MergedSnoc([], n, m);
    assert [] + [n] == [n];
  }

  lemma TwoLineNameNotBlank(n1: Bytes, q: Pin, n2: Bytes)
    requires SafeName(n1)
    ensures var name := TwoLineName(n1, q, n2); name != [] && TrimSpace(name) != []
  {
    SafeNameTrims(n1);
    hide LeadingSpace, PinString, TrimLeft, TrimSpace;
    var name := TwoLineName(n1, q, n2);
    var tail := PinString(q) + [NEWLINE] + n2;
    assert name == n1 + [SPACE] + tail;
    TrimLeftBeforeSpace(n1, tail);
    NotBlank(name);
  }

  lemma NotBlank(s: Bytes)
    requires TrimLeft(s) != []
    ensures TrimSpace(s) != []
  {
    hide LeadingSpace, TrimLeft, TrimRight;
    if TrimSpace(s) == [] {
      BlankStartsWithSpace(TrimLeft(s));
    }
  }
}
