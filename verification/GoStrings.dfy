/** Byte strings and the handful of Go string routines the client core relies on.

    A Go string is a sequence of bytes, so `Bytes` is what every name, address,
    payload and file content in this project is made of. */
module GoStrings {
  type Byte = b: int | 0 <= b < 256
  type Bytes = seq<Byte>

  const NEWLINE: Byte := 10
  const CARRIAGE: Byte := 13
  const SPACE: Byte := 32
  const HASH: Byte := 35
  const PERCENT: Byte := 37
  const AMPERSAND: Byte := 38
  const PLUS: Byte := 43
  const SLASH: Byte := 47
  const COLON: Byte := 58
  const SEMICOLON: Byte := 59
  const EQUALS: Byte := 61
  const QUESTION: Byte := 63
  const AT: Byte := 64
  const OPEN_BRACKET: Byte := 91
  const CLOSE_BRACKET: Byte := 93

  /** The bytes of an ASCII text; any other character counts as a question mark. */
  function Ascii(text: string): Bytes {
    if text == "" then [] else [if text[0] as int < 128 then text[0] as int else QUESTION] + Ascii(text[1..])
  }

  lemma {:induction false} AsciiAppend(a: string, b: string)
    ensures Ascii(a + b) == Ascii(a) + Ascii(b)
  {
    if a == "" {
      assert a + b == b;
    } else {
      assert (a + b)[1..] == a[1..] + b;
      AsciiAppend(a[1..], b);
    }
  }

  predicate IsLetter(c: Byte) {
    65 <= c <= 90 || 97 <= c <= 122
  }

  predicate IsDigit(c: Byte) {
    48 <= c <= 57
  }

  /** The position of the first `c` in `s`, or `|s|` when there is none. */
  function IndexByte(s: Bytes, c: Byte): (i: nat)
    ensures i <= |s|
    ensures i < |s| ==> s[i] == c
    ensures forall k :: 0 <= k < i ==> s[k] != c
  {
    if s == [] || s[0] == c then 0 else 1 + IndexByte(s[1..], c)
  }

  /** The position just after the last `c` in `s`, or 0 when there is none. */
  function AfterLast(s: Bytes, c: Byte): (i: nat)
    ensures i <= |s|
    ensures 0 < i ==> s[i - 1] == c
    ensures forall k :: i <= k < |s| ==> s[k] != c
  {
    if s == [] || s[|s| - 1] == c then |s| else AfterLast(s[..|s| - 1], c)
  }

  /** `strings.Cut`: what stands before the first `c`, all of `s` when there is none. */
  function Before(s: Bytes, c: Byte): Bytes {
    s[..IndexByte(s, c)]
  }

  /** `strings.Cut`: what stands after the first `c`, nothing when there is none. */
  function After(s: Bytes, c: Byte): Bytes {
    var i := IndexByte(s, c);
    if i == |s| then [] else s[i + 1..]
  }

  lemma CutAt(a: Bytes, c: Byte, b: Bytes)
    requires c !in a
    ensures c in a + [c] + b
    ensures Before(a + [c] + b, c) == a
    ensures After(a + [c] + b, c) == b
  {
    var s := a + [c] + b;
    assert s[|a|] == c;
    assert forall k :: 0 <= k < |a| ==> s[k] == a[k];
    assert IndexByte(s, c) == |a|;
  }

  lemma CutJoins(s: Bytes, c: Byte)
    ensures c !in Before(s, c)
    ensures s == Before(s, c) + if c in s then [c] + After(s, c) else []
    ensures c !in s ==> After(s, c) == []
  {
    var i := IndexByte(s, c);
    if c in s {
      assert s == s[..i] + [c] + s[i + 1..];
    }
  }

  lemma CutAbsent(a: Bytes, c: Byte)
    requires c !in a
    ensures Before(a, c) == a && After(a, c) == []
  {
    assert IndexByte(a, c) == |a|;
  }

  /** `strings.Split` on a one-byte separator. */
  function Split(s: Bytes, c: Byte): (parts: seq<Bytes>)
    ensures |parts| > 0
    ensures forall p :: p in parts ==> c !in p
    decreases |s|
  {
    if c in s then
      assert IndexByte(s, c) < |s|;
      [Before(s, c)] + Split(After(s, c), c)
    else
      [s]
  }

  /** Splitting what a separator joins splits the two parts. */
  lemma {:induction false} SplitJoined(a: Bytes, c: Byte, b: Bytes)
    ensures Split(a + [c] + b, c) == Split(a, c) + Split(b, c)
    decreases |a|
  {
    if c in a {
      var front, back := Before(a, c), After(a, c);
      assert a == front + [c] + back;
      assert a + [c] + b == front + [c] + (back + [c] + b);
      CutAt(front, c, back + [c] + b);
      SplitJoined(back, c, b);
    } else {
      CutAt(a, c, b);
    }
  }

  /** What is appended without a separator lengthens the last part. */
  lemma {:induction false} SplitLengthened(a: Bytes, c: Byte, b: Bytes)
    requires c !in b
    ensures var parts := Split(a, c);
            Split(a + b, c) == parts[..|parts| - 1] + [parts[|parts| - 1] + b]
    decreases |a|
  {
    if c in a {
      var front, back := Before(a, c), After(a, c);
      assert a == front + [c] + back;
      assert a + b == front + [c] + (back + b);
      CutAt(front, c, back);
      CutAt(front, c, back + b);
      SplitLengthened(back, c, b);
    }
  }

  /** The UTF-8 encodings of the runes that `unicode.IsSpace` accepts. */
  predicate IsSpaceRune(e: Bytes) {
    || (|e| == 1 && (9 <= e[0] <= 13 || e[0] == SPACE))
    || (|e| == 2 && e[0] == 0xC2 && (e[1] == 0x85 || e[1] == 0xA0))
    || (|e| == 3 && e[0] == 0xE1 && e[1] == 0x9A && e[2] == 0x80)
    || (|e| == 3 && e[0] == 0xE2 && e[1] == 0x80
        && (0x80 <= e[2] <= 0x8A || e[2] == 0xA8 || e[2] == 0xA9 || e[2] == 0xAF))
    || (|e| == 3 && e[0] == 0xE2 && e[1] == 0x81 && e[2] == 0x9F)
    || (|e| == 3 && e[0] == 0xE3 && e[1] == 0x80 && e[2] == 0x80)
  }

  /** How many bytes the white-space rune at the front of `s` takes; 0 when there is none. */
  function LeadingSpace(s: Bytes): (n: nat)
    ensures n <= |s|
  {
    if |s| >= 1 && IsSpaceRune(s[..1]) then 1
    else if |s| >= 2 && IsSpaceRune(s[..2]) then 2
    else if |s| >= 3 && IsSpaceRune(s[..3]) then 3
    else 0
  }

  /** How many bytes the white-space rune at the end of `s` takes; 0 when there is none. */
  function TrailingSpace(s: Bytes): (n: nat)
    ensures n <= |s|
  {
    if |s| >= 1 && IsSpaceRune(s[|s| - 1..]) then 1
    else if |s| >= 2 && IsSpaceRune(s[|s| - 2..]) then 2
    else if |s| >= 3 && IsSpaceRune(s[|s| - 3..]) then 3
    else 0
  }

  lemma DropDrop(s: Bytes, k: nat, j: nat)
    requires k + j <= |s|
    ensures s[k..][j..] == s[k + j..]
  {
  }

  function TrimLeft(s: Bytes): (t: Bytes)
    ensures LeadingSpace(t) == 0
    ensures |t| <= |s| && t == s[|s| - |t|..]
    decreases |s|
  {
    hide LeadingSpace;
    var k := LeadingSpace(s);
    if k == 0 then s
    else
      var rest := TrimLeft(s[k..]);
      DropDrop(s, k, |s| - k - |rest|);
      rest
  }

  function TrimRight(s: Bytes): (t: Bytes)
    ensures TrailingSpace(t) == 0
    ensures t <= s
    decreases |s|
  {
    if TrailingSpace(s) == 0 then s else TrimRight(s[..|s| - TrailingSpace(s)])
  }

  /** `strings.TrimSpace`. */
  function TrimSpace(s: Bytes): Bytes {
    TrimRight(TrimLeft(s))
  }

  /** A prefix of a string without leading space has no leading space either. */
  lemma LeadingSpaceOfPrefix(p: Bytes, s: Bytes)
    requires p <= s && LeadingSpace(s) == 0
    ensures LeadingSpace(p) == 0
  {
    forall k | 1 <= k <= |p| && k <= 3 ensures p[..k] == s[..k] {
    }
  }

  lemma TrimSpaceHasNoLeadingSpace(s: Bytes)
    ensures LeadingSpace(TrimSpace(s)) == 0
  {
    LeadingSpaceOfPrefix(TrimSpace(s), TrimLeft(s));
  }

  lemma TrimSpaceAfterTrimLeft(s: Bytes)
    ensures TrimSpace(s) == TrimSpace(TrimLeft(s))
  {
    assert LeadingSpace(TrimLeft(s)) == 0;
  }

  /** What is left in a trimmed string was there before, in particular no new byte appears. */
  lemma TrimSpaceKeeps(s: Bytes, c: Byte)
    requires c !in s
    ensures c !in TrimSpace(s)
  {
    var l := TrimLeft(s);
    assert c !in l;
  }

  lemma SpaceRuneLastByte(e: Bytes)
    requires IsSpaceRune(e)
    ensures e[|e| - 1] <= SPACE || e[|e| - 1] >= 0x80
  {
  }

  lemma NoTrailingSpace(s: Bytes)
    requires |s| > 0 && SPACE < s[|s| - 1] < 0x80
    ensures TrailingSpace(s) == 0
  {
    hide IsSpaceRune;
    var n := TrailingSpace(s);
    if n > 0 {
      var e := s[|s| - n..];
      SpaceRuneLastByte(e);
    }
  }

  /** A string that starts with no space rune and ends in a graphic ASCII byte is its own trim. */
  lemma TrimSpaceFixed(s: Bytes)
    requires LeadingSpace(s) == 0
    requires |s| > 0 && SPACE < s[|s| - 1] < 0x80
    ensures TrimSpace(s) == s
  {
    hide LeadingSpace, TrailingSpace;
    NoTrailingSpace(s);
  }

  lemma WholeRuneLeads(s: Bytes)
    requires IsSpaceRune(s)
    ensures LeadingSpace(s) > 0
  {
    assert s[..|s|] == s;
  }

  lemma TrailingIsRune(s: Bytes)
    requires TrailingSpace(s) > 0
    ensures IsSpaceRune(s[|s| - TrailingSpace(s)..])
  {
  }

  /** A string that trims to nothing starts with white space. */
  lemma {:induction false} BlankStartsWithSpace(s: Bytes)
    requires s != [] && TrimRight(s) == []
    ensures LeadingSpace(s) > 0
    decreases |s|
  {
    hide IsSpaceRune, LeadingSpace, TrailingSpace;
    var k := TrailingSpace(s);
    TrailingIsRune(s);
    if k == |s| {
      assert s[|s| - k..] == s;
      WholeRuneLeads(s);
    } else {
      BlankStartsWithSpace(s[..|s| - k]);
      if LeadingSpace(s) == 0 {
        LeadingSpaceOfPrefix(s[..|s| - k], s);
      }
    }
  }

  // ---- White space by code point ----

  /** The UTF-8 encoding of a code point below 0x10000 (section 3 of RFC 3629). */
  function Utf8(rune: nat): Bytes
    requires rune < 0x10000
  {
    if rune < 0x80 then [rune]
    else if rune < 0x800 then [0xC0 + rune / 64, 0x80 + rune % 64]
    else [0xE0 + rune / 4096, 0x80 + rune / 64 % 64, 0x80 + rune % 64]
  }

  /** The code points with the property White_Space: U+0009 to U+000D, U+0020, U+0085, U+00A0, U+1680,
      U+2000 to U+200A, U+2028, U+2029, U+202F, U+205F and U+3000. */
  predicate WhiteSpace(rune: nat) {
    || 0x9 <= rune <= 0xD || rune == 0x20 || rune == 0x85 || rune == 0xA0 || rune == 0x1680
    || 0x2000 <= rune <= 0x200A || rune == 0x2028 || rune == 0x2029 || rune == 0x202F || rune == 0x205F
    || rune == 0x3000
  }

  lemma SpaceRunes(e: Bytes)
    ensures IsSpaceRune(e) <==> exists rune: nat :: rune < 0x10000 && WhiteSpace(rune) && e == Utf8(rune)
  {
    if IsSpaceRune(e) {
      var rune := RuneOfSpace(e);
    }
    if rune: nat :| rune < 0x10000 && WhiteSpace(rune) && e == Utf8(rune) {
      SpaceOfRune(rune);
    }
  }

  lemma RuneOfSpace(e: Bytes) returns (rune: nat)
    requires IsSpaceRune(e)
    ensures rune < 0x10000 && WhiteSpace(rune) && e == Utf8(rune)
  {
    rune := if |e| == 1 then e[0] else if |e| == 2 then e[1] else e[0] as int * 4096 + e[1] as int * 64 + e[2] as int - 0xE2080;
  }

  lemma SpaceOfRune(rune: nat)
    requires rune < 0x10000 && WhiteSpace(rune)
    ensures IsSpaceRune(Utf8(rune))
  {
  }

  /** The pieces one after the other. */
  function Join(pieces: seq<Bytes>): Bytes {
    if pieces == [] then [] else pieces[0] + Join(pieces[1..])
  }

  lemma {:induction false} JoinAppend(a: seq<Bytes>, b: seq<Bytes>)
    ensures Join(a + b) == Join(a) + Join(b)
  {
    if a == [] {
      assert a + b == b;
    } else {
      assert (a + b)[1..] == a[1..] + b;
      JoinAppend(a[1..], b);
    }
  }

  predicate Runes(pieces: seq<Bytes>) {
    forall i :: 0 <= i < |pieces| ==> IsSpaceRune(pieces[i])
  }

  /** Neither starts nor ends with white space. */
  predicate Trimmed(t: Bytes) {
    && (forall k :: 0 <= k <= |t| ==> !IsSpaceRune(t[..k]))
    && (forall k :: 0 <= k <= |t| ==> !IsSpaceRune(t[k..]))
  }

  /** `t` is `s` without the white space in front and at the end. */
  ghost predicate IsTrimOf(s: Bytes, t: Bytes) {
    Trimmed(t) && exists front, back :: Runes(front) && Runes(back) && s == Join(front) + t + Join(back)
  }

  lemma RuneLength(e: Bytes)
    ensures IsSpaceRune(e) ==> 1 <= |e| <= 3
  {
  }

  lemma LeadingMeans(s: Bytes)
    ensures var n := LeadingSpace(s);
            (n > 0 ==> IsSpaceRune(s[..n])) && (n == 0 ==> forall k :: 0 <= k <= |s| ==> !IsSpaceRune(s[..k]))
  {
  }

  lemma TrailingMeans(s: Bytes)
    ensures TrailingSpace(s) > 0 ==> IsSpaceRune(s[|s| - TrailingSpace(s)..])
    ensures TrailingSpace(s) == 0 ==> forall k :: 0 <= k <= |s| ==> !IsSpaceRune(s[k..])
  {
    hide IsSpaceRune;
    forall k | 0 <= k <= |s| ensures TrailingSpace(s) == 0 ==> !IsSpaceRune(s[k..]) {
      RuneLength(s[k..]);
      var n := |s| - k;
      assert k == |s| - n;
    }
  }

  lemma TrimLeftOnce(s: Bytes)
    ensures TrimLeft(s) == if LeadingSpace(s) == 0 then s else TrimLeft(s[LeadingSpace(s)..])
  {
    hide LeadingSpace;
  }

  lemma JoinCons(piece: Bytes, pieces: seq<Bytes>)
    ensures Join([piece] + pieces) == piece + Join(pieces)
  {
    assert ([piece] + pieces)[1..] == pieces;
  }

  lemma {:induction false} TrimLeftDrops(s: Bytes) returns (front: seq<Bytes>)
    ensures Runes(front) && s == Join(front) + TrimLeft(s)
    decreases |s|
  {
    hide LeadingSpace, IsSpaceRune, TrimLeft, Join;
    LeadingMeans(s);
    TrimLeftOnce(s);
    var n := LeadingSpace(s);
    front := [];
    if n > 0 {
      var rest := TrimLeftDrops(s[n..]);
      front := [s[..n]] + rest;
      JoinCons(s[..n], rest);
      SplitAt(s, n);
    } else {
      JoinNothing();
    }
  }

  lemma TrimRightOnce(s: Bytes)
    ensures TrimRight(s) == if TrailingSpace(s) == 0 then s else TrimRight(s[..|s| - TrailingSpace(s)])
  {
    hide TrailingSpace;
  }

  lemma JoinNothing()
    ensures Join([]) == []
  {
  }

  lemma SplitAt(s: Bytes, n: nat)
    requires n <= |s|
    ensures s == s[..n] + s[n..]
  {
  }

  lemma {:induction false} TrimRightDrops(s: Bytes) returns (back: seq<Bytes>)
    ensures Runes(back) && s == TrimRight(s) + Join(back)
    decreases |s|
  {
    hide TrailingSpace, IsSpaceRune, TrimRight, Join;
    TrailingMeans(s);
    TrimRightOnce(s);
    var n := TrailingSpace(s);
    back := [];
    if n > 0 {
      var rest := TrimRightDrops(s[..|s| - n]);
      var last := s[|s| - n..];
      back := rest + [last];
      JoinAppend(rest, [last]);
      JoinOne(last);
      SplitAt(s, |s| - n);
    } else {
      JoinNothing();
    }
  }

  lemma JoinOne(piece: Bytes)
    ensures Join([piece]) == piece
  {
    assert [piece][1..] == [];
  }

  /** A space rune in front is taken whole, whatever follows. */
  lemma RuneLeads(e: Bytes, s: Bytes)
    requires IsSpaceRune(e)
    ensures LeadingSpace(e + s) == |e|
  {
    var t := e + s;
    assert t[..|e|] == e;
    assert |t| >= 1 ==> t[..1] == [t[0]];
    if |t| >= 2 {
      assert t[..2] == [t[0], t[1]];
    }
  }

  lemma RuneTrails(s: Bytes, e: Bytes)
    requires IsSpaceRune(e)
    ensures TrailingSpace(s + e) == |e|
  {
    var t := s + e;
    assert t[|t| - |e|..] == e;
    assert t[|t| - 1..] == [e[|e| - 1]];
    if |e| == 3 {
      assert t[|t| - 2..] == [e[1], e[2]];
    }
  }

  /** Text without leading white space gets none from a space rune behind it. */
  lemma RuneBehind(t: Bytes, e: Bytes, rest: Bytes)
    requires LeadingSpace(t) == 0 && t != [] && IsSpaceRune(e)
    ensures LeadingSpace(t + (e + rest)) == 0
  {
    var s := t + (e + rest);
    LeadingMeans(t);
    assert s[..1] == t[..1];
    if |t| >= 2 {
      assert s[..2] == t[..2];
    } else {
      assert s[1] == e[0];
    }
    if |t| >= 3 {
      assert s[..3] == t[..3];
    } else if |t| == 2 {
      assert s[2] == e[0];
    }
  }

  lemma {:induction false} TrimLeftSkips(front: seq<Bytes>, s: Bytes)
    requires Runes(front)
    ensures TrimLeft(Join(front) + s) == TrimLeft(s)
  {
    hide LeadingSpace, IsSpaceRune;
    if front == [] {
      assert Join(front) + s == s;
    } else {
      var e, rest := front[0], Join(front[1..]) + s;
      assert Join(front) + s == e + rest;
      RuneLeads(e, rest);
      NoEmptyRune(e);
      assert (e + rest)[|e|..] == rest;
      TrimLeftSkips(front[1..], s);
    }
  }

  lemma NoEmptyRune(e: Bytes)
    requires IsSpaceRune(e)
    ensures e != []
  {
  }

  lemma {:induction false} TrimRightSkips(s: Bytes, back: seq<Bytes>)
    requires Runes(back)
    ensures TrimRight(s + Join(back)) == TrimRight(s)
    decreases |back|
  {
    hide TrailingSpace, IsSpaceRune;
    if back == [] {
      assert s + Join(back) == s;
    } else {
      var front, e := back[..|back| - 1], back[|back| - 1];
      JoinAppend(front, [e]);
      JoinOne(e);
      assert back == front + [e];
      var t := s + Join(front);
      assert s + Join(back) == t + e;
      RuneTrails(t, e);
      NoEmptyRune(e);
      assert (t + e)[..|t|] == t;
      TrimRightSkips(s, front);
    }
  }

  /** `TrimSpace` is the one string that is left when the white space is taken off both ends. */
  lemma TrimSpaceExactly(s: Bytes, t: Bytes)
    ensures TrimSpace(s) == t <==> IsTrimOf(s, t)
  {
    hide TrimSpace, Trimmed, Runes;
    var trimmed := TrimSpace(s);
    var front, back := TrimSpaceDrops(s);
    if IsTrimOf(s, t) {
      var front', back' :| Runes(front') && Runes(back') && s == Join(front') + t + Join(back');
      TrimOfPieces(front', t, back');
    }
  }

  lemma TrimSpaceDrops(s: Bytes) returns (front: seq<Bytes>, back: seq<Bytes>)
    ensures Runes(front) && Runes(back) && s == Join(front) + TrimSpace(s) + Join(back) && Trimmed(TrimSpace(s))
  {
    hide LeadingSpace, TrailingSpace, IsSpaceRune, TrimLeft, TrimRight, Join;
    front := TrimLeftDrops(s);
    back := TrimRightDrops(TrimLeft(s));
    TrimSpaceHasNoLeadingSpace(s);
    TrimRightEnds(TrimLeft(s));
    LeadingMeans(TrimSpace(s));
    TrailingMeans(TrimSpace(s));
    assert s == Join(front) + (TrimSpace(s) + Join(back));
  }

  lemma TrimRightEnds(s: Bytes)
    ensures TrailingSpace(TrimRight(s)) == 0
  {
  }

  lemma TrimOfPieces(front: seq<Bytes>, t: Bytes, back: seq<Bytes>)
    requires Runes(front) && Runes(back) && Trimmed(t)
    ensures TrimSpace(Join(front) + t + Join(back)) == t
  {
    hide LeadingSpace, TrailingSpace, IsSpaceRune, TrimLeft, TrimRight;
    var s := t + Join(back);
    assert Join(front) + t + Join(back) == Join(front) + s;
    TrimLeftSkips(front, s);
    TrimmedKeeps(t);
    if t == [] {
      assert s == Join(back) + [];
      TrimLeftSkips(back, []);
      TrimNothing();
    } else {
      if back == [] {
        assert s == t;
      } else {
        assert Join(back) == back[0] + Join(back[1..]);
        RuneBehind(t, back[0], Join(back[1..]));
      }
      TrimLeftFixed(s);
      TrimRightSkips(t, back);
    }
  }

  lemma TrimNothing()
    ensures TrimLeft([]) == [] && TrimRight([]) == []
  {
  }

  lemma TrimLeftFixed(s: Bytes)
    requires LeadingSpace(s) == 0
    ensures TrimLeft(s) == s
  {
  }

  lemma TrimmedKeeps(t: Bytes)
    requires Trimmed(t)
    ensures LeadingSpace(t) == 0 && TrailingSpace(t) == 0 && TrimRight(t) == t
  {
    LeadingMeans(t);
    TrailingMeans(t);
  }
}
