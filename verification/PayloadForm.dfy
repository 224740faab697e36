/** Which texts are pairing payloads and what they say (clients/core/pair.go), put as forms a text can have,
    and the reader of `PairPayload` held against them. */
module PayloadForm {
  import opened Wrappers
  import opened GoStrings
  import opened Base64
  import opened Pinning
  import opened PairPayload

  // ---- Escaping, as the standard gives it ----

  const HEX_UPPER := "0123456789ABCDEF"
  const HEX_LOWER := "0123456789abcdef"

  ghost predicate OneOf(c: Byte, text: string) {
    exists k :: 0 <= k < |text| && c == text[k] as int
  }

  /** The unreserved characters (section 2.3 of RFC 3986). */
  ghost predicate UnreservedByStandard(c: Byte) {
    OneOf(c, CAPITALS) || OneOf(c, SMALL) || OneOf(c, "0123456789") || OneOf(c, "-._~")
  }

  lemma CapitalExactly(c: Byte)
    ensures 65 <= c <= 90 <==> OneOf(c, CAPITALS)
  {
    if 65 <= c <= 90 {
      CapitalLetter(c - 65);
      assert c == CAPITALS[c - 65] as int;
    }
    if k :| 0 <= k < |CAPITALS| && c == CAPITALS[k] as int {
      CapitalLetter(k);
    }
  }

  lemma SmallExactly(c: Byte)
    ensures 97 <= c <= 122 <==> OneOf(c, SMALL)
  {
    if 97 <= c <= 122 {
      SmallLetter(c - 97);
      assert c == SMALL[c - 97] as int;
    }
    if k :| 0 <= k < |SMALL| && c == SMALL[k] as int {
      SmallLetter(k);
    }
  }

  lemma DecimalExactly(c: Byte)
    ensures IsDigit(c) <==> OneOf(c, "0123456789")
  {
    if IsDigit(c) {
      assert c == "0123456789"[c - 48] as int;
    }
  }

  lemma LetterOrDigit(c: Byte)
    ensures IsLetter(c) <==> OneOf(c, CAPITALS) || OneOf(c, SMALL)
    ensures IsDigit(c) <==> OneOf(c, "0123456789")
  {
    hide OneOf;
    CapitalExactly(c);
    SmallExactly(c);
    DecimalExactly(c);
  }

  lemma UnreservedExactly(c: Byte)
    ensures Unreserved(c) <==> UnreservedByStandard(c)
  {
    LetterOrDigit(c);
    hide OneOf;
    PunctuationMarks(c);
  }

  lemma PunctuationMarks(c: Byte)
    ensures OneOf(c, "-._~") <==> c == 45 || c == 46 || c == 95 || c == 126
  {
    var marks := "-._~";
    if c == 45 { assert c == marks[0] as int; }
    if c == 46 { assert c == marks[1] as int; }
    if c == 95 { assert c == marks[2] as int; }
    if c == 126 { assert c == marks[3] as int; }
  }

  lemma HexDigitsByStandard(v: nat)
    requires v < 16
    ensures HexDigit(v) == HEX_UPPER[v] as int
  {
  }

  /** A byte by itself escapes to itself if it is unreserved, a space to `+`, and any other to `%` and its two
      upper-case hexadecimal digits. */
  lemma EscapeTable(c: Byte)
    ensures QueryEscape([c]) ==
            if UnreservedByStandard(c) then [c]
            else if c == ' ' as int then ['+' as int]
            else ['%' as int, HEX_UPPER[c / 16] as int, HEX_UPPER[c % 16] as int]
  {
    hide UnreservedByStandard, Unreserved;
    UnreservedExactly(c);
    HexDigitsByStandard(c / 16);
    HexDigitsByStandard(c % 16);
    assert [c][1..] == [];
    assert QueryEscape([c]) == EscapeByte(c) + QueryEscape([]);
  }

  /** A text escapes byte by byte. */
  lemma {:induction false} EscapeAppend(a: Bytes, b: Bytes)
    ensures QueryEscape(a + b) == QueryEscape(a) + QueryEscape(b)
  {
    hide EscapeByte;
    if a == [] {
      assert a + b == b;
    } else {
      assert (a + b)[1..] == a[1..] + b;
      EscapeAppend(a[1..], b);
    }
  }

  // ---- Unescaping ----

  ghost predicate HexChar(d: Byte, v: nat)
    requires v < 16
  {
    d == HEX_UPPER[v] as int || d == HEX_LOWER[v] as int
  }

  /** The piece stands for `c`: `%` and two hexadecimal digits of either case, or the byte itself, where a
      query writes a space as `+`. */
  ghost predicate SpellsByte(piece: Bytes, query: bool, c: Byte) {
    || (|piece| == 3 && piece[0] == PERCENT && HexChar(piece[1], c / 16) && HexChar(piece[2], c % 16))
    || (|piece| == 1 && piece[0] != PERCENT && c == if query && piece[0] == PLUS then SPACE else piece[0])
  }

  ghost predicate PiecesSpell(pieces: seq<Bytes>, query: bool, b: Bytes) {
    |pieces| == |b| && forall i :: 0 <= i < |b| ==> SpellsByte(pieces[i], query, b[i])
  }

  ghost predicate SpellsText(s: Bytes, query: bool, b: Bytes) {
    exists pieces :: PiecesSpell(pieces, query, b) && Join(pieces) == s
  }

  lemma HexValues(d: Byte, v: nat)
    requires v < 16
    ensures HexChar(d, v) <==> IsHex(d) && HexValue(d) == v
  {
    if IsHex(d) {
      var k := HexValue(d);
      assert d == if IsDigit(d) || d <= 70 then HEX_UPPER[k] as int else HEX_LOWER[k] as int;
    }
  }

  lemma HexByte(d: Byte, e: Byte, c: Byte)
    ensures HexChar(d, c / 16) && HexChar(e, c % 16) <==> IsHex(d) && IsHex(e) && HexValue(d) * 16 + HexValue(e) == c
  {
    HexValues(d, c / 16);
    HexValues(e, c % 16);
    hide HexChar, HexValue, IsHex;
  }

  lemma {:induction false} UnescapedPieces(s: Bytes, query: bool) returns (pieces: seq<Bytes>)
    requires Unescape(s, query).Some?
    ensures PiecesSpell(pieces, query, Unescape(s, query).value) && Join(pieces) == s
    decreases |s|
  {
    hide HexChar, IsHex, HexValue;
    pieces := [];
    if s != [] {
      var n := if s[0] == PERCENT then 3 else 1;
      var b := Unescape(s, query).value;
      var rest := UnescapedPieces(s[n..], query);
      if n == 3 {
        HexByte(s[1], s[2], b[0]);
      }
      pieces := [s[..n]] + rest;
      JoinCons(s[..n], rest);
      assert s == s[..n] + s[n..];
      assert b[1..] == Unescape(s[n..], query).value;
      forall i | 0 <= i < |b| ensures SpellsByte(pieces[i], query, b[i]) {
        if i > 0 {
          assert pieces[i] == rest[i - 1] && b[i] == b[1..][i - 1];
        }
      }
    }
  }

  lemma {:induction false} PiecesUnescape(pieces: seq<Bytes>, query: bool, b: Bytes)
    requires PiecesSpell(pieces, query, b)
    ensures Unescape(Join(pieces), query) == Some(b)
  {
    hide HexChar, IsHex, HexValue;
    if b != [] {
      var piece, rest := pieces[0], Join(pieces[1..]);
      PiecesUnescape(pieces[1..], query, b[1..]);
      var s := piece + rest;
      assert SpellsByte(piece, query, b[0]);
      assert s[|piece|..] == rest;
      if |piece| == 3 {
        HexByte(piece[1], piece[2], b[0]);
      }
      assert b == [b[0]] + b[1..];
    }
  }

  /** Unescaping yields `b` exactly on the texts that spell `b`, and fails on all that spell nothing. */
  lemma UnescapeExactly(s: Bytes, query: bool, b: Bytes)
    ensures Unescape(s, query) == Some(b) <==> SpellsText(s, query, b)
  {
    hide Unescape, PiecesSpell, Join;
    if Unescape(s, query) == Some(b) {
      var pieces := UnescapedPieces(s, query);
    }
    if pieces :| PiecesSpell(pieces, query, b) && Join(pieces) == s {
      PiecesUnescape(pieces, query, b);
    }
  }

  ghost predicate Spellable(s: Bytes) {
    exists b :: SpellsText(s, false, b)
  }

  lemma SpellableExactly(s: Bytes)
    ensures Unescape(s, false).Some? <==> Spellable(s)
  {
    hide Unescape, SpellsText;
    if Unescape(s, false).Some? {
      UnescapeExactly(s, false, Unescape(s, false).value);
    }
    if b :| SpellsText(s, false, b) {
      UnescapeExactly(s, false, b);
    }
  }

  // ---- The fields of a query ----

  /** The piece says `value` for `key`: it has no semicolon and is `key=value`, or `key` alone, in spellings. */
  ghost predicate PieceSays(piece: Bytes, key: Bytes, value: Bytes) {
    && SEMICOLON !in piece && piece != []
    && exists k, v :: FieldText(piece, k, v) && SpellsText(k, true, key) && SpellsText(v, true, value)
  }

  predicate FieldText(piece: Bytes, k: Bytes, v: Bytes) {
    EQUALS !in k && (piece == k + [EQUALS] + v || (piece == k && v == []))
  }

  lemma FieldTextExactly(piece: Bytes, k: Bytes, v: Bytes)
    ensures FieldText(piece, k, v) <==> k == Before(piece, EQUALS) && v == After(piece, EQUALS)
  {
    if EQUALS in piece {
      var i := IndexByte(piece, EQUALS);
      assert piece == piece[..i] + [EQUALS] + piece[i + 1..];
    } else {
      CutAbsent(piece, EQUALS);
    }
    if piece == k + [EQUALS] + v && EQUALS !in k {
      CutAt(k, EQUALS, v);
    }
  }

  lemma FieldExactly(piece: Bytes, key: Bytes, value: Bytes)
    ensures ReadField(piece) == Some(Field(key, value)) <==> PieceSays(piece, key, value)
  {
    hide Unescape, Before, After, FieldText, SpellsText;
    var k, v := Before(piece, EQUALS), After(piece, EQUALS);
    FieldTextExactly(piece, k, v);
    UnescapeExactly(k, true, key);
    UnescapeExactly(v, true, value);
    if PieceSays(piece, key, value) {
      var k', v' :| FieldText(piece, k', v') && SpellsText(k', true, key) && SpellsText(v', true, value);
      FieldTextExactly(piece, k', v');
    }
  }

  /** Piece `i` is the first that says anything for `key`, and says `value`. */
  ghost predicate FirstAt(pieces: seq<Bytes>, i: int, key: Bytes, value: Bytes) {
    && 0 <= i < |pieces| && PieceSays(pieces[i], key, value)
    && forall j, x :: 0 <= j < i ==> !PieceSays(pieces[j], key, x)
  }

  /** Of the pieces between the ampersands the first that says anything for `key` says `value`; or none does
      and `value` is empty. */
  ghost predicate Says(query: Bytes, key: Bytes, value: Bytes) {
    var pieces := Split(query, AMPERSAND);
    || (exists i :: FirstAt(pieces, i, key, value))
    || (value == [] && forall i, x :: 0 <= i < |pieces| ==> !PieceSays(pieces[i], key, x))
  }

  /** The first field with the key, among the pieces. */
  function GetIn(pieces: seq<Bytes>, key: Bytes): Bytes {
    if pieces == [] then []
    else
      var field := ReadField(pieces[0]);
      if field.Some? && field.value.key == key then field.value.value else GetIn(pieces[1..], key)
  }

  lemma {:induction false} GetByPieces(query: Bytes, key: Bytes)
    ensures QueryGet(query, key) == GetIn(Split(query, AMPERSAND), key)
    decreases |query|
  {
    var pieces := Split(query, AMPERSAND);
    if AMPERSAND in query {
      hide ReadField;
      assert IndexByte(query, AMPERSAND) < |query|;
      assert pieces[1..] == Split(After(query, AMPERSAND), AMPERSAND);
      GetByPieces(After(query, AMPERSAND), key);
    } else {
      CutAbsent(query, AMPERSAND);
      assert pieces[1..] == [];
      assert QueryGet([], key) == [] && GetIn([], key) == [];
    }
  }

  lemma {:induction false} GetInExactly(pieces: seq<Bytes>, key: Bytes)
    ensures var value := GetIn(pieces, key);
            || (exists i :: FirstAt(pieces, i, key, value))
            || (value == [] && forall i, x :: 0 <= i < |pieces| ==> !PieceSays(pieces[i], key, x))
  {
    hide ReadField, PieceSays;
    if pieces != [] {
      var field, value, rest := ReadField(pieces[0]), GetIn(pieces, key), pieces[1..];
      forall x ensures PieceSays(pieces[0], key, x) <==> field == Some(Field(key, x)) {
        FieldExactly(pieces[0], key, x);
      }
      if field.Some? && field.value.key == key {
        assert FirstAt(pieces, 0, key, value);
      } else {
        GetInExactly(rest, key);
        assert forall i :: 0 <= i < |rest| ==> rest[i] == pieces[i + 1];
        if i :| FirstAt(rest, i, key, value) {
          forall j, x | 0 <= j < i + 1 ensures !PieceSays(pieces[j], key, x) {
            if j > 0 {
              assert pieces[j] == rest[j - 1];
            }
          }
          assert FirstAt(pieces, i + 1, key, value);
        } else {
          forall i, x | 0 <= i < |pieces| ensures !PieceSays(pieces[i], key, x) {
            if i > 0 {
              assert pieces[i] == rest[i - 1];
            }
          }
        }
      }
    }
  }

  /** What a query says for a key is one value. */
  lemma SaysOne(query: Bytes, key: Bytes, x: Bytes, y: Bytes)
    requires Says(query, key, x) && Says(query, key, y)
    ensures x == y
  {
    hide Split, PieceSays;
    var pieces := Split(query, AMPERSAND);
    if i :| FirstAt(pieces, i, key, x) {
      var j :| FirstAt(pieces, j, key, y);
      assert i == j;
      FieldExactly(pieces[i], key, x);
      FieldExactly(pieces[i], key, y);
    }
  }

  /** Reading a key from a query gives what the query says for it. */
  lemma GetExactly(query: Bytes, key: Bytes, value: Bytes)
    ensures QueryGet(query, key) == value <==> Says(query, key, value)
  {
    GetByPieces(query, key);
    GetInExactly(Split(query, AMPERSAND), key);
    hide QueryGet, GetIn, Split, PieceSays;
    assert Says(query, key, QueryGet(query, key));
    if Says(query, key, value) {
      SaysOne(query, key, value, QueryGet(query, key));
    }
  }

  // ---- Host and port ----

  predicate Plain(s: Bytes) {
    COLON !in s && OPEN_BRACKET !in s && CLOSE_BRACKET !in s
  }

  predicate Bracketed(addr: Bytes, host: Bytes, port: Bytes) {
    && OPEN_BRACKET !in host && CLOSE_BRACKET !in host && Plain(port)
    && addr == [OPEN_BRACKET] + host + [CLOSE_BRACKET, COLON] + port
  }

  predicate Bare(addr: Bytes, host: Bytes, port: Bytes) {
    Plain(host) && Plain(port) && addr == host + [COLON] + port
  }

  /** `host:port` without further colons or brackets, or `[host]:port`, where the host may have colons. */
  ghost predicate HostPort(addr: Bytes) {
    || (exists host, port :: Bare(addr, host, port))
    || (exists host, port :: Bracketed(addr, host, port))
  }

  lemma LastAt(a: Bytes, c: Byte, b: Bytes)
    requires c !in b
    ensures AfterLast(a + [c] + b, c) == |a| + 1
  {
    hide AfterLast;
    var s := a + [c] + b;
    assert s[|a|] == c;
  }

  lemma BareSplits(addr: Bytes, host: Bytes, port: Bytes)
    requires Bare(addr, host, port)
    ensures SplitsHostPort(addr)
  {
    LastAt(host, COLON, port);
    assert addr[..|host|] == host;
  }

  lemma BracketedSplits(addr: Bytes, host: Bytes, port: Bytes)
    requires Bracketed(addr, host, port)
    ensures SplitsHostPort(addr)
  {
    hide AfterLast, IndexByte;
    var head, tail := [OPEN_BRACKET] + host, [COLON] + port;
    assert addr == head + [CLOSE_BRACKET] + tail;
    IndexAt(head, CLOSE_BRACKET, tail);
    var front := head + [CLOSE_BRACKET];
    assert addr == front + [COLON] + port;
    LastAt(front, COLON, port);
    BracketedTails(addr, host, port);
  }

  lemma BracketedTails(addr: Bytes, host: Bytes, port: Bytes)
    requires Bracketed(addr, host, port)
    ensures OPEN_BRACKET !in addr[1..] && CLOSE_BRACKET !in addr[|host| + 2..]
  {
    assert addr[1..] == host + [CLOSE_BRACKET, COLON] + port;
    assert addr[|host| + 2..] == [COLON] + port;
  }

  lemma IndexAt(a: Bytes, c: Byte, b: Bytes)
    requires c !in a
    ensures IndexByte(a + [c] + b, c) == |a|
  {
    CutAt(a, c, b);
    var s := a + [c] + b;
    assert s[|a|] == c;
    assert forall k :: 0 <= k < |a| ==> s[k] == a[k];
  }

  lemma PartOf(s: Bytes, c: Byte, from: nat, i: nat, j: nat)
    requires from <= i <= j <= |s| && c !in s[from..]
    ensures c !in s[i..j]
  {
    forall k | 0 <= k < j - i ensures s[i..j][k] != c {
      assert s[i..j][k] == s[from..][i + k - from];
    }
  }

  lemma SplitsAsForm(addr: Bytes)
    requires SplitsHostPort(addr)
    ensures HostPort(addr)
  {
    hide AfterLast, IndexByte;
    var i := AfterLast(addr, COLON) - 1;
    if addr[0] == OPEN_BRACKET {
      BracketedForm(addr, IndexByte(addr, CLOSE_BRACKET), i);
    } else {
      BareForm(addr, i);
    }
  }

  lemma BareForm(addr: Bytes, i: nat)
    requires i < |addr| && addr[i] == COLON && COLON !in addr[i + 1..] && COLON !in addr[..i]
    requires OPEN_BRACKET !in addr && CLOSE_BRACKET !in addr
    ensures HostPort(addr)
  {
    var host, port := addr[..i], addr[i + 1..];
    assert addr == host + [COLON] + port;
    assert Bare(addr, host, port);
  }

  lemma BracketedForm(addr: Bytes, end: nat, i: nat)
    requires end + 1 == i < |addr| && addr[0] == OPEN_BRACKET && addr[end] == CLOSE_BRACKET && addr[i] == COLON
    requires COLON !in addr[i + 1..] && OPEN_BRACKET !in addr[1..] && CLOSE_BRACKET !in addr[end + 1..]
    requires forall k :: 0 <= k < end ==> addr[k] != CLOSE_BRACKET
    ensures HostPort(addr)
  {
    var host, port := addr[1..end], addr[i + 1..];
    PartOf(addr, OPEN_BRACKET, 1, 1, end);
    PartOf(addr, OPEN_BRACKET, 1, i + 1, |addr|);
    PartOf(addr, CLOSE_BRACKET, end + 1, i + 1, |addr|);
    assert addr[i + 1..|addr|] == port;
    assert addr == [OPEN_BRACKET] + host + [CLOSE_BRACKET, COLON] + port;
    assert Bracketed(addr, host, port);
  }

  lemma SplitsExactly(addr: Bytes)
    ensures SplitsHostPort(addr) <==> HostPort(addr)
  {
    hide SplitsHostPort, Bare, Bracketed;
    if SplitsHostPort(addr) {
      SplitsAsForm(addr);
    }
    if host, port :| Bare(addr, host, port) {
      BareSplits(addr, host, port);
    }
    if host, port :| Bracketed(addr, host, port) {
      BracketedSplits(addr, host, port);
    }
  }

  // ---- The URL ----

  /** The parts of a pairing URL. */
  datatype Parts = Parts(scheme: Bytes, user: Option<Bytes>, path: Bytes, query: Option<Bytes>, fragment: Option<Bytes>)

  function WithUser(p: Parts): Bytes {
    if p.user.Some? then p.user.value + Ascii("@") + Ascii("pair") else Ascii("pair")
  }

  function WithQuery(p: Parts): Bytes {
    if p.query.Some? then Ascii("?") + p.query.value else []
  }

  function WithFragment(p: Parts): Bytes {
    if p.fragment.Some? then Ascii("#") + p.fragment.value else []
  }

  /** Everything before the fragment. */
  function Front(p: Parts): Bytes {
    p.scheme + Ascii("://") + WithUser(p) + p.path + WithQuery(p)
  }

  function UrlText(p: Parts): Bytes {
    Front(p) + WithFragment(p)
  }

  ghost predicate IsVulos(scheme: Bytes) {
    |scheme| == 5 && forall i :: 0 <= i < 5 ==> scheme[i] == "vulos"[i] as int || scheme[i] == "VULOS"[i] as int
  }

  ghost predicate UserinfoChar(c: Byte) {
    || OneOf(c, CAPITALS) || OneOf(c, SMALL) || OneOf(c, "0123456789")
    || OneOf(c, "-._:~!$&'()*+,;=%@")
  }

  /** A user and perhaps a password, in characters that may stand there and spellings that can be read. */
  ghost predicate UserinfoForm(s: Bytes) {
    && (forall i :: 0 <= i < |s| ==> UserinfoChar(s[i]))
    && exists user, password :: ColonParts(s, user, password) && Spellable(user) && Spellable(password)
  }

  predicate ColonParts(s: Bytes, user: Bytes, password: Bytes) {
    COLON !in user && (s == user + [COLON] + password || (s == user && password == []))
  }

  predicate NoControl(s: Bytes) {
    forall i :: 0 <= i < |s| ==> 32 <= s[i] != 127
  }

  ghost predicate WellFormed(p: Parts) {
    && IsVulos(p.scheme)
    && (p.user.Some? ==> UserinfoForm(p.user.value))
    && (p.path == [] || p.path[0] == SLASH) && QUESTION !in p.path && HASH !in p.path && Spellable(p.path)
    && (p.query.Some? ==> HASH !in p.query.value)
    && NoControl(Front(p))
    && (p.fragment.Some? ==> Spellable(p.fragment.value))
  }

  /** The text is a pairing URL, and `query` is what stands after its question mark, if anything. */
  ghost predicate IsPairUrl(payload: Bytes, query: Bytes) {
    exists p :: WellFormed(p) && payload == UrlText(p) && query == if p.query.Some? then p.query.value else []
  }

  lemma Marks()
    ensures Ascii("=") == [EQUALS] && Ascii("&") == [AMPERSAND]
    ensures Ascii("@") == [AT] && Ascii("?") == [QUESTION] && Ascii("#") == [HASH]
  {
  }

  lemma Slashes()
    ensures Ascii("://") == [COLON, SLASH, SLASH]
  {
  }

  lemma SchemeAndHost()
    ensures Ascii("pair") == HOST && Ascii("vulos") == SCHEME
  {
  }

  lemma Keys()
    ensures Ascii("name") == NAME && Ascii("addr") == ADDR && Ascii("spki") == SPKI
  {
  }

  lemma Literals()
    ensures Ascii("=") == [EQUALS] && Ascii("&") == [AMPERSAND]
    ensures Ascii("@") == [AT] && Ascii("?") == [QUESTION] && Ascii("#") == [HASH]
    ensures Ascii("://") == [COLON, SLASH, SLASH] && Ascii("pair") == HOST && Ascii("vulos") == SCHEME
    ensures Ascii("name") == NAME && Ascii("addr") == ADDR && Ascii("spki") == SPKI
  {
    hide Ascii;
    Marks();
    Slashes();
    SchemeAndHost();
    Keys();
  }

  lemma UserinfoCharExactly(c: Byte)
    ensures UserinfoByte(c) <==> UserinfoChar(c)
  {
    LetterOrDigit(c);
    UserinfoMarks(c);
    hide OneOf;
  }

  lemma UserinfoMarks(c: Byte)
    ensures OneOf(c, "-._:~!$&'()*+,;=%@") <==> c in {33, 36, 37, 38, 39, 40, 41, 42, 43, 44, 45, 46, 58, 59, 61, 64, 95, 126}
  {
    var marks := "-._:~!$&'()*+,;=%@";
    assert |marks| == 18;
    assert marks[0] == '-' && marks[1] == '.' && marks[2] == '_' && marks[3] == ':' && marks[4] == '~' && marks[5] == '!';
    assert marks[6] == '$' && marks[7] == '&' && marks[8] == '\'' && marks[9] == '(' && marks[10] == ')' && marks[11] == '*';
    assert marks[12] == '+' && marks[13] == ',' && marks[14] == ';' && marks[15] == '=' && marks[16] == '%' && marks[17] == '@';
  }

  lemma ColonPartsExactly(s: Bytes, user: Bytes, password: Bytes)
    ensures ColonParts(s, user, password) <==> user == Before(s, COLON) && password == After(s, COLON)
  {
    if COLON in s {
      var i := IndexByte(s, COLON);
      assert s == s[..i] + [COLON] + s[i + 1..];
    } else {
      CutAbsent(s, COLON);
    }
    if s == user + [COLON] + password && COLON !in user {
      CutAt(user, COLON, password);
    }
  }

  lemma UserinfoExactly(s: Bytes)
    ensures ValidUserinfo(s) <==> UserinfoForm(s)
  {
    hide Unescape, Before, After, ColonParts, UserinfoByte, UserinfoChar, SpellsText, Spellable;
    forall i | 0 <= i < |s| ensures UserinfoByte(s[i]) <==> UserinfoChar(s[i]) {
      UserinfoCharExactly(s[i]);
    }
    var user, password := Before(s, COLON), After(s, COLON);
    ColonPartsExactly(s, user, password);
    SpellableExactly(user);
    SpellableExactly(password);
    if UserinfoForm(s) {
      var u, p :| ColonParts(s, u, p) && Spellable(u) && Spellable(p);
      ColonPartsExactly(s, u, p);
    }
  }

  lemma SchemeExactly(u: Bytes)
    requires |u| >= 5
    ensures (forall i :: 0 <= i < 5 ==> Lower(u[i]) == SCHEME[i]) <==> IsVulos(u[..5])
  {
    var low, high := "vulos", "VULOS";
    assert low[0] == 'v' && low[1] == 'u' && low[2] == 'l' && low[3] == 'o' && low[4] == 's';
    assert high[0] == 'V' && high[1] == 'U' && high[2] == 'L' && high[3] == 'O' && high[4] == 'S';
  }

  lemma UserHasNo(s: Bytes, c: Byte)
    requires UserinfoForm(s) && c in {SLASH, QUESTION, HASH}
    ensures c !in s
  {
    hide UserinfoChar, Spellable, ColonParts;
    if c in s {
      var i :| 0 <= i < |s| && s[i] == c;
      assert UserinfoChar(s[i]);
      UserinfoCharExactly(c);
    }
  }

  lemma VulosHasNo(s: Bytes)
    requires IsVulos(s)
    ensures HASH !in s
  {
    var low, high := "vulos", "VULOS";
    assert low[0] == 'v' && low[1] == 'u' && low[2] == 'l' && low[3] == 'o' && low[4] == 's';
    assert high[0] == 'V' && high[1] == 'U' && high[2] == 'L' && high[3] == 'O' && high[4] == 'S';
  }

  lemma AuthorityParts(p: Parts)
    requires p.user.Some? ==> UserinfoForm(p.user.value)
    ensures var a := WithUser(p);
            && SLASH !in a && QUESTION !in a && HASH !in a
            && var host := AfterLast(a, AT);
               && a[host..] == HOST
               && (host > 0 <==> p.user.Some?)
               && (p.user.Some? ==> a[..host - 1] == p.user.value)
  {
    hide UserinfoForm, AfterLast, Ascii;
    Literals();
    if p.user.Some? {
      UserHasNo(p.user.value, SLASH);
      UserHasNo(p.user.value, QUESTION);
      UserHasNo(p.user.value, HASH);
      LastAt(p.user.value, AT, HOST);
      assert WithUser(p) == p.user.value + [AT] + HOST;
    } else {
      BareHost();
    }
  }

  lemma HierarchyParts(p: Parts)
    requires WellFormed(p)
    ensures var h := Hierarchy(p);
            && |h| >= 2 && h[0] == SLASH && h[1] == SLASH
            && QUESTION !in h && HASH !in h && h[2..] == WithUser(p) + p.path
            && var slash := IndexByte(h[2..], SLASH);
               h[2..][..slash] == WithUser(p) && h[2..][slash..] == p.path
  {
    hide IsVulos, UserinfoForm, WithUser, Spellable, IndexByte;
    AuthorityParts(p);
    var h, a := Hierarchy(p), WithUser(p);
    assert h[2..] == a + p.path;
    if p.path == [] {
      assert a + p.path == a;
      AbsentAt(a, SLASH);
    } else {
      assert p.path == [SLASH] + p.path[1..];
      assert a + p.path == a + [SLASH] + p.path[1..];
      IndexAt(a, SLASH, p.path[1..]);
    }
  }

  lemma AbsentAt(a: Bytes, c: Byte)
    requires c !in a
    ensures IndexByte(a, c) == |a|
  {
  }

  lemma FrontParts(p: Parts)
    requires WellFormed(p)
    ensures var u := Front(p);
            && HASH !in u && |u| > 6 && u[5] == COLON && u[..5] == p.scheme
            && Before(u[6..], QUESTION) == Hierarchy(p)
            && After(u[6..], QUESTION) == if p.query.Some? then p.query.value else []
  {
    hide IsVulos, UserinfoForm, WithUser, WithQuery, Hierarchy, Front, Spellable, IndexByte, Before, After, Ascii, NoControl;
    FrontOf(p);
    HierarchyParts(p);
    VulosHasNo(p.scheme);
    SchemeLength(p.scheme);
    QueryParts(p);
    var h := Hierarchy(p);
    assert Front(p)[6..] == h + WithQuery(p);
    if p.query.Some? {
      assert h + WithQuery(p) == h + [QUESTION] + p.query.value;
      CutAt(h, QUESTION, p.query.value);
    } else {
      assert h + WithQuery(p) == h;
      CutAbsent(h, QUESTION);
    }
  }

  lemma QueryParts(p: Parts)
    requires p.query.Some? ==> HASH !in p.query.value
    ensures HASH !in WithQuery(p)
    ensures WithQuery(p) == if p.query.Some? then [QUESTION] + p.query.value else []
  {
    hide Ascii;
    Literals();
  }

  lemma SchemeLength(s: Bytes)
    requires IsVulos(s)
    ensures |s| == 5
  {
  }

  lemma UrlParts(p: Parts)
    requires WellFormed(p)
    ensures Before(UrlText(p), HASH) == Front(p)
    ensures After(UrlText(p), HASH) == if p.fragment.Some? then p.fragment.value else []
  {
    hide WellFormed, Front, Before, After, Ascii;
    Literals();
    FrontParts(p);
    if p.fragment.Some? {
      assert UrlText(p) == Front(p) + [HASH] + p.fragment.value;
      CutAt(Front(p), HASH, p.fragment.value);
    } else {
      assert UrlText(p) == Front(p);
      CutAbsent(Front(p), HASH);
    }
  }

  lemma FormParses(p: Parts)
    requires WellFormed(p)
    ensures PairQuery(UrlText(p)) == Some(if p.query.Some? then p.query.value else [])
  {
    hide Front, UrlText, WithUser, Hierarchy, IsVulos, UserinfoForm, Spellable, Before, After, IndexByte, AfterLast, Unescape, ValidUserinfo, Lower;
    UrlParts(p);
    FrontParts(p);
    HierarchyParts(p);
    AuthorityParts(p);
    SchemeExactly(Front(p));
    SpellableExactly(p.path);
    SpellableExactly(if p.fragment.Some? then p.fragment.value else []);
    EmptyUnescapes();
    if p.user.Some? {
      UserinfoExactly(p.user.value);
    }
  }

  /** The part between the scheme and the query. */
  function Hierarchy(p: Parts): Bytes {
    [SLASH, SLASH] + WithUser(p) + p.path
  }

  lemma FrontOf(p: Parts)
    ensures Front(p) == p.scheme + [COLON] + (Hierarchy(p) + WithQuery(p))
  {
    hide Ascii, WithUser, WithQuery;
    Literals();
    assert [COLON] + [SLASH, SLASH] == [COLON, SLASH, SLASH];
  }

  lemma AuthorityOf(authority: Bytes) returns (user: Option<Bytes>)
    requires var host := AfterLast(authority, AT);
             authority[host..] == HOST && (host > 0 ==> ValidUserinfo(authority[..host - 1]))
    ensures forall scheme, path, query, fragment :: WithUser(Parts(scheme, user, path, query, fragment)) == authority
    ensures user.Some? ==> UserinfoForm(user.value)
  {
    hide Ascii, UserinfoForm, ValidUserinfo, AfterLast;
    Literals();
    var host := AfterLast(authority, AT);
    if host > 0 {
      user := Some(authority[..host - 1]);
      UserinfoExactly(authority[..host - 1]);
      assert authority == authority[..host - 1] + [AT] + HOST;
    } else {
      user := None;
      assert authority == HOST;
    }
  }

  lemma ParsesAsForm(payload: Bytes) returns (p: Parts)
    requires PairQuery(payload).Some?
    ensures WellFormed(p) && payload == UrlText(p)
    ensures PairQuery(payload).value == if p.query.Some? then p.query.value else []
  {
    hide Ascii, IsVulos, UserinfoForm, Spellable, AfterLast, Unescape, ValidUserinfo, Lower, IndexByte, Before, After, WithUser, Front;
    var u, fragment := Before(payload, HASH), After(payload, HASH);
    var hierarchy, query := Before(u[6..], QUESTION), After(u[6..], QUESTION);
    var slash := IndexByte(hierarchy[2..], SLASH);
    var authority, path := hierarchy[2..][..slash], hierarchy[2..][slash..];
    var user := AuthorityOf(authority);
    p := Parts(u[..5], user, path, if QUESTION in u[6..] then Some(query) else None, if HASH in payload then Some(fragment) else None);
    JoinedParts(payload, p);
    SchemeExactly(u);
    SpellableExactly(path);
    SpellableExactly(fragment);
    CutsHaveNo(payload, p);
    CutJoins(u[6..], QUESTION);
  }

  lemma JoinedParts(payload: Bytes, p: Parts)
    requires var u := Before(payload, HASH);
             && |u| >= 6 && u[5] == COLON && p.scheme == u[..5]
             && var h := Before(u[6..], QUESTION);
                && |h| >= 2 && h[0] == SLASH && h[1] == SLASH && h[2..] == WithUser(p) + p.path
                && p.query == (if QUESTION in u[6..] then Some(After(u[6..], QUESTION)) else None)
                && p.fragment == if HASH in payload then Some(After(payload, HASH)) else None
    ensures Front(p) == Before(payload, HASH) && UrlText(p) == payload
  {
    hide Ascii, Before, After, WithUser, Front;
    Literals();
    FrontOf(p);
    var u := Before(payload, HASH);
    var h := Before(u[6..], QUESTION);
    CutJoins(payload, HASH);
    CutJoins(u[6..], QUESTION);
    assert h == [SLASH, SLASH] + h[2..];
    assert h == Hierarchy(p);
    assert u[6..] == h + WithQuery(p);
    assert u == u[..5] + [COLON] + u[6..];
  }

  lemma CutsHaveNo(payload: Bytes, p: Parts)
    requires var u := Before(payload, HASH);
             && |u| >= 6
             && var h := Before(u[6..], QUESTION);
                && |h| >= 2 && p.path == h[2..][IndexByte(h[2..], SLASH)..]
                && p.query == if QUESTION in u[6..] then Some(After(u[6..], QUESTION)) else None
    ensures QUESTION !in p.path && HASH !in p.path && (p.path == [] || p.path[0] == SLASH)
    ensures p.query.Some? ==> HASH !in p.query.value
  {
    hide Before, After;
    var u := Before(payload, HASH);
    var h := Before(u[6..], QUESTION);
    CutJoins(payload, HASH);
    CutJoins(u[6..], QUESTION);
    assert HASH !in u[6..];
    assert forall k :: 0 <= k < |h| ==> h[k] == u[6..][k];
  }

  /** A text has a pairing query exactly when it is a pairing URL. */
  lemma PairQueryExactly(payload: Bytes, query: Bytes)
    ensures PairQuery(payload) == Some(query) <==> IsPairUrl(payload, query)
  {
    hide PairQuery, WellFormed, UrlText;
    if PairQuery(payload) == Some(query) {
      var p := ParsesAsForm(payload);
    }
    if p :| WellFormed(p) && payload == UrlText(p) && query == if p.query.Some? then p.query.value else [] {
      FormParses(p);
    }
  }

  // ---- What ParsePairPayload answers ----

  /** The answer for a query, in terms of the fields it has: the first of each key counts; a missing or empty
      field or an address that is no host and port is malformed, then a text that denotes no pin is. */
  ghost predicate AnswerFor(query: Bytes, r: Result<Payload, PairError>) {
    exists name, addr, spki ::
      && Says(query, Ascii("name"), name) && Says(query, Ascii("addr"), addr) && Says(query, Ascii("spki"), spki)
      && if name == [] || addr == [] || spki == [] || !HostPort(addr) then r == Err(MalformedPairPayload)
         else if PinOf(spki).None? then r == Err(MalformedPairPin)
         else r == Ok(Payload(name, addr, PinOf(spki).value))
  }

  /** For every text: it is refused as no pairing payload exactly when it is no pairing URL, and for a pairing
      URL the answer is what the fields of its query call for. */
  lemma ParseExactly(payload: Bytes)
    ensures ParsePairPayload(payload) == Err(UnknownPairScheme) <==> forall query :: !IsPairUrl(payload, query)
    ensures forall query :: IsPairUrl(payload, query) ==> AnswerFor(query, ParsePairPayload(payload))
  {
    hide PairQuery, IsPairUrl, QueryGet, Says, SplitsHostPort, HostPort, PinOf, Ascii;
    Literals();
    forall query ensures PairQuery(payload) == Some(query) <==> IsPairUrl(payload, query) {
      PairQueryExactly(payload, query);
    }
    if PairQuery(payload).Some? {
      var q := PairQuery(payload).value;
      var name, addr, spki := QueryGet(q, NAME), QueryGet(q, ADDR), QueryGet(q, SPKI);
      GetExactly(q, NAME, name);
      GetExactly(q, ADDR, addr);
      GetExactly(q, SPKI, spki);
      SplitsExactly(addr);
      assert AnswerFor(q, ParsePairPayload(payload));
    }
  }

  /** What a box shows: the scheme, the host and the three fields in the order of their keys, escaped. */
  lemma EncodedText(name: Bytes, addr: Bytes, pin: Pin)
    ensures EncodePairPayload(name, addr, pin) ==
            Ascii("vulos" + "://" + "pair" + "?") + (Ascii("addr" + "=") + QueryEscape(addr))
            + (Ascii("&" + "name" + "=") + QueryEscape(name)) + (Ascii("&" + "spki" + "=") + QueryEscape(PinString(pin)))
  {
    hide Ascii, QueryEscape, PinString;
    Literals();
    KeysEscape();
    AsciiAppend("vulos", "://");
    AsciiAppend("vulos" + "://", "pair");
    AsciiAppend("vulos" + "://" + "pair", "?");
    AsciiAppend("addr", "=");
    AsciiAppend("&", "name");
    AsciiAppend("&" + "name", "=");
    AsciiAppend("&", "spki");
    AsciiAppend("&" + "spki", "=");
    EncodedParts(name, addr, pin);
  }

  lemma EncodedParts(name: Bytes, addr: Bytes, pin: Pin)
    requires QueryEscape(ADDR) == ADDR && QueryEscape(NAME) == NAME && QueryEscape(SPKI) == SPKI
    ensures EncodePairPayload(name, addr, pin) ==
            (SCHEME + [COLON, SLASH, SLASH] + HOST + [QUESTION]) + (ADDR + [EQUALS] + QueryEscape(addr))
            + ([AMPERSAND] + NAME + [EQUALS] + QueryEscape(name)) + ([AMPERSAND] + SPKI + [EQUALS] + QueryEscape(PinString(pin)))
  {
    hide QueryEscape, PinString;
  }

  lemma KeysEscape()
    ensures QueryEscape(ADDR) == ADDR && QueryEscape(NAME) == NAME && QueryEscape(SPKI) == SPKI
  {
  }
}
