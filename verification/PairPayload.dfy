/** The pairing payload codec (clients/core/pair.go): `vulos://pair?addr=..&name=..&spki=..`.

    Escaping is percent-encoding (section 2.1 of RFC 3986) in its form variant, where a space is
    written `+` (section 5 of the WHATWG URL Standard), as Go's net/url does it. */
module PairPayload {
  import opened Wrappers
  import opened GoStrings
  import opened Pinning

  datatype PairError = UnknownPairScheme | MalformedPairPayload | MalformedPairPin

  datatype Payload = Payload(name: Bytes, addr: Bytes, pin: Pin)

  // ---- Escaping ----

  predicate Unreserved(c: Byte) {
    IsLetter(c) || IsDigit(c) || c == 45 || c == 46 || c == 95 || c == 126
  }

  function HexDigit(v: nat): Byte
    requires v < 16
  {
    if v < 10 then 48 + v else 55 + v
  }

  predicate IsHex(c: Byte) {
    IsDigit(c) || 65 <= c <= 70 || 97 <= c <= 102
  }

  function HexValue(c: Byte): (v: nat)
    requires IsHex(c)
    ensures v < 16
  {
    if IsDigit(c) then c - 48 else if c <= 70 then c - 55 else c - 87
  }

  function EscapeByte(c: Byte): Bytes {
    if Unreserved(c) then [c]
    else if c == SPACE then [PLUS]
    else [PERCENT, HexDigit(c / 16), HexDigit(c % 16)]
  }

  /** `url.QueryEscape`. */
  function QueryEscape(s: Bytes): Bytes {
    if s == [] then [] else EscapeByte(s[0]) + QueryEscape(s[1..])
  }

  /** `url.unescape`; only the query variant reads `+` as a space. */
  function Unescape(s: Bytes, query: bool): (r: Option<Bytes>)
    decreases |s|
  {
    if s == [] then Some([])
    else if s[0] == PERCENT then
      if |s| < 3 || !IsHex(s[1]) || !IsHex(s[2]) then None
      else match Unescape(s[3..], query)
        case None => None
        case Some(rest) => Some([HexValue(s[1]) * 16 + HexValue(s[2])] + rest)
    else match Unescape(s[1..], query)
      case None => None
      case Some(rest) => Some([if query && s[0] == PLUS then SPACE else s[0]] + rest)
  }

  /** A byte that an escaped string may contain. */
  predicate Plain(c: Byte) {
    Unreserved(c) || c == PLUS || c == PERCENT
  }

  predicate AllPlain(s: Bytes) {
    forall i :: 0 <= i < |s| ==> Plain(s[i])
  }

  lemma {:induction false} EscapedIsPlain(s: Bytes)
    ensures AllPlain(QueryEscape(s))
    ensures QueryEscape(s) == [] <==> s == []
  {
    if s != [] {
      EscapedIsPlain(s[1..]);
    }
  }

  lemma HexPair(c: Byte)
    ensures IsHex(HexDigit(c / 16)) && IsHex(HexDigit(c % 16))
    ensures HexValue(HexDigit(c / 16)) * 16 + HexValue(HexDigit(c % 16)) == c
  {
  }

  /** Unescaping undoes escaping, for every string. */
  lemma {:induction false} UnescapeEscape(s: Bytes)
    ensures Unescape(QueryEscape(s), true) == Some(s)
  {
    if s != [] {
      var c, rest := s[0], QueryEscape(s[1..]);
      UnescapeEscape(s[1..]);
      HexPair(c);
      var e := EscapeByte(c) + rest;
      if Unreserved(c) || c == SPACE {
        assert e[1..] == rest;
      } else {
        assert e[3..] == rest;
      }
      assert s == [c] + s[1..];
    }
  }

  // ---- The query ----

  datatype Field = Field(key: Bytes, value: Bytes)

  /** One `&`-separated piece of a query, unless `url.ParseQuery` skips it. */
  function ReadField(piece: Bytes): Option<Field> {
    if SEMICOLON in piece || piece == [] then None
    else
      var key, value := Unescape(Before(piece, EQUALS), true), Unescape(After(piece, EQUALS), true);
      if key.Some? && value.Some? then Some(Field(key.value, value.value)) else None
  }

  /** `url.Values.Get` after `url.ParseQuery`: the first value of `key`, or nothing. */
  function QueryGet(query: Bytes, key: Bytes): Bytes
    decreases |query|
  {
    if query == [] then []
    else
      var field := ReadField(Before(query, AMPERSAND));
      if field.Some? && field.value.key == key then field.value.value
      else QueryGet(After(query, AMPERSAND), key)
  }

  function PrintField(key: Bytes, value: Bytes): Bytes {
    QueryEscape(key) + [EQUALS] + QueryEscape(value)
  }

  lemma EscapedHasNoSeparator(s: Bytes)
    ensures EQUALS !in QueryEscape(s) && AMPERSAND !in QueryEscape(s) && SEMICOLON !in QueryEscape(s)
  {
    hide QueryEscape;
    EscapedIsPlain(s);
  }

  lemma ReadPrintedField(key: Bytes, value: Bytes)
    ensures ReadField(PrintField(key, value)) == Some(Field(key, value))
    ensures AMPERSAND !in PrintField(key, value)
  {
    hide QueryEscape, Unescape, IndexByte;
    EscapedHasNoSeparator(key);
    EscapedHasNoSeparator(value);
    CutAt(QueryEscape(key), EQUALS, QueryEscape(value));
    UnescapeEscape(key);
    UnescapeEscape(value);
  }

  lemma GetFirst(key: Bytes, value: Bytes, rest: Bytes, wanted: Bytes)
    ensures QueryGet(PrintField(key, value) + [AMPERSAND] + rest, wanted) ==
            if key == wanted then value else QueryGet(rest, wanted)
  {
    hide ReadField, PrintField;
    ReadPrintedField(key, value);
    CutAt(PrintField(key, value), AMPERSAND, rest);
  }

  lemma GetLast(key: Bytes, value: Bytes, wanted: Bytes)
    ensures QueryGet(PrintField(key, value), wanted) == if key == wanted then value else []
  {
    ReadPrintedField(key, value);
    CutAbsent(PrintField(key, value), AMPERSAND);
  }

  // ---- The address ----

  /** Whether `net.SplitHostPort` accepts the address. */
  predicate SplitsHostPort(addr: Bytes) {
    var i := AfterLast(addr, COLON) - 1;  // the last colon
    && i >= 0
    && (if addr[0] == OPEN_BRACKET then
          var end := IndexByte(addr, CLOSE_BRACKET);
          end < |addr| && end + 1 == i && OPEN_BRACKET !in addr[1..] && CLOSE_BRACKET !in addr[end + 1..]
        else
          COLON !in addr[..i] && OPEN_BRACKET !in addr && CLOSE_BRACKET !in addr)
  }

  // ---- The URL ----

  const SCHEME: Bytes := [118, 117, 108, 111, 115]  // vulos
  const HOST: Bytes := [112, 97, 105, 114]          // pair
  const NAME: Bytes := [110, 97, 109, 101]          // name
  const ADDR: Bytes := [97, 100, 100, 114]          // addr
  const SPKI: Bytes := [115, 112, 107, 105]         // spki

  /** `EncodePairPayload`; `url.Values.Encode` sorts the keys. */
  function EncodePairPayload(name: Bytes, addr: Bytes, pin: Pin): Bytes {
    SCHEME + [COLON, SLASH, SLASH] + HOST + [QUESTION] + PrintQuery(name, addr, pin)
  }

  function PrintQuery(name: Bytes, addr: Bytes, pin: Pin): Bytes {
    PrintField(ADDR, addr) + [AMPERSAND] + (PrintField(NAME, name) + [AMPERSAND] + PrintField(SPKI, PinString(pin)))
  }

  predicate IsControl(c: Byte) {
    c < SPACE || c == 127
  }

  function Lower(c: Byte): Byte {
    if 65 <= c <= 90 then c + 32 else c
  }

  /** The bytes `validUserinfo` lets through. */
  predicate UserinfoByte(c: Byte) {
    || IsLetter(c) || IsDigit(c)
    || c in {33, 36, 37, 38, 39, 40, 41, 42, 43, 44, 45, 46, 58, 59, 61, 64, 95, 126}
  }

  predicate ValidUserinfo(s: Bytes) {
    && (forall i :: 0 <= i < |s| ==> UserinfoByte(s[i]))
    && Unescape(Before(s, COLON), false).Some?
    && Unescape(After(s, COLON), false).Some?
  }

  /** The raw query of `payload` if `url.Parse` accepts it and finds scheme `vulos` (in any case) and
      host `pair`; userinfo, a path and a fragment are allowed and ignored. */
  function PairQuery(payload: Bytes): Option<Bytes> {
    var u, fragment := Before(payload, HASH), After(payload, HASH);
    if (exists i :: 0 <= i < |u| && IsControl(u[i])) then None
    else if |u| < 6 || u[5] != COLON || (exists i :: 0 <= i < 5 && Lower(u[i]) != SCHEME[i]) then None
    else
      var hierarchy, query := Before(u[6..], QUESTION), After(u[6..], QUESTION);
      if |hierarchy| < 2 || hierarchy[0] != SLASH || hierarchy[1] != SLASH then None
      else
        var slash := IndexByte(hierarchy[2..], SLASH);
        var authority, path := hierarchy[2..][..slash], hierarchy[2..][slash..];
        var host := AfterLast(authority, AT);
        if authority[host..] != HOST then None
        else if host > 0 && !ValidUserinfo(authority[..host - 1]) then None
        else if Unescape(path, false).None? || Unescape(fragment, false).None? then None
        else Some(query)
  }

  /** `ParsePairPayload`. */
  function ParsePairPayload(payload: Bytes): (r: Result<Payload, PairError>) {
    match PairQuery(payload)
    case None => Err(UnknownPairScheme)
    case Some(q) =>
      var name, addr, spki := QueryGet(q, NAME), QueryGet(q, ADDR), QueryGet(q, SPKI);
      if name == [] || addr == [] || spki == [] then Err(MalformedPairPayload)
      else if !SplitsHostPort(addr) then Err(MalformedPairPayload)
      else match PinOf(spki)
        case None => Err(MalformedPairPin)
        case Some(pin) => Ok(Payload(name, addr, pin))
  }

  lemma BareHost()
    ensures IndexByte(HOST, SLASH) == 4 && AfterLast(HOST, AT) == 0
    ensures HOST[..4] == HOST && HOST[4..] == [] && HOST[0..] == HOST
  {
  }

  lemma EmptyUnescapes()
    ensures Unescape([], false) == Some([])
  {
  }

  /** The query part comes back untouched when it holds no `#` and no control byte. */
  lemma PrefixParses(q: Bytes)
    requires forall i :: 0 <= i < |q| ==> q[i] != HASH && !IsControl(q[i])
    ensures PairQuery(SCHEME + [COLON, SLASH, SLASH] + HOST + [QUESTION] + q) == Some(q)
  {
    hide IndexByte, AfterLast, Unescape;
    var hierarchy := [SLASH, SLASH] + HOST;
    var u := SCHEME + [COLON, SLASH, SLASH] + HOST + [QUESTION] + q;
    CutAbsent(u, HASH);
    assert u[6..] == hierarchy + [QUESTION] + q;
    CutAt(hierarchy, QUESTION, q);
    assert hierarchy[2..] == HOST;
    BareHost();
    EmptyUnescapes();
  }

  lemma PrintedQueryIsClean(name: Bytes, addr: Bytes, pin: Pin)
    ensures var q := PrintQuery(name, addr, pin);
            forall i :: 0 <= i < |q| ==> q[i] != HASH && !IsControl(q[i])
  {
    hide QueryEscape, PinString;
    EscapedIsPlain(ADDR);
    EscapedIsPlain(addr);
    EscapedIsPlain(NAME);
    EscapedIsPlain(name);
    EscapedIsPlain(SPKI);
    EscapedIsPlain(PinString(pin));
  }

  lemma GetsOfPrintedQuery(name: Bytes, addr: Bytes, pin: Pin)
    ensures var q := PrintQuery(name, addr, pin);
            QueryGet(q, NAME) == name && QueryGet(q, ADDR) == addr && QueryGet(q, SPKI) == PinString(pin)
  {
    hide QueryGet, PrintField, PinString;
    var spki := PinString(pin);
    var rest := PrintField(NAME, name) + [AMPERSAND] + PrintField(SPKI, spki);
    assert ADDR[0] != NAME[0] && ADDR[0] != SPKI[0] && NAME[0] != SPKI[0];
    forall wanted | wanted in {NAME, ADDR, SPKI}
      ensures QueryGet(PrintQuery(name, addr, pin), wanted) == if wanted == ADDR then addr else if wanted == NAME then name else spki
    {
      GetFirst(ADDR, addr, rest, wanted);
      GetFirst(NAME, name, PrintField(SPKI, spki), wanted);
      GetLast(SPKI, spki, wanted);
    }
  }

  /** Parsing an encoded payload gives back the three values, whatever bytes they hold, exactly when
      the name is not empty and the address splits into host and port. */
  lemma PayloadRoundTrip(name: Bytes, addr: Bytes, pin: Pin)
    ensures ParsePairPayload(EncodePairPayload(name, addr, pin)) == Ok(Payload(name, addr, pin))
            <==> name != [] && SplitsHostPort(addr)
    ensures ParsePairPayload(EncodePairPayload(name, addr, pin)).Ok? ==> name != [] && SplitsHostPort(addr)
  {
    hide PairQuery, QueryGet, PrintQuery, PinString, PinOf, IndexByte, AfterLast;
    PrintedQueryIsClean(name, addr, pin);
    PrefixParses(PrintQuery(name, addr, pin));
    GetsOfPrintedQuery(name, addr, pin);
    PinStringIsTrimmed(pin);
    PinCanonical([], pin);
  }

  /** Whatever payload was accepted, encoding what it was read as and parsing again changes nothing;
      in particular the comment in Pair is wrong and the zero pin can be read from a payload. */
  lemma AcceptedPayloads(payload: Bytes, name: Bytes, addr: Bytes)
    ensures var r := ParsePairPayload(payload);
            r.Ok? ==> ParsePairPayload(EncodePairPayload(r.value.name, r.value.addr, r.value.pin)) == r
    ensures name != [] && SplitsHostPort(addr) ==>
              ParsePairPayload(EncodePairPayload(name, addr, ZERO_PIN)) == Ok(Payload(name, addr, ZERO_PIN))
  {
    hide PairQuery, QueryGet, EncodePairPayload, PinOf, SplitsHostPort;
    var r := ParsePairPayload(payload);
    if r.Ok? {
      PayloadRoundTrip(r.value.name, r.value.addr, r.value.pin);
    }
    PayloadRoundTrip(name, addr, ZERO_PIN);
  }
}
