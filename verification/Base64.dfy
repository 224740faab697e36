/** Standard padded base64 (section 4 of RFC 4648) as Go's `base64.StdEncoding`
    reads and writes it: the decoder skips CR and LF anywhere and does not check
    the unused low bits of the last digit (section 3.5 of RFC 4648). */
module Base64 {
  import opened Wrappers
  import opened GoStrings

  type Sextet = v: int | 0 <= v < 64

  function Digit(v: Sextet): (c: Byte)
    ensures SPACE < c < 0x80 && c != EQUALS
  {
    if v < 26 then 65 + v
    else if v < 52 then 97 + (v - 26)
    else if v < 62 then 48 + (v - 52)
    else if v == 62 then PLUS
    else SLASH
  }

  predicate IsBase64Digit(c: Byte) {
    IsLetter(c) || IsDigit(c) || c == PLUS || c == SLASH
  }

  function Value(c: Byte): (v: Sextet)
    requires IsBase64Digit(c)
    ensures Digit(v) == c
  {
    if 65 <= c <= 90 then c - 65
    else if 97 <= c <= 122 then c - 97 + 26
    else if IsDigit(c) then c - 48 + 52
    else if c == PLUS then 62
    else 63
  }

  lemma ValueOfDigit(v: Sextet)
    ensures IsBase64Digit(Digit(v)) && Value(Digit(v)) == v
  {
  }

  // ---- One quantum: three bytes, four digits ----

  function EncodeTriple(a: Byte, b: Byte, c: Byte): (q: Bytes)
    ensures |q| == 4
  {
    [Digit(a / 4), Digit(a % 4 * 16 + b / 16), Digit(b % 16 * 4 + c / 64), Digit(c % 64)]
  }

  /** Two bytes leave two bits of the third digit unused; `slack` fills them. */
  function EncodePair(a: Byte, b: Byte, slack: nat): (q: Bytes)
    requires slack < 4
    ensures |q| == 4
  {
    [Digit(a / 4), Digit(a % 4 * 16 + b / 16), Digit(b % 16 * 4 + slack), EQUALS]
  }

  /** One byte leaves four bits of the second digit unused; `slack` fills them. */
  function EncodeSingle(a: Byte, slack: nat): (q: Bytes)
    requires slack < 16
    ensures |q| == 4
  {
    [Digit(a / 4), Digit(a % 4 * 16 + slack), EQUALS, EQUALS]
  }

  /** How many ways there are to fill the unused bits after `n` bytes. */
  function Slack(n: nat): (k: nat)
    ensures k > 0
  {
    if n == 0 then 1 else if n == 1 then 16 else if n == 2 then 4 else Slack(n - 3)
  }

  /** The base64 text of `b` whose unused trailing bits spell `slack`. */
  function EncodeWith(b: Bytes, slack: nat): (s: Bytes)
    requires slack < Slack(|b|)
    ensures s == [] <==> b == []
    ensures forall i :: 0 <= i < |s| ==> SPACE < s[i] < 0x80
  {
    if |b| == 0 then []
    else if |b| == 1 then EncodeSingle(b[0], slack)
    else if |b| == 2 then EncodePair(b[0], b[1], slack)
    else EncodeTriple(b[0], b[1], b[2]) + EncodeWith(b[3..], slack)
  }

  /** `EncodeToString`: the unused bits are zero. */
  function Encode(b: Bytes): Bytes {
    EncodeWith(b, 0)
  }

  // ---- The alphabet and the bits, as the standard gives them ----

  const CAPITALS := "ABCDEFGHIJKLMNOPQRSTUVWXYZ"
  const SMALL := "abcdefghijklmnopqrstuvwxyz"
  const ALPHABET := CAPITALS + SMALL + "0123456789+/"

  /** The digits are those of Table 1 of RFC 4648, in its order, and no other byte is a digit. */
  lemma DigitsOfTheStandard(v: Sextet, c: Byte)
    ensures Digit(v) == ALPHABET[v] as int
    ensures IsBase64Digit(c) <==> exists k :: 0 <= k < 64 && c == ALPHABET[k] as int
    ensures IsBase64Digit(c) ==> c == ALPHABET[Value(c)] as int
  {
    AlphabetLetters(v);
    if IsBase64Digit(c) {
      AlphabetLetters(Value(c));
    }
    if k :| 0 <= k < 64 && c == ALPHABET[k] as int {
      AlphabetLetters(k);
    }
  }

  lemma AlphabetLetters(v: Sextet)
    ensures Digit(v) == ALPHABET[v] as int
  {
    if v < 26 {
      assert ALPHABET[v] == CAPITALS[v];
      CapitalLetter(v);
    } else if v < 52 {
      assert ALPHABET[v] == SMALL[v - 26];
      SmallLetter(v - 26);
    } else {
      assert ALPHABET[v] == "0123456789+/"[v - 52];
    }
  }

  lemma CapitalLetter(k: nat)
    requires k < 26
    ensures CAPITALS[k] as int == 65 + k
  {
  }

  lemma SmallLetter(k: nat)
    requires k < 26
    ensures SMALL[k] as int == 97 + k
  {
  }

  /** `t` spells the number `n` in base 64, most significant digit first. */
  ghost predicate Spells(t: Bytes, n: nat)
    decreases |t|
  {
    if t == [] then n == 0 else t[|t| - 1] == ALPHABET[n % 64] as int && Spells(t[..|t| - 1], n / 64)
  }

  lemma SpellsDigits(t: Bytes, n: nat, v: Sextet)
    requires Spells(t, n)
    ensures Spells(t + [Digit(v)], n * 64 + v)
  {
    hide Digit;
    AlphabetLetters(v);
    var s := t + [Digit(v)];
    assert s[..|s| - 1] == t;
    assert (n * 64 + v) % 64 == v && (n * 64 + v) / 64 == n;
  }

  /** A quantum of three bytes is their 24 bits in four digits; two bytes are 16 bits, the slack and a
      padding character; one byte is 8 bits, the slack and two padding characters. */
  lemma QuantaOfTheStandard(a: Byte, b: Byte, c: Byte, j: nat, k: nat)
    requires j < 16 && k < 4
    ensures Spells(EncodeTriple(a, b, c), a * 0x10000 + b * 0x100 + c)
    ensures Spells(EncodePair(a, b, k)[..3], (a * 0x100 + b) * 4 + k) && EncodePair(a, b, k)[3] == EQUALS
    ensures Spells(EncodeSingle(a, j)[..2], a * 16 + j) && EncodeSingle(a, j)[2..] == [EQUALS, EQUALS]
  {
    hide Digit, Spells;
    var d0, d1, d2, d3 := a / 4, a % 4 * 16 + b / 16, b % 16 * 4 + c / 64, c % 64;
    SpellsFour(d0, d1, d2, d3);
    assert ((d0 * 64 + d1) * 64 + d2) * 64 + d3 == a * 0x10000 + b * 0x100 + c;
    SpellsThree(d0, d1, b % 16 * 4 + k);
    assert (d0 * 64 + d1) * 64 + (b % 16 * 4 + k) == (a * 0x100 + b) * 4 + k;
    assert EncodePair(a, b, k)[..3] == [Digit(d0), Digit(d1), Digit(b % 16 * 4 + k)];
    SpellsTwo(d0, a % 4 * 16 + j);
    assert d0 * 64 + (a % 4 * 16 + j) == a * 16 + j;
    assert EncodeSingle(a, j)[..2] == [Digit(d0), Digit(a % 4 * 16 + j)];
  }

  lemma SpellsNothing()
    ensures Spells([], 0)
  {
  }

  lemma SpellsTwo(v0: Sextet, v1: Sextet)
    ensures Spells([Digit(v0), Digit(v1)], v0 * 64 + v1)
  {
    hide Digit, Spells;
    SpellsNothing();
    var t: Bytes := [Digit(v0)];
    SpellsDigits([], 0, v0);
    assert [] + t == t;
    SpellsDigits(t, v0, v1);
    assert t + [Digit(v1)] == [Digit(v0), Digit(v1)];
  }

  lemma SpellsThree(v0: Sextet, v1: Sextet, v2: Sextet)
    ensures Spells([Digit(v0), Digit(v1), Digit(v2)], (v0 * 64 + v1) * 64 + v2)
  {
    hide Digit, Spells;
    SpellsTwo(v0, v1);
    var t: Bytes := [Digit(v0), Digit(v1)];
    SpellsDigits(t, v0 * 64 + v1, v2);
    assert t + [Digit(v2)] == [Digit(v0), Digit(v1), Digit(v2)];
  }

  lemma SpellsFour(v0: Sextet, v1: Sextet, v2: Sextet, v3: Sextet)
    ensures Spells([Digit(v0), Digit(v1), Digit(v2), Digit(v3)], ((v0 * 64 + v1) * 64 + v2) * 64 + v3)
  {
    hide Digit, Spells;
    SpellsThree(v0, v1, v2);
    var t: Bytes := [Digit(v0), Digit(v1), Digit(v2)];
    SpellsDigits(t, (v0 * 64 + v1) * 64 + v2, v3);
    assert t + [Digit(v3)] == [Digit(v0), Digit(v1), Digit(v2), Digit(v3)];
  }

  /** The text is the quanta one after the other. */
  lemma TextOfQuanta(b: Bytes, slack: nat)
    requires slack < Slack(|b|)
    ensures |b| == 0 ==> EncodeWith(b, slack) == []
    ensures |b| == 1 ==> EncodeWith(b, slack) == EncodeSingle(b[0], slack)
    ensures |b| == 2 ==> EncodeWith(b, slack) == EncodePair(b[0], b[1], slack)
    ensures |b| > 2 ==> EncodeWith(b, slack) == EncodeTriple(b[0], b[1], b[2]) + EncodeWith(b[3..], slack)
    ensures Slack(|b|) == if |b| % 3 == 0 then 1 else if |b| % 3 == 1 then 16 else 4
  {
    SlackByLength(|b|);
  }

  lemma {:induction false} SlackByLength(n: nat)
    ensures Slack(n) == if n % 3 == 0 then 1 else if n % 3 == 1 then 16 else 4
  {
    if n > 2 {
      SlackByLength(n - 3);
    }
  }

  // ---- Decoding ----

  function First(v0: Sextet, v1: Sextet): Byte { v0 * 4 + v1 / 16 }

  function Second(v1: Sextet, v2: Sextet): Byte { v1 % 16 * 16 + v2 / 4 }

  function Third(v2: Sextet, v3: Sextet): Byte { v2 % 4 * 64 + v3 }

  lemma BitsRejoin(a: Byte, b: Byte, low: nat, rest: nat)
    requires low < 16 && rest < 4
    ensures First(a / 4, a % 4 * 16 + low) == a
    ensures low == b / 16 ==> Second(a % 4 * 16 + low, b % 16 * 4 + rest) == b
  {
  }

  lemma LastBitsRejoin(b: Byte, c: Byte)
    ensures Third(b % 16 * 4 + c / 64, c % 64) == c
  {
  }

  lemma BitsSplit(v0: Sextet, v1: Sextet, v2: Sextet, v3: Sextet)
    ensures First(v0, v1) / 4 == v0
    ensures First(v0, v1) % 4 * 16 + v1 % 16 == v1
    ensures First(v0, v1) % 4 * 16 + Second(v1, v2) / 16 == v1
    ensures Second(v1, v2) % 16 * 4 + v2 % 4 == v2
    ensures Second(v1, v2) % 16 * 4 + Third(v2, v3) / 64 == v2
    ensures Third(v2, v3) % 64 == v3
  {
  }

  function SkipNewlines(s: Bytes): (t: Bytes)
    ensures NEWLINE !in t && CARRIAGE !in t
  {
    if s == [] then []
    else if s[0] == NEWLINE || s[0] == CARRIAGE then SkipNewlines(s[1..])
    else [s[0]] + SkipNewlines(s[1..])
  }

  /** The quantum loop over text without line breaks. */
  function DecodeQuanta(t: Bytes): (r: Option<Bytes>) {
    if t == [] then Some([])
    else if |t| < 4 || !IsBase64Digit(t[0]) || !IsBase64Digit(t[1]) then None
    else
      var v0, v1 := Value(t[0]), Value(t[1]);
      var first := First(v0, v1);
      if IsBase64Digit(t[2]) then
        var v2 := Value(t[2]);
        var second := Second(v1, v2);
        if IsBase64Digit(t[3]) then
          var third := Third(v2, Value(t[3]));
          match DecodeQuanta(t[4..])
          case None => None
          case Some(rest) => Some([first, second, third] + rest)
        else if t[3] == EQUALS && |t| == 4 then Some([first, second])
        else None
      else if t[2] == EQUALS && t[3] == EQUALS && |t| == 4 then Some([first])
      else None
  }

  /** `DecodeString`. */
  function Decode(s: Bytes): Option<Bytes> {
    DecodeQuanta(SkipNewlines(s))
  }

  /** Exactly the line breaks are skipped, wherever they stand. */
  lemma {:induction false} SkipNewlinesAppend(a: Bytes, c: Byte, b: Bytes)
    ensures SkipNewlines([]) == []
    ensures SkipNewlines(a + [c] + b) == SkipNewlines(a) + (if c == NEWLINE || c == CARRIAGE then [] else [c]) + SkipNewlines(b)
  {
    var s := a + [c] + b;
    if a == [] {
      assert s[1..] == b;
    } else {
      assert s[1..] == a[1..] + [c] + b;
      SkipNewlinesAppend(a[1..], c, b);
    }
  }

  lemma SkipNewlinesFixed(s: Bytes)
    requires NEWLINE !in s && CARRIAGE !in s
    ensures SkipNewlines(s) == s
  {
    if s != [] {
      SkipNewlinesFixed(s[1..]);
    }
  }

  // ---- The decoder accepts exactly the spellings ----

  /** Every spelling of `b`, whatever its unused bits, decodes to `b`. */
  lemma {:induction false} SpellingDecodes(b: Bytes, slack: nat)
    requires slack < Slack(|b|)
    ensures DecodeQuanta(EncodeWith(b, slack)) == Some(b)
  {
    hide DecodeQuanta, EncodeSingle, EncodePair, EncodeTriple;
    if |b| == 0 {
      NothingDecodes();
    } else if |b| == 1 {
      SingleDecodes(b[0], slack);
      assert b == [b[0]];
    } else if |b| == 2 {
      PairDecodes(b[0], b[1], slack);
      assert b == [b[0], b[1]];
    } else if |b| > 2 {
      SpellingDecodes(b[3..], slack);
      TripleDecodes(b[0], b[1], b[2], EncodeWith(b[3..], slack));
      assert b == [b[0], b[1], b[2]] + b[3..];
    }
  }

  lemma NothingDecodes()
    ensures DecodeQuanta([]) == Some([])
  {
  }

  lemma SingleDecodes(a: Byte, slack: nat)
    requires slack < 16
    ensures DecodeQuanta(EncodeSingle(a, slack)) == Some([a])
  {
    ValueOfDigit(a / 4);
    ValueOfDigit(a % 4 * 16 + slack);
    BitsRejoin(a, 0, slack, 0);
  }

  lemma PairDecodes(a: Byte, b: Byte, slack: nat)
    requires slack < 4
    ensures DecodeQuanta(EncodePair(a, b, slack)) == Some([a, b])
  {
    ValueOfDigit(a / 4);
    ValueOfDigit(a % 4 * 16 + b / 16);
    ValueOfDigit(b % 16 * 4 + slack);
    BitsRejoin(a, b, b / 16, slack);
  }

  lemma TripleDecodes(a: Byte, b: Byte, c: Byte, rest: Bytes)
    requires DecodeQuanta(rest).Some?
    ensures DecodeQuanta(EncodeTriple(a, b, c) + rest) == Some([a, b, c] + DecodeQuanta(rest).value)
  {
    ValueOfDigit(a / 4);
    ValueOfDigit(a % 4 * 16 + b / 16);
    ValueOfDigit(b % 16 * 4 + c / 64);
    ValueOfDigit(c % 64);
    BitsRejoin(a, b, b / 16, c / 64);
    LastBitsRejoin(b, c);
    assert (EncodeTriple(a, b, c) + rest)[4..] == rest;
  }

  /** The unused trailing bits that the text `t` carries. */
  function SlackOf(t: Bytes): (k: nat)
    requires DecodeQuanta(t).Some?
    ensures k < Slack(|DecodeQuanta(t).value|)
  {
    if t == [] then 0
    else if t[2] == EQUALS then Value(t[1]) % 16
    else if t[3] == EQUALS then Value(t[2]) % 4
    else SlackOf(t[4..])
  }

  lemma QuantumReencodes(v0: Sextet, v1: Sextet, v2: Sextet, v3: Sextet)
    ensures EncodeTriple(First(v0, v1), Second(v1, v2), Third(v2, v3)) == [Digit(v0), Digit(v1), Digit(v2), Digit(v3)]
    ensures EncodePair(First(v0, v1), Second(v1, v2), v2 % 4) == [Digit(v0), Digit(v1), Digit(v2), EQUALS]
    ensures EncodeSingle(First(v0, v1), v1 % 16) == [Digit(v0), Digit(v1), EQUALS, EQUALS]
  {
    BitsSplit(v0, v1, v2, v3);
  }

  /** Text that decodes to `b` is the spelling of `b` with the slack it carries. */
  lemma {:induction false} DecodedIsSpelling(t: Bytes)
    requires DecodeQuanta(t).Some?
    ensures t == EncodeWith(DecodeQuanta(t).value, SlackOf(t))
  {
    if t != [] {
      var b := DecodeQuanta(t).value;
      assert t == [t[0], t[1], t[2], t[3]] + t[4..];
      if t[2] == EQUALS {
        QuantumReencodes(Value(t[0]), Value(t[1]), 0, 0);
      } else if t[3] == EQUALS {
        QuantumReencodes(Value(t[0]), Value(t[1]), Value(t[2]), 0);
      } else {
        DecodedIsSpelling(t[4..]);
        QuantumReencodes(Value(t[0]), Value(t[1]), Value(t[2]), Value(t[3]));
        assert b[3..] == DecodeQuanta(t[4..]).value;
        assert EncodeWith(b, SlackOf(t)) == EncodeTriple(b[0], b[1], b[2]) + EncodeWith(b[3..], SlackOf(t[4..]));
      }
    }
  }

  /** Two spellings of one byte string are equal only when their slack is. */
  lemma {:induction false} SpellingsDistinct(b: Bytes, j: nat, k: nat)
    requires j < Slack(|b|) && k < Slack(|b|)
    requires EncodeWith(b, j) == EncodeWith(b, k)
    ensures j == k
  {
    if |b| == 1 {
      ValueOfDigit(b[0] % 4 * 16 + j);
      ValueOfDigit(b[0] % 4 * 16 + k);
      assert EncodeSingle(b[0], j)[1] == EncodeSingle(b[0], k)[1];
    } else if |b| == 2 {
      ValueOfDigit(b[1] % 16 * 4 + j);
      ValueOfDigit(b[1] % 16 * 4 + k);
      assert EncodePair(b[0], b[1], j)[2] == EncodePair(b[0], b[1], k)[2];
    } else if |b| > 2 {
      assert EncodeWith(b[3..], j) == EncodeWith(b, j)[4..];
      assert EncodeWith(b[3..], k) == EncodeWith(b, k)[4..];
      SpellingsDistinct(b[3..], j, k);
    }
  }

  /** The decoder yields `b` exactly on the spellings of `b`, line breaks aside. */
  lemma DecodeExactly(s: Bytes, b: Bytes)
    ensures Decode(s) == Some(b) <==>
            exists k: nat :: k < Slack(|b|) && SkipNewlines(s) == EncodeWith(b, k)
  {
    var t := SkipNewlines(s);
    if DecodeQuanta(t) == Some(b) {
      DecodedIsSpelling(t);
      assert t == EncodeWith(b, SlackOf(t));
    }
    if k: nat :| k < Slack(|b|) && t == EncodeWith(b, k) {
      SpellingDecodes(b, k);
    }
  }

  /** Decoding inverts encoding. */
  lemma DecodeEncode(b: Bytes)
    ensures Decode(Encode(b)) == Some(b)
  {
    SkipNewlinesFixed(Encode(b));
    SpellingDecodes(b, 0);
  }

  /** A byte outside the alphabet, the padding and the line breaks is never accepted. */
  lemma {:induction false} ForeignByteRejected(s: Bytes, c: Byte)
    requires c in s && !IsBase64Digit(c) && c != EQUALS && c != NEWLINE && c != CARRIAGE
    ensures Decode(s) == None
  {
    SkipNewlinesKeeps(s, c);
    ForeignByteInQuanta(SkipNewlines(s), c);
  }

  lemma {:induction false} SkipNewlinesKeeps(s: Bytes, c: Byte)
    requires c in s && c != NEWLINE && c != CARRIAGE
    ensures c in SkipNewlines(s)
  {
    if s[0] != c {
      SkipNewlinesKeeps(s[1..], c);
    }
  }

  lemma {:induction false} ForeignByteInQuanta(t: Bytes, c: Byte)
    requires c in t && !IsBase64Digit(c) && c != EQUALS
    ensures DecodeQuanta(t) == None
  {
    if |t| >= 4 {
      assert t == [t[0], t[1], t[2], t[3]] + t[4..];
      if c in t[4..] {
        ForeignByteInQuanta(t[4..], c);
      }
    }
  }
}
