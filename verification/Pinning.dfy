/** SPKI fingerprints and the pin-checking TLS configuration (clients/core/pinning.go). */
module Pinning {
  import opened Wrappers
  import opened GoStrings
  import opened Base64

  type Pin = p: Bytes | |p| == 32 witness Zeros(32)

  function Zeros(n: nat): (s: Bytes)
    ensures |s| == n
    ensures forall i :: 0 <= i < n ==> s[i] == 0
  {
    if n == 0 then [] else [0] + Zeros(n - 1)
  }

  /** The zero value of a fingerprint, which stands for "unpaired". */
  const ZERO_PIN: Pin := Zeros(32)

  /** `Fingerprint.String`. */
  function PinString(p: Pin): Bytes {
    Encode(p)
  }

  /** The pin a string denotes, if it denotes one. */
  function PinOf(s: Bytes): Option<Pin> {
    match Decode(TrimSpace(s))
    case None => None
    case Some(raw) => if |raw| == 32 then Some(raw) else None
  }

  datatype PinError = NotBase64 | WrongLength(got: nat)

  /** `ParseFingerprint`: decodes, checks the length, then copies into a fixed array. */
  method ParseFingerprint(s: Bytes) returns (r: Result<Pin, PinError>)
    ensures r.Ok? <==> PinOf(s).Some?
    ensures r.Ok? ==> PinOf(s) == Some(r.value)
    ensures r.Err? ==> match Decode(TrimSpace(s))
                       case None => r.error == NotBase64
                       case Some(raw) => r.error == WrongLength(|raw|) && |raw| != 32
  {
    hide Decode, TrimSpace;
    var decoded := Decode(TrimSpace(s));
    if decoded.None? {
      return Err(NotBase64);
    }
    var raw := decoded.value;
    if |raw| != 32 {
      return Err(WrongLength(|raw|));
    }
    var fp := new Byte[32];
    var i := 0;
    while i < fp.Length
      invariant 0 <= i <= fp.Length
      invariant fp[..i] == raw[..i]
    {
      fp[i] := raw[i];
      i := i + 1;
    }
    assert fp[..] == raw;
    return Ok(fp[..]);
  }

  /** The four texts of a pin, one for each value of the two unused trailing bits. */
  function PinSpelling(p: Pin, k: nat): Bytes
    requires k < 4
  {
    assert Slack(32) == 4;
    EncodeWith(p, k)
  }

  /** A string denotes the pin `p` exactly when, trimmed and without line breaks, it is one of the
      four spellings of `p`; the four are different, and spelling 0 is what `String` prints. */
  lemma PinSpellings(s: Bytes, p: Pin)
    ensures PinOf(s) == Some(p) <==> exists k: nat :: k < 4 && SkipNewlines(TrimSpace(s)) == PinSpelling(p, k)
    ensures PinString(p) == PinSpelling(p, 0)
    ensures forall j: nat, k: nat :: j < k < 4 ==> PinSpelling(p, j) != PinSpelling(p, k)
  {
    assert Slack(32) == 4;
    DecodeExactly(TrimSpace(s), p);
    if PinOf(s) == Some(p) {
      var k: nat :| k < Slack(|p|) && SkipNewlines(TrimSpace(s)) == EncodeWith(p, k);
      assert SkipNewlines(TrimSpace(s)) == PinSpelling(p, k);
    }
    if k: nat :| k < 4 && SkipNewlines(TrimSpace(s)) == PinSpelling(p, k) {
      assert SkipNewlines(TrimSpace(s)) == EncodeWith(p, k);
    }
    forall j: nat, k: nat | j < k < 4 ensures PinSpelling(p, j) != PinSpelling(p, k) {
      if PinSpelling(p, j) == PinSpelling(p, k) {
        SpellingsDistinct(p, j, k);
      }
    }
  }

  lemma LeadingSpaceOfText(s: Bytes)
    requires forall i :: 0 <= i < |s| ==> SPACE < s[i] < 0x80
    ensures LeadingSpace(s) == 0
  {
  }

  lemma PinStringIsTrimmed(p: Pin)
    ensures PinString(p) != [] && TrimSpace(PinString(p)) == PinString(p)
  {
    LeadingSpaceOfText(PinString(p));
    TrimSpaceFixed(PinString(p));
  }

  /** Reading back what `String` prints gives the pin; so reading any accepted text and printing it
      again is a canonical form that a second pass leaves alone. */
  lemma PinCanonical(s: Bytes, p: Pin)
    ensures PinOf(PinString(p)) == Some(p)
    ensures PinOf(s).Some? ==> PinOf(PinString(PinOf(s).value)) == PinOf(s)
  {
    PinStringIsTrimmed(p);
    DecodeEncode(p);
    if PinOf(s).Some? {
      var q := PinOf(s).value;
      PinStringIsTrimmed(q);
      DecodeEncode(q);
    }
  }

  // ---- Certificates and boxes ----

  /** The part of an X.509 certificate that is pinned, and all the rest of it. */
  datatype Certificate = Certificate(rawSubjectPublicKeyInfo: Bytes, rest: Bytes)

  /** X.509 parsing and SHA-256, about which nothing is assumed. */
  datatype Crypto = Crypto(parseCertificate: Bytes -> Option<Certificate>, sha256: Bytes -> Pin)

  function FingerprintFromCert(crypto: Crypto, cert: Certificate): Pin {
    crypto.sha256(cert.rawSubjectPublicKeyInfo)
  }

  datatype Box = Box(name: Bytes, addr: Bytes, pin: Pin) {
    predicate Paired() {
      pin != ZERO_PIN
    }
  }

  datatype VerifyError = NoCertificate | UnreadableLeaf | PinMismatch

  /** The `VerifyPeerCertificate` closure, which has captured `pin`. */
  function VerifyPeer(crypto: Crypto, pin: Pin, rawCerts: seq<Bytes>): Result<(), VerifyError> {
    if rawCerts == [] then Err(NoCertificate)
    else match crypto.parseCertificate(rawCerts[0])
      case None => Err(UnreadableLeaf)
      case Some(leaf) =>
        if FingerprintFromCert(crypto, leaf) != pin then Err(PinMismatch) else Ok(())
  }

  datatype TlsConfig = TlsConfig(insecureSkipVerify: bool, verifyPeerCertificate: seq<Bytes> -> Result<(), VerifyError>)

  datatype ConfigError = Unpaired(name: Bytes)

  /** `TLSConfig`: no configuration at all for an unpaired box. */
  function MakeTlsConfig(crypto: Crypto, b: Box): Result<TlsConfig, ConfigError> {
    if !b.Paired() then Err(Unpaired(b.name))
    else
      var pin := b.pin;
      Ok(TlsConfig(true, rawCerts => VerifyPeer(crypto, pin, rawCerts)))
  }

  /** Whether the configuration made for `b` lets a handshake presenting `chain` through. */
  predicate Accepts(crypto: Crypto, b: Box, chain: seq<Bytes>) {
    var cfg := MakeTlsConfig(crypto, b);
    cfg.Ok? && cfg.value.verifyPeerCertificate(chain).Ok?
  }

  /** What the configuration does with each chain, and when there is one: the CA pool is never asked, and the
      verifier looks at the first certificate alone. */
  lemma VerdictsExactly(crypto: Crypto, b: Box, chain: seq<Bytes>)
    ensures var cfg := MakeTlsConfig(crypto, b);
            if b.pin == ZERO_PIN then cfg == Err(Unpaired(b.name))
            else
              && cfg.Ok? && cfg.value.insecureSkipVerify
              && var verdict := cfg.value.verifyPeerCertificate(chain);
                 && (verdict == Err(NoCertificate) <==> chain == [])
                 && (verdict == Err(UnreadableLeaf) <==> chain != [] && crypto.parseCertificate(chain[0]).None?)
                 && (verdict == Err(PinMismatch) <==>
                       && chain != [] && crypto.parseCertificate(chain[0]).Some?
                       && crypto.sha256(crypto.parseCertificate(chain[0]).value.rawSubjectPublicKeyInfo) != b.pin)
                 && (verdict == Ok(()) <==>
                       && chain != [] && crypto.parseCertificate(chain[0]).Some?
                       && crypto.sha256(crypto.parseCertificate(chain[0]).value.rawSubjectPublicKeyInfo) == b.pin)
    ensures |ZERO_PIN| == 32 && forall i :: 0 <= i < 32 ==> ZERO_PIN[i] == 0
  {
  }

  /** The verdict is decided by the leaf's public key alone: a certificate re-issued under the same key
      and any change to the rest of the chain leave it as it was, another digest flips it, and two boxes
      that both accept one chain hold the same pin. */
  lemma VerdictFollowsTheKey(crypto: Crypto, b: Box, other: Box, chain: seq<Bytes>, chain': seq<Bytes>)
    requires chain != [] && chain' != []
    requires crypto.parseCertificate(chain[0]).Some? && crypto.parseCertificate(chain'[0]).Some?
    ensures var leaf, leaf' := crypto.parseCertificate(chain[0]).value, crypto.parseCertificate(chain'[0]).value;
            && (leaf.rawSubjectPublicKeyInfo == leaf'.rawSubjectPublicKeyInfo ==>
                  (Accepts(crypto, b, chain) <==> Accepts(crypto, b, chain')))
            && (Accepts(crypto, b, chain) && Accepts(crypto, b, chain') ==>
                  FingerprintFromCert(crypto, leaf) == FingerprintFromCert(crypto, leaf'))
    ensures Accepts(crypto, b, chain) && Accepts(crypto, other, chain) ==> b.pin == other.pin
    ensures Accepts(crypto, b, chain) ==> b.pin != ZERO_PIN
  {
  }
}
