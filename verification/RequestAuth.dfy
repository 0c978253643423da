/** Signing a server-to-server request and verifying it from its headers. */
module RequestAuth {
  import opened Basics
  import opened Text

  const ALGORITHM: string := "ed25519-v1"
  const CANONICAL_VERSION: string := "verdant-s2s-v1"
  const MAX_SKEW_MS: nat := 5 * 60 * 1000
  const MAX_HEADER_VALUE_CHARS: nat := 512

  const H_ALGORITHM: string := "x-verdant-federation-algorithm"
  const H_SOURCE: string := "x-verdant-federation-source"
  const H_DESTINATION: string := "x-verdant-federation-destination"
  const H_KEY_ID: string := "x-verdant-federation-key-id"
  const H_TIMESTAMP: string := "x-verdant-federation-timestamp-ms"
  const H_NONCE: string := "x-verdant-federation-nonce"
  const H_BODY_HASH: string := "x-verdant-federation-content-sha256"
  const H_SIGNATURE: string := "x-verdant-federation-signature"

  type Bytes = seq<bv8>
  type Headers = map<string, string>

  /** The cryptography, left abstract. Keys are seeds on one side and public keys on the
      other; a public key may fail to decode, and so may a signature's text. */
  datatype Scheme = Scheme(
    publicKey: Bytes -> Bytes,
    keyDecodes: Bytes -> bool,
    sign: (Bytes, string) -> string,
    signatureDecodes: string -> bool,
    checks: (Bytes, string, string) -> bool,
    bodyHash: Bytes -> string)
  {
    /** Signatures made with a seed pass under its public key, and hashes and signatures
        are unpadded base64url text of their fixed lengths. */
    ghost predicate Correct() {
      && (forall seed :: keyDecodes(publicKey(seed)))
      && (forall seed, m :: checks(publicKey(seed), m, sign(seed, m)) && signatureDecodes(sign(seed, m)))
      && (forall seed, m :: |sign(seed, m)| == 86 && Base64Url(sign(seed, m)))
      && (forall body :: |bodyHash(body)| == 43 && Base64Url(bodyHash(body)))
    }
  }

  predicate Base64UrlChar(c: char) {
    'a' <= c <= 'z' || 'A' <= c <= 'Z' || '0' <= c <= '9' || c == '-' || c == '_'
  }

  predicate Base64Url(s: string) { forall i :: 0 <= i < |s| ==> Base64UrlChar(s[i]) }

  // ----- Validators ---------------------------------------------------------------------

  predicate MethodChar(c: char) { 'A' <= c <= 'Z' || c == '-' }

  predicate ValidMethod(s: string) { 1 <= |s| <= 16 && forall i :: 0 <= i < |s| ==> MethodChar(s[i]) }

  function Utf8Length(s: string): nat {
    if s == [] then 0
    else
      var c := s[|s| - 1] as int;
      Utf8Length(s[..|s| - 1]) + (if c < 0x80 then 1 else if c < 0x800 then 2 else if c < 0x1_0000 then 3 else 4)
  }

  predicate ValidPath(s: string) {
    s != [] && s[0] == '/' && Utf8Length(s) <= 2048 && Lacks(s, '\r') && Lacks(s, '\n')
  }

  predicate ValidPeerId(s: string) { IsId(s, 253) }

  predicate ValidKeyId(s: string) { IsId(s, 128) }

  predicate NonceChar(c: char) { IdChar(c) && c != ':' }

  predicate ValidNonce(s: string) { 16 <= |s| <= 128 && forall i :: 0 <= i < |s| ==> NonceChar(s[i]) }

  // ----- The canonical request ------------------------------------------------------------

  datatype Request = Request(
    method_: string, path: string, source: string, destination: string, keyId: string,
    timestamp: int, nonce: string, bodyHash: string)
  {
    predicate Valid() {
      && ValidMethod(method_) && ValidPath(path) && ValidPeerId(source) && ValidPeerId(destination)
      && ValidKeyId(keyId) && 0 < timestamp <= I64_MAX && ValidNonce(nonce)
    }
  }

  function Upper(c: char): char {
    if 'a' <= c <= 'z' then 'A' + (c as int - 'a' as int) as char else c
  }

  function Uppercased(s: string): string { seq(|s|, i requires 0 <= i < |s| => Upper(s[i])) }

  function JoinLines(lines: seq<string>): string
    requires lines != []
  {
    if |lines| == 1 then lines[0] else lines[0] + ['\n'] + JoinLines(lines[1..])
  }

  function CanonicalLines(r: Request): seq<string> {
    [CANONICAL_VERSION, Uppercased(r.method_), r.path, r.source, r.destination, r.keyId,
     ToDecimal(r.timestamp), r.nonce, r.bodyHash]
  }

  function Canonical(r: Request): string { JoinLines(CanonicalLines(r)) }

  /** Joined lines determine every line, as long as only the last may contain a newline. */
  lemma {:induction false} JoinLinesInjective(a: seq<string>, b: seq<string>)
    requires |a| == |b| > 0 && JoinLines(a) == JoinLines(b)
    requires forall i :: 0 <= i < |a| - 1 ==> Lacks(a[i], '\n') && Lacks(b[i], '\n')
    ensures a == b
  {
    if |a| > 1 {
      SplitFirst('\n', a[0], JoinLines(a[1..]), b[0], JoinLines(b[1..]));
      JoinLinesInjective(a[1..], b[1..]);
      assert a == [a[0]] + a[1..] && b == [b[0]] + b[1..];
    }
  }

  lemma ValidMethodIsUpper(s: string)
    requires ValidMethod(s)
    ensures Uppercased(s) == s && Lacks(s, '\n')
  {
  }

  lemma ValidLinesLackNewline(r: Request)
    requires r.Valid()
    ensures forall i :: 0 <= i < 8 ==> Lacks(CanonicalLines(r)[i], '\n')
  {
    ValidMethodIsUpper(r.method_);
    DecimalLacks(r.timestamp, '\n');
    assert Lacks(CANONICAL_VERSION, '\n');
  }

  /** No two valid requests have the same canonical text. */
  lemma CanonicalInjective(a: Request, b: Request)
    requires a.Valid() && b.Valid() && Canonical(a) == Canonical(b)
    ensures a == b
  {
    ValidLinesLackNewline(a);
    ValidLinesLackNewline(b);
    var x, y := CanonicalLines(a), CanonicalLines(b);
    JoinLinesInjective(x, y);
    ValidMethodIsUpper(a.method_);
    ValidMethodIsUpper(b.method_);
    assert x[1] == y[1] && x[2] == y[2] && x[3] == y[3] && x[4] == y[4] && x[5] == y[5];
    assert x[6] == y[6] && x[7] == y[7] && x[8] == y[8];
    ToDecimalInjective(a.timestamp, b.timestamp);
  }

  /** The in-memory store's key `peer:nonce` names one peer and one nonce, although peer
      ids may contain colons. */
  lemma StoreKeyInjective(p1: string, n1: string, p2: string, n2: string)
    requires ValidNonce(n1) && ValidNonce(n2) && p1 + [':'] + n1 == p2 + [':'] + n2
    ensures p1 == p2 && n1 == n2
  {
    SplitLast(':', p1, n1, p2, n2);
  }

  // ----- Signing ------------------------------------------------------------------------

  datatype SignError = InvalidInput | InvalidHeaderValue

  predicate Visible(s: string) { forall i :: 0 <= i < |s| ==> (32 <= s[i] as int < 127 || s[i] == '\t') }

  datatype Signer = Signer(source: string, keyId: string, seed: Bytes) {
    // What the signer's constructor checks.
    predicate Valid() { ValidPeerId(source) && ValidKeyId(keyId) }
  }

  function RequestOf(x: Scheme, signer: Signer, method_: string, path: string, destination: string, body: Bytes,
                     timestamp: int, nonce: string): Request
  {
    Request(method_, path, signer.source, destination, signer.keyId, timestamp, nonce, x.bodyHash(body))
  }

  function HeadersFor(r: Request, signature: string): Headers {
    map[H_ALGORITHM := ALGORITHM, H_SOURCE := r.source, H_DESTINATION := r.destination, H_KEY_ID := r.keyId,
        H_TIMESTAMP := ToDecimal(r.timestamp), H_NONCE := r.nonce, H_BODY_HASH := r.bodyHash, H_SIGNATURE := signature]
  }

  function Sign(x: Scheme, signer: Signer, method_: string, path: string, destination: string, body: Bytes,
                timestamp: I64, nonce: string): Result<Headers, SignError>
  {
    if !ValidMethod(method_) || !ValidPath(path) || !ValidPeerId(destination) || !ValidNonce(nonce) || timestamp <= 0
    then Err(InvalidInput)
    else
      var r := RequestOf(x, signer, method_, path, destination, body, timestamp, nonce);
      var signature := x.sign(signer.seed, Canonical(r));
      if Visible(r.source) && Visible(destination) && Visible(r.keyId) && Visible(nonce) && Visible(r.bodyHash)
         && Visible(signature)
      then Ok(HeadersFor(r, signature))
      else Err(InvalidHeaderValue)
  }

  // ----- Verifying ----------------------------------------------------------------------

  datatype VerifyError =
    | MissingHeader | MalformedHeader | UnsupportedAlgorithm | DestinationMismatch | BodyHashMismatch
    | TimestampOutsideWindow | UnknownPeerKey | KeyOutsideValidityWindow | InvalidSignature

  datatype PeerKey = PeerKey(publicKey: Bytes, validAfter: Option<int>, validUntil: Option<int>)

  // Keyed by peer and key id.
  type KeyStore = map<(string, string), PeerKey>

  predicate Blank(c: char) { c == ' ' || c == '\t' }

  function Trimmed(s: string): string {
    if s != [] && Blank(s[0]) then Trimmed(s[1..])
    else if s != [] && Blank(s[|s| - 1]) then Trimmed(s[..|s| - 1])
    else s
  }

  function RequiredHeader(h: Headers, name: string): Result<string, VerifyError> {
    if name !in h then Err(MissingHeader)
    else if !Visible(h[name]) then Err(MalformedHeader)
    else
      var value := Trimmed(h[name]);
      if value == [] || |value| > MAX_HEADER_VALUE_CHARS then Err(MalformedHeader) else Ok(value)
  }

  datatype Parsed = Parsed(algorithm: string, source: string, destination: string, keyId: string, timestamp: int,
                           nonce: string, bodyHash: string, signature: string)

  function ParseHeaders(h: Headers): Result<Parsed, VerifyError> {
    var algorithm := RequiredHeader(h, H_ALGORITHM);
    var source, destination := RequiredHeader(h, H_SOURCE), RequiredHeader(h, H_DESTINATION);
    var keyId, timestamp := RequiredHeader(h, H_KEY_ID), RequiredHeader(h, H_TIMESTAMP);
    var nonce, bodyHash := RequiredHeader(h, H_NONCE), RequiredHeader(h, H_BODY_HASH);
    var signature := RequiredHeader(h, H_SIGNATURE);
    if algorithm.Err? then Err(algorithm.error)
    else if source.Err? then Err(source.error)
    else if destination.Err? then Err(destination.error)
    else if keyId.Err? then Err(keyId.error)
    else if timestamp.Err? then Err(timestamp.error)
    else if ParseI64(timestamp.value).None? then Err(MalformedHeader)
    else if nonce.Err? then Err(nonce.error)
    else if bodyHash.Err? then Err(bodyHash.error)
    else if signature.Err? then Err(signature.error)
    else if !ValidPeerId(source.value) || !ValidPeerId(destination.value) || !ValidKeyId(keyId.value)
            || !ValidNonce(nonce.value) || ParseI64(timestamp.value).value <= 0 || |bodyHash.value| != 43
    then Err(MalformedHeader)
    else Ok(Parsed(algorithm.value, source.value, destination.value, keyId.value, ParseI64(timestamp.value).value,
                   nonce.value, bodyHash.value, signature.value))
  }

  datatype VerifiedRequest = VerifiedRequest(
    source: string, destination: string, keyId: string, nonce: string, timestamp: int, bodyHash: string)

  predicate KeyCovers(key: PeerKey, timestamp: int) {
    (key.validAfter.Some? ==> key.validAfter.value <= timestamp)
    && (key.validUntil.Some? ==> timestamp < key.validUntil.value)
  }

  function CheckParsed(x: Scheme, self: string, keys: KeyStore, now: int, method_: string, path: string, p: Parsed,
                       body: Bytes): Result<VerifiedRequest, VerifyError>
  {
    if p.algorithm != ALGORITHM then Err(UnsupportedAlgorithm)
    else if p.destination != self then Err(DestinationMismatch)
    else if p.bodyHash != x.bodyHash(body) then Err(BodyHashMismatch)
    else if now - p.timestamp > MAX_SKEW_MS || p.timestamp - now > MAX_SKEW_MS then Err(TimestampOutsideWindow)
    else if (p.source, p.keyId) !in keys then Err(UnknownPeerKey)
    else
      var key := keys[(p.source, p.keyId)];
      if !KeyCovers(key, p.timestamp) then Err(KeyOutsideValidityWindow)
      else
        var canonical := Canonical(Request(method_, path, p.source, p.destination, p.keyId, p.timestamp, p.nonce, p.bodyHash));
        if !x.keyDecodes(key.publicKey) then Err(UnknownPeerKey)
        else if !x.signatureDecodes(p.signature) then Err(MalformedHeader)
        else if !x.checks(key.publicKey, canonical, p.signature) then Err(InvalidSignature)
        else Ok(VerifiedRequest(p.source, p.destination, p.keyId, p.nonce, p.timestamp, p.bodyHash))
  }

  function VerifySignature(x: Scheme, self: string, keys: KeyStore, now: int, method_: string, path: string,
                           h: Headers, body: Bytes): Result<VerifiedRequest, VerifyError>
  {
    if !ValidMethod(method_) || !ValidPath(path) then Err(MalformedHeader)
    else
      match ParseHeaders(h)
      case Err(error) => Err(error)
      case Ok(p) => CheckParsed(x, self, keys, now, method_, path, p, body)
  }

  // ----- What is signed is accepted --------------------------------------------------------

  predicate Plain(s: string) { s != [] && |s| <= 256 && forall i :: 0 <= i < |s| ==> IdChar(s[i]) }

  lemma HeaderReadsBack(h: Headers, name: string, value: string)
    requires name in h && h[name] == value && Plain(value)
    ensures RequiredHeader(h, name) == Ok(value)
  {
    assert IdChar(value[0]) && IdChar(value[|value| - 1]);
  }

  lemma PlainIsVisible(s: string)
    requires Plain(s)
    ensures Visible(s)
  {
  }

  lemma HeaderNamesDiffer()
    ensures |H_ALGORITHM| == 30 && |H_SOURCE| == 27 && |H_DESTINATION| == 32 && H_DESTINATION[21] == 'd'
    ensures |H_KEY_ID| == 27 && H_SOURCE[21] == 's' && H_KEY_ID[21] == 'k' && |H_TIMESTAMP| == 33
    ensures |H_NONCE| == 26 && |H_BODY_HASH| == 35 && |H_SIGNATURE| == 30
    ensures H_ALGORITHM[21] == 'a' && H_SIGNATURE[21] == 's'
  {
  }

  lemma SignedFieldsArePlain(x: Scheme, r: Request, seed: Bytes, body: Bytes)
    requires x.Correct() && r.Valid() && r.bodyHash == x.bodyHash(body)
    ensures Plain(ALGORITHM) && Plain(r.source) && Plain(r.destination) && Plain(r.keyId) && Plain(r.nonce)
    ensures Plain(ToDecimal(r.timestamp)) && Plain(r.bodyHash) && Plain(x.sign(seed, Canonical(r)))
  {
    DecimalIsId(r.timestamp);
    var signature := x.sign(seed, Canonical(r));
    assert Base64Url(signature) && Base64Url(x.bodyHash(body));
  }

  lemma SignedHeadersParse(x: Scheme, r: Request, seed: Bytes, body: Bytes)
    requires x.Correct() && r.Valid() && r.bodyHash == x.bodyHash(body)
    ensures ParseHeaders(HeadersFor(r, x.sign(seed, Canonical(r)))) ==
            Ok(Parsed(ALGORITHM, r.source, r.destination, r.keyId, r.timestamp, r.nonce, r.bodyHash,
                      x.sign(seed, Canonical(r))))
  {
    var signature := x.sign(seed, Canonical(r));
    var h := HeadersFor(r, signature);
    SignedFieldsArePlain(x, r, seed, body);
    HeaderNamesDiffer();
    HeaderReadsBack(h, H_ALGORITHM, ALGORITHM);
    HeaderReadsBack(h, H_SOURCE, r.source);
    HeaderReadsBack(h, H_DESTINATION, r.destination);
    HeaderReadsBack(h, H_KEY_ID, r.keyId);
    HeaderReadsBack(h, H_TIMESTAMP, ToDecimal(r.timestamp));
    HeaderReadsBack(h, H_NONCE, r.nonce);
    HeaderReadsBack(h, H_BODY_HASH, r.bodyHash);
    HeaderReadsBack(h, H_SIGNATURE, signature);
    ParseToDecimal(r.timestamp);
  }

  /** For every valid input signing succeeds, and a verifier at the destination that
      knows the signer's key accepts the request with exactly the signed fields, unless
      the clock or the key's validity window says otherwise. */
  lemma SignedRequestOutcome(
    x: Scheme, signer: Signer, method_: string, path: string, destination: string, body: Bytes, timestamp: I64,
    nonce: string, keys: KeyStore, now: int)
    requires x.Correct() && signer.Valid()
    requires ValidMethod(method_) && ValidPath(path) && ValidPeerId(destination) && ValidNonce(nonce) && timestamp > 0
    requires (signer.source, signer.keyId) in keys
    requires keys[(signer.source, signer.keyId)].publicKey == x.publicKey(signer.seed)
    ensures Sign(x, signer, method_, path, destination, body, timestamp, nonce).Ok?
    ensures var h := Sign(x, signer, method_, path, destination, body, timestamp, nonce).value;
            var key := keys[(signer.source, signer.keyId)];
            VerifySignature(x, destination, keys, now, method_, path, h, body) ==
            if now - timestamp > 300_000 || timestamp - now > 300_000 then Err(TimestampOutsideWindow)
            else if (key.validAfter.Some? && timestamp < key.validAfter.value)
                    || (key.validUntil.Some? && timestamp >= key.validUntil.value)
            then Err(KeyOutsideValidityWindow)
            else Ok(VerifiedRequest(signer.source, destination, signer.keyId, nonce, timestamp, x.bodyHash(body)))
  {
    var r := RequestOf(x, signer, method_, path, destination, body, timestamp, nonce);
    SignedFieldsArePlain(x, r, signer.seed, body);
    PlainIsVisible(r.source); PlainIsVisible(r.destination); PlainIsVisible(r.keyId); PlainIsVisible(r.nonce);
    PlainIsVisible(r.bodyHash); PlainIsVisible(x.sign(signer.seed, Canonical(r)));
    SignedHeadersParse(x, r, signer.seed, body);
  }

  /** Signing succeeds exactly on valid input. */
  lemma SigningSucceedsIff(
    x: Scheme, signer: Signer, method_: string, path: string, destination: string, body: Bytes, timestamp: I64,
    nonce: string)
    requires x.Correct() && signer.Valid()
    ensures Sign(x, signer, method_, path, destination, body, timestamp, nonce).Ok? <==>
            ValidMethod(method_) && ValidPath(path) && ValidPeerId(destination) && ValidNonce(nonce) && timestamp > 0
    ensures Sign(x, signer, method_, path, destination, body, timestamp, nonce).Err? ==>
            Sign(x, signer, method_, path, destination, body, timestamp, nonce) == Err(InvalidInput)
  {
    if ValidMethod(method_) && ValidPath(path) && ValidPeerId(destination) && ValidNonce(nonce) && timestamp > 0 {
      var r := RequestOf(x, signer, method_, path, destination, body, timestamp, nonce);
      SignedFieldsArePlain(x, r, signer.seed, body);
      PlainIsVisible(r.source); PlainIsVisible(r.destination); PlainIsVisible(r.keyId); PlainIsVisible(r.nonce);
      PlainIsVisible(r.bodyHash); PlainIsVisible(x.sign(signer.seed, Canonical(r)));
    }
  }

  // ----- What is accepted -------------------------------------------------------------------

  /** The bytes that are signed: eight newlines between nine fields. */
  lemma CanonicalText(r: Request)
    ensures Canonical(r) ==
            "verdant-s2s-v1" + (['\n'] + (Uppercased(r.method_) + (['\n'] + (r.path + (['\n'] + (r.source + (['\n']
            + (r.destination + (['\n'] + (r.keyId + (['\n'] + (ToDecimal(r.timestamp) + (['\n'] + (r.nonce + (['\n']
            + r.bodyHash)))))))))))))))
  {
    var f := CanonicalLines(r);
    assert JoinLines(f[8..]) == r.bodyHash;
    JoinedFrom(f, 7); JoinedFrom(f, 6); JoinedFrom(f, 5); JoinedFrom(f, 4);
    JoinedFrom(f, 3); JoinedFrom(f, 2); JoinedFrom(f, 1); JoinedFrom(f, 0);
    assert f[0..] == f;
  }

  lemma JoinedFrom(lines: seq<string>, i: nat)
    requires i + 1 < |lines|
    ensures JoinLines(lines[i..]) == lines[i] + (['\n'] + JoinLines(lines[i + 1..]))
  {
    assert lines[i..][1..] == lines[i + 1..];
  }

  // All of the text but `[i, j)` is blank.
  ghost predicate BlankAround(text: string, i: nat, j: nat) {
    i <= j <= |text| && forall k :: 0 <= k < i || j <= k < |text| ==> text[k] == ' ' || text[k] == '\t'
  }

  /** A header's value is what is left between blanks. */
  ghost predicate Wraps(text: string, value: string) {
    exists i: nat, j: nat :: BlankAround(text, i, j) && text[i..j] == value
  }

  lemma {:induction false} TrimmedSlice(s: string) returns (i: nat, j: nat)
    ensures BlankAround(s, i, j) && Trimmed(s) == s[i..j]
    ensures i < j ==> !Blank(s[i]) && !Blank(s[j - 1])
    decreases |s|
  {
    if s != [] && Blank(s[0]) {
      var m, n := TrimmedSlice(s[1..]);
      i, j := m + 1, n + 1;
      BlankBefore(s, m, n);
    } else if s != [] && Blank(s[|s| - 1]) {
      i, j := TrimmedSlice(s[..|s| - 1]);
      BlankBehind(s, i, j);
    } else {
      i, j := 0, |s|;
    }
  }

  lemma BlankBefore(s: string, m: nat, n: nat)
    requires s != [] && Blank(s[0]) && BlankAround(s[1..], m, n)
    ensures BlankAround(s, m + 1, n + 1) && s[m + 1..n + 1] == s[1..][m..n]
  {
    forall k | 0 <= k < m + 1 || n + 1 <= k < |s| ensures s[k] == ' ' || s[k] == '\t' {
      assert k > 0 ==> s[1..][k - 1] == s[k];
    }
  }

  lemma BlankBehind(s: string, m: nat, n: nat)
    requires s != [] && Blank(s[|s| - 1]) && BlankAround(s[..|s| - 1], m, n)
    ensures BlankAround(s, m, n) && s[m..n] == s[..|s| - 1][m..n]
  {
    forall k | 0 <= k < m || n <= k < |s| ensures s[k] == ' ' || s[k] == '\t' {
      assert k < |s| - 1 ==> s[..|s| - 1][k] == s[k];
    }
  }

  // The header carries the value, blanks around it aside.
  predicate Carries(h: Headers, name: string, value: string) { RequiredHeader(h, name) == Ok(value) }

  lemma CarriedValue(h: Headers, name: string, value: string)
    requires Carries(h, name, value)
    ensures name in h && Wraps(h[name], value) && 1 <= |value| <= 512
    ensures !Blank(value[0]) && !Blank(value[|value| - 1])
    ensures forall i :: 0 <= i < |h[name]| ==> h[name][i] == '\t' || 32 <= h[name][i] as int <= 126
  {
    var i, j := TrimmedSlice(h[name]);
  }

  /** Parsed headers are accepted exactly when everything agrees; a stored key may be used
      for requests from `validAfter` on and strictly before `validUntil`. */
  lemma ParsedAccepted(x: Scheme, self: string, keys: KeyStore, now: int, method_: string, path: string, p: Parsed,
                       body: Bytes)
    ensures CheckParsed(x, self, keys, now, method_, path, p, body).Ok? <==>
            && p.algorithm == "ed25519-v1" && p.destination == self && p.bodyHash == x.bodyHash(body)
            && -300_000 <= now - p.timestamp <= 300_000
            && (p.source, p.keyId) in keys
            && var key := keys[(p.source, p.keyId)];
               && (key.validAfter.Some? ==> key.validAfter.value <= p.timestamp)
               && (key.validUntil.Some? ==> p.timestamp < key.validUntil.value)
               && x.keyDecodes(key.publicKey) && x.signatureDecodes(p.signature)
               && x.checks(key.publicKey,
                           Canonical(Request(method_, path, p.source, p.destination, p.keyId, p.timestamp, p.nonce,
                                             p.bodyHash)),
                           p.signature)
    ensures CheckParsed(x, self, keys, now, method_, path, p, body).Ok? ==>
            CheckParsed(x, self, keys, now, method_, path, p, body).value ==
            VerifiedRequest(p.source, p.destination, p.keyId, p.nonce, p.timestamp, p.bodyHash)
  {
  }

  /** The first check that fails names the error. */
  lemma RefusalReason(x: Scheme, self: string, keys: KeyStore, now: int, method_: string, path: string, p: Parsed,
                      body: Bytes)
    ensures var r := CheckParsed(x, self, keys, now, method_, path, p, body);
            && (p.algorithm != "ed25519-v1" ==> r == Err(UnsupportedAlgorithm))
            && (p.algorithm == "ed25519-v1" && p.destination != self ==> r == Err(DestinationMismatch))
            && (r == Err(BodyHashMismatch) <==>
                  p.algorithm == "ed25519-v1" && p.destination == self && p.bodyHash != x.bodyHash(body))
            && (r == Err(TimestampOutsideWindow) ==> now - p.timestamp > 300_000 || p.timestamp - now > 300_000)
            && (r == Err(UnknownPeerKey) ==>
                  (p.source, p.keyId) !in keys || !x.keyDecodes(keys[(p.source, p.keyId)].publicKey))
            && (r == Err(KeyOutsideValidityWindow) ==>
                  (p.source, p.keyId) in keys
                  && var key := keys[(p.source, p.keyId)];
                     (key.validAfter.Some? && p.timestamp < key.validAfter.value)
                     || (key.validUntil.Some? && p.timestamp >= key.validUntil.value))
            && (r == Err(InvalidSignature) ==> (p.source, p.keyId) in keys && x.signatureDecodes(p.signature))
            && (r == Err(MalformedHeader) ==> !x.signatureDecodes(p.signature))
  {
  }

  /** Which header is which field, and what a field may look like. */
  lemma ParsedFields(h: Headers)
    requires ParseHeaders(h).Ok?
    ensures var p := ParseHeaders(h).value;
            && Carries(h, "x-verdant-federation-algorithm", p.algorithm)
            && Carries(h, "x-verdant-federation-source", p.source)
            && Carries(h, "x-verdant-federation-destination", p.destination)
            && Carries(h, "x-verdant-federation-key-id", p.keyId)
            && Carries(h, "x-verdant-federation-nonce", p.nonce)
            && Carries(h, "x-verdant-federation-content-sha256", p.bodyHash)
            && Carries(h, "x-verdant-federation-signature", p.signature)
            && (exists text :: Carries(h, "x-verdant-federation-timestamp-ms", text)
                               && ParseI64(text) == Some(p.timestamp) && 0 < p.timestamp <= I64_MAX)
  {
    var text := RequiredHeader(h, H_TIMESTAMP).value;
    assert Carries(h, "x-verdant-federation-timestamp-ms", text);
  }

  lemma ParsedShapes(h: Headers)
    requires ParseHeaders(h).Ok?
    ensures var p := ParseHeaders(h).value;
            && 1 <= |p.source| <= 253 && 1 <= |p.destination| <= 253 && 1 <= |p.keyId| <= 128
            && 16 <= |p.nonce| <= 128 && Lacks(p.nonce, ':') && |p.bodyHash| == 43
  {
  }

  /** Whatever is accepted was signed under a stored key that was valid at the request's
      own time, for this destination, this body, and a time within five minutes of the
      clock. */
  lemma AcceptedMeetsEveryCheck(
    x: Scheme, self: string, keys: KeyStore, now: int, method_: string, path: string, h: Headers, body: Bytes)
    requires VerifySignature(x, self, keys, now, method_, path, h, body).Ok?
    ensures var v := VerifySignature(x, self, keys, now, method_, path, h, body).value;
            && v.destination == self && v.bodyHash == x.bodyHash(body) && -300_000 <= now - v.timestamp <= 300_000
            && Carries(h, "x-verdant-federation-algorithm", "ed25519-v1")
            && Carries(h, "x-verdant-federation-source", v.source)
            && Carries(h, "x-verdant-federation-key-id", v.keyId)
            && Carries(h, "x-verdant-federation-nonce", v.nonce)
            && (v.source, v.keyId) in keys
            && var key := keys[(v.source, v.keyId)];
               && (key.validAfter.Some? ==> key.validAfter.value <= v.timestamp)
               && (key.validUntil.Some? ==> v.timestamp < key.validUntil.value)
               && exists signature :: Carries(h, "x-verdant-federation-signature", signature)
                    && x.checks(key.publicKey,
                                Canonical(Request(method_, path, v.source, self, v.keyId, v.timestamp, v.nonce, v.bodyHash)),
                                signature)
  {
    var p := ParseHeaders(h).value;
    ParsedFields(h);
    ParsedAccepted(x, self, keys, now, method_, path, p, body);
    assert Carries(h, "x-verdant-federation-signature", p.signature);
  }

  /** A key past its end opens nothing stamped at or after it, whoever holds the seed. */
  lemma RetiredKeyAcceptsNothing(
    x: Scheme, self: string, keys: KeyStore, now: int, method_: string, path: string, h: Headers, body: Bytes, end: int)
    requires VerifySignature(x, self, keys, now, method_, path, h, body).Ok?
    requires var v := VerifySignature(x, self, keys, now, method_, path, h, body).value;
             (v.source, v.keyId) in keys && keys[(v.source, v.keyId)].validUntil == Some(end)
    ensures VerifySignature(x, self, keys, now, method_, path, h, body).value.timestamp < end
    ensures now < end + 300_000
  {
    AcceptedMeetsEveryCheck(x, self, keys, now, method_, path, h, body);
  }

  // ----- What is accepted was signed -------------------------------------------------------

  datatype Call = Call(method_: string, path: string, destination: string, body: Bytes, timestamp: int, nonce: string)

  predicate ValidCall(c: Call) {
    ValidMethod(c.method_) && ValidPath(c.path) && ValidPeerId(c.destination) && ValidNonce(c.nonce)
    && 0 < c.timestamp <= I64_MAX
  }

  function CallRequest(x: Scheme, signer: Signer, c: Call): Request {
    RequestOf(x, signer, c.method_, c.path, c.destination, c.body, c.timestamp, c.nonce)
  }

  /** A presented signature is no forgery if it passes under the signer's key only for
      texts the signer signed. */
  ghost predicate Unforged(x: Scheme, signer: Signer, calls: set<Call>, signature: string) {
    forall m :: x.checks(x.publicKey(signer.seed), m, signature) ==>
      exists c :: c in calls && Canonical(CallRequest(x, signer, c)) == m
  }

  /** What the signer itself sends is no forgery, as long as no other text happens to have
      the same signature. */
  lemma OwnSignatureIsUnforged(x: Scheme, signer: Signer, calls: set<Call>, c: Call)
    requires c in calls
    requires forall m, s :: x.checks(x.publicKey(signer.seed), m, s) ==> s == x.sign(signer.seed, m)
    requires var text := Canonical(CallRequest(x, signer, c));
             forall m :: x.sign(signer.seed, m) == x.sign(signer.seed, text) ==> m == text
    ensures Unforged(x, signer, calls, x.sign(signer.seed, Canonical(CallRequest(x, signer, c))))
  {
  }

  /** An accepted request with an unforged signature is one the signer made: the
      same method, path, destination, time and nonce, and a body with the same hash. */
  lemma AcceptedWasSigned(
    x: Scheme, signer: Signer, calls: set<Call>, self: string, keys: KeyStore, now: int, method_: string, path: string,
    h: Headers, body: Bytes)
    requires signer.Valid() && forall c :: c in calls ==> ValidCall(c)
    requires VerifySignature(x, self, keys, now, method_, path, h, body).Ok?
    requires ParseHeaders(h).Ok? && Unforged(x, signer, calls, ParseHeaders(h).value.signature)
    requires var v := VerifySignature(x, self, keys, now, method_, path, h, body).value;
             (v.source, v.keyId) in keys && keys[(v.source, v.keyId)].publicKey == x.publicKey(signer.seed)
    ensures var v := VerifySignature(x, self, keys, now, method_, path, h, body).value;
            exists c :: c in calls && c.method_ == method_ && c.path == path && c.destination == self == v.destination
                        && c.timestamp == v.timestamp && c.nonce == v.nonce
                        && x.bodyHash(c.body) == x.bodyHash(body) == v.bodyHash
                        && v.source == signer.source && v.keyId == signer.keyId
  {
    var p := ParseHeaders(h).value;
    var r := Request(method_, path, p.source, p.destination, p.keyId, p.timestamp, p.nonce, p.bodyHash);
    assert x.checks(x.publicKey(signer.seed), Canonical(r), p.signature);
    var c :| c in calls && Canonical(CallRequest(x, signer, c)) == Canonical(r);
    ParsedTimestampFits(h);
    CanonicalInjective(CallRequest(x, signer, c), r);
  }

  lemma ParsedTimestampFits(h: Headers)
    requires ParseHeaders(h).Ok?
    ensures 0 < ParseHeaders(h).value.timestamp <= I64_MAX
  {
  }
}
