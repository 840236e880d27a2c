/** Envelope encryption: the version-2 ciphertext layout, its parser, the legacy path, and key rotation. */
module Envelope {
  import opened Base64Url
  import opened Wrappers

  const NONCE_BYTES := 12
  const VERSION: byte := 2

  datatype Envelope = Envelope(keyRef: Bytes, wrapped: Bytes, nonce: Bytes, ct: Bytes)

  datatype CryptoError = TooLong | BadToken | IndexOutOfRange | BadUtf8 | UnwrapFailed | InvalidTag

  // ----- UTF-8 (section 4 of RFC 3629) ----------------------------------------------------------

  predicate IsTail(b: byte) {
    0x80 <= b <= 0xBF
  }

  /** The length of the character that starts `b`, or 0 when none does. */
  function CharLength(b: Bytes): (n: nat)
    ensures n <= |b|
  {
    if |b| >= 1 && b[0] < 0x80 then 1
    else if |b| >= 2 && 0xC2 <= b[0] <= 0xDF && IsTail(b[1]) then 2
    else if |b| >= 3 && 0xE0 <= b[0] <= 0xEF && IsTail(b[1]) && IsTail(b[2])
            && (b[0] == 0xE0 ==> b[1] >= 0xA0) && (b[0] == 0xED ==> b[1] < 0xA0) then 3
    else if |b| >= 4 && 0xF0 <= b[0] <= 0xF4 && IsTail(b[1]) && IsTail(b[2]) && IsTail(b[3])
            && (b[0] == 0xF0 ==> b[1] >= 0x90) && (b[0] == 0xF4 ==> b[1] < 0x90) then 4
    else 0
  }

  predicate ValidUtf8(b: Bytes) {
    b == [] || (CharLength(b) > 0 && ValidUtf8(b[CharLength(b)..]))
  }

  /** The numbers that stand for characters: the surrogates are none. */
  predicate IsScalar(cp: int) {
    0 <= cp < 0xD800 || 0xE000 <= cp < 0x11_0000
  }

  /** The encoding of one character (section 3 of RFC 3629). */
  function Utf8Of(cp: int): Bytes
    requires IsScalar(cp)
  {
    if cp < 0x80 then [cp]
    else if cp < 0x800 then [0xC0 + cp / 64, 0x80 + cp % 64]
    else if cp < 0x1_0000 then [0xE0 + cp / 4096, 0x80 + cp / 64 % 64, 0x80 + cp % 64]
    else [0xF0 + cp / 262144, 0x80 + cp / 4096 % 64, 0x80 + cp / 64 % 64, 0x80 + cp % 64]
  }

  function Utf8(cps: seq<int>): Bytes
    requires forall i | 0 <= i < |cps| :: IsScalar(cps[i])
  {
    if cps == [] then [] else Utf8Of(cps[0]) + Utf8(cps[1..])
  }

  lemma EncodedStarts(cp: int, rest: Bytes)
    requires IsScalar(cp)
    ensures CharLength(Utf8Of(cp) + rest) == |Utf8Of(cp)|
  {
  }

  lemma SixBitGroups(f: nat, h: nat, m: nat, l: nat)
    requires h < 64 && m < 64 && l < 64
    ensures var cp := f * 262144 + h * 4096 + m * 64 + l;
            cp % 64 == l && cp / 64 % 64 == m && cp / 4096 % 64 == h && cp / 262144 == f
  {
    var cp := f * 262144 + h * 4096 + m * 64 + l;
    assert cp == 64 * (f * 4096 + h * 64 + m) + l;
    assert cp / 64 == f * 4096 + h * 64 + m;
    assert cp / 4096 == f * 64 + h;
  }

  lemma CharDecodes(b: Bytes) returns (cp: int)
    requires CharLength(b) > 0
    ensures IsScalar(cp) && b[..CharLength(b)] == Utf8Of(cp)
  {
    var n := CharLength(b);
    if n == 1 {
      cp := b[0];
    } else if n == 2 {
      SixBitGroups(0, 0, b[0] as int - 0xC0, b[1] as int - 0x80);
      cp := (b[0] as int - 0xC0) * 64 + (b[1] as int - 0x80);
    } else if n == 3 {
      cp := ThreeDecode(b);
    } else {
      cp := FourDecode(b);
    }
  }

  lemma ThreeDecode(b: Bytes) returns (cp: int)
    requires CharLength(b) == 3
    ensures IsScalar(cp) && b[..3] == Utf8Of(cp)
  {
    var h, m, l := b[0] as int - 0xE0, b[1] as int - 0x80, b[2] as int - 0x80;
    SixBitGroups(0, h, m, l);
    cp := h * 4096 + m * 64 + l;
    assert 0x800 <= cp < 0x1_0000 && cp / 4096 == h;
  }

  lemma FourDecode(b: Bytes) returns (cp: int)
    requires CharLength(b) == 4
    ensures IsScalar(cp) && b[..4] == Utf8Of(cp)
  {
    var f, h, m, l := b[0] as int - 0xF0, b[1] as int - 0x80, b[2] as int - 0x80, b[3] as int - 0x80;
    SixBitGroups(f, h, m, l);
    cp := f * 262144 + h * 4096 + m * 64 + l;
    assert 0x1_0000 <= cp < 0x11_0000;
  }

  lemma {:induction false} Utf8Decodes(b: Bytes) returns (cps: seq<int>)
    requires ValidUtf8(b)
    ensures (forall i | 0 <= i < |cps| :: IsScalar(cps[i])) && Utf8(cps) == b
    decreases |b|
  {
    if b == [] {
      cps := [];
    } else {
      var n := CharLength(b);
      var cp := CharDecodes(b);
      var rest := Utf8Decodes(b[n..]);
      cps := [cp] + rest;
      assert cps[1..] == rest && b == b[..n] + b[n..];
    }
  }

  lemma {:induction false} EncodedIsValid(cps: seq<int>)
    requires forall i | 0 <= i < |cps| :: IsScalar(cps[i])
    ensures ValidUtf8(Utf8(cps))
    decreases |cps|
  {
    if cps != [] {
      var first, rest := Utf8Of(cps[0]), Utf8(cps[1..]);
      EncodedIsValid(cps[1..]);
      EncodedStarts(cps[0], rest);
      assert (first + rest)[|first|..] == rest;
    }
  }

  /** The validity test accepts exactly the encodings of character sequences. */
  lemma ValidUtf8Iff(b: Bytes)
    ensures ValidUtf8(b) <==> exists cps: seq<int> | (forall i | 0 <= i < |cps| :: IsScalar(cps[i])) :: Utf8(cps) == b
  {
    if ValidUtf8(b) {
      var cps := Utf8Decodes(b);
    }
    if cps: seq<int> :| (forall i | 0 <= i < |cps| :: IsScalar(cps[i])) && Utf8(cps) == b {
      EncodedIsValid(cps);
    }
  }

  /** A Python string, as its UTF-8 encoding. */
  type Text = b: Bytes | ValidUtf8(b)

  // ----- the version-2 layout --------------------------------------------------------------------

  predicate Fits(e: Envelope) {
    |e.keyRef| <= 255 && |e.wrapped| <= 65535
  }

  /** `n.to_bytes(2, "big")` */
  function TwoBytes(n: nat): Bytes
    requires n < 65536
  {
    [n / 256, n % 256]
  }

  /** version | ref_len(1) | key_ref | wrapped_len(2 BE) | wrapped_key | nonce | ct */
  function Format(e: Envelope): Bytes
    requires Fits(e)
  {
    [VERSION, |e.keyRef|] + e.keyRef + TwoBytes(|e.wrapped|) + e.wrapped + e.nonce + e.ct
  }

  function Min(a: nat, b: nat): nat {
    if a < b then a else b
  }

  /** `b[i:j]` for nonnegative `i <= j`: indices past the end are clamped. */
  function Slice(b: Bytes, i: nat, j: nat): Bytes
    requires i <= j
  {
    b[Min(i, |b|)..Min(j, |b|)]
  }

  /** `b[i:]` */
  function Tail(b: Bytes, i: nat): Bytes {
    b[Min(i, |b|)..]
  }

  /** `int.from_bytes(b, "big")` */
  function FromBytes(b: Bytes): nat {
    if b == [] then 0 else FromBytes(b[..|b| - 1]) * 256 + b[|b| - 1]
  }

  /** Where the four fields of a version-2 blob start, by its own length bytes. */
  function RefEnd(blob: Bytes): nat
    requires |blob| >= 2
  {
    blob[1] as int + 2
  }

  function WrappedEnd(blob: Bytes): nat
    requires |blob| >= 2
  {
    RefEnd(blob) + 2 + FromBytes(Slice(blob, RefEnd(blob), RefEnd(blob) + 2))
  }

  function FieldsOf(blob: Bytes): Envelope
    requires |blob| >= 2
  {
    var i, k := RefEnd(blob), WrappedEnd(blob);
    Envelope(Slice(blob, 2, i), Slice(blob, i + 2, k), Slice(blob, k, k + NONCE_BYTES), Tail(blob, k + NONCE_BYTES))
  }

  function Parsed(blob: Bytes): Result<Envelope, CryptoError> {
    if |blob| < 2 then Err(IndexOutOfRange)
    else if !ValidUtf8(FieldsOf(blob).keyRef) then Err(BadUtf8)
    else Ok(FieldsOf(blob))
  }

  /** The cursor of `decrypt`: slices never fail, so only the length byte of the reference can be missing,
      or the reference not be UTF-8. */
  method ParseBlob(blob: Bytes) returns (r: Result<Envelope, CryptoError>)
    ensures r == Parsed(blob)
  {
    var i := 1;
    if i >= |blob| {
      return Err(IndexOutOfRange);
    }
    var refLen := blob[i];
    i := i + 1;
    var keyRef := Slice(blob, i, i + refLen);
    if !ValidUtf8(keyRef) {
      return Err(BadUtf8);
    }
    i := i + refLen;
    var wrappedLen := FromBytes(Slice(blob, i, i + 2));
    i := i + 2;
    var wrapped := Slice(blob, i, i + wrappedLen);
    i := i + wrappedLen;
    var nonce := Slice(blob, i, i + NONCE_BYTES);
    var ct := Tail(blob, i + NONCE_BYTES);
    r := Ok(Envelope(keyRef, wrapped, nonce, ct));
  }

  lemma FromPair(b: Bytes)
    requires |b| == 2
    ensures FromBytes(b) == b[0] as int * 256 + b[1] as int
  {
    assert b[..1][..0] == [] && FromBytes(b[..1]) == b[0];
  }

  lemma FromTwoBytes(n: nat)
    requires n < 65536
    ensures FromBytes(TwoBytes(n)) == n
  {
    FromPair(TwoBytes(n));
  }

  /** Where the bytes of a blob are: version 2, the length of the reference in one byte, the reference, the
      length of the wrapped key in two bytes with the high one first, the wrapped key, nonce and ciphertext. */
  lemma FormatLayout(e: Envelope)
    requires Fits(e)
    ensures var b, r, w, n := Format(e), |e.keyRef|, |e.wrapped|, |e.nonce|;
            && |b| == 4 + r + w + n + |e.ct|
            && b[0] == 2 && b[1] == r && b[2 + r] as int * 256 + b[3 + r] as int == w
            && b[2..2 + r] == e.keyRef && b[4 + r..4 + r + w] == e.wrapped
            && b[4 + r + w..4 + r + w + n] == e.nonce && b[4 + r + w + n..] == e.ct
  {
  }

  lemma SliceMiddle(blob: Bytes, a: Bytes, b: Bytes, c: Bytes)
    requires blob == a + b + c
    ensures Slice(blob, |a|, |a| + |b|) == b && Tail(blob, |a|) == b + c
  {
  }

  lemma FormatLengths(e: Envelope)
    requires Fits(e)
    ensures |Format(e)| >= 2 && RefEnd(Format(e)) == 2 + |e.keyRef|
    ensures WrappedEnd(Format(e)) == 4 + |e.keyRef| + |e.wrapped|
    ensures Slice(Format(e), 2, 2 + |e.keyRef|) == e.keyRef
  {
    var blob := Format(e);
    var head, len := [VERSION, |e.keyRef|], TwoBytes(|e.wrapped|);
    assert blob[1] == |e.keyRef|;
    SliceMiddle(blob, head, e.keyRef, len + e.wrapped + e.nonce + e.ct);
    SliceMiddle(blob, head + e.keyRef, len, e.wrapped + e.nonce + e.ct);
    FromTwoBytes(|e.wrapped|);
  }

  /** The parser recovers exactly the four fields that were formatted, if the reference is text. */
  lemma ParseOfFormat(e: Envelope)
    requires Fits(e) && |e.nonce| == NONCE_BYTES
    ensures Parsed(Format(e)) == if ValidUtf8(e.keyRef) then Ok(e) else Err(BadUtf8)
  {
    var blob := Format(e);
    var front := [VERSION, |e.keyRef|] + e.keyRef + TwoBytes(|e.wrapped|);
    FormatLengths(e);
    SliceMiddle(blob, front, e.wrapped, e.nonce + e.ct);
    SliceMiddle(blob, front + e.wrapped, e.nonce, e.ct);
    SliceMiddle(blob, front + e.wrapped + e.nonce, e.ct, []);
  }

  /** The blob is long enough for everything its length bytes announce. */
  predicate Complete(blob: Bytes)
    requires |blob| >= 2
  {
    WrappedEnd(blob) + NONCE_BYTES <= |blob|
  }

  /** Reprinting what was parsed gives the blob back, with a full nonce, exactly when the parser did not
      run short. */
  lemma FormatOfParse(blob: Bytes)
    requires |blob| >= 2 && blob[0] == VERSION
    ensures var e := FieldsOf(blob);
            Complete(blob) <==> Fits(e) && |e.nonce| == NONCE_BYTES && Format(e) == blob
  {
    if Complete(blob) {
      CompleteReprints(blob);
    }
  }

  lemma CompleteFields(blob: Bytes)
    requires |blob| >= 2 && Complete(blob)
    ensures var e, i, k := FieldsOf(blob), RefEnd(blob), WrappedEnd(blob);
            && 2 <= i && i + 2 <= k && k + NONCE_BYTES <= |blob|
            && e.keyRef == blob[2..i] && e.wrapped == blob[i + 2..k]
            && e.nonce == blob[k..k + NONCE_BYTES] && e.ct == blob[k + NONCE_BYTES..]
            && |e.wrapped| == FromBytes(blob[i..i + 2])
  {
  }

  lemma CompleteReprints(blob: Bytes)
    requires |blob| >= 2 && blob[0] == VERSION && Complete(blob)
    ensures var e := FieldsOf(blob); Fits(e) && |e.nonce| == NONCE_BYTES && Format(e) == blob
  {
    var i, k := RefEnd(blob), WrappedEnd(blob);
    CompleteFields(blob);
    ToTwoBytes(blob[i..i + 2]);
    Cut(blob, i, k);
    assert blob[..2] == [VERSION, |blob[2..i]|];
  }

  lemma Cut(blob: Bytes, i: nat, k: nat)
    requires 2 <= i && i + 2 <= k && k + NONCE_BYTES <= |blob|
    ensures blob == blob[..2] + blob[2..i] + blob[i..i + 2] + blob[i + 2..k] + blob[k..k + NONCE_BYTES]
                    + blob[k + NONCE_BYTES..]
  {
    assert blob[..i] == blob[..2] + blob[2..i];
    assert blob[..i + 2] == blob[..i] + blob[i..i + 2];
    assert blob[..k] == blob[..i + 2] + blob[i + 2..k];
    assert blob[..k + NONCE_BYTES] == blob[..k] + blob[k..k + NONCE_BYTES];
  }

  lemma ToTwoBytes(b: Bytes)
    requires |b| == 2
    ensures FromBytes(b) < 65536 && TwoBytes(FromBytes(b)) == b
  {
    FromPair(b);
  }

  // ----- the primitives ----------------------------------------------------------------------

  /** An authenticated cipher: key, nonce and text; opening fails on a bad tag. */
  datatype Aead = Aead(seal: (Bytes, Bytes, Bytes) -> Bytes, open: (Bytes, Bytes, Bytes) -> Option<Bytes>)

  const TAG_BYTES := 16

  /** Opening undoes sealing, and a ciphertext, sealed here or not, is longer than its plaintext by a tag. */
  ghost predicate Lawful(a: Aead) {
    && (forall k, n, m :: a.open(k, n, a.seal(k, n, m)) == Some(m))
    && (forall k, n, m :: |a.seal(k, n, m)| == |m| + TAG_BYTES)
    && (forall k, n, c | a.open(k, n, c).Some? :: |c| == |a.open(k, n, c).value| + TAG_BYTES)
  }

  /** Such ciphers exist. */
  lemma LawfulCipherExists() returns (a: Aead)
    ensures Lawful(a)
  {
    var pad: Bytes := seq(TAG_BYTES, _ => 0);
    a := Aead((k: Bytes, n: Bytes, m: Bytes) => m + pad,
              (k: Bytes, n: Bytes, c: Bytes) =>
                if |c| < TAG_BYTES || c[|c| - TAG_BYTES..] != pad then None else Some(c[..|c| - TAG_BYTES]));
    forall k: Bytes, n: Bytes, m: Bytes ensures a.open(k, n, a.seal(k, n, m)) == Some(m) {
      assert (m + pad)[|m|..] == pad && (m + pad)[..|m|] == m;
    }
  }

  datatype DataKey = DataKey(keyRef: Text, key: Bytes, wrapped: Bytes)

  /** `wrap` issues a fresh data key (its argument is the provider's randomness), `unwrap` recovers one. */
  datatype Provider = Provider(wrap: nat -> DataKey, unwrap: (Text, Bytes) -> Option<Bytes>)

  /** The contract of a key provider. */
  ghost predicate Honors(p: Provider) {
    forall r :: p.unwrap(p.wrap(r).keyRef, p.wrap(r).wrapped) == Some(p.wrap(r).key)
  }

  const ENV_REF: Text := [101, 110, 118]

  /** The data key is the root key itself; unwrapping ignores its arguments. */
  function EnvProvider(root: Bytes): Provider {
    Provider((r: nat) => DataKey(ENV_REF, root, []), (ref: Text, wrapped: Bytes) => Some(root))
  }

  /** Both remote providers: `generate` a key pair under one key id, `decrypt` under the id of the blob. */
  function RemoteProvider(keyId: Text, generate: nat -> (Bytes, Bytes),
                          decrypt: (Text, Bytes) -> Option<Bytes>): Provider {
    Provider((r: nat) => DataKey(keyId, generate(r).0, generate(r).1), decrypt)
  }

  /** The environment provider always honors the contract; a remote one exactly when the service decrypts
      under its key id every key it generated. */
  lemma ProvidersHonor(root: Bytes, keyId: Text, generate: nat -> (Bytes, Bytes),
                       decrypt: (Text, Bytes) -> Option<Bytes>)
    ensures Honors(EnvProvider(root))
    ensures Honors(RemoteProvider(keyId, generate, decrypt)) <==>
            forall r :: decrypt(keyId, generate(r).1) == Some(generate(r).0)
  {
    var p := RemoteProvider(keyId, generate, decrypt);
    if Honors(p) {
      forall r ensures decrypt(keyId, generate(r).1) == Some(generate(r).0) {
        assert p.unwrap(p.wrap(r).keyRef, p.wrap(r).wrapped) == Some(p.wrap(r).key);
      }
    }
  }

  // ----- encrypt and decrypt -------------------------------------------------------------------

  function Encrypt(a: Aead, p: Provider, r: nat, nonce: Bytes, plaintext: Text): Result<string, CryptoError> {
    var dk := p.wrap(r);
    var e := Envelope(dk.keyRef, dk.wrapped, nonce, a.seal(dk.key, nonce, plaintext));
    if Fits(e) then Ok(Encode(Format(e))) else Err(TooLong)
  }

  function DecryptV2(a: Aead, p: Provider, blob: Bytes): Result<Text, CryptoError> {
    match Parsed(blob)
    case Err(error) => Err(error)
    case Ok(e) =>
      var key := p.unwrap(e.keyRef, e.wrapped);
      if key.None? then Err(UnwrapFailed) else Opened(a.open(key.value, e.nonce, e.ct))
  }

  function DecryptLegacy(a: Aead, envKey: Bytes, blob: Bytes): Result<Text, CryptoError> {
    Opened(a.open(envKey, Slice(blob, 0, NONCE_BYTES), Tail(blob, NONCE_BYTES)))
  }

  function Opened(m: Option<Bytes>): Result<Text, CryptoError> {
    if m.None? then Err(InvalidTag) else if ValidUtf8(m.value) then Ok(m.value) else Err(BadUtf8)
  }

  function Decrypt(a: Aead, p: Provider, envKey: Bytes, token: string): Result<Text, CryptoError> {
    var blob := Decode(token);
    if blob.None? then Err(BadToken)
    else if blob.value == [] || blob.value[0] != VERSION then DecryptLegacy(a, envKey, blob.value)
    else DecryptV2(a, p, blob.value)
  }

  /** Whatever the provider, the key sizes that fit and the randomness, decrypting undoes encrypting; and
      encryption refuses exactly the key references and wrapped keys that do not fit their length fields. */
  lemma DecryptUndoesEncrypt(a: Aead, p: Provider, envKey: Bytes, r: nat, nonce: Bytes, m: Text)
    requires Lawful(a) && Honors(p) && |nonce| == NONCE_BYTES
    ensures Encrypt(a, p, r, nonce, m).Ok? <==> |p.wrap(r).keyRef| <= 255 && |p.wrap(r).wrapped| <= 65535
    ensures Encrypt(a, p, r, nonce, m).Ok? ==> Decrypt(a, p, envKey, Encrypt(a, p, r, nonce, m).value) == Ok(m)
  {
    var dk := p.wrap(r);
    var e := Envelope(dk.keyRef, dk.wrapped, nonce, a.seal(dk.key, nonce, m));
    if Fits(e) {
      RoundTrip(Format(e));
      ParseOfFormat(e);
    }
  }

  /** What decrypting a blob in the version-2 layout answers, sealed here or not: the text that the cipher
      opens under the key the provider unwraps, or the first thing that fails. */
  lemma DecryptAnswers(a: Aead, p: Provider, envKey: Bytes, e: Envelope)
    requires Fits(e) && |e.nonce| == NONCE_BYTES
    ensures var r := Decrypt(a, p, envKey, Encode(Format(e)));
            if !ValidUtf8(e.keyRef) then r == Err(BadUtf8)
            else if p.unwrap(e.keyRef, e.wrapped).None? then r == Err(UnwrapFailed)
            else
              var text := a.open(p.unwrap(e.keyRef, e.wrapped).value, e.nonce, e.ct);
              if text.None? then r == Err(InvalidTag)
              else if !ValidUtf8(text.value) then r == Err(BadUtf8)
              else r == Ok(text.value)
  {
    RoundTrip(Format(e));
    ParseOfFormat(e);
  }

  // ----- legacy tokens -------------------------------------------------------------------------

  /** A version-1 token: nonce and ciphertext under the environment key. */
  function LegacyToken(a: Aead, envKey: Bytes, nonce: Bytes, m: Text): string {
    Encode(nonce + a.seal(envKey, nonce, m))
  }

  /** The first nonce byte alone decides how a legacy token is read. */
  lemma LegacyDispatch(a: Aead, p: Provider, envKey: Bytes, nonce: Bytes, m: Text)
    requires Lawful(a) && |nonce| == NONCE_BYTES
    ensures nonce[0] != VERSION ==> Decrypt(a, p, envKey, LegacyToken(a, envKey, nonce, m)) == Ok(m)
    ensures nonce[0] == VERSION ==>
              Decrypt(a, p, envKey, LegacyToken(a, envKey, nonce, m)) ==
              DecryptV2(a, p, nonce + a.seal(envKey, nonce, m))
  {
    var blob := nonce + a.seal(envKey, nonce, m);
    RoundTrip(blob);
    assert blob[..NONCE_BYTES] == nonce && blob[NONCE_BYTES..] == a.seal(envKey, nonce, m);
  }

  /** What decrypting a legacy blob answers, sealed here or not: the environment key must open it. */
  lemma LegacyAnswers(a: Aead, p: Provider, envKey: Bytes, nonce: Bytes, ct: Bytes)
    requires |nonce| == NONCE_BYTES && nonce[0] != VERSION
    ensures var r, text := Decrypt(a, p, envKey, Encode(nonce + ct)), a.open(envKey, nonce, ct);
            if text.None? then r == Err(InvalidTag)
            else if !ValidUtf8(text.value) then r == Err(BadUtf8)
            else r == Ok(text.value)
  {
    RoundTrip(nonce + ct);
    assert (nonce + ct)[..NONCE_BYTES] == nonce && (nonce + ct)[NONCE_BYTES..] == ct;
  }

  /** Tokens that cannot hold a text: what is no base64, the version byte alone, and anything else shorter
      than a nonce and a tag. */
  lemma ShortTokensFail(a: Aead, p: Provider, envKey: Bytes, token: string)
    requires Lawful(a)
    ensures Decode(token) == None ==> Decrypt(a, p, envKey, token) == Err(BadToken)
    ensures Decode(token) == Some([2]) ==> Decrypt(a, p, envKey, token) == Err(IndexOutOfRange)
    ensures Decode(token).Some? && |Decode(token).value| < 28 && !([2] <= Decode(token).value) ==>
              Decrypt(a, p, envKey, token) == Err(InvalidTag)
    ensures Decode(token).Some? && |Decode(token).value| < 32 && [2] <= Decode(token).value ==>
              Decrypt(a, p, envKey, token).Err?
  {
    if Decode(token).Some? {
      var blob := Decode(token).value;
      if blob != [] && blob[0] == VERSION {
        if DecryptV2(a, p, blob).Ok? {
          TextIsShorter(a, p, blob);
        }
      } else {
        assert |Tail(blob, NONCE_BYTES)| < TAG_BYTES || |blob| >= 28;
      }
    }
  }

  /** A version-2 blob spends at least four bytes on its header, twelve on the nonce and sixteen on the tag. */
  lemma TextIsShorter(a: Aead, p: Provider, blob: Bytes)
    requires Lawful(a) && DecryptV2(a, p, blob).Ok?
    ensures |DecryptV2(a, p, blob).value| + 4 + NONCE_BYTES + TAG_BYTES <= |blob|
  {
    var e := Parsed(blob).value;
    var key := p.unwrap(e.keyRef, e.wrapped).value;
    assert |e.ct| == |a.open(key, e.nonce, e.ct).value| + TAG_BYTES;
    CtAfterHeader(blob);
  }

  lemma CtAfterHeader(blob: Bytes)
    requires |blob| >= 2
    ensures FieldsOf(blob).ct == [] || |FieldsOf(blob).ct| + 4 + NONCE_BYTES <= |blob|
  {
    assert WrappedEnd(blob) >= 4;
  }

  /** Read as version 2, a legacy token loses at least four bytes of its text to the header. */
  lemma LegacyTextShrinks(a: Aead, p: Provider, envKey: Bytes, nonce: Bytes, m: Text)
    requires Lawful(a) && |nonce| == NONCE_BYTES && nonce[0] == VERSION
    ensures var r := Decrypt(a, p, envKey, LegacyToken(a, envKey, nonce, m)); r.Ok? ==> |r.value| + 4 <= |m|
  {
    var blob := nonce + a.seal(envKey, nonce, m);
    LegacyDispatch(a, p, envKey, nonce, m);
    if DecryptV2(a, p, blob).Ok? {
      TextIsShorter(a, p, blob);
    }
  }

  /** "Legacy ciphertext is still decryptable": under every provider and for every text, a token decrypts
      to its text exactly when its nonce does not start with the version byte. */
  lemma LegacyReadableIff(a: Aead, p: Provider, envKey: Bytes, nonce: Bytes, m: Text)
    requires Lawful(a) && |nonce| == NONCE_BYTES
    ensures Decrypt(a, p, envKey, LegacyToken(a, envKey, nonce, m)) == Ok(m) <==> nonce[0] != VERSION
    ensures nonce[0] == VERSION && |m| < 4 ==> Decrypt(a, p, envKey, LegacyToken(a, envKey, nonce, m)).Err?
  {
    LegacyDispatch(a, p, envKey, nonce, m);
    if nonce[0] == VERSION {
      LegacyTextShrinks(a, p, envKey, nonce, m);
    }
  }

  // ----- rotation ------------------------------------------------------------------------------

  /** `q` unwraps everything `p` did, to the same keys. */
  ghost predicate StillUnwraps(p: Provider, q: Provider) {
    forall ref, w | p.unwrap(ref, w).Some? :: q.unwrap(ref, w) == p.unwrap(ref, w)
  }

  datatype Issued = Issued(token: string, plaintext: Text)

  datatype State = State(provider: Provider, issued: seq<Issued>)

  datatype Op = Rotate(provider: Provider) | Issue(r: nat, nonce: Bytes, plaintext: Text)

  ghost predicate Admissible(s: State, op: Op) {
    match op
    case Rotate(p) => Honors(p) && StillUnwraps(s.provider, p)
    case Issue(_, nonce, _) => |nonce| == NONCE_BYTES
  }

  /** No stored token is ever rewritten. */
  function Next(a: Aead, s: State, op: Op): State {
    match op
    case Rotate(p) => s.(provider := p)
    case Issue(r, nonce, m) =>
      var t := Encrypt(a, s.provider, r, nonce, m);
      if t.Ok? then s.(issued := s.issued + [Issued(t.value, m)]) else s
  }

  function Run(a: Aead, s: State, ops: seq<Op>): State {
    if ops == [] then s else Next(a, Run(a, s, ops[..|ops| - 1]), ops[|ops| - 1])
  }

  ghost predicate AllAdmissible(a: Aead, s: State, ops: seq<Op>) {
    ops == [] || (AllAdmissible(a, s, ops[..|ops| - 1]) && Admissible(Run(a, s, ops[..|ops| - 1]), ops[|ops| - 1]))
  }

  ghost predicate AllReadable(a: Aead, envKey: Bytes, s: State) {
    forall i | 0 <= i < |s.issued| :: Decrypt(a, s.provider, envKey, s.issued[i].token) == Ok(s.issued[i].plaintext)
  }

  lemma RotationKeepsReadable(a: Aead, p: Provider, q: Provider, envKey: Bytes, token: string)
    requires StillUnwraps(p, q) && Decrypt(a, p, envKey, token).Ok?
    ensures Decrypt(a, q, envKey, token) == Decrypt(a, p, envKey, token)
  {
  }

  /** Over any run of rotations and encryptions, every token readable at the start and every token issued
      since decrypts under the current provider without being rewritten. */
  lemma {:induction false} TokensStayReadable(a: Aead, envKey: Bytes, s: State, ops: seq<Op>)
    requires Lawful(a) && Honors(s.provider) && AllReadable(a, envKey, s) && AllAdmissible(a, s, ops)
    ensures Honors(Run(a, s, ops).provider) && AllReadable(a, envKey, Run(a, s, ops))
    ensures s.issued <= Run(a, s, ops).issued
  {
    if ops != [] {
      var before, op := ops[..|ops| - 1], ops[|ops| - 1];
      TokensStayReadable(a, envKey, s, before);
      var t := Run(a, s, before);
      match op
      case Rotate(p) =>
        forall i | 0 <= i < |t.issued| ensures Decrypt(a, p, envKey, t.issued[i].token) == Ok(t.issued[i].plaintext) {
          RotationKeepsReadable(a, t.provider, p, envKey, t.issued[i].token);
        }
      case Issue(r, nonce, m) =>
        DecryptUndoesEncrypt(a, t.provider, envKey, r, nonce, m);
    }
  }

  /** "Rotating the root key does not require re-encrypting every row": a remote provider may change its key
      id as long as the service decrypts what it generated under either. */
  lemma RootKeyRotates(a: Aead, envKey: Bytes, issued: seq<Issued>, oldId: Text, newId: Text,
                       oldKeys: nat -> (Bytes, Bytes), newKeys: nat -> (Bytes, Bytes),
                       decrypt: (Text, Bytes) -> Option<Bytes>)
    requires Lawful(a) && AllReadable(a, envKey, State(RemoteProvider(oldId, oldKeys, decrypt), issued))
    requires forall r :: decrypt(oldId, oldKeys(r).1) == Some(oldKeys(r).0)
    requires forall r :: decrypt(newId, newKeys(r).1) == Some(newKeys(r).0)
    ensures AllReadable(a, envKey, State(RemoteProvider(newId, newKeys, decrypt), issued))
  {
    ProvidersHonor(envKey, oldId, oldKeys, decrypt);
    ProvidersHonor(envKey, newId, newKeys, decrypt);
    var s := State(RemoteProvider(oldId, oldKeys, decrypt), issued);
    var rotate := Rotate(RemoteProvider(newId, newKeys, decrypt));
    assert [rotate][..|[rotate]| - 1] == [];
    assert AllAdmissible(a, s, []) && Admissible(Run(a, s, []), rotate);
    TokensStayReadable(a, envKey, s, [rotate]);
  }

  /** The environment key cannot be rotated: a token issued under one environment key decrypts under another
      exactly when the cipher opens under the one what it sealed under the other. */
  lemma EnvKeyReplaced(a: Aead, oldKey: Bytes, newKey: Bytes, r: nat, nonce: Bytes, m: Text)
    requires Lawful(a) && |nonce| == NONCE_BYTES
    ensures var token := Encrypt(a, EnvProvider(oldKey), r, nonce, m);
            token.Ok? &&
            (Decrypt(a, EnvProvider(newKey), newKey, token.value) == Ok(m) <==>
             a.open(newKey, nonce, a.seal(oldKey, nonce, m)) == Some(m))
  {
    var e := Envelope(ENV_REF, [], nonce, a.seal(oldKey, nonce, m));
    RoundTrip(Format(e));
    ParseOfFormat(e);
  }
}
