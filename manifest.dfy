/** Key derivation, MAC-gated decryption and decoding of one sticker pack's
    encrypted manifest (`deriveKeys`, `decryptManifest`, `parseManifest`). */
module Manifest {
  import opened Wrappers
  import opened Bytes
  import opened Errors
  import opened Primitives
  import Hex

  const HkdfHash := "SHA-256"
  /** The `length` argument; whether the library reads it as bits or as
      bytes, its output must hold at least the 64 bytes the two keys take. */
  const DerivedKeyLength := 512
  const HkdfInfo := "Sticker Pack"
  const SaltLength := 32
  const MacFailureMessage := "MAC verification failed."
  /** The code `parseManifest` gives an error that has none. */
  const ParseFallbackCode := "MANIFEST_PARSE"
  const ParsePrefix := "[parseManifest] "

  /** The HKDF call `deriveKeys` makes for a hex-encoded pack key. */
  function KeyRequest(encodedKey: string): HkdfRequest {
    HkdfRequest(Hex.Decode(encodedKey), HkdfHash, DerivedKeyLength, HkdfInfo, Zeros(SaltLength))
  }

  datatype DerivedKeys = DerivedKeys(aesKey: Bytes, hmacKey: Bytes)

  /** `deriveKeys`: the AES key is the first 32 derived bytes, the HMAC key the
      next 32; a rejected HKDF promise propagates unchanged. */
  function DeriveKeys(p: Primitives, encodedKey: string): (r: Result<DerivedKeys, Error>)
    ensures r.Failure? <==> p.hkdf(KeyRequest(encodedKey)).Failure?
    ensures r.Failure? ==> r.error == p.hkdf(KeyRequest(encodedKey)).error
    ensures r.Success? ==>
      var okm := p.hkdf(KeyRequest(encodedKey)).value;
      && |r.value.aesKey| <= 32 && |r.value.hmacKey| <= 32
      && r.value.aesKey + r.value.hmacKey == JsSlice(okm, 0, 64)
  {
    match p.hkdf(KeyRequest(encodedKey))
    case Failure(e) => Failure(e)
    case Success(okm) =>
      var aes, mac := JsSlice(okm, 0, 32), JsSlice(okm, 32, 64);
      assert aes + mac == JsSlice(okm, 0, 64) by {
        if |okm| < 32 { assert mac == []; } else if |okm| < 64 { assert okm[..32] + okm[32..] == okm; }
        else { assert okm[..32] + okm[32..64] == okm[..64]; }
      }
      Success(DerivedKeys(aes, mac))
  }

  /** HKDF is asked for SHA-256 output of length 512 with info "Sticker
      Pack" and a 32-byte zero salt; when it returns at least 64 bytes, the
      two keys are the disjoint 32-byte ranges [0,32) and [32,64) of its
      output, AES key first. */
  lemma DeriveKeysSplit(p: Primitives, encodedKey: string)
    requires p.hkdf(HkdfRequest(Hex.Decode(encodedKey), "SHA-256", 512, "Sticker Pack", Zeros(32))).Success?
    requires |p.hkdf(HkdfRequest(Hex.Decode(encodedKey), "SHA-256", 512, "Sticker Pack", Zeros(32))).value| >= 64
    ensures DeriveKeys(p, encodedKey).Success?
    ensures
      var okm := p.hkdf(HkdfRequest(Hex.Decode(encodedKey), "SHA-256", 512, "Sticker Pack", Zeros(32))).value;
      var keys := DeriveKeys(p, encodedKey).value;
      && |keys.aesKey| == 32 && |keys.hmacKey| == 32
      && keys.aesKey == okm[..32] && keys.hmacKey == okm[32..64]
  {
    assert KeyRequest(encodedKey) == HkdfRequest(Hex.Decode(encodedKey), "SHA-256", 512, "Sticker Pack", Zeros(32));
  }

  /** The four views `decryptManifest` takes of a raw manifest. */
  datatype Layout = Layout(iv: Bytes, body: Bytes, mac: Bytes, signed: Bytes)

  /** The slices of lines 47-50, computed as JavaScript computes them, with no
      check of the manifest's length. */
  function SplitManifest(raw: Bytes): (l: Layout)
    // whatever the length, the signed part and the MAC part tile the input
    ensures l.signed + l.mac == raw
    ensures |raw| >= 32 ==> |l.mac| == 32
    ensures |raw| < 32 ==> |l.mac| < 32
    // the intended layout IV(16) || body || MAC(32)
    ensures |raw| >= 48 ==>
      && l.iv == raw[..16] && l.body == raw[16..|raw| - 32] && l.mac == raw[|raw| - 32..]
      && l.signed == l.iv + l.body
  {
    var iv := JsSlice(raw, 0, 16);
    var body := JsSlice(raw, 16, |raw| - 32);
    var mac := JsSlice(raw, |raw| - 32, |raw|);
    var signed := JsSlice(raw, 0, |raw| - 32);
    var cut := RelativeIndex(|raw| - 32, |raw|);
    assert signed == raw[..cut] && mac == raw[cut..];
    assert raw[..cut] + raw[cut..] == raw;
    Layout(iv, body, mac, signed)
  }

  /** Manifests of 32 to 47 bytes, which the code does not reject: the body is
      empty and the MAC covers only a proper prefix of the IV. */
  lemma ShortManifestLayout(raw: Bytes)
    requires 32 <= |raw| < 48
    ensures
      var l := SplitManifest(raw);
      && l.iv == raw[..16] && l.body == [] && |l.signed| < 16
      && l.signed < l.iv
  {
  }

  /** `decryptManifest`: the HMAC under the second derived key over the signed
      part must equal the trailing MAC (compared as hex strings) before the
      body is decrypted under the first key with the received IV. */
  function DecryptManifest(p: Primitives, encodedKey: string, raw: Bytes): (r: Result<Bytes, Error>)
    ensures DeriveKeys(p, encodedKey).Failure? ==> r == Failure(DeriveKeys(p, encodedKey).error)
    ensures r.Success? ==>
      var l := SplitManifest(raw);
      && DeriveKeys(p, encodedKey).Success?
      && p.hmacSha256(DeriveKeys(p, encodedKey).value.hmacKey, l.signed) == l.mac
      && r == p.aesCbcDecrypt(DeriveKeys(p, encodedKey).value.aesKey, l.iv, l.body)
  {
    match DeriveKeys(p, encodedKey)
    case Failure(e) => Failure(e)
    case Success(keys) =>
      var l := SplitManifest(raw);
      var theirMac := Hex.Encode(l.mac);
      var computedMac := Hex.Encode(p.hmacSha256(keys.hmacKey, l.signed));
      Hex.EncodeInjective(l.mac, p.hmacSha256(keys.hmacKey, l.signed));
      if theirMac != computedMac then Failure(Error(None, MacFailureMessage))
      else p.aesCbcDecrypt(keys.aesKey, l.iv, l.body)
  }

  /** A MAC mismatch throws "MAC verification failed." (with no code) and the
      decryption primitive is never consulted: replacing it by any other
      function leaves the outcome unchanged. */
  lemma MacMismatchBlocksDecryption(p: Primitives, decrypt: (Bytes, Bytes, Bytes) -> Result<Bytes, Error>,
                                    encodedKey: string, raw: Bytes)
    requires DeriveKeys(p, encodedKey).Success?
    requires p.hmacSha256(DeriveKeys(p, encodedKey).value.hmacKey, SplitManifest(raw).signed) != SplitManifest(raw).mac
    ensures DecryptManifest(p, encodedKey, raw) == Failure(Error(None, MacFailureMessage))
    ensures DecryptManifest(p.(aesCbcDecrypt := decrypt), encodedKey, raw) == DecryptManifest(p, encodedKey, raw)
  {
    var keys := DeriveKeys(p, encodedKey).value;
    var l := SplitManifest(raw);
    Hex.EncodeInjective(l.mac, p.hmacSha256(keys.hmacKey, l.signed));
    assert DeriveKeys(p.(aesCbcDecrypt := decrypt), encodedKey) == DeriveKeys(p, encodedKey);
  }

  /** On a well-formed manifest whose MAC over IV || body matches, the result is
      the AES-CBC decryption of the body under the AES key and received IV. */
  lemma MacMatchDecrypts(p: Primitives, encodedKey: string, raw: Bytes)
    requires |raw| >= 48
    requires DeriveKeys(p, encodedKey).Success?
    requires p.hmacSha256(DeriveKeys(p, encodedKey).value.hmacKey, raw[..|raw| - 32]) == raw[|raw| - 32..]
    ensures DecryptManifest(p, encodedKey, raw) ==
            p.aesCbcDecrypt(DeriveKeys(p, encodedKey).value.aesKey, raw[..16], raw[16..|raw| - 32])
  {
    var l := SplitManifest(raw);
    assert l.signed == raw[..|raw| - 32] by {
      assert l.signed + l.mac == raw;
    }
  }

  /** A manifest shorter than one MAC can never reach decryption. */
  lemma ShortManifestNeverDecrypted(p: Primitives, encodedKey: string, raw: Bytes)
    requires HmacIs32Bytes(p)
    requires |raw| < 32
    ensures DecryptManifest(p, encodedKey, raw).Failure?
    ensures DeriveKeys(p, encodedKey).Success? ==>
              DecryptManifest(p, encodedKey, raw) == Failure(Error(None, MacFailureMessage))
  {
    if DeriveKeys(p, encodedKey).Success? {
      var keys := DeriveKeys(p, encodedKey).value;
      var l := SplitManifest(raw);
      assert |p.hmacSha256(keys.hmacKey, l.signed)| == 32;
      MacMismatchBlocksDecryption(p, p.aesCbcDecrypt, encodedKey, raw);
    }
  }

  /** The manifest a sender builds: IV, ciphertext, then the HMAC of the two
      under the pack's MAC key. */
  function SealManifest(p: Primitives, keys: DerivedKeys, iv: Bytes, ciphertext: Bytes): Bytes {
    iv + ciphertext + p.hmacSha256(keys.hmacKey, iv + ciphertext)
  }

  /** A sealed manifest passes the MAC check and decrypts its own ciphertext
      under its own IV; any other 32 trailing bytes are rejected. */
  lemma {:induction false} SealedManifestOpens(p: Primitives, encodedKey: string, iv: Bytes, ciphertext: Bytes, mac: Bytes)
    requires HmacIs32Bytes(p)
    requires |iv| == 16 && |mac| == 32
    requires DeriveKeys(p, encodedKey).Success?
    ensures
      var keys := DeriveKeys(p, encodedKey).value;
      DecryptManifest(p, encodedKey, SealManifest(p, keys, iv, ciphertext)) ==
      p.aesCbcDecrypt(keys.aesKey, iv, ciphertext)
    ensures
      var keys := DeriveKeys(p, encodedKey).value;
      mac != p.hmacSha256(keys.hmacKey, iv + ciphertext) ==>
        DecryptManifest(p, encodedKey, iv + ciphertext + mac) == Failure(Error(None, MacFailureMessage))
  {
    var keys := DeriveKeys(p, encodedKey).value;
    var tag := p.hmacSha256(keys.hmacKey, iv + ciphertext);
    var raw := SealManifest(p, keys, iv, ciphertext);
    assert |tag| == 32;
    assert raw[..|raw| - 32] == iv + ciphertext && raw[|raw| - 32..] == tag;
    assert raw[..16] == iv && raw[16..|raw| - 32] == ciphertext;
    MacMatchDecrypts(p, encodedKey, raw);
    if mac != tag {
      var forged := iv + ciphertext + mac;
      assert forged[..|forged| - 32] == iv + ciphertext && forged[|forged| - 32..] == mac;
      MacMismatchBlocksDecryption(p, p.aesCbcDecrypt, encodedKey, forged);
    }
  }

  /** The error `parseManifest` rethrows for an error `e` it caught. */
  function ParseError(e: Error): (r: Error)
    ensures HasTruthyCode(r)
    ensures HasTruthyCode(e) ==> r.code == e.code
    ensures !HasTruthyCode(e) ==> r.code == Some("MANIFEST_PARSE")
    ensures r.message == "[parseManifest] " + e.message
  {
    Rethrow(ParsePrefix, Some(CodeOr(e, ParseFallbackCode)), e)
  }

  /** `parseManifest`: decrypt, then decode the plaintext as a `Pack`; any
      failure of either stage is relabelled by `ParseError`. */
  function ParseManifest(p: Primitives, encodedKey: string, raw: Bytes): (r: Result<Pack, Error>)
    ensures r.Failure? ==> HasTruthyCode(r.error) && "[parseManifest] " <= r.error.message
    ensures r.Success? <==>
      DecryptManifest(p, encodedKey, raw).Success? && p.decodePack(DecryptManifest(p, encodedKey, raw).value).Success?
    ensures r.Success? ==> r == p.decodePack(DecryptManifest(p, encodedKey, raw).value)
  {
    match DecryptManifest(p, encodedKey, raw)
    case Failure(e) => Failure(ParseError(e))
    case Success(plain) =>
      match p.decodePack(plain)
      case Failure(e) => Failure(ParseError(e))
      case Success(pack) => Success(pack)
  }

  /** The error out of `parseManifest` is the relabelled error of the first
      stage that failed: decryption (including the MAC check) or decoding. */
  lemma ParseManifestRelabels(p: Primitives, encodedKey: string, raw: Bytes)
    ensures DecryptManifest(p, encodedKey, raw).Failure? ==>
              ParseManifest(p, encodedKey, raw) == Failure(ParseError(DecryptManifest(p, encodedKey, raw).error))
    ensures DecryptManifest(p, encodedKey, raw).Success? &&
            p.decodePack(DecryptManifest(p, encodedKey, raw).value).Failure? ==>
              ParseManifest(p, encodedKey, raw) ==
              Failure(ParseError(p.decodePack(DecryptManifest(p, encodedKey, raw).value).error))
  {
  }

  /** A MAC mismatch surfaces from `parseManifest` with code MANIFEST_PARSE,
      and neither decryption nor decoding is consulted. */
  lemma MacMismatchIsManifestParse(p: Primitives, decrypt: (Bytes, Bytes, Bytes) -> Result<Bytes, Error>,
                                   decode: Bytes -> Result<Pack, Error>, encodedKey: string, raw: Bytes)
    requires DeriveKeys(p, encodedKey).Success?
    requires p.hmacSha256(DeriveKeys(p, encodedKey).value.hmacKey, SplitManifest(raw).signed) != SplitManifest(raw).mac
    ensures ParseManifest(p, encodedKey, raw) ==
            Failure(Error(Some("MANIFEST_PARSE"), "[parseManifest] " + MacFailureMessage))
    ensures ParseManifest(p.(aesCbcDecrypt := decrypt, decodePack := decode), encodedKey, raw) ==
            ParseManifest(p, encodedKey, raw)
  {
    var q := p.(aesCbcDecrypt := decrypt, decodePack := decode);
    var macError := Error(None, MacFailureMessage);
    MacMismatchBlocksDecryption(p, decrypt, encodedKey, raw);
    assert DeriveKeys(q, encodedKey) == DeriveKeys(p, encodedKey);
    MacMismatchBlocksDecryption(q, p.aesCbcDecrypt, encodedKey, raw);
    assert DecryptManifest(q, encodedKey, raw) == Failure(macError);
  }
}
