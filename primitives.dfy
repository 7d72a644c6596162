/** The library code the pipeline calls and that this model does not open:
    HKDF (RFC 5869), HMAC-SHA256 (RFC 2104), AES-256-CBC decryption with
    PKCS#7 padding removal (NIST SP 800-38A) and protobuf decoding of the
    `Pack` message. Each is a total function value, so every fact proved
    below holds for every choice of them; the facts that need more of a
    primitive than its type name it in a predicate. */
module Primitives {
  import opened Wrappers
  import opened Bytes
  import opened Errors

  /** One sticker of a pack, as the `Pack.Sticker` message carries it. */
  datatype Sticker = Sticker(id: int, emoji: string)

  /** A decoded `Pack` message. The schema file src/etc/Stickers.proto is not
      part of this model; the fields are those the pipeline reads plus the
      sticker list it passes over. A message without a cover decodes with
      `cover` null. */
  datatype Pack = Pack(title: string, author: string, cover: Option<Sticker>, stickers: seq<Sticker>)

  /** The arguments of `hkdf.compute(masterKey, hash, length, info, salt)`. */
  datatype HkdfRequest = HkdfRequest(ikm: Bytes, hash: string, length: nat, info: string, salt: Bytes)

  datatype Primitives = Primitives(
    /** The derived key bytes, or the error the promise rejects with. */
    hkdf: HkdfRequest -> Result<Bytes, Error>,
    /** HMAC-SHA256 of a message (second argument) under a key (first). */
    hmacSha256: (Bytes, Bytes) -> Bytes,
    /** `update` then `final` of an AES-256-CBC decipher for (key, iv,
        ciphertext); a bad key, IV or padding is an error. */
    aesCbcDecrypt: (Bytes, Bytes, Bytes) -> Result<Bytes, Error>,
    /** `Pack.decode`, or the error it throws on a malformed message. */
    decodePack: Bytes -> Result<Pack, Error>)

  /** HMAC-SHA256 yields a 32-byte tag. */
  ghost predicate HmacIs32Bytes(p: Primitives) {
    forall key: Bytes, msg: Bytes :: |p.hmacSha256(key, msg)| == 32
  }
}
