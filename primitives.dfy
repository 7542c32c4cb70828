/**
 * The collaborators the key derivation calls but does not define: the
 * HMAC-SHA512 of tweetnacl-auth, the ed25519 key-pair expansion of
 * tweetnacl, the password cipher behind encryptKey/decryptKey, and the "ak"
 * text encoding of public keys. They are parameters of the model; what the
 * derivation relies on is written as types (output lengths) or as predicates
 * that a lemma requires.
 */
module Primitives {
  import opened Wrappers
  import opened Bytes

  type Bytes32 = s: seq<uint8> | |s| == 32 witness seq(32, _ => 0)

  type Bytes64 = s: seq<uint8> | |s| == 64 witness seq(64, _ => 0)

  /** An ed25519 signing key pair as tweetnacl lays it out: the 64-byte secret, the 32-byte public key. */
  datatype KeyPair = KeyPair(secretKey: Bytes64, publicKey: Bytes32)

  datatype Crypto = Crypto(
    /** HMAC-SHA512 of a message under a key, in tweetnacl-auth's argument order. */
    hmac: (seq<uint8>, seq<uint8>) -> Bytes64,
    /** nacl.sign.keyPair.fromSeed on a 32-byte seed. */
    keyPairFromSeed: Bytes32 -> KeyPair,
    /** encryptKey(password, plaintext). */
    encryptKey: (string, seq<uint8>) -> seq<uint8>,
    /** decryptKey(password, ciphertext); None when the cipher rejects the input. */
    decryptKey: (string, seq<uint8>) -> Option<seq<uint8>>,
    /** encode(publicKey, 'ak'). */
    encodeAk: seq<uint8> -> string)

  /** Decryption under the password used to encrypt returns the plaintext. */
  ghost predicate DecryptInvertsEncrypt(c: Crypto) {
    forall password, plaintext :: c.decryptKey(password, c.encryptKey(password, plaintext)) == Some(plaintext)
  }

  /** Decryption under any other password is rejected. */
  ghost predicate WrongPasswordFails(c: Crypto) {
    forall password, other, plaintext ::
      other != password ==> c.decryptKey(other, c.encryptKey(password, plaintext)) == None
  }
}
