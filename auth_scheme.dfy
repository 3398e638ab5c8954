/** The records of the Privacy Pass authentication scheme that both token
    mechanisms build and consume. Their own file, src/auth_scheme/private_token.ts,
    is not part of this model: the records keep the fields the mechanisms pass
    to their constructors, and their serializers are supplied by the host. */
module AuthScheme {
  import opened Wire

  /** A token type registry entry: the 16-bit type value, a display name, the
      authenticator size Nk, the key-id size Nid and the verifiability flags. */
  datatype TokenTypeEntry = TokenTypeEntry(
    value: int,
    name: string,
    Nk: nat,
    Nid: nat,
    publicVerifiable: bool,
    publicMetadata: bool,
    privateMetadata: bool)

  /** The challenge an origin sends to the client. */
  datatype TokenChallenge = TokenChallenge(
    tokenType: int,
    issuerName: string,
    redemptionContext: Bytes,
    originInfo: seq<string>)

  /** The message that is blinded, signed or evaluated, and finally authenticated. */
  datatype AuthenticatorInput = AuthenticatorInput(
    tokenTypeEntry: TokenTypeEntry,
    tokenType: int,
    nonce: Bytes,
    challengeDigest: Bytes,
    tokenKeyId: Bytes)

  /** A finished token: the authenticator input and the mechanism's output on it. */
  datatype Token = Token(
    tokenTypeEntry: TokenTypeEntry,
    authInput: AuthenticatorInput,
    authenticator: Bytes)
}

/** What the protocol layer calls outside itself and cannot see: the WebCrypto
    digest, key import and signature verification, and the serializers of the
    authentication-scheme records. Each is a function supplied by the caller;
    a rejected promise is `None`. */
module Host {
  import opened Wire
  import opened AuthScheme

  /** A WebCrypto key handle, known only by the bytes it was imported from. */
  datatype CryptoKey = CryptoKey(handle: Bytes)

  datatype Platform = Platform(
    /** `crypto.subtle.digest('SHA-256', data)`. */
    sha256: Bytes -> Bytes32,
    /** `TokenChallenge.serialize()`. */
    serializeChallenge: TokenChallenge -> Bytes,
    /** `AuthenticatorInput.serialize()`. */
    serializeAuthInput: AuthenticatorInput -> Bytes,
    /** Conversion of an RSASSA-PSS public key to an RSA encryption SPKI and
        its import as an RSA-PSS/SHA-384 verification key. */
    importRsaPssKey: Bytes -> Option<CryptoKey>,
    /** `crypto.subtle.verify` with RSA-PSS/SHA-384 and the given salt length,
        on (salt length, key, signature, data). */
    verifyRsaPss: (nat, CryptoKey, Bytes, Bytes) -> Option<bool>)

  /** `getTokenKeyID`: the SHA-256 digest of the issuer's public key bytes. */
  function TokenKeyId(host: Platform, publicKey: Bytes): Bytes32
  {
    host.sha256(publicKey)
  }

  /** The truncated token key id: the least significant byte of the key id in
      network byte order, that is its last byte. */
  function TruncatedTokenKeyId(tokenKeyId: Bytes32): byte
  {
    tokenKeyId[|tokenKeyId| - 1]
  }
}
