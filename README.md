# Privacy Pass token issuance: protocol layer

A Dafny model of the protocol layer of a TypeScript Privacy Pass library
(RFC 9578, previously draft-ietf-privacypass-protocol-16). It covers its two
issuance mechanisms:

- **VOPRF (P-384, SHA-384)**, token type 0x0001, is privately verifiable: only
  the issuer, holding the private key, can check a token.
- **Blind RSA (2048-bit)**, token type 0x0002, is publicly verifiable: anyone
  holding the issuer's public key can check a token with `verifyToken`.

For each mechanism the model has three parts:

1. The token-type registry entry. This is the type value, the key-id size
   `Nid`, the output size `Nk` and the verifiability flags. For Blind RSA it
   also includes the `BlindRSAMode` salt-length enum.
2. The fixed-layout wire codec of the token request and the token response.
   - The constructors reject fields of the wrong length.
   - `serialize` writes a big-endian layout.
   - `deserialize` checks the leading type tag and slices fixed-width fields.
3. The client and issuer session.
   - The client builds the authenticator input. It derives the token key id as
     the SHA-256 digest of the issuer's public key, and the truncated key id as
     that digest's last byte.
   - The client blinds the serialized input and sends a request.
   - The issuer evaluates or signs the request and answers with a response.
   - The client finalizes the response into a `Token`.

Files:

- `wire.dfy` (module `Wire`) holds the shared pieces:
  - bytes and big-endian 16-bit fields;
  - `joinAll` as concatenation;
  - the clamped `slice` of Uint8Array and ArrayBuffer;
  - the error kinds.
- `auth_scheme.dfy` has two modules:
  - `AuthScheme` holds the records the mechanisms build: `TokenTypeEntry`,
    `TokenChallenge`, `AuthenticatorInput` and `Token`.
  - `Host` holds what the layer calls and cannot see: SHA-256, the record
    serializers, RSA key import and WebCrypto RSA-PSS verification.
- `crypto_libs.dfy` holds the interfaces of the two cryptographic libraries:
  - `Oprf`, the VOPRF facade;
  - `BlindRsa`, a Blind RSA suite.
- `priv_verif_token.dfy` (module `PrivVerifToken`) is the VOPRF mechanism.
- `pub_verif_token.dfy` (module `PubVerifToken`) is the Blind RSA mechanism.
- `mechanisms.dfy` (module `Mechanisms`) states how the two mechanisms relate on
  the wire.

Modelling choices:

- **Foreign operations.** Every foreign operation is a function value supplied
  by the caller and stored in the client or issuer, so none of them is
  interpreted. This covers SHA-256, OPRF blind, evaluate, finalize and verify,
  RSA blind, sign and finalize, key import, and WebCrypto verify.
- **Rejected promises.** A foreign promise that rejects is `None`. The model
  rethrows it as `Failure(CryptoFailure)`.
- **Randomness.** The 32 random nonce bytes and the blinding randomness are
  parameters.
- **Mutability.** Clients and issuers never change their fields after
  construction, so they are datatypes with member functions.
- **Static `Create` functions.** A constructor that validates or derives a
  field becomes a static `Create` function. For the wire structs it returns
  `Result`. Each wire struct has a `Valid()` predicate for what its
  constructor guarantees. So do the VOPRF issuer and client, whose OPRF
  object must be the one made from their own key, and the Blind RSA client,
  whose suite must be the one its mode selects. The session lemmas ask for
  these predicates rather than for a particular constructor call.
- **Imperative parts.** They are methods proved equal to a specification
  function:
  - each request's `serialize` pushes its parts onto an output list and joins
    them (`Serialize`, proved equal to `Encode`);
  - each request's `deserialize` advances an offset cursor (`Deserialize`,
    proved equal to `Decode`);
  - the VOPRF response's `deserialize` does the same.
- **Sessions.** Two lemmas, `VoprfSession` and `BlindRsaSession`, prove three
  things about a whole session:
  - the request and the response survive the wire;
  - the token's key id is the digest of the issuer's key, and its last byte is
    the request's key-id byte;
  - if the library is correct on that one token input, the token verifies.

Where the code departs from the fixed layouts of RFC 9578, the model follows
the code:

- **Trailing bytes.** `deserialize` rejects only input that is too short and
  ignores trailing bytes, although the fixed-size structs of RFC 9578
  sections 5.1 and 6.1 leave no room for them. The `Decode` contracts and the
  `...DecodeEncode` lemmas state this.
- **Truncated key id.** The request constructors do not range-check
  `truncatedTokenKeyId`, which is a JavaScript number, so a request whose key
  id is not a byte can exist. `serialize` writes it with `setUint8`, which
  reduces it modulo 256. So the request round trip returns the key id modulo
  256, and is exact only for key ids 0..255. Every key id the client computes
  is a byte.
- **Short input.** A `deserialize` input too short for the 2-byte type or the
  key-id byte fails with the DataView `RangeError`, modelled as
  `OutOfBounds`, not with a size error.
- **Issuer lookup.** `issue` uses only `blindedMsg`: the issuer neither looks
  up a key by the request's `truncatedTokenKeyId` nor checks it against its
  own key.

## Model

| member | source | states |
|---|---|---|
| `PrivVerifToken.VoprfEntry` | src/priv_verif_token.ts:54-62 | The VOPRF entry has value 0x0001, Nid 32, Nk equal to the OPRF output size, and all three flags false (publicVerifiable, publicMetadata, privateMetadata). |
| `PrivVerifToken.TokenRequest2.Create` | src/priv_verif_token.ts:81-90 | Construction succeeds iff `blindedMsg` is Ne bytes; otherwise it fails with the blinded-size error. On success the token type is 0x0001 and both fields are kept as given. |
| `PrivVerifToken.TokenRequest2.Serialize` | src/priv_verif_token.ts:113-128 | Pushing the three parts and joining them gives exactly the layout: a big-endian u16 type (reading back as 0x0001), the key id mod 256, then `blindedMsg`. The length is 3+Ne. |
| `PrivVerifToken.TokenRequest2.Decode` | src/priv_verif_token.ts:92-111 | Decoding succeeds iff the input has at least 3+Ne bytes and its leading u16 is 0x0001; the result is valid with key id `bytes[2]` and blinded message `bytes[3..3+Ne]`. Error by case: fewer than 2 bytes is a range error; a wrong type is a type mismatch; a short body is a blinded-size error. |
| `PrivVerifToken.TokenRequest2.Deserialize` | src/priv_verif_token.ts:92-111 | The offset-cursor reading returns exactly `Decode(bytes)`. |
| `PrivVerifToken.RequestRoundTrip` | src/priv_verif_token.ts:92-128 | For a valid request, decoding its encoding gives the request back with its key id reduced mod 256. It gives the request back unchanged when the key id is a byte. |
| `PrivVerifToken.RequestDecodeEncode` | src/priv_verif_token.ts:92-128 | Whatever decodes re-encodes to the first 3+Ne input bytes, so trailing bytes are ignored. |
| `PrivVerifToken.TokenResponse2.Create` | src/priv_verif_token.ts:137-147 | Construction succeeds iff `evaluateMsg` is Ne bytes and `evaluateProof` is 2·Ns bytes. The message size is checked first, then the proof size, each with its own error. |
| `PrivVerifToken.TokenResponse2.Serialize` | src/priv_verif_token.ts:161-163 | The output is `evaluateMsg` followed by `evaluateProof`, of length Ne+2·Ns for a valid response. |
| `PrivVerifToken.TokenResponse2.Decode` | src/priv_verif_token.ts:149-159 | Decoding succeeds iff the input has at least Ne+2·Ns bytes, taking the first Ne bytes and the next 2·Ns bytes. An input shorter than Ne fails on the message size; a shorter tail fails on the proof size. |
| `PrivVerifToken.TokenResponse2.Deserialize` | src/priv_verif_token.ts:149-159 | The offset-cursor slicing returns exactly `Decode(bytes)`. |
| `PrivVerifToken.ResponseRoundTrip` | src/priv_verif_token.ts:149-163 | `deserialize(serialize(x)) == x` for every valid response. |
| `PrivVerifToken.ResponseDecodeSerialize` | src/priv_verif_token.ts:149-163 | Whatever decodes re-serializes to the first Ne+2·Ns input bytes. |
| `PrivVerifToken.Issuer2.Issue` | src/priv_verif_token.ts:183-198 | Issuing fails, each case with its own error, if the evaluation rejects (crypto failure), has other than exactly one element (non-single evaluation), has no proof (missing proof), has an element other than Ne bytes (message-size error), or has an Ne-byte element but a proof other than 2·Ns bytes (proof-size error). Otherwise the response is the single evaluated element and the proof, so the evaluation is exactly `([evaluateMsg], proof)`. |
| `PrivVerifToken.Issuer2.Create` | src/priv_verif_token.ts:175-181 | The constructed issuer is valid: its OPRF server is made from its own private key, in the given mode, and it keeps both keys. |
| `PrivVerifToken.IssuerVerifyIsVerifyToken2` | src/priv_verif_token.ts:166-203 | An issuer built from a private key verifies every token exactly as `verifyToken2` does under that key. |
| `PrivVerifToken.Client2.Create` | src/priv_verif_token.ts:214-216 | The constructed client is valid: its OPRF client is made from the issuer public key it keeps, in the given mode. |
| `PrivVerifToken.Client2.CreateTokenRequest` | src/priv_verif_token.ts:218-250 | The request's key-id byte is the last byte of SHA-256(issuerPublicKey). That same digest is the `tokenKeyId` of the state's `authInput`, whose type is 0x0001. The request is valid and carries the one element from blinding the serialized `authInput`. A rejected blind fails with a crypto failure, a blind result with other than one element with the non-single error, and one element of other than Ne bytes with the blinded-size error. |
| `PrivVerifToken.Client2.Finalize` | src/priv_verif_token.ts:252-261 | On success the token has type VOPRF, the state's `authInput` unchanged, and the first finalize output. A rejected finalize fails. |
| `PrivVerifToken.VoprfSession` | src/priv_verif_token.ts:175-261 | For any valid issuer and valid client that share the mode, the platform and the issuer's public key, after createTokenRequest, issue and finalize, the request and response survive the wire. The token's key id is SHA-256 of the issuer key, and its last byte is the request's key-id byte. If the OPRF library is correct on the token input, `Issuer2.verify` returns true. |
| `PubVerifToken.BlindRSAMode.SaltLength` | src/pub_verif_token.ts:14-17 | PSSZero has value 0 and PSS has value 48, and each value identifies its mode. |
| `PubVerifToken.BlindRsaEntry` | src/pub_verif_token.ts:39-48 | The BLIND_RSA entry has value 0x0002, Nk 256, Nid 32, publicVerifiable true, and both metadata flags false. |
| `PubVerifToken.TokenRequest.Create` | src/pub_verif_token.ts:89-98 | Construction succeeds iff `blindedMsg` is 256 bytes; otherwise it fails with the blinded-size error. On success the token type is 0x0002 and both fields are kept. |
| `PubVerifToken.TokenRequest.Serialize` | src/pub_verif_token.ts:121-136 | Pushing and joining gives the layout: u16 BE type (reading back as 0x0002), the key id mod 256, then `blindedMsg`. The length is exactly 259 bytes. |
| `PubVerifToken.TokenRequest.Decode` | src/pub_verif_token.ts:100-119 | Decoding succeeds iff the input has at least 259 bytes and its leading u16 is 0x0002; the result is valid with the sliced fields. Error by case: fewer than 2 bytes is a range error; a wrong type is a type mismatch; a short body is a blinded-size error. |
| `PubVerifToken.TokenRequest.Deserialize` | src/pub_verif_token.ts:100-119 | The offset-cursor reading returns exactly `Decode(bytes)`. |
| `PubVerifToken.RequestRoundTrip` | src/pub_verif_token.ts:100-136 | For a valid request, decoding its encoding gives the request back with its key id mod 256. It gives the request back unchanged when the key id is a byte. |
| `PubVerifToken.RequestDecodeEncode` | src/pub_verif_token.ts:100-136 | Whatever decodes re-encodes to the first 259 input bytes. |
| `PubVerifToken.TokenResponse.Create` | src/pub_verif_token.ts:144-148 | Construction succeeds iff `blindSig` is 256 bytes, and it is kept as given; otherwise it fails with the signature-size error. |
| `PubVerifToken.TokenResponse.Deserialize` | src/pub_verif_token.ts:150-152 | Deserializing succeeds iff the input has at least 256 bytes, and the signature is the first 256 bytes. A shorter input fails and trailing bytes are ignored. |
| `PubVerifToken.ResponseRoundTrip` | src/pub_verif_token.ts:150-156 | `deserialize(serialize(x)) == x` for every valid response. Whatever deserializes re-serializes to the first 256 input bytes. |
| `PubVerifToken.VerifyTokenReads` | src/pub_verif_token.ts:159-173 | `verifyToken` depends only on the token's authenticator and authenticator input, not on its type entry. It defaults to PSSZero. It passes salt length 48 for PSS and 0 for PSSZero to WebCrypto verification of the authenticator over the serialized input. |
| `PubVerifToken.Issuer.Issue` | src/pub_verif_token.ts:183-187 | Issuing succeeds iff the mode's suite signs the blinded message and the signature is 256 bytes. The response is that signature. A rejected sign and a wrong size each fail with their own error. |
| `PubVerifToken.IssuerVerifyIsVerifyToken` | src/pub_verif_token.ts:175-237 | `Issuer.verify` is `verifyToken` under the issuer's public key and mode. The issuer's and the client's default mode is PSSZero, so default issuer verification is default `verifyToken`. |
| `PubVerifToken.Client.Create` | src/pub_verif_token.ts:235-237 | The constructed client is valid: its suite is the suite table's entry for its mode, which is the given mode (PSSZero by default). |
| `PubVerifToken.Client.CreateRequest` | src/pub_verif_token.ts:204-231 | The request's key-id byte is the last byte of SHA-256(issuerPublicKey). The state's `authInput` has type 0x0002 and that digest as key id. The state's `tokenInput` is `authInput.serialize()`. The request carries the blinded message from blinding `tokenInput` under the imported key, and the state keeps that key and the inverse. A failed import or a rejected blind fails with a crypto failure, and a blinded message of other than 256 bytes with the blinded-size error. |
| `PubVerifToken.Client.Finalize` | src/pub_verif_token.ts:239-247 | On success the token has type BLIND_RSA, the state's `authInput` unchanged, and the finalized signature. A rejected finalize fails. |
| `PubVerifToken.BlindRsaSession` | src/pub_verif_token.ts:176-247 | For any valid client and any issuer that share the suite table, the mode and the platform, after createRequest, issue and finalize, the request and response survive the wire. The token's key id is SHA-256 of the issuer key bytes, and its last byte is the request's key-id byte. If the libraries are correct on the token input, `Issuer.verify` returns true. |
| `Mechanisms.RequestsNotInterchangeable` | src/priv_verif_token.ts:96-101 | A valid Blind RSA request is rejected by the VOPRF deserializer's type check (src/priv_verif_token.ts:96-101), and a valid VOPRF request by the Blind RSA deserializer's type check (src/pub_verif_token.ts:104-109), each with a token-type mismatch. |

## Left out

- Cryptography:
  - VOPRF group arithmetic and DLEQ proofs;
  - RSA blind signing and finalization;
  - WebCrypto RSA-PSS verification and SHA-256;
  - key generation (`keyGen`, `keyGen2`).
  These are foreign libraries. The model treats them as uninterpreted functions that the caller supplies. Only the digest's 32-byte length is assumed.
- Random nonce and blinding randomness: `crypto.getRandomValues` and the libraries' blinding randomness are not deterministic. They are parameters.
- Key-format conversion and export:
  - `convertRSASSAPSSToEnc` and the `importKey` of `getCryptoKey` are one foreign, possibly failing function;
  - `getPublicKeyBytes` is not modelled.
- `joinAll` comes from a utility file that is not part of this model. It is modelled as concatenation.
- `AuthenticatorInput`, `Token`, `TokenChallenge` and `TokenTypeEntry` come from src/auth_scheme/private_token.ts, which is not part of this model:
  - they are records holding the fields the mechanisms pass them;
  - their `serialize` methods are supplied functions;
  - the `AuthenticatorInput` and `Token` constructors are assumed not to throw.
- Parameters of the VOPRF entry: the suite, group and hash identifiers (`VOPRF_EXTRA_PARAMS`) are omitted. Ne, Ns and Nk are fixed to the P-384 values 49, 48 and 48. The mode tag that `Client2.finalize` puts into the evaluation is implicit.
- Parameters of the Blind RSA entry: `rsaParams` (RSA-PSS, SHA-384) is implied by the supplied verification function. The `suite` table is a supplied function from mode to library suite.
- Async plumbing: every `await` is an ordinary call, in the same order.
- JavaScript numbers: the truncated key id is an integer. A fractional number, which `setUint8` would truncate, is not modelled.
- `DataView(bytes.buffer)` ignores a sub-array's `byteOffset`, and `blindedMsg.buffer` may be larger than its view. Every Uint8Array is taken to be its own whole buffer, and buffer aliasing is not modelled.
- PrivVerifToken.Client2.Finalize: `const [authenticator] = ...` on an empty output list would build a `Token` whose authenticator is `undefined`. The model fails with `MissingOutput` instead.
- Correct verification: the session lemmas cannot prove that a token verifies outright, because the cryptography is uninterpreted. They prove it under the hypothesis that the library is correct on that one token input.
- The repository's demonstration scripts log to the console and are not modelled.
- The test set-up file that replaces the global crypto object is not modelled.
- Replay and double-spend tracking is not implemented by the library and is not modelled.
