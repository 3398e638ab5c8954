/** The publicly verifiable token mechanism, token type Blind RSA (2048-bit):
    its registry entry and salt-length modes, the wire format of its token
    request and response (sections 6.1 and 6.2 of RFC 9578), public
    verification, and the client and issuer sessions. */
module PubVerifToken {
  import opened Wire
  import opened AuthScheme
  import opened Host
  import BlindRsa

  /** The two RSA-PSS variants; each mode's value is the PSS salt length. */
  datatype BlindRSAMode = PSSZero | PSS
  {
    /** The enum value: 0 for RSABSSA-SHA384-PSSZero, 48 for RSABSSA-SHA384-PSS. */
    function SaltLength(): (n: nat)
      ensures n == 0 <==> this == PSSZero
      ensures n == 48 <==> this == PSS
    {
      match this
      case PSSZero => 0
      case PSS => 48
    }
  }

  /** The size in bytes of a 2048-bit RSA modulus, signature and blinded message. */
  const Nk: nat := 256

  /** The registry entry of token type Blind RSA (2048-bit). */
  const BLIND_RSA: TokenTypeEntry :=
    TokenTypeEntry(0x0002, "Blind RSA (2048)", Nk, 32, true, false, false)

  /** The Blind RSA entry: type 0x0002, 32-byte key ids, 256-byte signatures,
      publicly verifiable and without metadata. */
  lemma BlindRsaEntry()
    ensures BLIND_RSA.value == 0x0002 && BLIND_RSA.Nid == 32 && BLIND_RSA.Nk == 256
    ensures BLIND_RSA.publicVerifiable && !BLIND_RSA.publicMetadata && !BLIND_RSA.privateMetadata
  {
  }

  /** The library suite used for each mode. */
  type Suites = BlindRSAMode -> BlindRsa.Suite

  /** The token request: u16 token type, one truncated key-id byte, and the
      blinded message of Nk bytes. */
  datatype TokenRequest = TokenRequest(tokenType: int, truncatedTokenKeyId: int, blindedMsg: Bytes)
  {
    /** What construction guarantees of every request. */
    predicate Valid()
    {
      tokenType == BLIND_RSA.value && |blindedMsg| == Nk
    }

    /** The constructor: rejects a blinded message of the wrong size and fixes
        the token type. */
    static function Create(truncatedTokenKeyId: int, blindedMsg: Bytes): (r: Result<TokenRequest>)
      ensures r.Success? <==> |blindedMsg| == 256
      ensures r.Success? ==> r.value.Valid() && r.value.tokenType == 0x0002
      ensures r.Success? ==>
        r.value.truncatedTokenKeyId == truncatedTokenKeyId && r.value.blindedMsg == blindedMsg
      ensures r.Failure? ==> r.error == BlindedMsgSize
    {
      if |blindedMsg| != Nk then Failure(BlindedMsgSize)
      else Success(TokenRequest(BLIND_RSA.value, truncatedTokenKeyId, blindedMsg))
    }

    /** The wire layout. The key id is written by `setUint8`, which keeps it
        modulo 2^8. */
    function Encode(): Bytes
    {
      U16(tokenType) + [truncatedTokenKeyId % 0x100] + blindedMsg
    }

    /** `serialize`: pushes the three fields onto an output list and joins it. */
    method Serialize() returns (b: Bytes)
      ensures b == Encode()
      ensures Valid() ==> |b| == 259 && ReadU16(b, 0) == 0x0002
      ensures b[2] == truncatedTokenKeyId % 0x100 && b[3..] == blindedMsg
    {
      var output: seq<Bytes> := [];
      var part := U16(tokenType);
      JoinAllPush(output, part);
      output := output + [part];
      part := [truncatedTokenKeyId % 0x100];
      JoinAllPush(output, part);
      output := output + [part];
      part := blindedMsg;
      JoinAllPush(output, part);
      output := output + [part];
      b := JoinAll(output);
      U16RoundTrip(tokenType, b);
    }

    /** What `deserialize` returns. A DataView read past the end throws; the
        blinded message is cut from offset 3 and checked by the constructor. */
    static function Decode(bytes: Bytes): (r: Result<TokenRequest>)
      ensures r.Success? <==> |bytes| >= 3 + Nk && ReadU16(bytes, 0) == BLIND_RSA.value
      ensures r.Success? ==> r.value.Valid()
      ensures r.Success? ==>
        r.value.truncatedTokenKeyId == bytes[2] && r.value.blindedMsg == bytes[3..3 + Nk]
      ensures |bytes| < 2 ==> r == Failure(OutOfBounds)
      ensures |bytes| >= 2 && ReadU16(bytes, 0) != BLIND_RSA.value ==> r == Failure(TokenTypeMismatch)
      ensures 3 <= |bytes| < 3 + Nk && ReadU16(bytes, 0) == BLIND_RSA.value ==> r == Failure(BlindedMsgSize)
    {
      if |bytes| < 2 then Failure(OutOfBounds)
      else if ReadU16(bytes, 0) != BLIND_RSA.value then Failure(TokenTypeMismatch)
      else if |bytes| < 3 then Failure(OutOfBounds)
      else Create(bytes[2], Slice(bytes, 3, 3 + Nk))
    }

    /** `deserialize`: reads the fields by advancing an offset. */
    static method Deserialize(bytes: Bytes) returns (r: Result<TokenRequest>)
      ensures r == Decode(bytes)
    {
      var offset := 0;
      if |bytes| < offset + 2 {
        return Failure(OutOfBounds);
      }
      var tokenType := ReadU16(bytes, offset);
      offset := offset + 2;
      if tokenType != BLIND_RSA.value {
        return Failure(TokenTypeMismatch);
      }
      if |bytes| < offset + 1 {
        return Failure(OutOfBounds);
      }
      var tokenKeyId := bytes[offset];
      offset := offset + 1;
      var len := Nk;
      var blindedMsg := Slice(bytes, offset, offset + len);
      r := Create(tokenKeyId, blindedMsg);
    }
  }

  /** Decoding an encoded request gives it back with its key id reduced to a
      byte; a key id already in byte range comes back unchanged. */
  lemma RequestRoundTrip(r: TokenRequest)
    requires r.Valid()
    ensures TokenRequest.Decode(r.Encode())
         == Success(r.(truncatedTokenKeyId := r.truncatedTokenKeyId % 0x100))
    ensures 0 <= r.truncatedTokenKeyId < 0x100 ==> TokenRequest.Decode(r.Encode()) == Success(r)
  {
    var b := r.Encode();
    U16RoundTrip(r.tokenType, b);
    assert b[3..3 + Nk] == r.blindedMsg;
  }

  /** A request that decodes is the encoding of what it decodes to, followed
      by bytes that are ignored. */
  lemma RequestDecodeEncode(bytes: Bytes)
    requires TokenRequest.Decode(bytes).Success?
    ensures TokenRequest.Decode(bytes).value.Encode() == bytes[..3 + Nk]
  {
  }

  /** The token response: the blind signature of Nk bytes. */
  datatype TokenResponse = TokenResponse(blindSig: Bytes)
  {
    predicate Valid()
    {
      |blindSig| == Nk
    }

    /** The constructor: rejects a blind signature of the wrong size. */
    static function Create(blindSig: Bytes): (r: Result<TokenResponse>)
      ensures r.Success? <==> |blindSig| == 256
      ensures r.Success? ==> r.value.Valid() && r.value.blindSig == blindSig
      ensures r.Failure? ==> r.error == BlindSigSize
    {
      if |blindSig| != Nk then Failure(BlindSigSize) else Success(TokenResponse(blindSig))
    }

    /** `serialize`: a copy of the blind signature. */
    function Serialize(): Bytes
    {
      blindSig
    }

    /** `deserialize`: the first Nk bytes, clamped to the input, checked by
        the constructor; a shorter input fails and trailing bytes are ignored. */
    static function Deserialize(bytes: Bytes): (r: Result<TokenResponse>)
      ensures r.Success? <==> |bytes| >= 256
      ensures r.Success? ==> r.value.Valid() && r.value.blindSig == bytes[..256]
      ensures r.Failure? ==> r.error == BlindSigSize
    {
      Create(Slice(bytes, 0, Nk))
    }
  }

  /** Deserializing a serialized response gives it back, and a response that
      deserializes is the serialization of what it deserializes to, followed
      by bytes that are ignored. */
  lemma ResponseRoundTrip(x: TokenResponse, bytes: Bytes)
    requires x.Valid()
    ensures TokenResponse.Deserialize(x.Serialize()) == Success(x)
    ensures TokenResponse.Deserialize(bytes).Success? ==>
      TokenResponse.Deserialize(bytes).value.Serialize() == bytes[..Nk]
  {
    assert x.Serialize()[..Nk] == x.blindSig;
  }

  /** `verifyToken`: WebCrypto RSA-PSS verification of the token's
      authenticator over its serialized authenticator input, with the mode's
      salt length; the mode defaults to PSSZero. */
  function VerifyToken(host: Platform, token: Token, publicKeyIssuer: CryptoKey,
                       blindRSAMode: BlindRSAMode := PSSZero): Result<bool>
  {
    Await(host.verifyRsaPss(blindRSAMode.SaltLength(), publicKeyIssuer, token.authenticator,
                            host.serializeAuthInput(token.authInput)))
  }

  /** Verification looks only at the authenticator and the authenticator
      input: it does not check the token's type entry, and a mode mismatch
      reaches the signature check as a different salt length. */
  lemma VerifyTokenReads(host: Platform, t1: Token, t2: Token, key: CryptoKey, mode: BlindRSAMode)
    requires t1.authenticator == t2.authenticator && t1.authInput == t2.authInput
    ensures VerifyToken(host, t1, key, mode) == VerifyToken(host, t2, key, mode)
    ensures VerifyToken(host, t1, key) == VerifyToken(host, t1, key, PSSZero)
    ensures VerifyToken(host, t1, key, mode)
         == Await(host.verifyRsaPss(if mode == PSS then 48 else 0, key, t1.authenticator,
                                    host.serializeAuthInput(t1.authInput)))
  {
  }

  /** The Blind RSA issuer: its key pair and mode (PSSZero by default). */
  datatype Issuer = Issuer(name: string, privateKey: CryptoKey, publicKey: CryptoKey,
                           mode: BlindRSAMode, suites: Suites, host: Platform)
  {
    /** The constructor. */
    static function Create(name: string, privateKey: CryptoKey, publicKey: CryptoKey, suites: Suites,
                           host: Platform, mode: BlindRSAMode := PSSZero): Issuer
    {
      Issuer(name, privateKey, publicKey, mode, suites, host)
    }

    /** `issue`: blind-signs the request's blinded message with the mode's
        suite and wraps the signature into a response. */
    function Issue(tokReq: TokenRequest): (r: Result<TokenResponse>)
      ensures var blindSig := suites(mode).blindSign(privateKey, tokReq.blindedMsg);
        && (r.Success? <==> blindSig.Some? && |blindSig.value| == 256)
        && (blindSig.None? ==> r == Failure(CryptoFailure))
        && (blindSig.Some? && |blindSig.value| != 256 ==> r == Failure(BlindSigSize))
        && (r.Success? ==> r.value.Valid() && blindSig == Some(r.value.blindSig))
    {
      var suite := suites(mode);
      match suite.blindSign(privateKey, tokReq.blindedMsg)
      case None => Failure(CryptoFailure)
      case Some(blindSig) => TokenResponse.Create(blindSig)
    }

    /** `verify`: public verification under the issuer's own key and mode. */
    function Verify(token: Token): Result<bool>
    {
      VerifyToken(host, token, publicKey, mode)
    }
  }

  /** An issuer verifies a token as `verifyToken` does under the issuer's
      public key and mode; the issuer, the client and `verifyToken` all
      default to PSSZero, so defaults agree with each other. */
  lemma IssuerVerifyIsVerifyToken(name: string, privateKey: CryptoKey, publicKey: CryptoKey, suites: Suites,
                                  host: Platform, mode: BlindRSAMode, token: Token)
    ensures Issuer.Create(name, privateKey, publicKey, suites, host, mode).Verify(token)
         == VerifyToken(host, token, publicKey, mode)
    ensures Issuer.Create(name, privateKey, publicKey, suites, host).Verify(token)
         == VerifyToken(host, token, publicKey)
    ensures Issuer.Create(name, privateKey, publicKey, suites, host).mode == PSSZero
    ensures Client.Create(suites, host).mode == PSSZero
  {
  }

  /** What the client keeps between request and finalization. */
  datatype ClientState = ClientState(pkIssuer: CryptoKey, tokenInput: Bytes,
                                     authInput: AuthenticatorInput, inv: Bytes)

  /** The Blind RSA client: its mode (PSSZero by default) and the library suite
      chosen for that mode from the suite table when it is constructed. */
  datatype Client = Client(mode: BlindRSAMode, suites: Suites, suite: BlindRsa.Suite, host: Platform)
  {
    /** The suite is the table's suite for the client's mode. */
    ghost predicate Valid()
    {
      suite == suites(mode)
    }

    /** The constructor. */
    static function Create(suites: Suites, host: Platform, mode: BlindRSAMode := PSSZero): (r: Client)
      ensures r.Valid()
      ensures r.mode == mode && r.suites == suites && r.host == host
    {
      Client(mode, suites, suites(mode), host)
    }

    /** The authenticator input the client builds for a challenge, an issuer
        key and a nonce. */
    function AuthInputFor(tokChl: TokenChallenge, issuerPublicKey: Bytes, nonce: Bytes32): AuthenticatorInput
    {
      var challengeDigest := host.sha256(host.serializeChallenge(tokChl));
      AuthenticatorInput(BLIND_RSA, BLIND_RSA.value, nonce, challengeDigest, TokenKeyId(host, issuerPublicKey))
    }

    /** `createRequest`: builds the authenticator input, imports the issuer
        key, blinds the serialized input, and wraps the blinded message into a
        request whose key-id byte is the last byte of the key id. `nonce`
        stands for the 32 random bytes and `coins` for the randomness of
        blinding. */
    function CreateRequest(tokChl: TokenChallenge, issuerPublicKey: Bytes, nonce: Bytes32, coins: Bytes)
      : (r: Result<(ClientState, TokenRequest)>)
      ensures var authInput := AuthInputFor(tokChl, issuerPublicKey, nonce);
        var tokenInput := host.serializeAuthInput(authInput);
        var key := host.importRsaPssKey(issuerPublicKey);
        && (key.None? ==> r == Failure(CryptoFailure))
        && (key.Some? && suite.blind(key.value, tokenInput, coins).None? ==> r == Failure(CryptoFailure))
        && (key.Some? && suite.blind(key.value, tokenInput, coins).Some? &&
            |suite.blind(key.value, tokenInput, coins).value.blindedMsg| != 256 ==>
              r == Failure(BlindedMsgSize))
        && (r.Success? <==>
              && key.Some?
              && suite.blind(key.value, tokenInput, coins).Some?
              && |suite.blind(key.value, tokenInput, coins).value.blindedMsg| == 256)
        && (r.Success? ==>
              var (state, request) := r.value;
              && request.Valid()
              && state.authInput == authInput
              && state.authInput.tokenType == 0x0002
              && state.tokenInput == host.serializeAuthInput(state.authInput)
              && state.authInput.tokenKeyId == host.sha256(issuerPublicKey)
              && request.truncatedTokenKeyId == TruncatedTokenKeyId(host.sha256(issuerPublicKey))
              && Some(state.pkIssuer) == key
              && suite.blind(state.pkIssuer, state.tokenInput, coins)
                 == Some(BlindRsa.BlindOutput(request.blindedMsg, state.inv)))
    {
      var tokenKeyId := TokenKeyId(host, issuerPublicKey);
      var authInput := AuthInputFor(tokChl, issuerPublicKey, nonce);
      var tokenInput := host.serializeAuthInput(authInput);
      match host.importRsaPssKey(issuerPublicKey)
      case None => Failure(CryptoFailure)
      case Some(pkIssuer) =>
        match suite.blind(pkIssuer, tokenInput, coins)
        case None => Failure(CryptoFailure)
        case Some(BlindOutput(blindedMsg, inv)) =>
          var truncatedTokenKeyId := TruncatedTokenKeyId(tokenKeyId);
          match TokenRequest.Create(truncatedTokenKeyId, blindedMsg)
          case Failure(e) => Failure(e)
          case Success(tokenRequest) =>
            Success((ClientState(pkIssuer, tokenInput, authInput, inv), tokenRequest))
    }

    /** `finalize`: unblinds the signature, the library checking it, and wraps
        it into a Blind RSA token over the saved input. */
    function Finalize(state: ClientState, tokRes: TokenResponse): (r: Result<Token>)
      ensures var authenticator := suite.finalize(state.pkIssuer, state.tokenInput, tokRes.blindSig, state.inv);
        && (r.Success? <==> authenticator.Some?)
        && (r.Success? ==>
              && r.value.tokenTypeEntry == BLIND_RSA
              && r.value.authInput == state.authInput
              && r.value.authenticator == authenticator.value)
        && (r.Failure? ==> r.error == CryptoFailure)
    {
      match suite.finalize(state.pkIssuer, state.tokenInput, tokRes.blindSig, state.inv)
      case None => Failure(CryptoFailure)
      case Some(authenticator) => Success(Token(BLIND_RSA, state.authInput, authenticator))
    }
  }

  /** The Blind RSA library and WebCrypto are correct on one token input:
      blinding it under the imported client key, signing the blinded message
      under the private key and finalizing yields a signature that WebCrypto
      accepts under the issuer's public key with the mode's salt length. */
  ghost predicate BlindRsaCorrectOn(host: Platform, suite: BlindRsa.Suite, mode: BlindRSAMode,
                                    privateKey: CryptoKey, publicKey: CryptoKey, issuerPublicKey: Bytes,
                                    input: Bytes, coins: Bytes)
  {
    match host.importRsaPssKey(issuerPublicKey)
    case None => true
    case Some(pkIssuer) =>
      match suite.blind(pkIssuer, input, coins)
      case None => true
      case Some(BlindOutput(blindedMsg, inv)) =>
        match suite.blindSign(privateKey, blindedMsg)
        case None => true
        case Some(blindSig) =>
          match suite.finalize(pkIssuer, input, blindSig, inv)
          case None => true
          case Some(authenticator) =>
            host.verifyRsaPss(mode.SaltLength(), publicKey, authenticator, input) == Some(true)
  }

  /** A whole session between a client and an issuer that share the suite
      table, the mode and the platform: the client's request crosses the wire
      intact, the issuer answers it, the response crosses the wire intact, the
      client finalizes it, and, when the libraries are correct on the token
      input, anyone holding the issuer's public key accepts the token. The
      token's key id is the digest of the issuer's public key bytes, and its
      last byte is the request's key-id byte. */
  lemma BlindRsaSession(issuer: Issuer, client: Client, issuerPublicKey: Bytes,
                        tokChl: TokenChallenge, nonce: Bytes32, coins: Bytes,
                        state: ClientState, request: TokenRequest, response: TokenResponse, token: Token)
    requires client.Valid()
    requires client.suites == issuer.suites && client.mode == issuer.mode && client.host == issuer.host
    requires client.CreateRequest(tokChl, issuerPublicKey, nonce, coins) == Success((state, request))
    requires issuer.Issue(request) == Success(response)
    requires client.Finalize(state, response) == Success(token)
    ensures TokenRequest.Decode(request.Encode()) == Success(request)
    ensures TokenResponse.Deserialize(response.Serialize()) == Success(response)
    ensures token.tokenTypeEntry == BLIND_RSA && token.authInput == state.authInput
    ensures token.authInput.tokenKeyId == TokenKeyId(issuer.host, issuerPublicKey)
    ensures TruncatedTokenKeyId(token.authInput.tokenKeyId) == request.truncatedTokenKeyId
    ensures BlindRsaCorrectOn(issuer.host, issuer.suites(issuer.mode), issuer.mode, issuer.privateKey,
                              issuer.publicKey, issuerPublicKey, issuer.host.serializeAuthInput(token.authInput),
                              coins)
        ==> issuer.Verify(token) == Success(true)
  {
    RequestRoundTrip(request);
    ResponseRoundTrip(response, []);
  }
}
