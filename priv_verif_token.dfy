/** The privately verifiable token mechanism, token type VOPRF (P-384, SHA-384):
    its registry entry, the wire format of its token request and response
    (sections 5.1 and 5.2 of RFC 9578), and the client and issuer sessions. */
module PrivVerifToken {
  import opened Wire
  import opened AuthScheme
  import opened Host
  import Oprf

  /** Sizes of P-384 in section 4.4 of RFC 9497: a serialized group element
      (Ne), a serialized scalar (Ns) and the OPRF output (Nk), in bytes. */
  const Ne: nat := 49
  const Ns: nat := 48
  const Nk: nat := 48

  /** The registry entry of token type VOPRF (P-384, SHA-384). */
  const VOPRF: TokenTypeEntry :=
    TokenTypeEntry(0x0001, "VOPRF (P-384, SHA-384)", Nk, 32, false, false, false)

  /** The VOPRF entry: type 0x0001, 32-byte key ids, an output of Nk bytes,
      privately verifiable and without metadata. */
  lemma VoprfEntry()
    ensures VOPRF.value == 0x0001 && VOPRF.Nid == 32 && VOPRF.Nk == Nk
    ensures !VOPRF.publicVerifiable && !VOPRF.publicMetadata && !VOPRF.privateMetadata
  {
  }

  /** The token request: u16 token type, one truncated key-id byte, and the
      blinded element of Ne bytes. */
  datatype TokenRequest2 = TokenRequest2(tokenType: int, truncatedTokenKeyId: int, blindedMsg: Bytes)
  {
    /** What construction guarantees of every request. */
    predicate Valid()
    {
      tokenType == VOPRF.value && |blindedMsg| == Ne
    }

    /** The constructor: rejects a blinded message of the wrong size and fixes
        the token type. */
    static function Create(truncatedTokenKeyId: int, blindedMsg: Bytes): (r: Result<TokenRequest2>)
      ensures r.Success? <==> |blindedMsg| == Ne
      ensures r.Success? ==> r.value.Valid() && r.value.tokenType == 0x0001
      ensures r.Success? ==>
        r.value.truncatedTokenKeyId == truncatedTokenKeyId && r.value.blindedMsg == blindedMsg
      ensures r.Failure? ==> r.error == BlindedMsgSize
    {
      if |blindedMsg| != Ne then Failure(BlindedMsgSize)
      else Success(TokenRequest2(VOPRF.value, truncatedTokenKeyId, blindedMsg))
    }

    /** The wire layout. The key id is written by `setUint8`, which keeps it
        modulo 2^8. */
    function Encode(): Bytes
    {
      U16(tokenType) + [truncatedTokenKeyId % 0x100] + blindedMsg
    }

    /** `serialize`: pushes the three fields onto an output list and joins it. */
    method Serialize() returns (b: Bytes)
      ensures b == Encode()
      ensures Valid() ==> |b| == 3 + Ne && ReadU16(b, 0) == 0x0001
      ensures b[2] == truncatedTokenKeyId % 0x100 && b[3..] == blindedMsg
    {
      var output: seq<Bytes> := [];
      var part := U16(tokenType);
      JoinAllPush(output, part);
      output := output + [part];
      part := [truncatedTokenKeyId % 0x100];
      JoinAllPush(output, part);
      output := output + [part];
      part := blindedMsg;
      JoinAllPush(output, part);
      output := output + [part];
      b := JoinAll(output);
      U16RoundTrip(tokenType, b);
    }

    /** What `deserialize` returns. A DataView read past the end throws; the
        blinded message is cut from offset 3 and checked by the constructor. */
    static function Decode(bytes: Bytes): (r: Result<TokenRequest2>)
      ensures r.Success? <==> |bytes| >= 3 + Ne && ReadU16(bytes, 0) == VOPRF.value
      ensures r.Success? ==> r.value.Valid()
      ensures r.Success? ==>
        r.value.truncatedTokenKeyId == bytes[2] && r.value.blindedMsg == bytes[3..3 + Ne]
      ensures |bytes| < 2 ==> r == Failure(OutOfBounds)
      ensures |bytes| >= 2 && ReadU16(bytes, 0) != VOPRF.value ==> r == Failure(TokenTypeMismatch)
      ensures 3 <= |bytes| < 3 + Ne && ReadU16(bytes, 0) == VOPRF.value ==> r == Failure(BlindedMsgSize)
    {
      if |bytes| < 2 then Failure(OutOfBounds)
      else if ReadU16(bytes, 0) != VOPRF.value then Failure(TokenTypeMismatch)
      else if |bytes| < 3 then Failure(OutOfBounds)
      else Create(bytes[2], Slice(bytes, 3, 3 + Ne))
    }

    /** `deserialize`: reads the fields by advancing an offset. */
    static method Deserialize(bytes: Bytes) returns (r: Result<TokenRequest2>)
      ensures r == Decode(bytes)
    {
      var offset := 0;
      if |bytes| < offset + 2 {
        return Failure(OutOfBounds);
      }
      var tokenType := ReadU16(bytes, offset);
      offset := offset + 2;
      if tokenType != VOPRF.value {
        return Failure(TokenTypeMismatch);
      }
      if |bytes| < offset + 1 {
        return Failure(OutOfBounds);
      }
      var truncatedTokenKeyId := bytes[offset];
      offset := offset + 1;
      var len := Ne;
      var blindedMsg := Slice(bytes, offset, offset + len);
      r := Create(truncatedTokenKeyId, blindedMsg);
    }
  }

  /** Decoding an encoded request gives it back with its key id reduced to a
      byte; a key id already in byte range comes back unchanged. */
  lemma RequestRoundTrip(r: TokenRequest2)
    requires r.Valid()
    ensures TokenRequest2.Decode(r.Encode())
         == Success(r.(truncatedTokenKeyId := r.truncatedTokenKeyId % 0x100))
    ensures 0 <= r.truncatedTokenKeyId < 0x100 ==> TokenRequest2.Decode(r.Encode()) == Success(r)
  {
    var b := r.Encode();
    U16RoundTrip(r.tokenType, b);
    assert b[3..3 + Ne] == r.blindedMsg;
  }

  /** A request that decodes is the encoding of what it decodes to, followed
      by bytes that are ignored. */
  lemma RequestDecodeEncode(bytes: Bytes)
    requires TokenRequest2.Decode(bytes).Success?
    ensures TokenRequest2.Decode(bytes).value.Encode() == bytes[..3 + Ne]
  {
  }

  /** The token response: the evaluated element (Ne bytes) and the DLEQ proof
      (two scalars, 2 * Ns bytes). */
  datatype TokenResponse2 = TokenResponse2(evaluateMsg: Bytes, evaluateProof: Bytes)
  {
    predicate Valid()
    {
      |evaluateMsg| == Ne && |evaluateProof| == 2 * Ns
    }

    /** The constructor: checks the element size, then the proof size. */
    static function Create(evaluateMsg: Bytes, evaluateProof: Bytes): (r: Result<TokenResponse2>)
      ensures r.Success? <==> |evaluateMsg| == Ne && |evaluateProof| == 2 * Ns
      ensures r.Success? ==> r.value.Valid() && r.value == TokenResponse2(evaluateMsg, evaluateProof)
      ensures |evaluateMsg| != Ne ==> r == Failure(EvaluateMsgSize)
      ensures |evaluateMsg| == Ne && |evaluateProof| != 2 * Ns ==> r == Failure(EvaluateProofSize)
    {
      if |evaluateMsg| != Ne then Failure(EvaluateMsgSize)
      else if |evaluateProof| != 2 * Ns then Failure(EvaluateProofSize)
      else Success(TokenResponse2(evaluateMsg, evaluateProof))
    }

    /** `serialize`: the element followed by the proof. */
    function Serialize(): (b: Bytes)
      ensures |b| == |evaluateMsg| + |evaluateProof|
      ensures b[..|evaluateMsg|] == evaluateMsg && b[|evaluateMsg|..] == evaluateProof
      ensures Valid() ==> |b| == Ne + 2 * Ns
    {
      JoinAllPush([evaluateMsg], evaluateProof);
      JoinAll([evaluateMsg, evaluateProof])
    }

    /** What `deserialize` returns: the first Ne bytes and the next 2 * Ns
        bytes, each slice clamped to the input, checked by the constructor. */
    static function Decode(bytes: Bytes): (r: Result<TokenResponse2>)
      ensures r.Success? <==> |bytes| >= Ne + 2 * Ns
      ensures r.Success? ==> r.value.Valid()
      ensures r.Success? ==>
        r.value.evaluateMsg == bytes[..Ne] && r.value.evaluateProof == bytes[Ne..Ne + 2 * Ns]
      ensures |bytes| < Ne ==> r == Failure(EvaluateMsgSize)
      ensures Ne <= |bytes| < Ne + 2 * Ns ==> r == Failure(EvaluateProofSize)
    {
      Create(Slice(bytes, 0, Ne), Slice(bytes, Ne, Ne + 2 * Ns))
    }

    /** `deserialize`: slices the two fields by advancing an offset. */
    static method Deserialize(bytes: Bytes) returns (r: Result<TokenResponse2>)
      ensures r == Decode(bytes)
    {
      var offset := 0;
      var len := Ne;
      var evaluateMsg := Slice(bytes, offset, offset + len);
      offset := offset + len;
      len := 2 * Ns;
      var evaluateProof := Slice(bytes, offset, offset + len);
      r := Create(evaluateMsg, evaluateProof);
    }
  }

  /** Decoding a serialized response gives it back. */
  lemma ResponseRoundTrip(x: TokenResponse2)
    requires x.Valid()
    ensures TokenResponse2.Decode(x.Serialize()) == Success(x)
  {
    var b := x.Serialize();
    assert b[..Ne] == x.evaluateMsg;
    assert b[Ne..Ne + 2 * Ns] == x.evaluateProof;
  }

  /** A response that decodes is the serialization of what it decodes to,
      followed by bytes that are ignored. */
  lemma ResponseDecodeSerialize(bytes: Bytes)
    requires TokenResponse2.Decode(bytes).Success?
    ensures TokenResponse2.Decode(bytes).value.Serialize() == bytes[..Ne + 2 * Ns]
  {
  }

  /** `verifyToken2`: the issuer's VOPRF check of the token's authenticator
      against its serialized authenticator input, under the private key. */
  function VerifyToken2(host: Platform, mode: Oprf.Mode, token: Token, privateKeyIssuer: Bytes): Result<bool>
  {
    var vServer := Oprf.Server(mode, privateKeyIssuer);
    Await(vServer.VerifyFinalize(host.serializeAuthInput(token.authInput), token.authenticator))
  }

  /** The VOPRF issuer: its key pair and the OPRF server made from the
      private key when it is constructed. */
  datatype Issuer2 = Issuer2(name: string, privateKey: Bytes, publicKey: Bytes, vServer: Oprf.Server, host: Platform)
  {
    /** The OPRF server is the one made from the issuer's own private key. */
    predicate Valid()
    {
      vServer.privateKey == privateKey
    }

    /** The constructor. */
    static function Create(name: string, privateKey: Bytes, publicKey: Bytes, mode: Oprf.Mode, host: Platform)
      : (r: Issuer2)
      ensures r.Valid()
      ensures r.privateKey == privateKey && r.publicKey == publicKey && r.vServer.mode == mode
    {
      Issuer2(name, privateKey, publicKey, Oprf.Server(mode, privateKey), host)
    }

    /** `issue`: evaluates the request's blinded element and returns the
        single evaluated element with its proof. */
    function Issue(tokReq: TokenRequest2): (r: Result<TokenResponse2>)
      ensures var evaluation := vServer.BlindEvaluate(Oprf.EvaluationRequest([tokReq.blindedMsg]));
        && (r.Success? <==>
              && evaluation.Some?
              && |evaluation.value.evaluated| == 1
              && evaluation.value.proof.Some?
              && TokenResponse2(evaluation.value.evaluated[0], evaluation.value.proof.value).Valid())
        && (evaluation.None? ==> r == Failure(CryptoFailure))
        && (evaluation.Some? && |evaluation.value.evaluated| != 1 ==> r == Failure(NonSingleEvaluation))
        && (evaluation.Some? && |evaluation.value.evaluated| == 1 && evaluation.value.proof.None? ==>
              r == Failure(MissingProof))
        && (evaluation.Some? && |evaluation.value.evaluated| == 1 && evaluation.value.proof.Some? &&
            |evaluation.value.evaluated[0]| != Ne ==>
              r == Failure(EvaluateMsgSize))
        && (evaluation.Some? && |evaluation.value.evaluated| == 1 && evaluation.value.proof.Some? &&
            |evaluation.value.evaluated[0]| == Ne && |evaluation.value.proof.value| != 2 * Ns ==>
              r == Failure(EvaluateProofSize))
        && (r.Success? ==>
              && r.value.Valid()
              && evaluation == Some(Oprf.Evaluation([r.value.evaluateMsg], Some(r.value.evaluateProof))))
    {
      var evalReq := Oprf.EvaluationRequest([tokReq.blindedMsg]);
      match vServer.BlindEvaluate(evalReq)
      case None => Failure(CryptoFailure)
      case Some(evaluation) =>
        if |evaluation.evaluated| != 1 then Failure(NonSingleEvaluation)
        else
          var evaluateMsg := evaluation.evaluated[0];
          assert evaluation.evaluated == [evaluateMsg];
          match evaluation.proof
          case None => Failure(MissingProof)
          case Some(evaluateProof) => TokenResponse2.Create(evaluateMsg, evaluateProof)
    }

    /** `verify`: the OPRF server's check of the token. */
    function Verify(token: Token): Result<bool>
    {
      Await(vServer.VerifyFinalize(host.serializeAuthInput(token.authInput), token.authenticator))
    }
  }

  /** An issuer verifies a token exactly as `verifyToken2` does under the
      issuer's private key. */
  lemma IssuerVerifyIsVerifyToken2(name: string, privateKey: Bytes, publicKey: Bytes, mode: Oprf.Mode,
                                   host: Platform, token: Token)
    ensures Issuer2.Create(name, privateKey, publicKey, mode, host).Verify(token)
         == VerifyToken2(host, mode, token, privateKey)
  {
  }

  /** What the client keeps between request and finalization. */
  datatype Client2State = Client2State(authInput: AuthenticatorInput, finData: Oprf.FinalizeData)

  /** The VOPRF client: the issuer's public key and the OPRF client made from
      it when it is constructed. */
  datatype Client2 = Client2(issuerPublicKey: Bytes, vClient: Oprf.Client, host: Platform)
  {
    /** The OPRF client is the one made from the issuer's public key. */
    predicate Valid()
    {
      vClient.publicKey == issuerPublicKey
    }

    /** The constructor. */
    static function Create(issuerPublicKey: Bytes, mode: Oprf.Mode, host: Platform): (r: Client2)
      ensures r.Valid()
      ensures r.issuerPublicKey == issuerPublicKey && r.vClient.mode == mode
    {
      Client2(issuerPublicKey, Oprf.Client(mode, issuerPublicKey), host)
    }

    /** The authenticator input the client builds for a challenge and a nonce. */
    function AuthInputFor(tokChl: TokenChallenge, nonce: Bytes32): AuthenticatorInput
    {
      var challengeDigest := host.sha256(host.serializeChallenge(tokChl));
      AuthenticatorInput(VOPRF, VOPRF.value, nonce, challengeDigest, TokenKeyId(host, issuerPublicKey))
    }

    /** `createTokenRequest`: builds the authenticator input, blinds its
        serialization, and wraps the single blinded element into a request
        whose key-id byte is the last byte of the key id. `nonce` stands for
        the 32 random bytes and `coins` for the randomness of blinding. */
    function CreateTokenRequest(tokChl: TokenChallenge, nonce: Bytes32, coins: Bytes)
      : (r: Result<(Client2State, TokenRequest2)>)
      ensures var authInput := AuthInputFor(tokChl, nonce);
        var blinded := vClient.Blind([host.serializeAuthInput(authInput)], coins);
        && (r.Success? <==>
              blinded.Some? && |blinded.value.1.blinded| == 1 && |blinded.value.1.blinded[0]| == Ne)
        && (blinded.None? ==> r == Failure(CryptoFailure))
        && (blinded.Some? && |blinded.value.1.blinded| != 1 ==> r == Failure(NonSingleBlinded))
        && (blinded.Some? && |blinded.value.1.blinded| == 1 && |blinded.value.1.blinded[0]| != Ne ==>
              r == Failure(BlindedMsgSize))
        && (r.Success? ==>
              var (state, request) := r.value;
              && request.Valid()
              && state.authInput == authInput
              && state.authInput.tokenType == 0x0001
              && state.authInput.tokenKeyId == host.sha256(issuerPublicKey)
              && request.truncatedTokenKeyId == TruncatedTokenKeyId(host.sha256(issuerPublicKey))
              && blinded == Some((state.finData, Oprf.EvaluationRequest([request.blindedMsg]))))
    {
      var tokenKeyId := TokenKeyId(host, issuerPublicKey);
      var authInput := AuthInputFor(tokChl, nonce);
      var tokenInput := host.serializeAuthInput(authInput);
      match vClient.Blind([tokenInput], coins)
      case None => Failure(CryptoFailure)
      case Some((finData, evalReq)) =>
        if |evalReq.blinded| != 1 then Failure(NonSingleBlinded)
        else
          var blindedMsg := evalReq.blinded[0];
          assert evalReq.blinded == [blindedMsg];
          var truncatedTokenKeyId := TruncatedTokenKeyId(tokenKeyId);
          match TokenRequest2.Create(truncatedTokenKeyId, blindedMsg)
          case Failure(e) => Failure(e)
          case Success(tokenRequest) => Success((Client2State(authInput, finData), tokenRequest))
    }

    /** `finalize`: unblinds the response, the library checking its proof,
        and wraps the first output into a VOPRF token over the saved input. */
    function Finalize(state: Client2State, tokRes: TokenResponse2): (r: Result<Token>)
      ensures var outputs := vClient.Finalize(state.finData,
                               Oprf.Evaluation([tokRes.evaluateMsg], Some(tokRes.evaluateProof)));
        && (r.Success? <==> outputs.Some? && |outputs.value| >= 1)
        && (outputs.None? ==> r == Failure(CryptoFailure))
        && (r.Success? ==>
              && r.value.tokenTypeEntry == VOPRF
              && r.value.authInput == state.authInput
              && r.value.authenticator == outputs.value[0])
    {
      var evaluation := Oprf.Evaluation([tokRes.evaluateMsg], Some(tokRes.evaluateProof));
      match vClient.Finalize(state.finData, evaluation)
      case None => Failure(CryptoFailure)
      case Some(outputs) =>
        if |outputs| == 0 then Failure(MissingOutput)
        else Success(Token(VOPRF, state.authInput, outputs[0]))
    }
  }

  /** The OPRF library is correct on one token input: blinding it, evaluating
      the blinded request under the private key and finalizing under the
      public key yields an output that the private key accepts. */
  ghost predicate OprfCorrectOn(mode: Oprf.Mode, privateKey: Bytes, publicKey: Bytes, input: Bytes, coins: Bytes)
  {
    match mode.blind(publicKey, [input], coins)
    case None => true
    case Some((finData, evalReq)) =>
      match mode.blindEvaluate(privateKey, evalReq)
      case None => true
      case Some(evaluation) =>
        match mode.finalize(publicKey, finData, evaluation)
        case None => true
        case Some(outputs) => |outputs| == 0 || mode.verifyFinalize(privateKey, input, outputs[0]) == Some(true)
  }

  /** A whole session between a client and an issuer that agree on the mode
      and on the issuer's public key, each holding the OPRF object made from
      its own key: the client's request crosses the wire intact, the issuer
      answers it, the response crosses the wire intact, the client finalizes
      it, and, when the OPRF library is correct on the token input, the issuer
      accepts the token. The token's key id is the digest of the issuer's
      public key, and its last byte is the request's key-id byte. */
  lemma VoprfSession(issuer: Issuer2, client: Client2, tokChl: TokenChallenge, nonce: Bytes32, coins: Bytes,
                     state: Client2State, request: TokenRequest2, response: TokenResponse2, token: Token)
    requires issuer.Valid() && client.Valid()
    requires client.issuerPublicKey == issuer.publicKey && client.vClient.mode == issuer.vServer.mode
    requires client.host == issuer.host
    requires client.CreateTokenRequest(tokChl, nonce, coins) == Success((state, request))
    requires issuer.Issue(request) == Success(response)
    requires client.Finalize(state, response) == Success(token)
    ensures TokenRequest2.Decode(request.Encode()) == Success(request)
    ensures TokenResponse2.Decode(response.Serialize()) == Success(response)
    ensures token.tokenTypeEntry == VOPRF && token.authInput == state.authInput
    ensures token.authInput.tokenKeyId == TokenKeyId(issuer.host, issuer.publicKey)
    ensures TruncatedTokenKeyId(token.authInput.tokenKeyId) == request.truncatedTokenKeyId
    ensures OprfCorrectOn(issuer.vServer.mode, issuer.privateKey, issuer.publicKey,
                          issuer.host.serializeAuthInput(token.authInput), coins)
        ==> issuer.Verify(token) == Success(true)
  {
    RequestRoundTrip(request);
    ResponseRoundTrip(response);
  }
}
