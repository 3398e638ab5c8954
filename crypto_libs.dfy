/** The part of the OPRF library that the privately verifiable mechanism calls:
    RFC 9497 in VOPRF mode over P-384 with SHA-384. Its group arithmetic and
    DLEQ proofs are not modelled; each operation is a function supplied by the
    caller, and a rejected promise is `None`. */
module Oprf {
  import opened Wire

  /** The blinded elements a client sends, already serialized. */
  datatype EvaluationRequest = EvaluationRequest(blinded: seq<Bytes>)

  /** The evaluated elements a server returns, with its DLEQ proof if any. */
  datatype Evaluation = Evaluation(evaluated: seq<Bytes>, proof: Option<Bytes>)

  /** The client's secret blinding state between blind and finalize. */
  datatype FinalizeData = FinalizeData(secret: Bytes)

  /** The VOPRF mode object: its four operations. */
  datatype Mode = Mode(
    /** Client: (server public key, inputs, blinding randomness). */
    blind: (Bytes, seq<Bytes>, Bytes) -> Option<(FinalizeData, EvaluationRequest)>,
    /** Server: (private key, request). */
    blindEvaluate: (Bytes, EvaluationRequest) -> Option<Evaluation>,
    /** Client: (server public key, blinding state, evaluation); verifies the proof. */
    finalize: (Bytes, FinalizeData, Evaluation) -> Option<seq<Bytes>>,
    /** Server: (private key, input, output). */
    verifyFinalize: (Bytes, Bytes, Bytes) -> Option<bool>)

  /** `MODE.makeServer(privateKey)`. */
  datatype Server = Server(mode: Mode, privateKey: Bytes)
  {
    function BlindEvaluate(req: EvaluationRequest): Option<Evaluation>
    {
      mode.blindEvaluate(privateKey, req)
    }

    function VerifyFinalize(input: Bytes, output: Bytes): Option<bool>
    {
      mode.verifyFinalize(privateKey, input, output)
    }
  }

  /** `MODE.makeClient(publicKey)`. */
  datatype Client = Client(mode: Mode, publicKey: Bytes)
  {
    function Blind(inputs: seq<Bytes>, coins: Bytes): Option<(FinalizeData, EvaluationRequest)>
    {
      mode.blind(publicKey, inputs, coins)
    }

    function Finalize(finData: FinalizeData, evaluation: Evaluation): Option<seq<Bytes>>
    {
      mode.finalize(publicKey, finData, evaluation)
    }
  }
}

/** One suite of the Blind RSA library (RFC 9474), such as
    RSABSSA-SHA384-PSS-Deterministic. Its RSA arithmetic is not modelled. */
module BlindRsa {
  import opened Wire
  import opened Host

  /** The blinded message and the inverse of the blinding factor. */
  datatype BlindOutput = BlindOutput(blindedMsg: Bytes, inv: Bytes)

  datatype Suite = Suite(
    /** (public key, message, blinding randomness). */
    blind: (CryptoKey, Bytes, Bytes) -> Option<BlindOutput>,
    /** (private key, blinded message). */
    blindSign: (CryptoKey, Bytes) -> Option<Bytes>,
    /** (public key, message, blind signature, inverse); checks the signature. */
    finalize: (CryptoKey, Bytes, Bytes, Bytes) -> Option<Bytes>)
}
