/** Byte strings, big-endian fields and the error kinds shared by both token
    mechanisms. A Uint8Array is modelled by its contents, a sequence of bytes. */
module Wire {

  type byte = x: int | 0 <= x < 0x100
  type Bytes = seq<byte>

  /** A byte string of exactly 32 bytes: a SHA-256 digest, a nonce. */
  type Bytes32 = s: Bytes | |s| == 32 witness seq(32, i => 0)

  /** The outcome of a foreign promise: `None` when it rejects. */
  datatype Option<+T> = None | Some(value: T)

  /** Why a protocol operation threw. */
  datatype Error =
    | OutOfBounds           // a DataView read past the end of its buffer (RangeError)
    | TokenTypeMismatch     // the leading token type is not the mechanism's
    | BlindedMsgSize        // a token request's blinded message has the wrong size
    | EvaluateMsgSize       // a VOPRF response's evaluated element has the wrong size
    | EvaluateProofSize     // a VOPRF response's proof has the wrong size
    | BlindSigSize          // a Blind RSA response's blind signature has the wrong size
    | NonSingleBlinded      // blinding produced other than exactly one element
    | NonSingleEvaluation   // the evaluation holds other than exactly one element
    | MissingProof          // the evaluation carries no DLEQ proof
    | MissingOutput         // finalization produced no output
    | CryptoFailure         // a foreign cryptographic operation rejected

  datatype Result<+T> = Success(value: T) | Failure(error: Error)

  /** Awaiting a foreign promise inside an async function: a rejection is
      rethrown as a failure of the caller. */
  function Await<T>(o: Option<T>): Result<T>
  {
    match o
    case None => Failure(CryptoFailure)
    case Some(v) => Success(v)
  }

  function Min(a: int, b: int): int { if a < b then a else b }

  /** `slice(start, end)` on a Uint8Array or an ArrayBuffer: both ends are
      clamped to the length, so a short input gives a short slice. */
  function Slice(b: Bytes, start: nat, end: nat): (s: Bytes)
    requires start <= end
    ensures |s| == Min(end, |b|) - Min(start, |b|)
    ensures end <= |b| ==> s == b[start..end]
  {
    b[Min(start, |b|)..Min(end, |b|)]
  }

  /** `DataView.setUint16(0, x)`: the value is reduced modulo 2^16 and written
      most significant byte first. */
  function U16(x: int): (b: Bytes)
    ensures |b| == 2
  {
    var v := x % 0x1_0000;
    [v / 0x100, v % 0x100]
  }

  /** `DataView.getUint16(offset)`, big-endian. */
  function ReadU16(b: Bytes, offset: nat): (v: int)
    requires offset + 2 <= |b|
    ensures 0 <= v < 0x1_0000
  {
    (b[offset] as int) * 0x100 + b[offset + 1]
  }

  /** Writing a 16-bit field and reading it back gives the value modulo 2^16,
      and a two-byte field is fully determined by the value read from it. */
  lemma U16RoundTrip(x: int, b: Bytes)
    requires |b| >= 2
    ensures ReadU16(U16(x), 0) == x % 0x1_0000
    ensures U16(ReadU16(b, 0)) == b[..2]
  {
  }

  /** `joinAll`: the concatenation of the parts, in order. */
  function JoinAll(parts: seq<Bytes>): Bytes
  {
    if parts == [] then [] else parts[0] + JoinAll(parts[1..])
  }

  /** Pushing a part onto the output list appends its bytes to the joined output. */
  lemma {:induction false} JoinAllPush(parts: seq<Bytes>, p: Bytes)
    ensures JoinAll(parts + [p]) == JoinAll(parts) + p
  {
    if parts == [] {
      assert parts + [p] == [p];
      assert [p][1..] == [];
    } else {
      assert (parts + [p])[0] == parts[0];
      assert (parts + [p])[1..] == parts[1..] + [p];
      JoinAllPush(parts[1..], p);
    }
  }
}
