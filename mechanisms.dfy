/** Facts that relate the two token mechanisms. */
module Mechanisms {
  import opened Wire
  import PrivVerifToken
  import PubVerifToken

  /** A request of one mechanism is refused by the other mechanism's
      deserializer with a token type mismatch, before any size check. */
  lemma RequestsNotInterchangeable(r2: PrivVerifToken.TokenRequest2, r: PubVerifToken.TokenRequest)
    requires r2.Valid() && r.Valid()
    ensures PubVerifToken.TokenRequest.Decode(r2.Encode()) == Failure(TokenTypeMismatch)
    ensures PrivVerifToken.TokenRequest2.Decode(r.Encode()) == Failure(TokenTypeMismatch)
  {
  }
}
