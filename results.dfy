/** Outcomes of the codec and call-building operations: either a value or the
    exception the service would throw. */
module Results {

  /** The exceptions the modelled code can raise. */
  datatype Error =
    | NotAnHexString      // hex2ascii: the input does not match ^0x([0-9a-fA-F]{2})+$
    | MatchIsNull         // stringToFelt: the chunking regex found nothing, so `.map` is called on null
    | OutOfUint256Range   // bnToUint256: the token id is negative or above 2^256 - 1

  datatype Result<T> = Success(value: T) | Failure(error: Error)
}
