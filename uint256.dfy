/** `bnToUint256` from the chain client: a token id as a low and a high
    128-bit half, which is how a 256-bit token id crosses into calldata. */
module Uint256Codec {
  import opened Results

  const TwoTo128: nat := 0x1_0000_0000_0000_0000_0000_0000_0000_0000
  const TwoTo256: nat := 0x1_0000_0000_0000_0000_0000_0000_0000_0000_0000_0000_0000_0000_0000_0000_0000_0000

  datatype Uint256 = Uint256(low: nat, high: nat)

  /** (low, high) is a pair of 128-bit halves denoting v. */
  predicate SplitsTo(low: nat, high: nat, v: int) {
    low < TwoTo128 && high < TwoTo128 && low + high * TwoTo128 == v
  }

  /** bnToUint256(v): low = v mod 2^128, high = v div 2^128. The library
      asserts v <= 2^256 - 1, and its masking refuses negative numbers. */
  function BnToUint256(v: int): (r: Result<Uint256>)
    ensures r.Success? <==> 0 <= v < TwoTo256
    ensures r.Failure? ==> r.error == OutOfUint256Range
    ensures r.Success? ==> SplitsTo(r.value.low, r.value.high, v)
  {
    if 0 <= v < TwoTo256 then Success(Uint256(v % TwoTo128, v / TwoTo128))
    else Failure(OutOfUint256Range)
  }

  /** Joining the halves back and splitting again gives the same halves: the
      split is the only pair of 128-bit halves denoting its value. */
  lemma SplitRoundTrip(low: nat, high: nat)
    requires low < TwoTo128 && high < TwoTo128
    ensures BnToUint256(low + high * TwoTo128) == Success(Uint256(low, high))
  {
    var v := low + high * TwoTo128;
    assert v < TwoTo256 by {
      assert high * TwoTo128 <= (TwoTo128 - 1) * TwoTo128;
    }
    assert v / TwoTo128 == high && v % TwoTo128 == low;
  }

  /** Two halves denoting the same value are the same halves. */
  lemma SplitsToUnique(low: nat, high: nat, low': nat, high': nat, v: int)
    requires SplitsTo(low, high, v) && SplitsTo(low', high', v)
    ensures low == low' && high == high'
  {
    SplitRoundTrip(low, high);
    SplitRoundTrip(low', high');
  }
}
