/** The call lists that src/erc721.service.ts builds before handing them to
    `Account.execute`, and the service operations that send them. Signing,
    key handling and the network are abstracted by the Network class. */
module Erc721 {
  import opened Results
  import opened Uint256Codec
  import Utils

  type Felt = Utils.Felt

  /** An account or contract address, kept as the felt it denotes. */
  type Address = Felt

  /** A transaction hash as `execute` hands it back. */
  type TxHash = nat

  /** One `{contractAddress, entrypoint, calldata}` record of a multicall. */
  datatype Call = Call(contractAddress: Address, entrypoint: string, calldata: seq<Felt>)

  /** One `Account.execute`: the account that signed and the batch it sent. */
  datatype Submission = Submission(account: Address, calls: seq<Call>)

  /** The chain as the service sees it: the batches executed so far, in order.
      A batch's transaction hash is its position, so no hash is handed out twice. */
  class Network {
    var submitted: seq<Submission>

    constructor ()
      ensures submitted == []
    {
      submitted := [];
    }

    /** `account.execute(calls)`: send one signed batch and return its hash. */
    method Execute(account: Address, calls: seq<Call>) returns (hash: TxHash)
      modifies this
      ensures submitted == old(submitted) + [Submission(account, calls)]
      ensures hash == |old(submitted)|
    {
      hash := |submitted|;
      submitted := submitted + [Submission(account, calls)];
    }

    /** `waitForTransaction(hash)` on a hash that execute handed out; it changes nothing. */
    method WaitForTransaction(hash: TxHash)
      requires hash < |submitted|
      ensures submitted == old(submitted)
    {
    }
  }

  // ----- call-list construction -----

  /** How many times `for (index = 0; index < amount; index++)` runs. */
  function CallCount(amount: int): nat {
    if amount > 0 then amount else 0
  }

  /** Every token id tokenId + i with 0 <= i < amount lies in 0..2^256-1. */
  predicate IdsInRange(tokenId: int, amount: int) {
    amount <= 0 || (0 <= tokenId && tokenId + amount <= TwoTo256)
  }

  predicate IsMintCall(c: Call, erc721Address: Address, mintTo: Address, tokenId: int) {
    c.contractAddress == erc721Address && c.entrypoint == "mint" &&
    |c.calldata| == 3 && c.calldata[0] == mintTo && SplitsTo(c.calldata[1], c.calldata[2], tokenId)
  }

  /** One mint per index, in ascending order of token id from tokenId. */
  predicate IsMintBatch(calls: seq<Call>, erc721Address: Address, mintTo: Address, tokenId: int, amount: int) {
    |calls| == CallCount(amount) &&
    forall i :: 0 <= i < |calls| ==> IsMintCall(calls[i], erc721Address, mintTo, tokenId + i)
  }

  /** The loop of mintWithOwner: one mint call per index, pushed in order. */
  method MintCalls(erc721Address: Address, tokenId: int, amount: int, mintTo: Address)
    returns (r: Result<seq<Call>>)
    ensures r.Success? <==> IdsInRange(tokenId, amount)
    ensures r.Failure? ==> r.error == OutOfUint256Range
    ensures r.Success? ==> IsMintBatch(r.value, erc721Address, mintTo, tokenId, amount)
  {
    var calls: seq<Call> := [];
    var index := 0;
    while index < amount
      invariant 0 <= index <= CallCount(amount)
      invariant |calls| == index
      invariant forall i :: 0 <= i < index ==> IsMintCall(calls[i], erc721Address, mintTo, tokenId + i)
      invariant index > 0 ==> 0 <= tokenId && tokenId + index <= TwoTo256
    {
      var uintTokenId := BnToUint256(tokenId + index);
      if uintTokenId.Failure? {
        return Failure(uintTokenId.error);
      }
      calls := calls + [Call(erc721Address, "mint", [mintTo, uintTokenId.value.low, uintTokenId.value.high])];
      index := index + 1;
    }
    return Success(calls);
  }

  predicate IsSetTokenUriCall(c: Call, erc721Address: Address, tokenId: int, tokenUri: seq<Felt>) {
    c.contractAddress == erc721Address && c.entrypoint == "setTokenURI" &&
    |c.calldata| == 3 + |tokenUri| && SplitsTo(c.calldata[0], c.calldata[1], tokenId) &&
    c.calldata[2] == |tokenUri| && c.calldata[3..] == tokenUri
  }

  /** One setTokenURI per index, in ascending order of token id, all with the same URI felts. */
  predicate IsSetTokenUriBatch(calls: seq<Call>, erc721Address: Address, tokenId: int, amount: int, tokenUri: seq<Felt>) {
    |calls| == CallCount(amount) &&
    forall i :: 0 <= i < |calls| ==> IsSetTokenUriCall(calls[i], erc721Address, tokenId + i, tokenUri)
  }

  /** The loop of setTokenURI: one call per index, calldata [low, high, n, uri_1..uri_n]. */
  method SetTokenUriCalls(erc721Address: Address, tokenId: int, amount: int, tokenUri: seq<Felt>)
    returns (r: Result<seq<Call>>)
    ensures r.Success? <==> IdsInRange(tokenId, amount)
    ensures r.Failure? ==> r.error == OutOfUint256Range
    ensures r.Success? ==> IsSetTokenUriBatch(r.value, erc721Address, tokenId, amount, tokenUri)
    ensures r.Success? ==>
      forall i, j :: 0 <= i < |r.value| && 0 <= j < |r.value| ==> r.value[i].calldata[2..] == r.value[j].calldata[2..]
  {
    var calls: seq<Call> := [];
    var index := 0;
    while index < amount
      invariant 0 <= index <= CallCount(amount)
      invariant |calls| == index
      invariant forall i :: 0 <= i < index ==> IsSetTokenUriCall(calls[i], erc721Address, tokenId + i, tokenUri)
      invariant index > 0 ==> 0 <= tokenId && tokenId + index <= TwoTo256
    {
      var uintTokenId := BnToUint256(tokenId + index);
      if uintTokenId.Failure? {
        return Failure(uintTokenId.error);
      }
      var callData := [uintTokenId.value.low, uintTokenId.value.high, |tokenUri|] + tokenUri;
      calls := calls + [Call(erc721Address, "setTokenURI", callData)];
      index := index + 1;
    }
    return Success(calls);
  }

  predicate IsBurnCall(c: Call, erc721Address: Address, tokenId: int) {
    c.contractAddress == erc721Address && c.entrypoint == "burn" &&
    |c.calldata| == 2 && SplitsTo(c.calldata[0], c.calldata[1], tokenId)
  }

  /** The single-call list of burnToken. */
  function BurnCalls(erc721Address: Address, tokenId: int): (r: Result<seq<Call>>)
    ensures r.Success? <==> 0 <= tokenId < TwoTo256
    ensures r.Failure? ==> r.error == OutOfUint256Range
    ensures r.Success? ==> |r.value| == 1 && IsBurnCall(r.value[0], erc721Address, tokenId)
  {
    match BnToUint256(tokenId)
    case Failure(e) => Failure(e)
    case Success(u) => Success([Call(erc721Address, "burn", [u.low, u.high])])
  }

  predicate IsTransferCall(c: Call, erc721Address: Address, from: Address, to: Address, tokenId: int) {
    c.contractAddress == erc721Address && c.entrypoint == "transferFrom" &&
    |c.calldata| == 4 && c.calldata[0] == from && c.calldata[1] == to &&
    SplitsTo(c.calldata[2], c.calldata[3], tokenId)
  }

  /** The single-call list of transferByNftOwner. */
  function TransferCalls(nftOwnerAccountAddress: Address, toAccountAddress: Address, erc721Address: Address, tokenId: int)
    : (r: Result<seq<Call>>)
    ensures r.Success? <==> 0 <= tokenId < TwoTo256
    ensures r.Failure? ==> r.error == OutOfUint256Range
    ensures r.Success? ==> |r.value| == 1
    ensures r.Success? ==> IsTransferCall(r.value[0], erc721Address, nftOwnerAccountAddress, toAccountAddress, tokenId)
  {
    match BnToUint256(tokenId)
    case Failure(e) => Failure(e)
    case Success(u) =>
      Success([Call(erc721Address, "transferFrom", [nftOwnerAccountAddress, toAccountAddress, u.low, u.high])])
  }

  /** The two token-URI felts that mintAndSetTokenURI hard-codes. */
  const FixedTokenUri: seq<Felt> := [
    143869255004888580070695465572066180332169606375711487424357321818787707482,
    374968695587543135438736105477076850
  ]

  // ----- the service operations -----

  /** ERC721Service: each operation builds its calls, executes them from one
      account, waits for the transaction and returns its hash. */
  class Erc721Service {
    const network: Network

    constructor (network: Network)
      ensures this.network == network
    {
      this.network := network;
    }

    /** mintWithOwner: one batch of CallCount(amount) mints, signed by accountContract. */
    method MintWithOwner(accountContract: Address, erc721Address: Address, tokenId: int, amount: int, mintTo: Address)
      returns (r: Result<TxHash>)
      modifies network
      ensures r.Success? <==> IdsInRange(tokenId, amount)
      ensures r.Failure? ==> r.error == OutOfUint256Range && network.submitted == old(network.submitted)
      ensures r.Success? ==> r.value == |old(network.submitted)|
      ensures r.Success? ==>
        exists calls :: (IsMintBatch(calls, erc721Address, mintTo, tokenId, amount) &&
                         network.submitted == old(network.submitted) + [Submission(accountContract, calls)])
    {
      var calls := MintCalls(erc721Address, tokenId, amount, mintTo);
      if calls.Failure? {
        return Failure(calls.error);
      }
      var transferTxHash := network.Execute(accountContract, calls.value);
      network.WaitForTransaction(transferTxHash);
      return Success(transferTxHash);
    }

    /** setTokenURI: cidV0 is chunked once; one batch of CallCount(amount)
        setTokenURI calls carrying the same chunks, signed by accountContract. */
    method SetTokenUri(accountContract: Address, erc721Address: Address, tokenId: int, amount: int, cidV0: string)
      returns (r: Result<TxHash>)
      modifies network
      ensures Utils.StringToFelt(cidV0).Failure? ==> r == Failure(MatchIsNull)
      ensures r.Success? <==> Utils.StringToFelt(cidV0).Success? && IdsInRange(tokenId, amount)
      ensures Utils.StringToFelt(cidV0).Success? && r.Failure? ==> r.error == OutOfUint256Range
      ensures r.Failure? ==> network.submitted == old(network.submitted)
      ensures r.Success? ==> r.value == |old(network.submitted)|
      ensures r.Success? ==>
        exists calls :: (IsSetTokenUriBatch(calls, erc721Address, tokenId, amount, Utils.StringToFelt(cidV0).value) &&
                         network.submitted == old(network.submitted) + [Submission(accountContract, calls)])
    {
      var tokenUri := Utils.StringToFelt(cidV0);
      if tokenUri.Failure? {
        return Failure(tokenUri.error);
      }
      var calls := SetTokenUriCalls(erc721Address, tokenId, amount, tokenUri.value);
      if calls.Failure? {
        return Failure(calls.error);
      }
      var transferTxHash := network.Execute(accountContract, calls.value);
      network.WaitForTransaction(transferTxHash);
      return Success(transferTxHash);
    }

    /** burnToken: one burn call, signed by the owner of the NFT. */
    method BurnToken(nftOwnerAccountAddress: Address, erc721Address: Address, tokenId: int)
      returns (r: Result<TxHash>)
      modifies network
      ensures r.Success? <==> 0 <= tokenId < TwoTo256
      ensures r.Failure? ==> r.error == OutOfUint256Range && network.submitted == old(network.submitted)
      ensures r.Success? ==> r.value == |old(network.submitted)|
      ensures r.Success? ==>
        exists c :: (IsBurnCall(c, erc721Address, tokenId) &&
                     network.submitted == old(network.submitted) + [Submission(nftOwnerAccountAddress, [c])])
    {
      var calls := BurnCalls(erc721Address, tokenId);
      if calls.Failure? {
        return Failure(calls.error);
      }
      var transferTxHash := network.Execute(nftOwnerAccountAddress, calls.value);
      network.WaitForTransaction(transferTxHash);
      return Success(transferTxHash);
    }

    /** transferByNftOwner: one transferFrom call whose "from" is the account that signs it. */
    method TransferByNftOwner(nftOwnerAccountAddress: Address, toAccountAddress: Address, erc721Address: Address, tokenId: int)
      returns (r: Result<TxHash>)
      modifies network
      ensures r.Success? <==> 0 <= tokenId < TwoTo256
      ensures r.Failure? ==> r.error == OutOfUint256Range && network.submitted == old(network.submitted)
      ensures r.Success? ==> r.value == |old(network.submitted)|
      ensures r.Success? ==>
        exists c :: (IsTransferCall(c, erc721Address, nftOwnerAccountAddress, toAccountAddress, tokenId) &&
                     network.submitted == old(network.submitted) + [Submission(nftOwnerAccountAddress, [c])])
    {
      var calls := TransferCalls(nftOwnerAccountAddress, toAccountAddress, erc721Address, tokenId);
      if calls.Failure? {
        return Failure(calls.error);
      }
      var transferTxHash := network.Execute(nftOwnerAccountAddress, calls.value);
      network.WaitForTransaction(transferTxHash);
      return Success(transferTxHash);
    }

    /** mintAndSetTokenURI: a mint, then a setTokenURI with the fixed URI felts,
        as two transactions from accountContract; the mint's hash is returned. */
    method MintAndSetTokenUri(accountContract: Address, erc721Address: Address, tokenId: int, mintTo: Address)
      returns (r: Result<TxHash>)
      modifies network
      ensures r.Success? <==> 0 <= tokenId < TwoTo256
      ensures r.Failure? ==> r.error == OutOfUint256Range && network.submitted == old(network.submitted)
      ensures r.Success? ==> r.value == |old(network.submitted)|
      ensures r.Success? ==>
        exists low: nat, high: nat :: (
          SplitsTo(low, high, tokenId) &&
          network.submitted == old(network.submitted) + [
            Submission(accountContract, [Call(erc721Address, "mint", [mintTo, low, high])]),
            Submission(accountContract, [Call(erc721Address, "setTokenURI", [low, high, |FixedTokenUri|] + FixedTokenUri)])
          ])
    {
      var tokenIdUint := BnToUint256(tokenId);
      if tokenIdUint.Failure? {
        return Failure(tokenIdUint.error);
      }
      var low, high := tokenIdUint.value.low, tokenIdUint.value.high;
      var mintHash := network.Execute(accountContract, [Call(erc721Address, "mint", [mintTo, low, high])]);
      network.WaitForTransaction(mintHash);
      var setUriCall := Call(erc721Address, "setTokenURI", [low, high, |FixedTokenUri|] + FixedTokenUri);
      var setTokenUriHash := network.Execute(accountContract, [setUriCall]);
      network.WaitForTransaction(setTokenUriHash);
      return Success(mintHash);
    }

    /** ownerMultiCall: the caller's calls, sent unchanged as one batch. */
    method OwnerMultiCall(accountContract: Address, calls: seq<Call>) returns (hash: TxHash)
      modifies network
      ensures hash == |old(network.submitted)|
      ensures network.submitted == old(network.submitted) + [Submission(accountContract, calls)]
    {
      hash := network.Execute(accountContract, calls);
      network.WaitForTransaction(hash);
    }
  }
}
