# starknet-intergrate: the token-URI codec and the ERC721 call batches

This project models the part of the starknet-intergrate NestJS service that has behaviour worth
stating:

- the codec in `src/utils.ts`, which turns a token URI into StarkNet field elements (felts) and back.
  `ascii2hex` writes each character code as unpadded lowercase hex. `hex2ascii` checks a
  `0x`-prefixed hex string and decodes it pair by pair. `stringToFelt` cuts a URI into chunks of
  at most 31 characters and reads each chunk's hex as one felt. `hexArrayToString` decodes a list
  of felts back into text.
- the call lists that `src/erc721.service.ts` builds for `Account.execute`: the mint batch of
  `mintWithOwner`, the setTokenURI batch of `setTokenURI`, the single calls of `burnToken` and
  `transferByNftOwner`, and the two transactions of `mintAndSetTokenURI` and `ownerMultiCall`.

Files and modules:

- `results.dfy` (`Results`): the three errors the code can throw, and a `Result` type carrying them.
- `hex.dfy` (`Hex`): hex digits, `n.toString(16)` (`MinimalHex`), the chain client's `toHex` and
  `toFelt`, and the facts about them the codec needs.
- `utils.dfy` (`Utils`): `src/utils.ts`. `hex2ascii` and `ascii2hex` are loop methods
  (`Hex2Ascii`, `Ascii2Hex`). Each is proved equal to a function (`DecodeHex`, `HexOfText`), and
  the `map`/`join` pipelines `StringToFelt` and `HexArrayToString` are built on those functions.
- `uint256.dfy` (`Uint256Codec`): the chain client's `bnToUint256`, the 128/128-bit split of a token id.
- `erc721_service.dfy` (`Erc721`): the call records, the loops that build the mint and setTokenURI
  batches, the single-call lists, and the class `Erc721Service` whose methods send them through a
  `Network`. A `Network` keeps the log of executed batches. A batch's transaction hash is its
  position in that log.

A thrown exception is a `Failure` carrying one of the three errors: `NotAnHexString` (the
`hex2ascii` pattern test), `MatchIsNull` (`.map` on the `null` that `match` returns when nothing
matches) and `OutOfUint256Range` (`bnToUint256` on a negative or too large id). Felts and
addresses are natural numbers. Token ids and amounts are mathematical integers.

Where the code differs from what a caller might expect, the model follows the code:

- `stringToFelt("")` throws. It does not return an empty list.
- When `amount <= 0`, `mintWithOwner` and `setTokenURI` execute an empty batch. They do not
  reject the amount.
- `hexArrayToString` fails on a felt whose `toHex` has an odd number of digits. This includes 0,
  whose `toHex` is `0x0`.
- `toFelt` does not reduce modulo the field prime. A chunk of at most 31 characters with codes
  below 256 stays below 2^248 anyway (`ChunkFelt`).

## Model

| member | source | states |
|---|---|---|
| Hex.MinimalHex | src/utils.ts:24 | `n.toString(16)` is nonempty lowercase hex denoting n, with no leading zero when n > 0 |
| Hex.MinimalHexLength | src/utils.ts:24 | a code gets one hex digit exactly when it is below 16, two exactly when it is in 16..255, and then these are its high and low nibble |
| Hex.ToHex | src/utils.ts:5 | `toHex(n)` is `0x` plus at least one hex digit, and `toFelt(toHex(n)) == n` for every n |
| Hex.ToFelt | src/utils.ts:36 | `toFelt` of `0x` plus d hex digits is a number below 16^d |
| Hex.MinimalHexOfValue | src/utils.ts:5 | canonical hex digits (lowercase, no leading zero) are exactly `toString(16)` of their value, so the encoding is injective |
| Hex.HexValueBound | src/utils.ts:36 | hex text of d digits denotes a number below 16^d |
| Utils.DecodeHex | src/utils.ts:11-20 | hex2ascii succeeds iff its input is `0x` plus one or more pairs of hex digits in either case, else throws NotAnHexString; the result has (len-2)/2 characters and character k has the value of the pair at 2+2k, 3+2k |
| Utils.Hex2Ascii | src/utils.ts:11-20 | the check-then-loop of hex2ascii (i stepping by 2, appending one character per pair) returns exactly what DecodeHex describes |
| Utils.PairValue | src/utils.ts:17 | `parseInt` of a hex pair is below 256 |
| Utils.DecodePairs | src/utils.ts:16-18 | the pair-by-pair decoding has half the digits' length and character k comes from digits 2k and 2k+1 |
| Utils.HexOfText | src/utils.ts:21-28 | ascii2hex's output is lowercase hex, at least one digit per character, and exactly two per character when every code is in 16..255 |
| Utils.JoinCons | src/utils.ts:27 | `join('')` concatenates the parts in order: the first part, then the join of the rest |
| Utils.Ascii2Hex | src/utils.ts:21-28 | the push-then-join loop of ascii2hex returns exactly HexOfText |
| Utils.HexOfTextLength | src/utils.ts:21-28 | for codes below 256 the output has at most 2·len digits, and exactly 2·len only when every code is at least 16 |
| Utils.DecodePairsOfHex | src/utils.ts:11-28 | decoding the pairs of ascii2hex(s) gives s back when every code is in 16..255 |
| Utils.HexRoundTrip | src/utils.ts:11-28 | `hex2ascii("0x" + ascii2hex(s)) == s` holds iff s is nonempty and every code is in 16..255; for "" it fails since "0x" is rejected |
| Utils.LeadingRun | src/utils.ts:31 | one greedy `.{1,max}` match takes at most max characters, none a line terminator, and stops early only at a line terminator or the end |
| Utils.MatchChunks | src/utils.ts:31 | every match of `/.{1,31}/g` has 1 to 31 characters and no line terminator |
| Utils.MatchChunksCover | src/utils.ts:31 | the matches, joined in order, are the input with its line terminators removed |
| Utils.ChunkPositions | src/utils.ts:31 | on text without line terminators there are ceil(len/31) matches and match i is s[31i .. min(31i+31, len)] |
| Utils.MatchChunksLayout | src/utils.ts:31 | on text without line terminators the matches are contiguous and in order, all but the last have 31 characters, there are ceil(len/31) of them, and they join back to the input |
| Utils.StringToFelt | src/utils.ts:30-39 | stringToFelt throws MatchIsNull iff nothing matches (the empty string or only line terminators); otherwise it returns one felt per match, in order, each the value of `"0x" + ascii2hex(match)` |
| Utils.ChunkFelt | src/utils.ts:32-37 | the felt of any chunk of at most 31 characters with codes below 256 (one-digit codes included) is below 2^248 |
| Utils.SixtyTwoCharacters | src/utils.ts:30-39 | a 62-character string without line terminators splits into its two 31-character halves and yields exactly two felts |
| Utils.HexValueOfText | src/utils.ts:33-36 | for codes in 16..255 the value of ascii2hex(chunk) is the big-endian integer of the character codes |
| Utils.ChunkFeltValue | src/utils.ts:32-37 | for a chunk with codes in 16..255 the felt is the big-endian integer of its codes, and below 2^248 when the chunk has at most 31 characters |
| Utils.DecodeFelt | src/utils.ts:4-6 | `hex2ascii(toHex(f))` succeeds iff toHex(f) has an even number of digits, else throws NotAnHexString |
| Utils.HexArrayToString | src/utils.ts:3-9 | hexArrayToString can fail only with NotAnHexString |
| Utils.HexArrayToStringSucceeds | src/utils.ts:3-9 | hexArrayToString succeeds iff every element's toHex has an even number of digits |
| Utils.HexArrayToStringAppend | src/utils.ts:3-9 | decoding a concatenated list is decoding each part, joined in input order |
| Utils.ChunkDecodes | src/utils.ts:3-9 | the felt of a nonempty chunk with codes in 16..255 decodes back to the chunk |
| Utils.DecodeChunkFelts | src/utils.ts:3-9 | decoding the felts of a list of such chunks gives the chunks joined in order |
| Utils.FeltRoundTrip | src/utils.ts:3-39 | `hexArrayToString(stringToFelt(s)) == s` for every nonempty s whose codes are all in 16..255 |
| Uint256Codec.BnToUint256 | src/erc721.service.ts:214 | bnToUint256(v) succeeds iff 0 <= v < 2^256, giving 128-bit halves with low + high·2^128 == v; otherwise it throws |
| Uint256Codec.SplitRoundTrip | src/erc721.service.ts:155-160 | splitting low + high·2^128 gives back the same 128-bit halves |
| Uint256Codec.SplitsToUnique | src/erc721.service.ts:155-160 | a token id has only one pair of 128-bit halves |
| Erc721.Network.Execute | src/erc721.service.ts:225 | execute appends the signed batch to the log and returns a hash no earlier batch has |
| Erc721.Network.WaitForTransaction | src/erc721.service.ts:229 | waiting is allowed only on a hash that execute issued, and it leaves the log unchanged |
| Erc721.MintCalls | src/erc721.service.ts:211-221 | the mint loop builds max(amount,0) calls; call i goes to erc721Address, entrypoint 'mint', calldata [mintTo, low, high] of tokenId+i; it throws iff some id is outside 0..2^256-1 |
| Erc721.SetTokenUriCalls | src/erc721.service.ts:318-333 | the setTokenURI loop builds max(amount,0) calls; call i has entrypoint 'setTokenURI' and calldata [low, high, n, uri_1..uri_n] for tokenId+i, so its length is 3+n; all calls share the same calldata after the first two elements |
| Erc721.BurnCalls | src/erc721.service.ts:260-268 | burnToken's list is one call to erc721Address, entrypoint 'burn', calldata [low, high] of tokenId; it fails iff tokenId is outside 0..2^256-1 |
| Erc721.TransferCalls | src/erc721.service.ts:400-413 | transferByNftOwner's list is one call, entrypoint 'transferFrom', calldata [owner, to, low, high]; it fails iff tokenId is outside 0..2^256-1 |
| Erc721.Erc721Service.MintWithOwner | src/erc721.service.ts:192-234 | on success exactly one batch, the mint batch, is executed from accountContract and its hash is returned; on failure it throws OutOfUint256Range and nothing is sent |
| Erc721.Erc721Service.SetTokenUri | src/erc721.service.ts:293-348 | cidV0 is chunked once; a cidV0 with no match throws MatchIsNull, and otherwise an out-of-range id throws OutOfUint256Range, before anything is sent; on success one setTokenURI batch with those felts is executed from accountContract and its hash is returned |
| Erc721.Erc721Service.BurnToken | src/erc721.service.ts:244-281 | on success one batch holding the single burn call is executed from the NFT owner's account and its hash is returned; it throws OutOfUint256Range iff tokenId is outside 0..2^256-1, and then nothing is sent |
| Erc721.Erc721Service.TransferByNftOwner | src/erc721.service.ts:382-426 | on success one batch holding the single transferFrom call is executed, signed by the same account that the call names as "from", and its hash is returned; it throws OutOfUint256Range iff tokenId is outside 0..2^256-1, and then nothing is sent |
| Erc721.Erc721Service.MintAndSetTokenUri | src/erc721.service.ts:139-180 | two transactions from accountContract, the mint first and then setTokenURI with the two fixed URI felts and their length prefix, both with the same low/high halves of tokenId; the mint's hash is returned; an out-of-range tokenId throws OutOfUint256Range and nothing is sent |
| Erc721.Erc721Service.OwnerMultiCall | src/erc721.service.ts:428-454 | the caller's calls are executed unchanged as one batch and its hash is returned |

## Left out

- Network I/O. `Account.execute` is a log append in `Network`, and the transaction hash is the batch's position in the log. `waitForTransaction` does nothing and only requires a hash that execute issued. Rejection, timeouts and the returned receipt are not modelled.
- Requests are served one at a time. In the source, concurrent requests can interleave their batches at every `await` (on `execute`, on `waitForTransaction`, and between the two transactions of `mintAndSetTokenURI`); the model's log shows each operation's batches with nothing between them.
- Key handling and signing (`ec.getKeyPair`, `ec.genKeyPair`, `ec.getStarkKey`). A batch records the signing account's address only.
- `deployContract`, `createOZAccount`, `getNameContract` and `getTokenURI`. They are network reads or deployments. `getTokenURI`'s decoding step is `hexArrayToString`, which is modelled.
- Reading the compiled contract artifacts, choosing the provider from environment variables, `encodeShortString`, and all `console.log` output.
- `src/app.controller.ts` and `src/app.module.ts`: HTTP routing and dependency-injection wiring.
- Addresses and felts are numbers. The hex, decimal and raw-string forms of the same number that the calldata mixes are not told apart, and `toFelt(mintTo)` is the address itself.
- `tokenId + index` is JavaScript number arithmetic. It is modelled on mathematical integers: string concatenation of request-body strings is not modelled, and neither is the failure of the source for a token id of 2^53 or more: bn.js refuses such a JavaScript number inside `bnToUint256`, while the model splits every id up to 2^256-1.
- `hexArrayToString` calls `this.hex2ascii`, and `this` is undefined in a strict-mode module. The model calls `hex2ascii` directly.
- Character codes are Dafny characters. JavaScript's UTF-16 code units and surrogate pairs are not modelled.
- Erc721.Erc721Service.MintAndSetTokenUri: it assumes the `Contract` wrapper encodes its array argument as a length followed by the elements, the same layout setTokenURI builds by hand. The wrapper's ABI encoding is not part of this model.
- Utils.HexArrayToString: its own contract states only the error kind. When it succeeds and what it returns are stated by HexArrayToStringSucceeds, HexArrayToStringAppend and FeltRoundTrip.
