# BlockchainService decision logic, in Dafny

This project models the decision logic of the backend `BlockchainService` of a small
dApp. The service reads one stored value and the history of its `ValueUpdated` events
from a smart contract over JSON-RPC. The RPC calls themselves are done by a blockchain
client library. What the service decides for itself is modelled here:

- **Error classification** (`handleRpcError`). The service lower-cases the message of
  the caught error (an absent or empty message becomes `""`), then tests it in a fixed
  order. A message containing `timeout` gives a 503 `ServiceUnavailableException` with
  the timeout text. A message containing `network`, `fetch` or `failed` gives a 503 with
  the "cannot connect" text. Anything else gives a 500 `InternalServerErrorException`.
- **Event projection.** Each decoded log `{blockNumber?, args.newValue, transactionHash}`
  becomes `{blockNumber?: string, value: string, txHash}`. Numbers are rendered as
  decimal text.
- **Block bounds of the log query.** `fromBlock` is always `BigInt(fromblock)`.
  `toBlock` is either the `latest` tag or `BigInt(toblock)`. The distance between the
  two is not checked.
- **The two operations** `getLatestValue` and `getValueUpdatedEvents`. On success they
  return the shaped value. On failure they throw what the classifier chose.

Modules:

- `Wrappers` holds `Option` and `Result`.
- `JsString` holds `toLowerCase` (ASCII letters only) and `includes`. `includes` is
  proved equal to the reference meaning "occurs at some position".
- `BigIntText` holds `BigInt.prototype.toString()` over naturals, and `BigInt(string)`.
  The two are proved mutually inverse on canonical decimal text.
- `BlockchainService` holds the service logic.

The RPC calls are inputs. `readContract`'s outcome is a `Result<nat, Option<string>>`:
the stored value, or the message (if any) of the thrown error. `getLogs` is a function
from the two bounds to such an outcome over a sequence of logs.

`BigInt` can throw inside the `try` block: a `toblock` string that is not decimal makes
it throw a SyntaxError. That error also goes through the classifier, so the model treats
it the same way. With the text V8 uses for that error, `toblock = "failed"` is answered
with the "cannot connect to the RPC" 503. This shows how fragile the substring heuristic
is (`MalformedToBlockMentioningFailure`).

Two facts about the code are easy to miss:

- The 503 class also covers messages containing `fetch` or `failed`, not only timeouts
  and network errors (blockchain.service.ts:83-91).
- No block-range bound is applied to the events query. The `< 2048` rule is only a
  comment (blockchain.service.ts:41-42, blockchain.controller.ts:18).

## Model

| member | source | states |
|---|---|---|
| `BlockchainService.NormalizedMessage` | apps/backend/src/blockchain/blockchain.service.ts:73 | the normalized message is lower case; it is "" for an absent or empty message, otherwise each character is lowered in place and the length is kept |
| `BlockchainService.HandleRpcError` | apps/backend/src/blockchain/blockchain.service.ts:72-96 | the timeout exception exactly when the lower-cased message contains "timeout"; the unreachable exception exactly when it lacks "timeout" but contains "network", "fetch" or "failed"; the internal error exactly when it contains none of the four |
| `BlockchainService.HandleRpcErrorTotal` | apps/backend/src/blockchain/blockchain.service.ts:72-96 | every error, message or none, ends in exactly one of the three exceptions, each carrying its fixed text |
| `BlockchainService.HandleRpcErrorStatus` | apps/backend/src/blockchain/blockchain.service.ts:77-95 | the status is 503 exactly when the message mentions one of the four keywords, and 500 otherwise |
| `BlockchainService.HandleRpcErrorCaseInsensitive` | apps/backend/src/blockchain/blockchain.service.ts:73 | a message and its lower-cased form are classified alike |
| `BlockchainService.HandleRpcErrorNoMessage` | apps/backend/src/blockchain/blockchain.service.ts:73-95 | an absent or empty message is always the internal error |
| `BlockchainService.TimeoutTakesPrecedence` | apps/backend/src/blockchain/blockchain.service.ts:77-81 | a raw message containing "timeout" in any mix of cases is a timeout, even if it also contains a connection keyword |
| `BlockchainService.ConnectionFailureIsUnreachable` | apps/backend/src/blockchain/blockchain.service.ts:83-91 | a raw message containing "network", "fetch" or "failed" in any case, and no "timeout", is the unreachable exception |
| `JsString.ToLowerCase` | apps/backend/src/blockchain/blockchain.service.ts:73 | same length, each character lower-cased on its own (ASCII letters) |
| `JsString.LowerCaseIdempotent` | apps/backend/src/blockchain/blockchain.service.ts:73 | lower-casing leaves no upper-case letter and is idempotent |
| `JsString.IncludesIff` | apps/backend/src/blockchain/blockchain.service.ts:77-86 | the `includes` search succeeds exactly when the needle occurs at some position of the message |
| `JsString.IncludesLowerCase` | apps/backend/src/blockchain/blockchain.service.ts:73-86 | a text that contains a word contains the word in lower case after lower-casing |
| `BigIntText.ToDecimalString` | apps/backend/src/blockchain/blockchain.service.ts:31 | the text of a bigint is non-empty digits with no leading zero except for 0, and is "0" exactly for 0 |
| `BigIntText.ParseToDecimalString` | apps/backend/src/blockchain/blockchain.service.ts:31 | reading back the decimal text of n gives n |
| `BigIntText.ToDecimalStringParse` | apps/backend/src/blockchain/blockchain.service.ts:31 | every canonical decimal text is the text of its own value |
| `BigIntText.ToDecimalStringInjective` | apps/backend/src/blockchain/blockchain.service.ts:31 | distinct numbers get distinct texts |
| `BigIntText.BigIntFromString` | apps/backend/src/blockchain/blockchain.service.ts:58 | `BigInt` of a string succeeds exactly when the string consists of decimal digits, with their decimal value; otherwise it fails with the text "Cannot convert <s> to a BigInt" |
| `BigIntText.BigIntFromDecimalString` | apps/backend/src/blockchain/blockchain.service.ts:58 | `BigInt(n.toString())` is n |
| `BigIntText.BigIntFromCanonical` | apps/backend/src/blockchain/blockchain.service.ts:58 | a canonical decimal text converts to the number whose text it is |
| `BlockchainService.ProjectEvent` | apps/backend/src/blockchain/blockchain.service.ts:61-65 | one log's response element: the hash is copied; the value is canonical decimal text reading back as `newValue`; the block number is absent exactly when the log's is, otherwise decimal text reading back as it |
| `BlockchainService.ProjectEvents` | apps/backend/src/blockchain/blockchain.service.ts:61-65 | same length and order; element i has log i's hash, a decimal value that reads back as log i's value, and a block number that is absent exactly when log i's is, otherwise decimal text reading back as it |
| `BlockchainService.ProjectEventsRecoverable` | apps/backend/src/blockchain/blockchain.service.ts:61-65 | each log can be read back from its projected element |
| `BlockchainService.ProjectEventsInjective` | apps/backend/src/blockchain/blockchain.service.ts:61-65 | two log lists with the same response are equal: the projection loses nothing |
| `BlockchainService.ProjectEventsAppend` | apps/backend/src/blockchain/blockchain.service.ts:61-65 | projecting a concatenation is concatenating the projections |
| `BlockchainService.FromBlockBound` | apps/backend/src/blockchain/blockchain.service.ts:57 | `fromBlock` is always the numeric bound `fromblock`, with no range check |
| `BlockchainService.ToBlockBound` | apps/backend/src/blockchain/blockchain.service.ts:58 | the `latest` tag exactly for the string 'latest'; any number n gives block n, unchecked; another all-digit string gives the block of its decimal value; any other string fails with the SyntaxError text "Cannot convert <s> to a BigInt" |
| `BlockchainService.ToBlockDecimalText` | apps/backend/src/blockchain/blockchain.service.ts:58 | the decimal text of n as `toblock` selects block n |
| `BlockchainService.GetLatestValue` | apps/backend/src/blockchain/blockchain.service.ts:22-36 | a successful read gives `{value}` whose decimal text reads back as the stored value; a failed read gives the classifier's exception for its message |
| `BlockchainService.LatestValueTimeout` | apps/backend/src/blockchain/blockchain.service.ts:33-35 | a read rejected with a message mentioning "timeout" is answered with the 503 timeout exception |
| `BlockchainService.GetValueUpdatedEvents` | apps/backend/src/blockchain/blockchain.service.ts:39-69 | a malformed `toblock` fails through the classifier before any query; otherwise the query runs on (Num(fromblock), toBlock) with no range check; its logs are projected, and its failure is classified |
| `BlockchainService.ToBlockFailedText` | apps/backend/src/blockchain/blockchain.service.ts:58 | `BigInt("failed")` throws "Cannot convert failed to a BigInt" |
| `BlockchainService.FailedTextClassification` | apps/backend/src/blockchain/blockchain.service.ts:73-91 | that message, lower-cased, mentions "failed" and not "timeout" |
| `BlockchainService.MalformedToBlockMentioningFailure` | apps/backend/src/blockchain/blockchain.service.ts:39-69 | `toblock = "failed"` is answered with the unreachable 503, whatever the RPC would have returned |

## Left out

- The RPC client (`createPublicClient`, `readContract`, `getLogs`), the contract
  address and the ABI are network I/O into a library. Their results are inputs of the
  model.
- `console.log` of the message is output only.
- The NestJS exception classes become the constructors of `HttpException`. Their
  response body format is not modelled, only the status and the message.
- `JsString.ToLowerCase`: lowers the ASCII letters A-Z only. JavaScript's
  `toLowerCase` also lowers non-ASCII letters, so a message whose keywords are spelled
  with non-ASCII capital letters is not covered.
- The caught value is modelled as `Option<string>`: its message, or none. A thrown
  value whose `message` is present but not a string (where `toLowerCase` would itself
  throw) is not modelled.
- Block arguments that are JavaScript numbers are modelled as integers. Fractional,
  NaN and infinite numbers make `BigInt` throw a RangeError; they are not modelled.
- `BigIntText.BigIntFromString`: accepts only plain decimal digits (and `""`, which is
  0). JavaScript's `BigInt(string)` also trims white space and accepts a sign and
  `0x`/`0o`/`0b` prefixes. The SyntaxError's text is the one V8 produces.
- A decoded log whose `args.newValue` is missing would make the projection throw; logs
  are modelled as always carrying their decoded value. `transactionHash` is modelled as
  a string. For pending logs it is null, and the projection would copy it unchanged
  either way.
- The bigint value read from the contract is a `uint256`. The model renders any
  natural number, so that bound plays no part.
- The `< 2048` block-range rule is only a comment in the service and the controller.
  The code does not enforce it, so it is not behaviour of the model.
- The controller (it forwards the fixed arguments `(0, 2000)`), the server bootstrap and
  the frontend (fetch calls, the environment lookup, React state) are wiring or I/O with
  no decision logic of their own.
- The asynchronous execution of the two operations is not modelled.
