/**
 * The decision logic of the backend `BlockchainService`: how a failed RPC call is
 * classified into an HTTP exception, how decoded `ValueUpdated` logs are shaped
 * for the REST response, how the two block bounds of the log query are formed,
 * and how the stored value is returned. The two RPC calls themselves
 * (`readContract`, `getLogs`) are inputs: their outcome, or a function from the
 * query bounds to their outcome.
 */
module BlockchainService {

  import opened Wrappers
  import opened JsString
  import opened BigIntText

  // ---------------------------------------------------------------------------
  // Error classification (`handleRpcError`)
  // ---------------------------------------------------------------------------

  /** The two NestJS exceptions the service throws, each with its response text. */
  datatype HttpException =
    | ServiceUnavailableException(message: string)
    | InternalServerErrorException(message: string)
  {
    /** The HTTP status NestJS answers with for this exception. */
    function StatusCode(): nat {
      match this
      case ServiceUnavailableException(_) => 503
      case InternalServerErrorException(_) => 500
    }
  }

  const TIMEOUT_MESSAGE: string := "RPC timeout. Silakan coba beberapa saat lagi."
  const UNREACHABLE_MESSAGE: string := "Tidak dapat terhubung ke blockchain RPC."
  const INTERNAL_MESSAGE: string := "Terjadi kesalahan saat membaca data blockchain."

  const RpcTimeout: HttpException := ServiceUnavailableException(TIMEOUT_MESSAGE)
  const RpcUnreachable: HttpException := ServiceUnavailableException(UNREACHABLE_MESSAGE)
  const RpcInternal: HttpException := InternalServerErrorException(INTERNAL_MESSAGE)

  /**
   * `error?.message?.toLowerCase() || ""`: the lower-cased message of the caught error,
   * or the empty string when the error or its message is absent (an empty message is
   * falsy and is replaced by "" as well, which is the same string).
   */
  function NormalizedMessage(error: Option<string>): (m: string)
    ensures IsLowerCase(m)
    ensures error == None || error == Some("") ==> m == ""
    ensures error.Some? ==>
      (|m| == |error.value| && forall i :: 0 <= i < |m| ==> m[i] == LowerChar(error.value[i]))
  {
    LowerCaseIdempotent(if error.Some? then error.value else "");
    match error
    case None => ""
    case Some(m) => ToLowerCase(m)
  }

  predicate MentionsTimeout(message: string) {
    Includes(message, "timeout")
  }

  predicate MentionsConnection(message: string) {
    Includes(message, "network") || Includes(message, "fetch") || Includes(message, "failed")
  }

  /**
   * `handleRpcError(error)`: the exception it throws (it never returns normally).
   * The timeout test is made first, then the connection tests; anything else is an
   * internal error.
   */
  function HandleRpcError(error: Option<string>): (e: HttpException)
    ensures e == RpcTimeout <==> MentionsTimeout(NormalizedMessage(error))
    ensures e == RpcUnreachable <==>
      !MentionsTimeout(NormalizedMessage(error)) && MentionsConnection(NormalizedMessage(error))
    ensures e == RpcInternal <==>
      !MentionsTimeout(NormalizedMessage(error)) && !MentionsConnection(NormalizedMessage(error))
  {
    var message := NormalizedMessage(error);
    if MentionsTimeout(message) then
      RpcTimeout
    else if MentionsConnection(message) then
      RpcUnreachable
    else
      RpcInternal
  }

  /** Every error ends in exactly one of the three exceptions, each with its fixed text. */
  lemma HandleRpcErrorTotal(error: Option<string>)
    ensures var e := HandleRpcError(error);
      (e == RpcTimeout && e != RpcUnreachable && e != RpcInternal) ||
      (e != RpcTimeout && e == RpcUnreachable && e != RpcInternal) ||
      (e != RpcTimeout && e != RpcUnreachable && e == RpcInternal)
  {
  }

  /** The answer is 503 exactly when the message mentions one of the four keywords, else 500. */
  lemma HandleRpcErrorStatus(error: Option<string>)
    ensures var m := NormalizedMessage(error);
      HandleRpcError(error).StatusCode() == (if MentionsTimeout(m) || MentionsConnection(m) then 503 else 500)
  {
  }

  /** A message and its lower-cased form are classified alike. */
  lemma {:induction false} HandleRpcErrorCaseInsensitive(message: string)
    ensures HandleRpcError(Some(message)) == HandleRpcError(Some(ToLowerCase(message)))
  {
    LowerCaseIdempotent(message);
  }

  /** An error without a message, or with an empty one, is always an internal error. */
  lemma HandleRpcErrorNoMessage(error: Option<string>)
    requires error == None || error == Some("")
    ensures HandleRpcError(error) == RpcInternal
  {
  }

  /**
   * A raw message containing "timeout" in any mix of cases is a timeout, whatever
   * else it contains ("network", "fetch" or "failed" included).
   */
  lemma {:induction false} TimeoutTakesPrecedence(message: string, word: string)
    requires Includes(message, word) && ToLowerCase(word) == "timeout"
    ensures HandleRpcError(Some(message)) == RpcTimeout
  {
    IncludesLowerCase(message, word);
  }

  /**
   * A raw message containing "network", "fetch" or "failed" in any mix of cases, and
   * no "timeout" in any mix of cases, means the RPC node could not be reached.
   */
  lemma {:induction false} ConnectionFailureIsUnreachable(message: string, word: string)
    requires Includes(message, word)
    requires ToLowerCase(word) in {"network", "fetch", "failed"}
    requires !MentionsTimeout(ToLowerCase(message))
    ensures HandleRpcError(Some(message)) == RpcUnreachable
  {
    IncludesLowerCase(message, word);
  }

  // ---------------------------------------------------------------------------
  // Event projection (`events.map` in `getValueUpdatedEvents`)
  // ---------------------------------------------------------------------------

  /** A decoded `ValueUpdated` log as the RPC client returns it; pending logs have no block number. */
  datatype EventLog = EventLog(blockNumber: Option<nat>, newValue: nat, transactionHash: string)

  /** One element of the `GET /blockchain/events` response; an absent block number is left out. */
  datatype ValueUpdatedEvent = ValueUpdatedEvent(blockNumber: Option<string>, value: string, txHash: string)

  /** The arrow function given to `events.map`: the response element of one log. */
  function ProjectEvent(log: EventLog): (event: ValueUpdatedEvent)
    ensures event.txHash == log.transactionHash
    ensures IsCanonicalDecimal(event.value) && ParseDecimal(event.value) == log.newValue
    ensures event.blockNumber.None? <==> log.blockNumber.None?
    ensures log.blockNumber.Some? ==>
      IsCanonicalDecimal(event.blockNumber.value) &&
      ParseDecimal(event.blockNumber.value) == log.blockNumber.value
  {
    ParseToDecimalString(log.newValue);
    if log.blockNumber.None? then
      ValueUpdatedEvent(None, ToDecimalString(log.newValue), log.transactionHash)
    else
      ParseToDecimalString(log.blockNumber.value);
      ValueUpdatedEvent(Some(ToDecimalString(log.blockNumber.value)), ToDecimalString(log.newValue), log.transactionHash)
  }

  /** `events.map(...)`: one response element per log, in the same order. */
  function ProjectEvents(logs: seq<EventLog>): (events: seq<ValueUpdatedEvent>)
    ensures |events| == |logs|
    ensures forall i :: 0 <= i < |logs| ==>
      events[i].txHash == logs[i].transactionHash &&
      IsCanonicalDecimal(events[i].value) && ParseDecimal(events[i].value) == logs[i].newValue &&
      (events[i].blockNumber.None? <==> logs[i].blockNumber.None?)
    ensures forall i :: 0 <= i < |logs| && logs[i].blockNumber.Some? ==>
      events[i].blockNumber.Some? && IsCanonicalDecimal(events[i].blockNumber.value) &&
      ParseDecimal(events[i].blockNumber.value) == logs[i].blockNumber.value
  {
    seq(|logs|, i requires 0 <= i < |logs| => ProjectEvent(logs[i]))
  }

  /** Reads a projected event back into the log it came from, if its texts are decimal. */
  function RecoverEvent(event: ValueUpdatedEvent): Option<EventLog> {
    if !AllDigits(event.value) then None
    else match event.blockNumber
      case None => Some(EventLog(None, ParseDecimal(event.value), event.txHash))
      case Some(b) =>
        if AllDigits(b) then Some(EventLog(Some(ParseDecimal(b)), ParseDecimal(event.value), event.txHash))
        else None
  }

  /** The projection loses nothing: every log can be read back from its response element. */
  lemma ProjectEventsRecoverable(logs: seq<EventLog>, i: nat)
    requires i < |logs|
    ensures RecoverEvent(ProjectEvents(logs)[i]) == Some(logs[i])
  {
  }

  /** Two log lists with the same response are the same list. */
  lemma ProjectEventsInjective(a: seq<EventLog>, b: seq<EventLog>)
    requires ProjectEvents(a) == ProjectEvents(b)
    ensures a == b
  {
  }

  /** Projecting two consecutive batches of logs is projecting them together. */
  lemma ProjectEventsAppend(a: seq<EventLog>, b: seq<EventLog>)
    ensures ProjectEvents(a + b) == ProjectEvents(a) + ProjectEvents(b)
  {
  }

  // ---------------------------------------------------------------------------
  // Block bounds of the log query
  // ---------------------------------------------------------------------------

  /** A block bound of `getLogs`: the `latest` tag or a block number (a bigint). */
  datatype BlockTag = Latest | Num(height: int)

  /** The `toblock: number | string` argument. */
  datatype ToBlockArg = Number(n: int) | Text(s: string)

  /** `BigInt(fromblock)`: always a numeric bound, never range-checked. */
  function FromBlockBound(fromblock: int): (b: BlockTag)
    ensures b.Num? && b.height == fromblock
  {
    Num(fromblock)
  }

  /**
   * `toblock === 'latest' ? 'latest' : BigInt(toblock)`: the `latest` tag, a block number,
   * or the message of the SyntaxError `BigInt` throws for a string that is not decimal.
   */
  function ToBlockBound(toblock: ToBlockArg): (r: Result<BlockTag, string>)
    ensures r == Success(Latest) <==> toblock == Text("latest")
    ensures toblock.Number? ==> r == Success(Num(toblock.n))
    ensures toblock.Text? && toblock.s != "latest" ==>
      (r.Success? <==> AllDigits(toblock.s)) && (r.Success? ==> r.value.Num? && r.value.height >= 0)
    ensures toblock.Text? && toblock.s != "latest" && AllDigits(toblock.s) ==>
      r == Success(Num(ParseDecimal(toblock.s)))
    ensures toblock.Text? && toblock.s != "latest" && !AllDigits(toblock.s) ==>
      r == Failure("Cannot convert " + toblock.s + " to a BigInt")
  {
    match toblock
    case Number(n) => Success(Num(n))
    case Text(s) =>
      if s == "latest" then Success(Latest)
      else match BigIntFromString(s)
        case Success(n) => Success(Num(n))
        case Failure(msg) => Failure(msg)
  }

  /** The decimal text of a block number, passed as `toblock`, selects that block. */
  lemma ToBlockDecimalText(n: nat)
    ensures ToBlockBound(Text(ToDecimalString(n))) == Success(Num(n))
  {
    var s := ToDecimalString(n);
    assert s != "latest" by { assert IsDigit(s[0]) && !IsDigit("latest"[0]); }
    BigIntFromDecimalString(n);
  }

  // ---------------------------------------------------------------------------
  // The two service operations
  // ---------------------------------------------------------------------------

  /** The response of `GET /blockchain/value`. */
  datatype ValueResponse = ValueResponse(value: string)

  /**
   * `getLatestValue()`, given the outcome of `readContract` (the stored value, or the
   * message of the error it threw, if any): the value as decimal text, or the
   * classified exception.
   */
  function GetLatestValue(readContract: Result<nat, Option<string>>): (r: Result<ValueResponse, HttpException>)
    ensures readContract.Success? ==>
      r.Success? && IsCanonicalDecimal(r.value.value) && ParseDecimal(r.value.value) == readContract.value
    ensures readContract.Failure? ==> r == Failure(HandleRpcError(readContract.error))
  {
    match readContract
    case Success(v) =>
      ParseToDecimalString(v);
      Success(ValueResponse(ToDecimalString(v)))
    case Failure(error) => Failure(HandleRpcError(error))
  }

  /** A read that fails with a timeout message is answered with 503. */
  lemma LatestValueTimeout(message: string)
    requires MentionsTimeout(ToLowerCase(message))
    ensures GetLatestValue(Failure(Some(message))) == Failure(RpcTimeout)
  {
  }

  /**
   * `getValueUpdatedEvents(fromblock, toblock)`, given `getLogs` as a function from the
   * query bounds to its outcome. The bounds are formed before the query is sent, so a
   * malformed `toblock` fails without a query; every failure goes through the classifier.
   * The distance between the bounds is not checked.
   */
  function GetValueUpdatedEvents(
    fromblock: int,
    toblock: ToBlockArg,
    getLogs: (BlockTag, BlockTag) -> Result<seq<EventLog>, Option<string>>
  ): (r: Result<seq<ValueUpdatedEvent>, HttpException>)
    ensures ToBlockBound(toblock).Failure? ==>
      r == Failure(HandleRpcError(Some(ToBlockBound(toblock).error)))
    ensures ToBlockBound(toblock).Success? ==>
      var logs := getLogs(Num(fromblock), ToBlockBound(toblock).value);
      (r.Success? <==> logs.Success?) &&
      (logs.Success? ==> r.value == ProjectEvents(logs.value)) &&
      (logs.Failure? ==> r == Failure(HandleRpcError(logs.error)))
  {
    match ToBlockBound(toblock)
    case Failure(msg) => Failure(HandleRpcError(Some(msg)))
    case Success(to) =>
      match getLogs(FromBlockBound(fromblock), to)
      case Success(logs) => Success(ProjectEvents(logs))
      case Failure(error) => Failure(HandleRpcError(error))
  }

  /** The message of the SyntaxError that `BigInt("failed")` throws. */
  lemma ToBlockFailedText()
    ensures ToBlockBound(Text("failed")) == Failure("Cannot convert " + "failed" + " to a BigInt")
  {
    assert "failed" != "latest" by { assert "failed"[0] != "latest"[0]; }
    assert !AllDigits("failed") by { assert !IsDigit("failed"[0]); }
  }

  /** A text with no letter 'm' does not mention "timeout". */
  lemma NoTimeoutWithoutM(lower: string)
    requires forall j :: 0 <= j < |lower| ==> lower[j] != 'm'
    ensures !MentionsTimeout(lower)
  {
    assert "timeout"[2] == 'm';
    IncludesNeedsChar(lower, "timeout", 2);
  }

  /** A text containing "failed" in any mix of cases mentions a connection failure once lower-cased. */
  lemma FailedMentionsConnection(s: string, i: nat)
    requires i + 6 <= |s| && ToLowerCase(s[i..i + 6]) == "failed"
    ensures MentionsConnection(ToLowerCase(s))
  {
    assert OccursAt(s, s[i..i + 6], i);
    IncludesIff(s, s[i..i + 6]);
    IncludesLowerCase(s, s[i..i + 6]);
  }

  /** That message, lower-cased, mentions "failed" but not "timeout". */
  lemma FailedTextClassification()
    ensures var lower := ToLowerCase("Cannot convert " + "failed" + " to a BigInt");
      !MentionsTimeout(lower) && MentionsConnection(lower)
  {
    var msg := "Cannot convert " + "failed" + " to a BigInt";
    assert msg[15..21] == "failed";
    assert ToLowerCase("failed") == "failed";
    FailedMentionsConnection(msg, 15);
    assert forall j :: 0 <= j < |msg| ==> msg[j] != 'm' && msg[j] != 'M';
    var lower := ToLowerCase(msg);
    assert forall j :: 0 <= j < |lower| ==> lower[j] == LowerChar(msg[j]);
    NoTimeoutWithoutM(lower);
  }

  /**
   * A `toblock` text such as "failed" is not decimal; the SyntaxError it causes mentions
   * "failed" and is reported as an unreachable RPC node.
   */
  lemma MalformedToBlockMentioningFailure(
    fromblock: int,
    getLogs: (BlockTag, BlockTag) -> Result<seq<EventLog>, Option<string>>
  )
    ensures GetValueUpdatedEvents(fromblock, Text("failed"), getLogs) == Failure(RpcUnreachable)
  {
    ToBlockFailedText();
    FailedTextClassification();
  }
}
