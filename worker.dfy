/**
 * The background `Worker`: it holds the values `set_value` gives it and, in
 * `run`, asks the App Store Server API for an order's transactions, emitting
 * one string per signed transaction or one error string. The network call is
 * the `lookup` parameter and JSON parsing and printing the `render` parameter;
 * the emitted strings are returned in order.
 */
module WorkerThread {
  import opened Opt
  import opened Base64
  import opened TokenDecode

  /** The environments the form offers (`appstoreserverlibrary`'s `Environment`). */
  datatype Environment = Production | Sandbox

  /** The string value of an `Environment` member, as written to the settings file. */
  function EnvironmentValue(e: Environment): string {
    match e
    case Production => "Production"
    case Sandbox => "Sandbox"
  }

  /** The worker's fields as `run` passes them to the client and the lookup. */
  datatype Request = Request(
    privateKey: Option<seq<byte>>,
    keyId: Option<string>,
    issuerId: Option<string>,
    bundleId: Option<string>,
    environment: Option<Environment>,
    orderId: Option<string>)

  const Unset := Request(None, None, None, None, None, None)

  /**
   * How the call `client.look_up_order_id` inside the `try` ends. Building the
   * client comes before the `try`, so its failures are not among these: they
   * are the `built` argument of `RunSpec`.
   */
  datatype Lookup =
    | Response(status: int, signedTransactions: seq<string>)
    | ApiError(message: string)   // APIException e, with str(e) == message
    | ConnectionFailure           // requests.exceptions.ConnectionError
    | OtherFailure                // any other exception of the lookup

  /** The strings `run` emits, in order, and the exception that ended it, if any. */
  datatype RunOutcome = RunOutcome(emitted: seq<string>, uncaught: Option<Uncaught>)

  /** An exception that leaves `Worker.run` uncaught. */
  datatype Uncaught =
    | TokenFailure(error: TokenError)  // from the decode block of one transaction
    | ClientFailure                    // any exception of the `AppStoreServerAPIClient(...)` constructor
    | LookupFailure                    // an exception of `look_up_order_id` other than the two handled kinds

  const InvalidOrderMessage := "OrderId is not valid!"
  const ConnectionMessage := "HTTPSConnectionPool"

  function Prepend(messages: seq<string>, rest: RunOutcome): RunOutcome {
    RunOutcome(messages + rest.emitted, rest.uncaught)
  }

  /** The `for` loop over the signed transactions: it stops at the first exception that escapes. */
  function EmitAll(tokens: seq<string>, render: seq<byte> -> Json): (r: RunOutcome)
    ensures |r.emitted| <= |tokens|
    ensures r.uncaught.None? <==> |r.emitted| == |tokens|
    ensures r.uncaught.Some? ==> r.uncaught.value.TokenFailure?
    decreases |tokens|
  {
    if |tokens| == 0 then RunOutcome([], None)
    else
      match TokenMessage(tokens[0], render)
      case Raise(e) => RunOutcome([], Some(TokenFailure(e)))
      case Emit(text) => Prepend([text], EmitAll(tokens[1..], render))
  }

  /**
   * `Worker.run`: `built` says whether the `AppStoreServerAPIClient(...)`
   * constructor returned, and `lookup` how the lookup in the `try` ended.
   */
  function RunSpec(built: bool, lookup: Lookup, render: seq<byte> -> Json): (r: RunOutcome)
    ensures !(built && lookup.Response? && lookup.status == 0) ==>
              |r.emitted| + (if r.uncaught.Some? then 1 else 0) == 1
    ensures built && lookup.Response? && lookup.status == 0 ==>
              |r.emitted| <= |lookup.signedTransactions|
    ensures r.uncaught == Some(ClientFailure) <==> !built
  {
    if !built then RunOutcome([], Some(ClientFailure))
    else match lookup
    case Response(status, tokens) =>
      if status == 0 then EmitAll(tokens, render) else RunOutcome([InvalidOrderMessage], None)
    case ApiError(message) => RunOutcome([message], None)
    case ConnectionFailure => RunOutcome([ConnectionMessage], None)
    case OtherFailure => RunOutcome([], Some(LookupFailure))
  }

  /** The index of the first transaction whose decode block raises, or the number of transactions. */
  function FirstRaise(tokens: seq<string>, render: seq<byte> -> Json): (k: nat)
    ensures k <= |tokens|
    ensures forall i :: 0 <= i < k ==> TokenMessage(tokens[i], render).Emit?
    ensures k < |tokens| ==> TokenMessage(tokens[k], render).Raise?
    decreases |tokens|
  {
    if |tokens| == 0 || TokenMessage(tokens[0], render).Raise? then 0
    else 1 + FirstRaise(tokens[1..], render)
  }

  /**
   * The loop emits one string per transaction, in list order, up to the first
   * transaction whose exception escapes; that exception ends the run.
   */
  lemma {:induction false} EmitAllSpec(tokens: seq<string>, render: seq<byte> -> Json)
    ensures var k := FirstRaise(tokens, render);
            var r := EmitAll(tokens, render);
            && |r.emitted| == k
            && (forall i :: 0 <= i < k ==> r.emitted[i] == TokenMessage(tokens[i], render).text)
            && r.uncaught == if k < |tokens| then Some(TokenFailure(TokenMessage(tokens[k], render).error)) else None
    decreases |tokens|
  {
    if |tokens| > 0 && TokenMessage(tokens[0], render).Emit? {
      EmitAllSpec(tokens[1..], render);
    }
  }

  /**
   * With status 0 and no escaping exception, exactly one string is emitted per
   * signed transaction, in list order: the rendered payload or the raw token.
   */
  lemma ValidOrderOnePerTransaction(tokens: seq<string>, render: seq<byte> -> Json)
    requires forall i :: 0 <= i < |tokens| ==> TokenMessage(tokens[i], render).Emit?
    ensures var r := RunSpec(true, Response(0, tokens), render);
            && r.uncaught == None
            && |r.emitted| == |tokens|
            && forall i :: 0 <= i < |tokens| ==> r.emitted[i] == TokenMessage(tokens[i], render).text
  {
    EmitAllSpec(tokens, render);
  }

  /**
   * A client that cannot be built raises before the `try`: nothing is emitted.
   * Every other ending of the lookup emits exactly one string: the fixed
   * invalid-order text, `str(e)` of an APIException, or the fixed connection
   * text; any other exception of the lookup emits nothing and escapes.
   */
  lemma LookupFailuresEmitOne(built: bool, lookup: Lookup, render: seq<byte> -> Json)
    requires !(built && lookup.Response? && lookup.status == 0)
    ensures RunSpec(built, lookup, render) ==
      if !built then RunOutcome([], Some(ClientFailure))
      else match lookup
        case Response(_, _) => RunOutcome(["OrderId is not valid!"], None)
        case ApiError(message) => RunOutcome([message], None)
        case ConnectionFailure => RunOutcome(["HTTPSConnectionPool"], None)
        case OtherFailure => RunOutcome([], Some(LookupFailure))
  {
  }

  /** The body of the `try` block for one signed transaction. */
  method DecodeToken(token: string, render: seq<byte> -> Json) returns (outcome: TokenOutcome)
    ensures outcome == TokenMessage(token, render)
  {
    var fields := Split(token, '.');
    if |fields| < 2 {
      return Raise(NoPayloadSegment);
    }
    var temp := fields[1];
    temp := Replace(temp, '-', '+');
    temp := Replace(temp, '_', '/');
    temp := PadToQuad(temp);
    var decoded := B64Decode(temp);
    match decoded {
      case NotAscii =>
        outcome := Raise(NonAsciiPayload);
      case BinasciiError(_) =>
        outcome := Emit(token);
      case Bytes(payload) =>
        outcome := RenderOutcome(render(payload));
    }
  }

  /** The `for` loop of `run` over the signed transactions of a valid order. */
  method EmitTransactions(tokens: seq<string>, render: seq<byte> -> Json) returns (r: RunOutcome)
    ensures r == EmitAll(tokens, render)
  {
    var emitted: seq<string> := [];
    var i := 0;
    while i < |tokens|
      invariant 0 <= i <= |tokens|
      invariant EmitAll(tokens, render) == Prepend(emitted, EmitAll(tokens[i..], render))
    {
      assert tokens[i..][1..] == tokens[i + 1..];
      var outcome := DecodeToken(tokens[i], render);
      match outcome {
        case Raise(e) =>
          return RunOutcome(emitted, Some(TokenFailure(e)));
        case Emit(text) =>
          emitted := emitted + [text];
      }
      i := i + 1;
    }
    assert tokens[i..] == [];
    r := RunOutcome(emitted, None);
  }

  /** The worker thread with the values of its last `set_value`. */
  class Worker {
    var privateKey: Option<seq<byte>>
    var keyId: Option<string>
    var issuerId: Option<string>
    var bundleId: Option<string>
    var environment: Option<Environment>
    var orderId: Option<string>

    function CurrentRequest(): Request
      reads this
    {
      Request(privateKey, keyId, issuerId, bundleId, environment, orderId)
    }

    constructor ()
      ensures CurrentRequest() == Unset
    {
      privateKey, keyId, issuerId, bundleId, environment, orderId := None, None, None, None, None, None;
    }

    /** `set_value(**kwargs)`: every field takes its keyword argument, None where it is missing. */
    method SetValue(privateKey: Option<seq<byte>>, keyId: Option<string>, issuerId: Option<string>,
                    bundleId: Option<string>, environment: Option<Environment>, orderId: Option<string>)
      modifies this
      ensures CurrentRequest() == Request(privateKey, keyId, issuerId, bundleId, environment, orderId)
    {
      this.privateKey := privateKey;
      this.keyId := keyId;
      this.issuerId := issuerId;
      this.bundleId := bundleId;
      this.environment := environment;
      this.orderId := orderId;
    }

    /**
     * `run`: build the client from the current fields (`build` says whether the
     * constructor returns), then one lookup, then the decode loop or one error string.
     */
    method Run(build: Request -> bool, lookup: Request -> Lookup, render: seq<byte> -> Json) returns (r: RunOutcome)
      ensures r == RunSpec(build(CurrentRequest()), lookup(CurrentRequest()), render)
    {
      if !build(CurrentRequest()) {
        return RunOutcome([], Some(ClientFailure));
      }
      var response := lookup(CurrentRequest());
      match response {
        case Response(status, tokens) =>
          if status == 0 {
            r := EmitTransactions(tokens, render);
          } else {
            r := RunOutcome([InvalidOrderMessage], None);
          }
        case ApiError(message) =>
          r := RunOutcome([message], None);
        case ConnectionFailure =>
          r := RunOutcome([ConnectionMessage], None);
        case OtherFailure =>
          r := RunOutcome([], Some(LookupFailure));
      }
    }
  }
}
