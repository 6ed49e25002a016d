/**
 Futures on top of the shared cell: which of the two user handlers a delivery calls, and
 what the standard promise behind get_future receives.
 */
module TypedFuture {
  import opened Wire
  import opened Future
  import opened Protocol
  import opened Conforming

  datatype HandlerCall<T> = OnSuccess(value: T) | OnFailure(error: ErrorInfo)

  /** Which exception of the library, if any, a handler throws when called. */
  type Throws<!T> = HandlerCall<T> -> Option<ErrorInfo>

  /** A handler called in the try block: what it throws is passed to the failure handler. */
  function Guarded<T>(call: HandlerCall<T>, throws: Throws<T>): seq<HandlerCall<T>> {
    match throws(call)
    case None => [call]
    case Some(error) => [call, OnFailure(error)]
  }

  /** The calls that typed_response_future::then makes for one delivery. For a void result the
      conversion accepts every object. */
  function TypedCalls<T>(error: ErrorInfo, msg: Message, convert: Obj -> Option<T>, throws: Throws<T>)
    : seq<HandlerCall<T>>
  {
    if error.Failure? then [OnFailure(error)]
    else match HasError(msg)
      case None => [OnFailure(Failure(INVALID_MESSAGE, Some(msg.tree)))]
      case Some(failed) =>
        if failed then Guarded(OnFailure(Failure(UNEXPECTED_ERROR, msg.error)), throws)
        else match convert(msg.result.value)
          case None => [OnFailure(Failure(INVALID_MESSAGE, Some(msg.tree)))]
          case Some(value) => Guarded(OnSuccess(value), throws)
  }

  /** What a reply with these fields must lead to. */
  function Expected<T>(reply: Obj, error: Obj, result: Obj, convert: Obj -> Option<T>): HandlerCall<T> {
    if error != Nil then OnFailure(Failure(UNEXPECTED_ERROR, Some(error)))
    else match convert(result)
      case Some(value) => OnSuccess(value)
      case None => OnFailure(Failure(INVALID_MESSAGE, Some(reply)))
  }

  /** Whatever the handlers throw, the first call reports an error as it was delivered, a message that
      is no response as invalid, and a response by its fields. */
  lemma FirstCall<T>(error: ErrorInfo, msg: Message, convert: Obj -> Option<T>, throws: Throws<T>)
    ensures TypedCalls(error, msg, convert, throws) != []
    ensures var first := TypedCalls(error, msg, convert, throws)[0];
      && (error.Failure? ==> first == OnFailure(error))
      && (error == NoError && msg.mtype != RESPONSE ==> first == OnFailure(Failure(INVALID_MESSAGE, Some(msg.tree))))
      && (error == NoError && msg.mtype == RESPONSE ==>
            first == Expected(msg.tree, msg.error.value, msg.result.value, convert))
  {
  }

  /** The calls of the untyped then with two handlers. */
  function UntypedCalls(error: ErrorInfo, msg: Message): seq<HandlerCall<Message>> {
    if error.Failure? then [OnFailure(error)] else [OnSuccess(msg)]
  }

  /** A response with nil error whose result converts. */
  ghost predicate IsSuccess<T>(error: ErrorInfo, msg: Message, convert: Obj -> Option<T>) {
    && error == NoError && msg.mtype == RESPONSE
    && msg.error == Some(Nil) && convert(msg.result.value).Some?
  }

  /** Success is reported exactly for a real response with nil error and a convertible result,
      whatever the handlers throw. */
  lemma SuccessIffRealResponse<T>(error: ErrorInfo, msg: Message, convert: Obj -> Option<T>, throws: Throws<T>,
                                  value: T)
    ensures OnSuccess(value) in TypedCalls(error, msg, convert, throws)
      <==> IsSuccess(error, msg, convert) && convert(msg.result.value).value == value
  {
    var calls := TypedCalls(error, msg, convert, throws);
    assert forall k :: 1 <= k < |calls| ==> calls[k].OnFailure?;
    if IsSuccess(error, msg, convert) {
      assert calls[0] == OnSuccess(convert(msg.result.value).value);
    }
  }

  /** Exactly one handler is called, unless the one called in the try block throws; then the
      failure handler is called as well. */
  lemma ExactlyOneCallUnlessItThrows<T>(error: ErrorInfo, msg: Message, convert: Obj -> Option<T>, throws: Throws<T>)
    ensures var calls := TypedCalls(error, msg, convert, throws);
      && 1 <= |calls| <= 2
      && (|calls| == 2 <==>
            error == NoError && msg.mtype == RESPONSE
            && (msg.error != Some(Nil) || convert(msg.result.value).Some?)
            && throws(calls[0]).Some?)
      && (|calls| == 2 ==> calls[1] == OnFailure(throws(calls[0]).value))
  {
  }

  // ---- get_future: the handlers set a standard promise and throw nothing of the library.

  function Quiet<T>(call: HandlerCall<T>): Option<ErrorInfo> { None }

  /** All calls made for a log of deliveries. */
  function AllCalls<T>(posted: seq<Delivery>, convert: Obj -> Option<T>): seq<HandlerCall<T>> {
    if posted == [] then []
    else TypedCalls(posted[0].error, posted[0].msg, convert, Quiet<T>) + AllCalls(posted[1..], convert)
  }

  /** All calls of the untyped then made for a log of deliveries. */
  function AllUntypedCalls(posted: seq<Delivery>): seq<HandlerCall<Message>> {
    if posted == [] then [] else UntypedCalls(posted[0].error, posted[0].msg) + AllUntypedCalls(posted[1..])
  }

  lemma OneUntypedDelivery(d: Delivery)
    ensures AllUntypedCalls([d]) == UntypedCalls(d.error, d.msg)
  {
    assert [d][1..] == [];
  }

  lemma OneDelivery<T>(d: Delivery, convert: Obj -> Option<T>)
    ensures AllCalls([d], convert) == TypedCalls(d.error, d.msg, convert, Quiet<T>)
  {
    assert [d][1..] == [];
  }

  /** For all calls on the cell: the untyped success handler receives exactly the first response, or
      the default message if the first result is an empty error. */
  lemma UntypedSuccessIff(calls: seq<Call>, j: nat, m: Message)
    requires FirstHandler(calls, j) && calls[j].handler.Some?
    ensures OnSuccess(m) in AllUntypedCalls(PostedBy(calls)) <==>
      && Results(calls) != []
      && (Results(calls)[0] == SetResponse(m) || (Results(calls)[0] == SetError(NoError) && m == DEFAULT_MESSAGE))
  {
    DeliversFirstResult(calls, j);
    FirstResultIsResult(calls);
    if Results(calls) != [] {
      OneUntypedDelivery(PostedBy(calls)[0]);
    }
  }

  /** The untyped failure handler receives exactly the first result, if that is an error. */
  lemma UntypedFailureIff(calls: seq<Call>, j: nat, e: ErrorInfo)
    requires FirstHandler(calls, j) && calls[j].handler.Some?
    ensures OnFailure(e) in AllUntypedCalls(PostedBy(calls)) <==>
      Results(calls) != [] && e.Failure? && Results(calls)[0] == SetError(e)
    ensures |AllUntypedCalls(PostedBy(calls))| == if Results(calls) == [] then 0 else 1
  {
    DeliversFirstResult(calls, j);
    FirstResultIsResult(calls);
    if Results(calls) != [] {
      OneUntypedDelivery(PostedBy(calls)[0]);
    }
  }

  lemma {:induction false} FirstResultIsResult(calls: seq<Call>)
    ensures Results(calls) != [] ==> Results(calls)[0].IsResult()
  {
    if calls != [] {
      FirstResultIsResult(calls[..|calls| - 1]);
    }
  }

  /** A catch sweep settled request r before moment i. */
  ghost predicate SettledByCatch(run: seq<State>, steps: seq<Step>, i: nat, r: nat) {
    exists k: nat :: k < i && SettledAt(run, steps, r, k) && steps[k].Catch?
  }

  lemma FirstResponseIsReal(run: seq<State>, steps: seq<Step>, i: nat, r: nat)
    requires IsRun(run, steps) && i < |run| && r < |run[i].table.promises|
    ensures var results := Results(run[i].table.promises[r]);
      results != [] && results[0].SetResponse? ==> results[0].msg.mtype == RESPONSE
  {
    var p := run[i].table.promises[r];
    RunsKeepInv(run, steps, i);
    assert PromiseOk(run[i].pcs[r], p);
    ResultsFacts(p);
    FirstExists(p);
    if Results(p) != [] {
      var k: nat :| FirstResult(p, k);
    }
  }

  /** In every run of the client and for every request with a handler: the empty error arrives with
      the default message exactly when a catch sweep settled the request. A typed future then fails,
      because the default message is no response; an untyped one would report success. In all other
      cases untyped success means a real response. */
  lemma CatchSweepDelivery<T>(run: seq<State>, steps: seq<Step>, i: nat, r: nat, j: nat, convert: Obj -> Option<T>)
    requires IsRun(run, steps) && i < |run| && r < |run[i].table.promises|
    requires FirstHandler(run[i].table.promises[r], j) && run[i].table.promises[r][j].handler.Some?
    ensures var p := run[i].table.promises[r];
      && (PostedBy(p) == [Delivery(p[j].handler, NoError, DEFAULT_MESSAGE)] <==> SettledByCatch(run, steps, i, r))
      && (SettledByCatch(run, steps, i, r) ==>
            && AllCalls(PostedBy(p), convert) == [OnFailure(Failure(INVALID_MESSAGE, Some(Nil)))]
            && AllUntypedCalls(PostedBy(p)) == [OnSuccess(DEFAULT_MESSAGE)])
      && (!SettledByCatch(run, steps, i, r) ==>
            forall m :: OnSuccess(m) in AllUntypedCalls(PostedBy(p)) ==> m.mtype == RESPONSE)
  {
    var p := run[i].table.promises[r];
    DeliversFirstResult(p, j);
    FirstResultIsResult(p);
    EmptyErrorIffCatch(run, steps, i, r);
    FirstResponseIsReal(run, steps, i, r);
    if Results(p) != [] {
      OneUntypedDelivery(PostedBy(p)[0]);
      OneDelivery(PostedBy(p)[0], convert);
    }
  }

  /** In every run of the client: a request that a failed write or a failed read settled hands exactly
      that error to its failure handler, once, typed or not. */
  lemma FailuresReachTheirCaller<T>(run: seq<State>, steps: seq<Step>, i: nat, r: nat, j: nat, k: nat,
                                    convert: Obj -> Option<T>)
    requires IsRun(run, steps) && i < |run| && r < |run[i].table.promises|
    requires FirstHandler(run[i].table.promises[r], j) && run[i].table.promises[r][j].handler.Some?
    requires k < i && SettledAt(run, steps, r, k) && (steps[k].WriteFailed? || steps[k].ReadFailed?)
    ensures AllCalls(PostedBy(run[i].table.promises[r]), convert) == [OnFailure(steps[k].error)]
    ensures AllUntypedCalls(PostedBy(run[i].table.promises[r])) == [OnFailure(steps[k].error)]
  {
    var p := run[i].table.promises[r];
    SettledByThisStep(run, steps, i, r, k);
    assert CanStep(run[k], steps[k]);
    DeliversFirstResult(p, j);
    OneDelivery(PostedBy(p)[0], convert);
    OneUntypedDelivery(PostedBy(p)[0]);
    FirstCall(PostedBy(p)[0].error, PostedBy(p)[0].msg, convert, Quiet<T>);
    ExactlyOneCallUnlessItThrows(PostedBy(p)[0].error, PostedBy(p)[0].msg, convert, Quiet<T>);
  }

  /** Against a conforming peer a failed write hands its own error to the failure handler. */
  lemma WriteErrorsReachTheirCaller<T>(run: seq<Net>, steps: seq<Step>, about: seq<nat>, i: nat, r: nat, j: nat,
                                       convert: Obj -> Option<T>)
    requires IsNetRun(run, steps, about) && i < |run| && r in run[i].failed
    requires r < |run[i].s.table.promises| && FirstHandler(run[i].s.table.promises[r], j)
    requires run[i].s.table.promises[r][j].handler.Some?
    ensures AllCalls(PostedBy(run[i].s.table.promises[r]), convert) == [OnFailure(run[i].failed[r])]
    ensures AllUntypedCalls(PostedBy(run[i].s.table.promises[r])) == [OnFailure(run[i].failed[r])]
  {
    EachRequestGetsItsOwnReply(run, steps, about, i, r, j);
    NetRunsKeepInv(run, steps, about, i);
    var n, p := run[i], run[i].s.table.promises[r];
    assert ResultsOk(Results(p), r, n.replies, n.unread, n.failed);
    var d := PostedBy(p)[0];
    OneDelivery(d, convert);
    OneUntypedDelivery(d);
  }

  /** In every run of the client, the handlers of a typed future are called at most once, and with
      success only for a response to the very message ID the request was registered under. */
  lemma TypedFutureCalledAtMostOnce<T>(run: seq<State>, steps: seq<Step>, i: nat, r: nat, convert: Obj -> Option<T>)
    requires IsRun(run, steps) && i < |run| && r < |run[i].pcs|
    ensures |run[i].table.promises| == |run[i].pcs|
    ensures var posted := PostedBy(run[i].table.promises[r]);
      var calls := AllCalls(posted, convert);
      && |calls| == |posted| <= 1
      && (calls != [] && calls[0].OnSuccess? ==>
            && IsSuccess(posted[0].error, posted[0].msg, convert)
            && run[i].pcs[r] == Registered(posted[0].msg.msgid)
            && convert(posted[0].msg.result.value) == Some(calls[0].value))
  {
    NoRequestReceivesAnothersResponse(run, steps, i, r);
    var posted := PostedBy(run[i].table.promises[r]);
    if posted != [] {
      assert posted[1..] == [];
      var d := posted[0];
      ExactlyOneCallUnlessItThrows(d.error, d.msg, convert, Quiet<T>);
      var calls := AllCalls(posted, convert);
      if calls[0].OnSuccess? {
        SuccessIffRealResponse(d.error, d.msg, convert, Quiet<T>, calls[0].value);
      }
    }
  }

  /** End to end, against a conforming peer and for any interleaving and order of replies: once the
      reply to a request was handled and a handler attached, exactly one handler call was made: with
      the error the reply carries, else with its converted result, else with a conversion failure. */
  lemma RepliesReachTheirCaller<T>(run: seq<Net>, steps: seq<Step>, about: seq<nat>, i: nat, r: nat, j: nat,
                                   id: Msgid, error: Obj, result: Obj, convert: Obj -> Option<T>)
    requires IsNetRun(run, steps, about) && i < |run|
    requires r < |run[i].s.table.promises| && FirstHandler(run[i].s.table.promises[r], j)
    requires run[i].s.table.promises[r][j].handler.Some?
    requires r in run[i].replies && r !in run[i].unread && IsResponse(run[i].replies[r], id, error, result)
    ensures AllCalls(PostedBy(run[i].s.table.promises[r]), convert)
      == [Expected(run[i].replies[r], error, result, convert)]
  {
    EachRequestGetsItsOwnReply(run, steps, about, i, r, j);
    var reply := run[i].replies[r];
    ResponsesAreExactlyResponseTrees(Decoded(reply), id, error, result);
    ParsedTree(reply);
    OneDelivery(PostedBy(run[i].s.table.promises[r])[0], convert);
  }

  /** A peer that parses a request and answers it with the result of a function. */
  function Serve(o: Obj, serve: (string, Obj) -> Obj): Obj {
    var parsed := Parse(o);
    if parsed.Ok? && parsed.msg.params.Some?
    then PackResponse(parsed.msg.msgid, serve(parsed.msg.methodName, parsed.msg.params.value))
    else Nil
  }

  /** End to end, for any interleaving, order of replies and number of other requests: once a request
      was answered by such a peer and its reply handled, the caller has received, once, the result of
      the function for the very method and parameters it asked for. */
  lemma CallsReachTheServer<T>(run: seq<Net>, steps: seq<Step>, about: seq<nat>, i: nat, r: nat, j: nat,
                               serve: (string, Obj) -> Obj, convert: Obj -> Option<T>)
    requires IsNetRun(run, steps, about) && i < |run|
    requires r < |run[i].s.table.promises| && FirstHandler(run[i].s.table.promises[r], j)
    requires run[i].s.table.promises[r][j].handler.Some?
    requires r in run[i].replies && r !in run[i].unread
    requires r in run[i].s.sent && run[i].replies[r] == Serve(run[i].s.sent[r], serve)
    ensures r < |run[i].s.wanted|
    ensures var w := run[i].s.wanted[r];
      AllCalls(PostedBy(run[i].s.table.promises[r]), convert)
      == [Expected(run[i].replies[r], Nil, serve(w.name, Arr(w.params)), convert)]
  {
    EachRequestGetsItsOwnReply(run, steps, about, i, r, j);
    var n := run[i];
    var id, w := n.s.pcs[r].id, n.s.wanted[r];
    RequestRoundTrip(id, w.name, Arr(w.params));
    var result := serve(w.name, Arr(w.params));
    assert n.replies[r] == PackResponse(id, result);
    RepliesReachTheirCaller(run, steps, about, i, r, j, id, Nil, result, convert);
  }

  lemma ParsedTree(o: Obj)
    requires Parse(o).Ok?
    ensures Parse(o).msg.tree == o
  {
  }

  /** A standard promise: setting it a second time throws. */
  class StdPromise<T> {
    var content: Option<HandlerCall<T>>

    constructor ()
      ensures content == None
    {
      content := None;
    }

    method Set(call: HandlerCall<T>) returns (thrown: bool)
      modifies this
      ensures thrown == old(content).Some?
      ensures content == if thrown then old(content) else Some(call)
    {
      thrown := content.Some?;
      if !thrown {
        content := Some(call);
      }
    }
  }

  /** Running the tasks posted for a promise with get_future: whatever calls the cell saw, the
      standard promise is set at most once, so that setting it never throws. */
  method RunPosted<T>(ghost calls: seq<Call>, posted: seq<Delivery>, convert: Obj -> Option<T>, promise: StdPromise<T>)
    returns (thrown: bool)
    requires posted == PostedBy(calls) && promise.content == None
    modifies promise
    ensures !thrown
    ensures posted == [] ==> promise.content == None
    ensures posted != [] && posted[0].error.Failure? ==> promise.content == Some(OnFailure(posted[0].error))
    ensures posted != [] && posted[0].error == NoError ==>
      var m := posted[0].msg;
      promise.content == Some(if m.mtype != RESPONSE then OnFailure(Failure(INVALID_MESSAGE, Some(m.tree)))
                              else Expected(m.tree, m.error.value, m.result.value, convert))
  {
    DeliveredExactlyOnce(calls);
    thrown := false;
    for i := 0 to |posted|
      invariant !thrown && (i == 0 ==> promise.content == None)
      invariant i == 1 ==> promise.content == Some(TypedCalls(posted[0].error, posted[0].msg, convert, Quiet<T>)[0])
    {
      ExactlyOneCallUnlessItThrows(posted[i].error, posted[i].msg, convert, Quiet<T>);
      FirstCall(posted[i].error, posted[i].msg, convert, Quiet<T>);
      var made := TypedCalls(posted[i].error, posted[i].msg, convert, Quiet<T>);
      var failed := promise.Set(made[0]);
      thrown := thrown || failed;
    }
  }
}
