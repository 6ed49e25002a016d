/**
 The shared cell behind a response promise and its future: a result and a handler
 arrive in either order, and the first to find the other posts the delivery.
 */
module Future {
  import opened Wire

  /** The identity of a callback. An empty callback object is Option.None. */
  type Handler = nat

  datatype Cell = Cell(
    hasResponse: bool,
    error: ErrorInfo,
    msg: Message,
    hasHandler: bool,
    onResponse: Option<Handler>)

  const EMPTY_CELL := Cell(false, NoError, DEFAULT_MESSAGE, false, None)

  /** A posted task: calling handler with the error and message. */
  datatype Delivery = Delivery(handler: Option<Handler>, error: ErrorInfo, msg: Message)

  /** The cell after a call, what the call posted, and whether it threw instead. */
  datatype Outcome = Outcome(cell: Cell, posted: seq<Delivery>, thrown: bool)

  datatype Call =
    | SetError(error: ErrorInfo)
    | SetResponse(msg: Message)
    | SetHandler(handler: Option<Handler>)
  {
    predicate IsResult() { !SetHandler? }

    /** The pair a result delivers: errors come with the default message and vice versa. */
    function Error(): ErrorInfo {
      if SetError? then error else NoError
    }

    function Msg(): Message {
      if SetResponse? then msg else DEFAULT_MESSAGE
    }
  }

  function Apply(c: Cell, call: Call): (o: Outcome)
    ensures o.thrown <==> if call.IsResult() then c.hasResponse else c.hasHandler
    ensures o.thrown ==> o.cell == c && o.posted == []
    ensures |o.posted| <= 1
  {
    match call
    case SetError(e) =>
      if c.hasResponse then Outcome(c, [], true)
      else if c.onResponse.None? then Outcome(c.(hasResponse := true, error := e), [], false)
      else Outcome(c.(hasResponse := true), [Delivery(c.onResponse, e, DEFAULT_MESSAGE)], false)
    case SetResponse(m) =>
      if c.hasResponse then Outcome(c, [], true)
      else if c.onResponse.None? then Outcome(c.(hasResponse := true, msg := m), [], false)
      else Outcome(c.(hasResponse := true), [Delivery(c.onResponse, NoError, m)], false)
    case SetHandler(h) =>
      if c.hasHandler then Outcome(c, [], true)
      else if !c.hasResponse then Outcome(c.(hasHandler := true, onResponse := h), [], false)
      else Outcome(c.(hasHandler := true), [Delivery(h, c.error, c.msg)], false)
  }

  /** The cell after a sequence of calls on a new cell. */
  function CellAfter(calls: seq<Call>): Cell {
    if calls == [] then EMPTY_CELL
    else Apply(CellAfter(calls[..|calls| - 1]), calls[|calls| - 1]).cell
  }

  /** Everything a sequence of calls on a new cell posts, in order. */
  function PostedBy(calls: seq<Call>): seq<Delivery> {
    if calls == [] then []
    else PostedBy(calls[..|calls| - 1])
         + Apply(CellAfter(calls[..|calls| - 1]), calls[|calls| - 1]).posted
  }

  lemma AfterOneMore(calls: seq<Call>, call: Call)
    ensures CellAfter(calls + [call]) == Apply(CellAfter(calls), call).cell
    ensures PostedBy(calls + [call]) == PostedBy(calls) + Apply(CellAfter(calls), call).posted
  {
    assert (calls + [call])[..|calls|] == calls;
  }

  lemma CellOneMore(calls: seq<Call>, call: Call)
    ensures CellAfter(calls + [call]) == Apply(CellAfter(calls), call).cell
  {
    AfterOneMore(calls, call);
  }

  // ---- The reference: what the promise and its future stand for.

  ghost predicate FirstResult(calls: seq<Call>, i: nat) {
    i < |calls| && calls[i].IsResult() && forall k :: 0 <= k < i ==> !calls[k].IsResult()
  }

  ghost predicate FirstHandler(calls: seq<Call>, j: nat) {
    j < |calls| && !calls[j].IsResult() && forall k :: 0 <= k < j ==> calls[k].IsResult()
  }

  ghost predicate NoResult(calls: seq<Call>) {
    forall k :: 0 <= k < |calls| ==> !calls[k].IsResult()
  }

  ghost predicate NoHandler(calls: seq<Call>) {
    forall k :: 0 <= k < |calls| ==> calls[k].IsResult()
  }

  /** What the state of the cell and its posts must be, read off the calls alone. */
  ghost predicate Explained(calls: seq<Call>, c: Cell, posted: seq<Delivery>) {
    && (NoResult(calls) <==> !c.hasResponse)
    && (NoHandler(calls) <==> !c.hasHandler)
    && (NoResult(calls) ==> posted == [] && c.error == NoError && c.msg == DEFAULT_MESSAGE)
    && (NoHandler(calls) ==> posted == [] && c.onResponse == None)
    && (forall i: nat :: FirstResult(calls, i) && NoHandler(calls) ==>
          c.error == calls[i].Error() && c.msg == calls[i].Msg())
    && (forall j: nat :: FirstHandler(calls, j) && NoResult(calls) ==> c.onResponse == calls[j].handler)
    && (forall i: nat, j: nat :: FirstResult(calls, i) && FirstHandler(calls, j) ==>
          posted == Expected(calls, i, j))
  }

  /** The one delivery: the first result to the first handler, unless that handler was empty
      and had to be kept for a later result. */
  ghost function Expected(calls: seq<Call>, i: nat, j: nat): seq<Delivery>
    requires FirstResult(calls, i) && FirstHandler(calls, j)
  {
    if calls[j].handler.Some? || i < j
    then [Delivery(calls[j].handler, calls[i].Error(), calls[i].Msg())]
    else []
  }

  lemma {:induction false} CellExplained(calls: seq<Call>)
    ensures Explained(calls, CellAfter(calls), PostedBy(calls))
  {
    if calls != [] {
      var init, call := calls[..|calls| - 1], calls[|calls| - 1];
      CellExplained(init);
      assert calls == init + [call];
      if call.IsResult() {
        ExplainedResult(init, call, CellAfter(init), PostedBy(init));
      } else {
        ExplainedHandler(init, call, CellAfter(init), PostedBy(init));
      }
    }
  }

  lemma OneMoreCall(init: seq<Call>, call: Call)
    ensures var calls := init + [call];
      && (NoResult(calls) <==> NoResult(init) && !call.IsResult())
      && (NoHandler(calls) <==> NoHandler(init) && call.IsResult())
      && (forall i: nat :: FirstResult(calls, i) <==>
            FirstResult(init, i) || (i == |init| && NoResult(init) && call.IsResult()))
      && (forall j: nat :: FirstHandler(calls, j) <==>
            FirstHandler(init, j) || (j == |init| && NoHandler(init) && !call.IsResult()))
  {
    var calls := init + [call];
    assert forall k :: 0 <= k < |init| ==> calls[k] == init[k];
    assert calls[|init|] == call;
  }

  lemma ExplainedResult(init: seq<Call>, call: Call, c: Cell, posted: seq<Delivery>)
    requires Explained(init, c, posted) && call.IsResult()
    ensures var o := Apply(c, call); Explained(init + [call], o.cell, posted + o.posted)
  {
    OneMoreCall(init, call);
    FirstExists(init);
  }

  lemma ExplainedHandler(init: seq<Call>, call: Call, c: Cell, posted: seq<Delivery>)
    requires Explained(init, c, posted) && !call.IsResult()
    ensures var o := Apply(c, call); Explained(init + [call], o.cell, posted + o.posted)
  {
    OneMoreCall(init, call);
    FirstExists(init);
  }

  lemma FirstExists(calls: seq<Call>)
    ensures NoResult(calls) || exists i: nat :: FirstResult(calls, i)
    ensures NoHandler(calls) || exists j: nat :: FirstHandler(calls, j)
  {
    if calls != [] {
      var init := calls[..|calls| - 1];
      FirstExists(init);
      if i: nat :| FirstResult(init, i) {
        assert FirstResult(calls, i);
      } else if calls[|init|].IsResult() {
        assert FirstResult(calls, |init|);
      }
      if j: nat :| FirstHandler(init, j) {
        assert FirstHandler(calls, j);
      } else if !calls[|init|].IsResult() {
        assert FirstHandler(calls, |init|);
      }
    }
  }

  // ---- What the cell guarantees.

  /** One delivery or none, whatever the calls: exactly when a result and a handler were
      accepted, and the handler was not an empty one waiting. It carries the first of each. */
  lemma DeliveredExactlyOnce(calls: seq<Call>)
    ensures |PostedBy(calls)| <= 1
    ensures |PostedBy(calls)| == 1 <==>
      exists i: nat, j: nat :: FirstResult(calls, i) && FirstHandler(calls, j)
                               && (calls[j].handler.Some? || i < j)
    ensures forall i: nat, j: nat :: FirstResult(calls, i) && FirstHandler(calls, j) ==>
      PostedBy(calls) == Expected(calls, i, j)
  {
    CellExplained(calls);
    FirstExists(calls);
    if !NoResult(calls) && !NoHandler(calls) {
      var i: nat :| FirstResult(calls, i);
      var j: nat :| FirstHandler(calls, j);
      assert PostedBy(calls) == Expected(calls, i, j);
    }
  }

  /** The delivery does not depend on which came first, nor on any call after the first ones. */
  lemma {:induction false} ArrivalOrderIsIrrelevant(a: seq<Call>, b: seq<Call>, i: nat, j: nat, k: nat, l: nat)
    requires FirstResult(a, i) && FirstHandler(a, j) && FirstResult(b, k) && FirstHandler(b, l)
    requires a[i] == b[k] && a[j] == b[l] && a[j].handler.Some?
    ensures PostedBy(a) == PostedBy(b) == [Delivery(a[j].handler, a[i].Error(), a[i].Msg())]
  {
    assert PostedBy(a) == Expected(a, i, j) by { DeliveredExactlyOnce(a); }
    assert PostedBy(b) == Expected(b, k, l) by { DeliveredExactlyOnce(b); }
  }

  /** For an empty handler the order does matter: kept first it swallows the result. */
  lemma EmptyHandlerDependsOnOrder(result: Call)
    requires result.IsResult()
    ensures PostedBy([SetHandler(None), result]) == []
    ensures PostedBy([result, SetHandler(None)]) == [Delivery(None, result.Error(), result.Msg())]
  {
    var a, b := [SetHandler(None), result], [result, SetHandler(None)];
    DeliveredExactlyOnce(a);
    DeliveredExactlyOnce(b);
    assert FirstResult(a, 1) && FirstHandler(a, 0);
    assert FirstResult(b, 0) && FirstHandler(b, 1);
  }

  /** How many result calls did not throw. */
  ghost function AcceptedResults(calls: seq<Call>): nat {
    if calls == [] then 0
    else
      var init, call := calls[..|calls| - 1], calls[|calls| - 1];
      AcceptedResults(init) + if call.IsResult() && !Apply(CellAfter(init), call).thrown then 1 else 0
  }

  lemma {:induction false} SettledAtMostOnce(calls: seq<Call>)
    ensures AcceptedResults(calls) == if CellAfter(calls).hasResponse then 1 else 0
    ensures AcceptedResults(calls) == 0 <==> NoResult(calls)
  {
    CellExplained(calls);
    if calls != [] {
      SettledAtMostOnce(calls[..|calls| - 1]);
    }
  }

  /** The result calls among the calls, in order. */
  ghost function Results(calls: seq<Call>): seq<Call> {
    if calls == [] then []
    else
      var call := calls[|calls| - 1];
      Results(calls[..|calls| - 1]) + if call.IsResult() then [call] else []
  }

  lemma ResultsOneMore(calls: seq<Call>, call: Call)
    ensures Results(calls + [call]) == Results(calls) + if call.IsResult() then [call] else []
  {
    assert (calls + [call])[..|calls|] == calls;
  }

  lemma {:induction false} ResultsOfPrefix(p: seq<Call>, q: seq<Call>)
    requires p <= q
    ensures Results(p) <= Results(q)
    decreases |q|
  {
    if |p| == |q| {
      assert p == q;
    } else {
      ResultsOfPrefix(p, q[..|q| - 1]);
    }
  }

  lemma {:induction false} ResultsFacts(calls: seq<Call>)
    ensures Results(calls) == [] <==> NoResult(calls)
    ensures CellAfter(calls).hasResponse <==> Results(calls) != []
    ensures forall i: nat :: FirstResult(calls, i) ==> Results(calls) != [] && Results(calls)[0] == calls[i]
  {
    CellExplained(calls);
    if calls != [] {
      var init, last := calls[..|calls| - 1], |calls| - 1;
      ResultsFacts(init);
      forall i: nat | FirstResult(calls, i)
        ensures Results(calls) != [] && Results(calls)[0] == calls[i]
      {
        if i < last {
          assert FirstResult(init, i);
        } else {
          assert NoResult(init);
        }
      }
      if NoResult(init) && calls[last].IsResult() {
        assert !NoResult(calls);
      }
    }
  }

  /** With a non-empty first handler, the delivery is the first result, if there is one. */
  lemma DeliversFirstResult(calls: seq<Call>, j: nat)
    requires FirstHandler(calls, j) && calls[j].handler.Some?
    ensures PostedBy(calls) == if Results(calls) == [] then []
      else [Delivery(calls[j].handler, Results(calls)[0].Error(), Results(calls)[0].Msg())]
  {
    ResultsFacts(calls);
    DeliveredExactlyOnce(calls);
    FirstExists(calls);
    if Results(calls) != [] {
      var i: nat :| FirstResult(calls, i);
      assert PostedBy(calls) == Expected(calls, i, j);
    } else {
      CellExplained(calls);
    }
  }

  // ---- The cell as the object that promise and future share.

  /** The thread pool, reduced to the log of posted tasks. */
  class ThreadPool {
    var posted: seq<Delivery>

    constructor ()
      ensures posted == []
    {
      posted := [];
    }

    method Post(d: Delivery)
      modifies this
      ensures posted == old(posted) + [d]
    {
      posted := posted + [d];
    }
  }

  class ResponseFutureData {
    const threads: ThreadPool
    var hasResponse: bool
    var error: ErrorInfo
    var msg: Message
    var hasHandler: bool
    var onResponse: Option<Handler>

    /** Which of its maker's promises this is. */
    ghost const number: nat

    /** Every call made so far, including those that threw. */
    ghost var calls: seq<Call>

    ghost function Abs(): Cell
      reads this
    {
      Cell(hasResponse, error, msg, hasHandler, onResponse)
    }

    /** The fields are those of a new cell after the recorded calls. */
    ghost predicate Valid()
      reads this
    {
      Abs() == CellAfter(calls)
    }

    constructor (threads: ThreadPool, ghost number: nat)
      ensures Valid() && calls == [] && this.threads == threads && this.number == number
    {
      this.threads := threads;
      this.number := number;
      hasResponse, error, msg := false, NoError, DEFAULT_MESSAGE;
      hasHandler, onResponse := false, None;
      calls := [];
    }

    method SetError(e: ErrorInfo) returns (thrown: bool)
      requires Valid()
      modifies this, threads
      ensures Valid() && calls == old(calls) + [Call.SetError(e)]
      ensures thrown == Apply(old(Abs()), Call.SetError(e)).thrown
      ensures threads.posted == old(threads.posted) + Apply(old(Abs()), Call.SetError(e)).posted
    {
      CellOneMore(calls, Call.SetError(e));
      calls := calls + [Call.SetError(e)];
      if hasResponse {
        return true;
      }
      hasResponse := true;
      if onResponse.None? {
        error := e;
        return false;
      }
      threads.Post(Delivery(onResponse, e, DEFAULT_MESSAGE));
      return false;
    }

    method SetResponse(m: Message) returns (thrown: bool)
      requires Valid()
      modifies this, threads
      ensures Valid() && calls == old(calls) + [Call.SetResponse(m)]
      ensures thrown == Apply(old(Abs()), Call.SetResponse(m)).thrown
      ensures threads.posted == old(threads.posted) + Apply(old(Abs()), Call.SetResponse(m)).posted
    {
      CellOneMore(calls, Call.SetResponse(m));
      calls := calls + [Call.SetResponse(m)];
      if hasResponse {
        return true;
      }
      hasResponse := true;
      if onResponse.None? {
        msg := m;
        return false;
      }
      threads.Post(Delivery(onResponse, NoError, m));
      return false;
    }

    method SetHandler(h: Option<Handler>) returns (thrown: bool)
      requires Valid()
      modifies this, threads
      ensures Valid() && calls == old(calls) + [Call.SetHandler(h)]
      ensures thrown == Apply(old(Abs()), Call.SetHandler(h)).thrown
      ensures threads.posted == old(threads.posted) + Apply(old(Abs()), Call.SetHandler(h)).posted
    {
      ghost var after := Apply(Abs(), Call.SetHandler(h)).cell;
      CellOneMore(calls, Call.SetHandler(h));
      calls := calls + [Call.SetHandler(h)];
      assert CellAfter(calls) == after;
      if hasHandler {
        return true;
      }
      hasHandler := true;
      if !hasResponse {
        onResponse := h;
        return false;
      }
      threads.Post(Delivery(h, error, msg));
      return false;
    }
  }
}
