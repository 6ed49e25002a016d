/**
 Runs of the client that end in the failures the exact conditions describe: each shows that the
 condition is met by a client whose peer sent one well-formed response or one piece of bad data.
 */
module FailingRuns {
  import opened Wire
  import opened Future
  import opened Requests
  import opened Protocol
  import opened Conforming

  ghost function Last(run: seq<State>): State
    requires run != []
  {
    run[|run| - 1]
  }

  lemma Extend(run: seq<State>, steps: seq<Step>, step: Step)
    requires IsRun(run, steps) && CanStep(Last(run), step)
    ensures IsRun(run + [Next(Last(run), step)], steps + [step])
  {
    var run', steps' := run + [Next(Last(run), step)], steps + [step];
    forall i | 0 <= i < |steps'|
      ensures CanStep(run'[i], steps'[i]) && run'[i + 1] == Next(run'[i], steps'[i])
    {
      assert run'[i] == run[i];
      if i < |steps| {
        assert steps'[i] == steps[i] && run'[i + 1] == run[i + 1];
      }
    }
  }

  /** Steps that need no peer. */
  predicate Quiet(step: Step) {
    step.Request? || step.Fetch? || step.Register? || step.Start?
  }

  ghost predicate AllQuiet(steps: seq<Step>) {
    forall i :: 0 <= i < |steps| ==> Quiet(steps[i])
  }

  /** A new request under the next message ID, its write pending. */
  ghost function WithRequest(s: State, w: Wanted): State {
    var r := |s.pcs|;
    State((s.next + 1) % MSGID_MODULUS, s.fetches + 1,
          Table(s.table.requests[s.next := r], s.table.promises + [[]]), s.pcs + [Registered(s.next)],
          s.wanted + [w], s.sent[r := Packed(w, s.next)],
          s.writes[s.next := r], s.reading, s.inbox, s.catching, s.escaped, s.posted)
  }

  lemma RequestSteps(s: State, w: Wanted)
    requires Inv(s) && s.next !in s.table.requests
    ensures var r := |s.pcs|;
      && CanStep(s, Request(w))
      && CanStep(Next(s, Request(w)), Fetch(r))
      && CanStep(Next(Next(s, Request(w)), Fetch(r)), Register(r))
      && Next(Next(Next(s, Request(w)), Fetch(r)), Register(r)) == WithRequest(s, w)
  {
    var r := |s.pcs|;
    InvStep(s, Request(w));
    InvStep(Next(s, Request(w)), Fetch(r));
    assert WithRequest(s, w).pcs
      == (s.pcs + [Fetching])[r := Holding(s.next, Packed(w, s.next))][r := Registered(s.next)];
  }

  /** Any run goes on with a request, if the next message ID is free. */
  lemma AddRequest(run: seq<State>, steps: seq<Step>, w: Wanted) returns (run': seq<State>, steps': seq<Step>)
    requires IsRun(run, steps) && Last(run).next !in Last(run).table.requests
    ensures IsRun(run', steps') && Last(run') == WithRequest(Last(run), w)
    ensures AllQuiet(steps) ==> AllQuiet(steps')
  {
    RunsKeepInv(run, steps, |run| - 1);
    var r := |Last(run).pcs|;
    RequestSteps(Last(run), w);
    run', steps' := Go(run, steps, Request(w));
    run', steps' := Go(run', steps', Fetch(r));
    run', steps' := Go(run', steps', Register(r));
  }

  /** Every message ID below n leads to the request of that number. */
  ghost function Identity(n: nat): (m: map<Msgid, nat>)
    requires n <= MSGID_MODULUS
    ensures forall id: Msgid :: id in m <==> id < n
    ensures forall id :: id in m ==> m[id] == id
  {
    if n == 0 then map[] else Identity(n - 1)[n - 1 := n - 1]
  }

  /** The state of a started client with requests 0 to n - 1 registered under those very IDs. */
  ghost predicate Waiting(s: State, n: nat)
    requires n <= MSGID_MODULUS
  {
    && s.table == Table(Identity(n), seq(n, _ => []))
    && s.pcs == seq(n, id requires 0 <= id < n => Registered(id)) && |s.wanted| == n
    && (forall id :: 0 <= id < n ==> id in s.writes)
    && s.next == n % MSGID_MODULUS && s.reading > 0 && s.inbox == [] && s.catching == 0 && s.escaped == 0
  }

  lemma {:induction false} WaitingRun(n: nat) returns (run: seq<State>, steps: seq<Step>)
    requires n <= MSGID_MODULUS
    ensures IsRun(run, steps) && AllQuiet(steps) && Waiting(Last(run), n)
  {
    if n == 0 {
      run, steps := [INIT, Next(INIT, Start)], [Start];
    } else {
      run, steps := WaitingRun(n - 1);
      var s := Last(run);
      run, steps := AddRequest(run, steps, Wanted("", []));
      assert Last(run).table.promises == seq(n, _ => []);
      assert Last(run).pcs == seq(n, id requires 0 <= id < n => Registered(id));
    }
  }

  /** Any run goes on with a step. */
  lemma Go(run: seq<State>, steps: seq<Step>, step: Step) returns (run': seq<State>, steps': seq<Step>)
    requires IsRun(run, steps) && CanStep(Last(run), step)
    ensures IsRun(run', steps') && run' == run + [Next(Last(run), step)] && steps' == steps + [step]
  {
    Extend(run, steps, step);
    run', steps' := run + [Next(Last(run), step)], steps + [step];
  }

  /** A client with an empty inbox after reading data and running its try block. */
  ghost function AfterRead(s: State, d: Data): State
    requires s.table.Valid()
  {
    var f := Receive(s.table, d);
    s.(table := f.table, posted := s.posted + f.posted,
       catching := s.catching + Count(f.exit.Caught?), escaped := s.escaped + Count(f.exit.Escapes?))
  }

  lemma ReadThenTry(s: State, d: Data)
    requires CanStep(s, ReadData(d)) && s.inbox == []
    ensures CanStep(Next(s, ReadData(d)), Try(0))
    ensures Next(Next(s, ReadData(d)), Try(0)) == AfterRead(s, d)
  {
    assert Next(s, ReadData(d)).inbox == [d] && [d][..0] + [d][1..] == [];
  }

  lemma GoRead(run: seq<State>, steps: seq<Step>, d: Data) returns (run': seq<State>, steps': seq<Step>)
    requires IsRun(run, steps) && CanStep(Last(run), ReadData(d)) && Last(run).inbox == []
    ensures IsRun(run', steps') && Last(run') == AfterRead(Last(run), d) && steps' == steps + [ReadData(d)] + [Try(0)]
  {
    ReadThenTry(Last(run), d);
    run', steps' := Go(run, steps, ReadData(d));
    run', steps' := Go(run', steps', Try(0));
  }

  /** A response to message ID 0, handled by a client that waits for it. */
  lemma Answer(run: seq<State>, steps: seq<Step>, n: nat, result: Obj) returns (run': seq<State>, steps': seq<Step>)
    requires IsRun(run, steps) && 0 < n <= MSGID_MODULUS && Waiting(Last(run), n)
    ensures IsRun(run', steps') && Parse(PackResponse(0, result)).Ok?
    ensures Last(run') == Answered(Last(run), Parse(PackResponse(0, result)).msg)
  {
    RunsKeepInv(run, steps, |run| - 1);
    run', steps' := GoRead(run, steps, Decoded(PackResponse(0, result)));
    AnswerReceived(Last(run), n, result);
  }

  ghost function Answered(s: State, m: Message): State
    requires s.table.promises != []
  {
    s.(table := s.table.(promises := s.table.promises[0 := [SetResponse(m)]]))
  }

  lemma AnswerReceived(s: State, n: nat, result: Obj)
    requires 0 < n <= MSGID_MODULUS && Waiting(s, n)
    ensures s.table.Valid() && Parse(PackResponse(0, result)).Ok?
    ensures AfterRead(s, Decoded(PackResponse(0, result))) == Answered(s, Parse(PackResponse(0, result)).msg)
  {
    ResponseRoundTrip(0, result);
    var m := Parse(PackResponse(0, result)).msg;
    var f := CallOn(s.table, 0, SetResponse(m));
    assert s.table.promises[0] == [] && [] + [SetResponse(m)] == [SetResponse(m)];
    assert f == Effect(s.table.(promises := s.table.promises[0 := [SetResponse(m)]]), [], false);
    assert s.posted + [] == s.posted;
  }

  /** Of n waiting requests the first was answered, and only that one is settled. */
  lemma AnsweredIsSettled(s: State, n: nat, m: Message)
    requires 0 < n <= MSGID_MODULUS && Waiting(s, n)
    ensures var t := Answered(s, m).table;
      && t.Valid() && t.requests == Identity(n) && |t.promises| == n
      && Settled(t.promises[0]) && forall r :: 1 <= r < n ==> !Settled(t.promises[r])
  {
    ResultsFacts([SetResponse(m)]);
    ResultsFacts([]);
    assert NoResult([]) && !NoResult([SetResponse(m)]);
  }

  /** A response arrives before its write is reported as failed: an exception leaves the write
      callback, and the entry stays. */
  lemma LateWriteFailure(result: Obj, e: ErrorInfo) returns (run: seq<State>, steps: seq<Step>)
    requires e.Failure?
    ensures IsRun(run, steps) && steps != [] && steps[|steps| - 1] == WriteFailed(0, e)
    ensures Last(run).escaped == 1 && LeadsTo(Last(run), 0, 0)
  {
    run, steps := WaitingRun(1);
    var s := Last(run);
    run, steps := Answer(run, steps, 1, result);
    AnsweredIsSettled(s, 1, Parse(PackResponse(0, result)).msg);
    RunsKeepInv(run, steps, |run| - 1);
    run, steps := Go(run, steps, WriteFailed(0, e));
    ExceptionsEscapeIff(run, steps, |steps| - 1);
    RunsKeepInv(run, steps, |run| - 1);
  }

  /** One of two requests was answered when reading fails: an exception leaves the read callback, and
      the other request stays registered and unsettled. */
  lemma IncompleteSweep(result: Obj, e: ErrorInfo) returns (run: seq<State>, steps: seq<Step>)
    requires e.Failure?
    ensures IsRun(run, steps) && steps != [] && steps[|steps| - 1] == ReadFailed(e, [0, 1])
    ensures Last(run).escaped == 1 && LeadsTo(Last(run), 1, 1)
    ensures |Last(run).table.promises| == 2 && !Settled(Last(run).table.promises[1])
  {
    run, steps := WaitingRun(2);
    var s := Last(run);
    run, steps := Answer(run, steps, 2, result);
    AnsweredIsSettled(s, 2, Parse(PackResponse(0, result)).msg);
    run, steps := FailedRead(run, steps, e);
  }

  lemma FailedRead(run: seq<State>, steps: seq<Step>, e: ErrorInfo) returns (run': seq<State>, steps': seq<Step>)
    requires IsRun(run, steps) && e.Failure? && Last(run).reading > 0 && Last(run).escaped == 0
    requires var t := Last(run).table;
      && t.Valid() && t.requests == Identity(2) && |t.promises| == 2
      && Settled(t.promises[0]) && !Settled(t.promises[1])
    ensures IsRun(run', steps') && steps' == steps + [ReadFailed(e, [0, 1])]
    ensures Last(run').escaped == 1 && Last(run').table.requests == Identity(2)
    ensures |Last(run').table.promises| == 2 && !Settled(Last(run').table.promises[1])
  {
    RunsKeepInv(run, steps, |run| - 1);
    var t := Last(run).table;
    assert t.requests[0] == 0 && t.requests[1] == 1;
    run', steps' := Go(run, steps, ReadFailed(e, [0, 1]));
    ExceptionsEscapeIff(run', steps', |steps|);
    SweepsMissExactly(run', steps', |steps|, 1);
  }

  /** Data that cannot be decoded makes the sweep deliver an empty error with the default message. */
  lemma EmptyErrorDelivered(h: Handler) returns (run: seq<State>, steps: seq<Step>)
    ensures IsRun(run, steps) && steps != [] && steps[|steps| - 1] == Catch([0])
    ensures |Last(run).table.promises| == 1
    ensures PostedBy(Last(run).table.promises[0]) == [Delivery(Some(h), NoError, DEFAULT_MESSAGE)]
  {
    run, steps := WaitingRun(1);
    var s := Last(run);
    RunsKeepInv(run, steps, |run| - 1);
    AttachedTable(s, h);
    run, steps := Go(run, steps, Attach(0, Some(h)));
    run, steps := BadData(run, steps);
    run, steps := CatchOfOne(run, steps, h);
  }

  lemma BadData(run: seq<State>, steps: seq<Step>) returns (run': seq<State>, steps': seq<Step>)
    requires IsRun(run, steps) && Last(run).reading > 0 && Last(run).inbox == []
    ensures IsRun(run', steps') && Last(run').table == Last(run).table && Last(run').catching > 0
  {
    RunsKeepInv(run, steps, |run| - 1);
    run', steps' := GoRead(run, steps, Malformed);
  }

  lemma CatchOfOne(run: seq<State>, steps: seq<Step>, h: Handler) returns (run': seq<State>, steps': seq<Step>)
    requires IsRun(run, steps) && Last(run).catching > 0
    requires Last(run).table == Table(map[0 := 0], [[SetHandler(Some(h))]])
    ensures IsRun(run', steps') && steps' == steps + [Catch([0])]
    ensures |Last(run').table.promises| == 1
    ensures PostedBy(Last(run').table.promises[0]) == [Delivery(Some(h), NoError, DEFAULT_MESSAGE)]
  {
    RunsKeepInv(run, steps, |run| - 1);
    run', steps' := Go(run, steps, Catch([0]));
    SweepOfOne(h);
  }

  lemma AttachedTable(s: State, h: Handler)
    requires Waiting(s, 1)
    ensures CanStep(s, Attach(0, Some(h)))
    ensures Next(s, Attach(0, Some(h))).table == Table(map[0 := 0], [[SetHandler(Some(h))]])
  {
    assert s.table.promises == [[]] && [] + [SetHandler(Some(h))] == [SetHandler(Some(h))];
    assert Identity(1) == map[0 := 0];
  }

  lemma SweepOfOne(h: Handler)
    ensures var f := Sweep(Table(map[0 := 0], [[SetHandler(Some(h))]]), [0], NoError);
      |f.table.promises| == 1 && PostedBy(f.table.promises[0]) == [Delivery(Some(h), NoError, DEFAULT_MESSAGE)]
  {
    var t := Table(map[0 := 0], [[SetHandler(Some(h))]]);
    var p := [SetHandler(Some(h)), SetError(NoError)];
    var f := CallOn(t, 0, SetError(NoError));
    assert f.table.promises[0] == p;
    assert Sweep(f.table, [], NoError) == Effect(f.table, [], false);
    assert FirstHandler(p, 0) && FirstResult(p, 1);
    DeliveredExactlyOnce(p);
  }

  /** Truncated data makes an exception leave the read callback, and settles nothing. */
  lemma TruncatedDataEscapes() returns (run: seq<State>, steps: seq<Step>)
    ensures IsRun(run, steps) && steps != [] && steps[|steps| - 1] == Try(0)
    ensures Last(run).escaped == 1 && Last(run).catching == 0 && Last(run).table == Table(map[0 := 0], [[]])
  {
    run, steps := WaitingRun(1);
    RunsKeepInv(run, steps, |run| - 1);
    run, steps := GoRead(run, steps, Truncated);
  }

  lemma {:induction false} QuietInbox(run: seq<State>, steps: seq<Step>, i: nat)
    requires IsRun(run, steps) && AllQuiet(steps) && i < |run|
    ensures run[i].inbox == []
  {
    if i > 0 {
      QuietInbox(run, steps, i - 1);
      assert Quiet(steps[i - 1]);
    }
  }

  /** A run without a peer conforms. */
  lemma QuietRunConforms(run: seq<State>, steps: seq<Step>) returns (nets: seq<Net>, about: seq<nat>)
    requires IsRun(run, steps) && AllQuiet(steps)
    ensures IsNetRun(nets, steps, about) && |nets| == |run|
    ensures forall i :: 0 <= i < |run| ==> nets[i] == Net(run[i], map[], [], map[])
  {
    nets := seq(|run|, i requires 0 <= i < |run| => Net(run[i], map[], [], map[]));
    about := seq(|steps|, i => 0);
    forall i | 0 <= i < |steps|
      ensures CanStep(nets[i].s, steps[i]) && Allowed(nets[i], steps[i], about[i])
      ensures |nets[i].unread| == |nets[i].s.inbox| && nets[i + 1] == NetNext(nets[i], steps[i], about[i])
    {
      assert CanStep(run[i], steps[i]) && Quiet(steps[i]);
      QuietInbox(run, steps, i);
    }
  }

  ghost predicate IsFull(s: State) {
    forall id: Msgid :: id in s.table.requests
  }

  /** A client with a conforming peer can come to hold every message ID. */
  lemma FullTable() returns (nets: seq<Net>, steps: seq<Step>, about: seq<nat>)
    ensures IsNetRun(nets, steps, about)
    ensures IsFull(nets[|nets| - 1].s)
  {
    var run;
    run, steps := WaitingRun(MSGID_MODULUS);
    nets, about := QuietRunConforms(run, steps);
    assert nets[|nets| - 1].s == Last(run) && Last(run).table.requests == Identity(MSGID_MODULUS);
  }

  /** From a full table on, as long as no write fails, the table stays full and no request that was
      not registered ever is: the loop only fetches again. */
  lemma {:induction false} FullTableRegistersNothing(run: seq<State>, steps: seq<Step>, i: nat, j: nat)
    requires IsRun(run, steps) && i <= j < |run| && IsFull(run[i])
    requires forall k :: i <= k < j ==> !steps[k].WriteFailed?
    ensures IsFull(run[j]) && |run[i].pcs| <= |run[j].pcs|
    ensures forall r :: 0 <= r < |run[i].pcs| && !run[i].pcs[r].Registered? ==> !run[j].pcs[r].Registered?
    ensures forall r :: |run[i].pcs| <= r < |run[j].pcs| ==> !run[j].pcs[r].Registered?
    decreases j - i
  {
    if i < j {
      FullTableRegistersNothing(run, steps, i, j - 1);
      FullStep(run[j - 1], steps[j - 1]);
    }
  }

  lemma FullStep(s: State, step: Step)
    requires CanStep(s, step) && IsFull(s) && !step.WriteFailed?
    ensures IsFull(Next(s, step)) && |s.pcs| <= |Next(s, step).pcs|
    ensures forall r :: 0 <= r < |Next(s, step).pcs| && (r >= |s.pcs| || !s.pcs[r].Registered?) ==>
      !Next(s, step).pcs[r].Registered?
  {
    forall id: Msgid
      ensures id in Next(s, step).table.requests
    {
      StepKeepsEntry(s, step, id);
    }
    if step.Register? {
      assert s.pcs[step.r].id in s.table.requests;
    }
  }
}
