/**
 What the steps of the client's machine do, exactly: which calls each makes on which promise, when a
 request is registered, and how often every callback runs.
 */
module Callbacks {
  import opened Wire
  import opened Future
  import opened Requests
  import opened Protocol

  // ---- Exactly which calls a step makes.

  /** A sweep in this order comes to request r: no entry before it is settled. */
  ghost predicate SweptTo(t: Table, order: seq<Msgid>, r: nat)
    requires t.Valid() && forall i :: 0 <= i < |order| ==> order[i] in t.requests
  {
    exists j :: 0 <= j < |order| && t.requests[order[j]] == r
                && forall l :: 0 <= l < j ==> !Settled(t.promises[t.requests[order[l]]])
  }

  /** The calls a step must make on the promise of request r, told without the code's own order of
      lookups. */
  ghost function CallsMade(s: State, step: Step, r: nat): seq<Call>
    requires CanStep(s, step)
  {
    match step
    case WriteFailed(id, e) => if LeadsTo(s, id, r) then [SetError(e)] else []
    case ReadFailed(e, order) => if SweptTo(s.table, order, r) then [SetError(e)] else []
    case Catch(order) => if SweptTo(s.table, order, r) then [SetError(NoError)] else []
    case Try(i) =>
      var d := s.inbox[i];
      if d.Decoded? && Parse(d.tree).Ok? && exists id :: Answers(d, id) && LeadsTo(s, id, r)
      then [SetResponse(Parse(d.tree).msg)] else []
    case Attach(a, h) => if a == r then [SetHandler(h)] else []
    case _ => []
  }

  lemma SweptToIff(t: Table, order: seq<Msgid>, j: nat)
    requires t.Valid() && t.Injective() && IsOrder(order, t.requests.Keys) && j < |order|
    ensures SweptTo(t, order, t.requests[order[j]]) <==> j <= Unsettled(t.promises, Targets(t, order))
  {
    var rs := Targets(t, order);
    var k := Unsettled(t.promises, rs);
    TargetsAreDistinct(t, order);
    assert forall l :: 0 <= l < |rs| ==> rs[l] == t.requests[order[l]];
    if k < j {
      assert Settled(t.promises[rs[k]]);
    }
  }

  lemma SweepCallsExactly(t: Table, order: seq<Msgid>, e: ErrorInfo, r: nat)
    requires t.Valid() && t.Injective() && IsOrder(order, t.requests.Keys) && r < |t.promises|
    ensures Sweep(t, order, e).table.promises[r]
      == t.promises[r] + if SweptTo(t, order, r) then [SetError(e)] else []
  {
    TargetsAreDistinct(t, order);
    SweepIsSweepOfPromises(t, order, e);
    var rs := Targets(t, order);
    SweepCalls(t.promises, rs, e);
    if j :| 0 <= j < |rs| && rs[j] == r {
      SweptToIff(t, order, j);
    }
  }

  lemma TryCallsExactly(s: State, i: nat, r: nat)
    requires CanStep(s, Try(i)) && r < |s.pcs|
    ensures Next(s, Try(i)).table.promises[r] == s.table.promises[r] + CallsMade(s, Try(i), r)
  {
    var d := s.inbox[i];
    var parsed := ParseData(d);
    if parsed.Ok? && parsed.msg.mtype == RESPONSE {
      ResponsesAreExactlyResponseTrees(d, parsed.msg.msgid, parsed.msg.error.value, parsed.msg.result.value);
      assert Answers(d, parsed.msg.msgid);
    }
    if id :| Answers(d, id) && LeadsTo(s, id, r) {
      AnsweredMessage(d, id);
    }
  }

  lemma FailCallsExactly(s: State, id: Msgid, e: ErrorInfo, r: nat)
    requires Inv(s) && CanStep(s, WriteFailed(id, e)) && r < |s.pcs|
    ensures Next(s, WriteFailed(id, e)).table.promises[r] == s.table.promises[r] + CallsMade(s, WriteFailed(id, e), r)
  {
  }

  lemma QuietStepCallsNothing(s: State, step: Step, r: nat)
    requires CanStep(s, step) && r < |s.pcs|
    requires step.Request? || step.Fetch? || step.Register? || step.WriteDone? || step.Start? || step.ReadData?
    ensures r < |Next(s, step).table.promises| && Next(s, step).table.promises[r] == s.table.promises[r]
  {
  }

  /** Every step makes exactly these calls, and on no other promise any. */
  lemma StepCallsExactly(s: State, step: Step, r: nat)
    requires Inv(s) && Enabled(s, step) && r < |s.pcs|
    ensures CanStep(s, step) && r < |Next(s, step).table.promises|
    ensures Next(s, step).table.promises[r] == s.table.promises[r] + CallsMade(s, step, r)
  {
    TableOkFacts(s.table, s.pcs);
    match step
    case ReadFailed(e, order) => SweepCallsExactly(s.table, order, e, r);
    case Catch(order) => SweepCallsExactly(s.table, order, NoError, r);
    case Try(i) => TryCallsExactly(s, i, r);
    case WriteFailed(id, e) => FailCallsExactly(s, id, e, r);
    case Attach(_, _) =>
    case _ => QuietStepCallsNothing(s, step, r);
  }

  /** In every run a Register step registers its request exactly if its ID is free, and otherwise sends
      the loop back to fetch another one; no other step makes an entry. */
  lemma RegistersIffFree(run: seq<State>, steps: seq<Step>, i: nat, id: Msgid)
    requires IsRun(run, steps) && i < |steps|
    ensures steps[i].Register? ==>
      run[i + 1].pcs[steps[i].r]
      == if run[i].pcs[steps[i].r].id in run[i].table.requests then Fetching else Registered(run[i].pcs[steps[i].r].id)
    ensures id !in run[i].table.requests && id in run[i + 1].table.requests ==>
      steps[i].Register? && run[i].pcs[steps[i].r].id == id && run[i + 1].table.requests[id] == steps[i].r
  {
    var s, step := run[i], steps[i];
    match step
    case WriteFailed(w, e) => FailRemovesOnlyItsEntry(s.table, w, e);
    case Register(r) =>
    case _ => assert run[i + 1].table.requests == s.table.requests;
  }

  // ---- Every callback is called as often as it is due.

  predicate IsRequest(step: Step) { step.Request? }
  predicate IsFetch(step: Step) { step.Fetch? }
  predicate IsStart(step: Step) { step.Start? }
  predicate IsReadFailed(step: Step) { step.ReadFailed? }
  predicate IsReadData(step: Step) { step.ReadData? }
  predicate IsTry(step: Step) { step.Try? }
  predicate IsCatch(step: Step) { step.Catch? }
  predicate IsWriteOver(step: Step) { step.WriteDone? || step.WriteFailed? }

  ghost function Tally(steps: seq<Step>, i: nat, kind: Step -> bool): nat
    requires i <= |steps|
  {
    if i == 0 then 0 else Tally(steps, i - 1, kind) + Count(kind(steps[i - 1]))
  }

  /** A try block that must be left into its catch block. */
  ghost predicate Bad(s: State, step: Step)
    requires CanStep(s, step)
  {
    step.Try? && IsBad(s.table, s.inbox[step.i])
  }

  /** How many of the first i steps were such. */
  ghost function BadTries(run: seq<State>, steps: seq<Step>, i: nat): nat
    requires IsRun(run, steps) && i <= |steps|
  {
    if i == 0 then 0 else BadTries(run, steps, i - 1) + Count(Bad(run[i - 1], steps[i - 1]))
  }

  /** What is outstanding after some steps: reads, data in the inbox, writes and catch blocks. */
  ghost predicate CountsFollow(s: State, step: Step, s': State)
    requires CanStep(s, step)
  {
    && |s'.pcs| == |s.pcs| + Count(IsRequest(step)) && s'.fetches == s.fetches + Count(IsFetch(step))
    && s'.reading + Count(IsReadFailed(step)) == s.reading + Count(IsStart(step))
    && |s'.inbox| + Count(IsTry(step)) == |s.inbox| + Count(IsReadData(step))
    && s'.catching + Count(IsCatch(step)) == s.catching + Count(Bad(s, step))
    && |s'.writes| + Count(IsWriteOver(step)) + |s.sent| == |s.writes| + |s'.sent|
  }

  lemma TryCounts(s: State, i: nat)
    requires CanStep(s, Try(i))
    ensures CountsFollow(s, Try(i), Next(s, Try(i)))
  {
    ReceiveExits(s.table, s.inbox[i]);
    BadIffCaught(s.table, s.inbox[i]);
  }

  lemma BadIffCaught(t: Table, d: Data)
    requires t.Valid()
    ensures IsBad(t, d) <==> Receive(t, d).exit.Caught?
  {
    ReceiveExits(t, d);
    forall id: Msgid | Answers(d, id)
      ensures ParseData(d).Ok? && ParseData(d).msg.mtype == RESPONSE && ParseData(d).msg.msgid == id
    {
      AnsweredMessage(d, id);
    }
  }

  lemma RegisterCounts(s: State, r: nat)
    requires Inv(s) && SentOk(s.pcs, s.wanted, s.sent) && CanStep(s, Register(r))
    ensures CountsFollow(s, Register(r), Next(s, Register(r)))
  {
    assert CallOk(s.pcs[r], s.wanted[r], r, s.sent);
    var id := s.pcs[r].id;
    if id !in s.table.requests {
      assert |s.writes[id := r]| == |s.writes| + 1 && |s.sent[r := s.pcs[r].msg]| == |s.sent| + 1;
    }
  }

  lemma WriteOverCounts(s: State, step: Step)
    requires CanStep(s, step) && IsWriteOver(step)
    ensures CountsFollow(s, step, Next(s, step))
  {
    assert step.id in s.writes && Next(s, step).writes == s.writes - {step.id};
    OneLess(s.writes, step.id);
  }

  lemma OneLess(m: map<Msgid, nat>, id: Msgid)
    requires id in m
    ensures |m - {id}| == |m| - 1
  {
    assert (m - {id}).Keys == m.Keys - {id};
  }

  lemma StepCounts(s: State, step: Step)
    requires Inv(s) && SentOk(s.pcs, s.wanted, s.sent) && CanStep(s, step)
    ensures CountsFollow(s, step, Next(s, step))
  {
    match step
    case Register(r) => RegisterCounts(s, r);
    case Try(i) => TryCounts(s, i);
    case WriteDone(_) => WriteOverCounts(s, step);
    case WriteFailed(_, _) => WriteOverCounts(s, step);
    case _ =>
  }

  lemma StepCountsInRun(run: seq<State>, steps: seq<Step>, k: nat)
    requires IsRun(run, steps) && k < |steps|
    ensures CountsFollow(run[k], steps[k], run[k + 1])
  {
    RunsKeepInv(run, steps, k);
    RunsKeepSent(run, steps, k);
    StepCounts(run[k], steps[k]);
  }

  /** In every run: each start and each successful read leave one read outstanding until it fails, each
      piece of data has one try block, each written request one write callback, and each try block that
      bad data leaves, and no other, one catch block. */
  lemma {:induction false} CallbacksAreCounted(run: seq<State>, steps: seq<Step>, i: nat)
    requires IsRun(run, steps) && i < |run|
    ensures |run[i].pcs| == Tally(steps, i, IsRequest) && run[i].fetches == Tally(steps, i, IsFetch)
    ensures run[i].reading + Tally(steps, i, IsReadFailed) == Tally(steps, i, IsStart)
    ensures |run[i].inbox| + Tally(steps, i, IsTry) == Tally(steps, i, IsReadData)
    ensures run[i].catching + Tally(steps, i, IsCatch) == BadTries(run, steps, i)
    ensures |run[i].writes| + Tally(steps, i, IsWriteOver) == |run[i].sent|
  {
    if i > 0 {
      CallbacksAreCounted(run, steps, i - 1);
      StepCountsInRun(run, steps, i - 1);
    }
  }

  ghost function ReadBy(step: Step): multiset<Data> {
    if step.ReadData? then multiset{step.data} else multiset{}
  }

  ghost function TriedBy(s: State, step: Step): multiset<Data>
    requires CanStep(s, step)
  {
    if step.Try? then multiset{s.inbox[step.i]} else multiset{}
  }

  /** In every run the fetches hand out the message IDs in order, wrapping around. */
  lemma FetchesInOrder(run: seq<State>, steps: seq<Step>, i: nat)
    requires IsRun(run, steps) && i < |steps| && steps[i].Fetch?
    ensures steps[i].r < |run[i + 1].pcs| && run[i + 1].pcs[steps[i].r].Holding?
    ensures run[i + 1].pcs[steps[i].r].id == Tally(steps, i, IsFetch) % MSGID_MODULUS
  {
    RunsKeepInv(run, steps, i);
    CallbacksAreCounted(run, steps, i);
  }

  /** All data read so far, and all that was handled. */
  ghost function DataRead(steps: seq<Step>, i: nat): multiset<Data>
    requires i <= |steps|
  {
    if i == 0 then multiset{} else DataRead(steps, i - 1) + ReadBy(steps[i - 1])
  }

  ghost function DataTried(run: seq<State>, steps: seq<Step>, i: nat): multiset<Data>
    requires IsRun(run, steps) && i <= |steps|
  {
    if i == 0 then multiset{} else DataTried(run, steps, i - 1) + TriedBy(run[i - 1], steps[i - 1])
  }

  lemma TakeOne(inbox: seq<Data>, i: nat)
    requires i < |inbox|
    ensures multiset(inbox[..i] + inbox[i + 1..]) + multiset{inbox[i]} == multiset(inbox)
  {
    assert inbox == inbox[..i] + [inbox[i]] + inbox[i + 1..];
  }

  lemma PutOne(inbox: seq<Data>, d: Data)
    ensures multiset(inbox + [d]) == multiset(inbox) + multiset{d}
  {
  }

  lemma InboxAfter(s: State, step: Step)
    requires CanStep(s, step)
    ensures multiset(Next(s, step).inbox) + TriedBy(s, step) == multiset(s.inbox) + ReadBy(step)
  {
    if step.Try? {
      TakeOne(s.inbox, step.i);
    } else if step.ReadData? {
      PutOne(s.inbox, step.data);
    } else {
      assert Next(s, step).inbox == s.inbox;
    }
  }

  lemma Balance(a: multiset<Data>, b: multiset<Data>, tried: multiset<Data>, more: multiset<Data>,
                read: multiset<Data>, arrived: multiset<Data>)
    requires a + tried == read && b + more == a + arrived
    ensures b + (tried + more) == read + arrived
  {
    assert b + (tried + more) == b + more + tried;
    assert a + arrived + tried == a + tried + arrived;
  }

  /** In every run all data read is handled once or still waits: none is lost, changed or doubled. */
  lemma {:induction false} DataIsHandledOnce(run: seq<State>, steps: seq<Step>, i: nat)
    requires IsRun(run, steps) && i < |run|
    ensures multiset(run[i].inbox) + DataTried(run, steps, i) == DataRead(steps, i)
  {
    if i > 0 {
      var s, step := run[i - 1], steps[i - 1];
      DataIsHandledOnce(run, steps, i - 1);
      InboxAfter(s, step);
      Balance(multiset(s.inbox), multiset(run[i].inbox), DataTried(run, steps, i - 1), TriedBy(s, step),
              DataRead(steps, i - 1), ReadBy(step));
    }
  }

  // ---- The read callback as a whole.

  /** The read callback, undisturbed, is its steps: read, try, and the catch block if it comes to that. */
  ghost function Undisturbed(s: State, d: Data, order: seq<Msgid>): State
    requires Inv(s) && s.reading > 0 && IsOrder(order, s.table.requests.Keys)
  {
    InvStep(s, ReadData(d));
    var a := Next(s, ReadData(d));
    InvStep(a, Try(|s.inbox|));
    var b := Next(a, Try(|s.inbox|));
    if b.catching > s.catching then Next(b, Catch(order)) else b
  }

  /** The state after the try block. */
  ghost function AfterTry(s: State, f: Received): State {
    s.(table := f.table, posted := s.posted + f.posted,
       catching := s.catching + Count(f.exit.Caught?), escaped := s.escaped + Count(f.exit.Escapes?))
  }

  lemma UndisturbedTry(s: State, d: Data)
    requires CanStep(s, ReadData(d)) && CanStep(Next(s, ReadData(d)), Try(|s.inbox|))
    ensures Next(Next(s, ReadData(d)), Try(|s.inbox|)) == AfterTry(s, Receive(s.table, d))
  {
    var i := |s.inbox|;
    assert (s.inbox + [d])[..i] + (s.inbox + [d])[i + 1..] == s.inbox;
  }

  lemma UndisturbedEnd(s: State, f: Received, order: seq<Msgid>)
    requires f.table.Valid() && IsOrder(order, f.table.requests.Keys)
    requires |f.table.promises| == |s.pcs| == |s.wanted|
    ensures f.exit.Caught? ==> Next(AfterTry(s, f), Catch(order)) == After(s, AfterReceived(f, order))
    ensures !f.exit.Caught? ==> AfterTry(s, f) == After(s, AfterReceived(f, order))
  {
    if f.exit.Caught? {
      PostedTwice(s.posted, f.posted, Sweep(f.table, order, NoError).posted);
    }
  }

  lemma PostedTwice(a: seq<Delivery>, b: seq<Delivery>, c: seq<Delivery>)
    ensures a + b + c == a + (b + c)
  {
  }

  /** Alone, the steps of the read callback have together the effect the client object's method has. */
  lemma UndisturbedRead(s: State, d: Data, order: seq<Msgid>)
    requires Inv(s) && s.reading > 0 && IsOrder(order, s.table.requests.Keys)
    ensures s.table.Valid() && Undisturbed(s, d, order) == After(s, HandleData(s.table, d, order))
  {
    InvStep(s, ReadData(d));
    InvStep(Next(s, ReadData(d)), Try(|s.inbox|));
    UndisturbedTry(s, d);
    UndisturbedEnd(s, Receive(s.table, d), order);
  }
}
