/**
 The client as a state machine. A step is one atomic piece of the code: the atomic
 fetch_add, a section under the client's mutex, or a callback of the connector. Any
 thread may take any enabled step, so the runs are all interleavings.
 */
module Protocol {
  import opened Wire
  import opened Future
  import opened Requests

  /** The method and parameters of one async_request call. */
  datatype Wanted = Wanted(name: string, params: seq<Obj>)

  /** The request packed under a message ID. */
  function Packed(w: Wanted, id: Msgid): Obj {
    PackRequest(id, w.name, Arr(w.params))
  }

  /** Where the request loop of one async_request call is; with an ID it holds the packed request. */
  datatype Pc = Fetching | Holding(id: Msgid, msg: Obj) | Registered(id: Msgid)

  datatype State = State(
    next: Msgid,                   // the atomic counter
    fetches: nat,                  // how often it was incremented
    table: Table,                  // registered requests and all promises
    pcs: seq<Pc>,                  // one per async_request call, like the promises
    wanted: seq<Wanted>,           // what each call requests
    sent: map<nat, Obj>,           // what was handed to the connector for each call
    writes: map<Msgid, nat>,       // write callbacks not called yet, and who registered them
    reading: nat,                  // read callbacks not called yet
    inbox: seq<Data>,              // data read, its try block not run yet
    catching: nat,                 // threads between leaving a try block and their catch sweep
    escaped: nat,                  // exceptions that left a callback
    posted: seq<Delivery>)         // the tasks posted to the thread pool

  const INIT := State(0, 0, Table(map[], []), [], [], map[], map[], 0, [], 0, 0, [])

  datatype Step =
    | Request(w: Wanted)                             // async_request is called
    | Fetch(r: nat)                                  // fetch_add of its loop, and the packing
    | Register(r: nat)                               // emplace, and the write if it succeeded
    | WriteDone(id: Msgid)
    | WriteFailed(id: Msgid, error: ErrorInfo)
    | Start                                          // start() issues a read
    | ReadFailed(error: ErrorInfo, order: seq<Msgid>)
    | ReadData(data: Data)                           // issues the next read, then goes on
    | Try(i: nat)
    | Catch(order: seq<Msgid>)                       // sweeps with the empty error
    | Attach(r: nat, handler: Option<Handler>)       // then() on the returned future

  ghost predicate Enabled(s: State, step: Step) {
    match step
    case Request(_) => true
    case Fetch(r) => r < |s.pcs| && s.pcs[r].Fetching?
    case Register(r) => r < |s.pcs| && s.pcs[r].Holding?
    case WriteDone(id) => id in s.writes
    case WriteFailed(id, e) => id in s.writes && e.Failure?
    case Start => true
    case ReadFailed(e, order) => s.reading > 0 && e.Failure? && IsOrder(order, s.table.requests.Keys)
    case ReadData(d) => s.reading > 0
    case Try(i) => i < |s.inbox|
    case Catch(order) => s.catching > 0 && IsOrder(order, s.table.requests.Keys)
    case Attach(r, h) => r < |s.pcs| && s.pcs[r].Registered?
  }

  function Count(b: bool): nat { if b then 1 else 0 }

  /** The state after a callback with this effect. */
  function After(s: State, f: Effect): State {
    s.(table := f.table, posted := s.posted + f.posted, escaped := s.escaped + Count(f.thrown))
  }

  ghost function Next(s: State, step: Step): State
    requires s.table.Valid() && |s.table.promises| == |s.pcs| == |s.wanted| && Enabled(s, step)
  {
    match step
    case Request(w) => s.(pcs := s.pcs + [Fetching], wanted := s.wanted + [w], table := Requesting(s.table))
    case Fetch(r) =>
      s.(pcs := s.pcs[r := Holding(s.next, Packed(s.wanted[r], s.next))],
         next := (s.next + 1) % MSGID_MODULUS, fetches := s.fetches + 1)
    case Register(r) =>
      var id := s.pcs[r].id;
      if id in s.table.requests then s.(pcs := s.pcs[r := Fetching])
      else s.(pcs := s.pcs[r := Registered(id)], table := Entering(s.table, id, r),
              writes := s.writes[id := r], sent := s.sent[r := s.pcs[r].msg])
    case WriteDone(id) => s.(writes := s.writes - {id})
    case WriteFailed(id, e) => After(s.(writes := s.writes - {id}), FailWrite(s.table, id, e))
    case Start => s.(reading := s.reading + 1)
    case ReadFailed(e, order) => After(s.(reading := s.reading - 1), Sweep(s.table, order, e))
    case ReadData(d) => s.(inbox := s.inbox + [d])
    case Try(i) =>
      var f := Receive(s.table, s.inbox[i]);
      s.(inbox := s.inbox[..i] + s.inbox[i + 1..], table := f.table, posted := s.posted + f.posted,
         catching := s.catching + Count(f.exit.Caught?), escaped := s.escaped + Count(f.exit.Escapes?))
    case Catch(order) => After(s.(catching := s.catching - 1), Sweep(s.table, order, NoError))
    case Attach(r, h) =>
      var f := CallOn(s.table, r, SetHandler(h));
      s.(table := f.table, posted := s.posted + f.posted)
  }

  // ---- The invariant.

  /** Promises of unregistered requests are untouched; responses reach only the promise
      registered under their message ID. */
  ghost predicate PromiseOk(pc: Pc, p: Promise) {
    && (!pc.Registered? ==> p == [])
    && (forall k :: 0 <= k < |p| && p[k].SetResponse? ==>
          p[k].msg.mtype == RESPONSE && pc == Registered(p[k].msg.msgid))
  }

  ghost predicate TableOk(t: Table, pcs: seq<Pc>) {
    && |t.promises| == |pcs|
    && (forall id :: id in t.requests ==> t.requests[id] < |pcs| && pcs[t.requests[id]] == Registered(id))
    && (forall r :: 0 <= r < |pcs| ==> PromiseOk(pcs[r], t.promises[r]))
  }

  ghost predicate Inv(s: State) {
    && TableOk(s.table, s.pcs) && |s.wanted| == |s.pcs|
    && s.next == s.fetches % MSGID_MODULUS
    && (forall id :: id in s.writes ==> id in s.table.requests && s.table.requests[id] == s.writes[id])
  }

  lemma TableOkFacts(t: Table, pcs: seq<Pc>)
    requires TableOk(t, pcs)
    ensures t.Valid() && t.Injective()
  {
  }

  lemma PromiseOkMore(pc: Pc, p: Promise, call: Call)
    requires PromiseOk(pc, p) && pc.Registered?
    requires call.SetResponse? ==> call.msg.mtype == RESPONSE && pc == Registered(call.msg.msgid)
    ensures PromiseOk(pc, p + [call])
  {
  }

  lemma CallKeepsTable(t: Table, pcs: seq<Pc>, r: nat, call: Call)
    requires TableOk(t, pcs) && r < |pcs| && pcs[r].Registered?
    requires call.SetResponse? ==> call.msg.mtype == RESPONSE && pcs[r] == Registered(call.msg.msgid)
    ensures TableOk(CallOn(t, r, call).table, pcs)
  {
    PromiseOkMore(pcs[r], t.promises[r], call);
  }

  lemma FailKeepsTable(t: Table, pcs: seq<Pc>, id: Msgid, e: ErrorInfo)
    requires TableOk(t, pcs)
    ensures t.Valid() && TableOk(FailWrite(t, id, e).table, pcs)
  {
    if id in t.requests {
      CallKeepsTable(t, pcs, t.requests[id], SetError(e));
    }
  }

  lemma ReceiveKeepsTable(t: Table, pcs: seq<Pc>, d: Data)
    requires TableOk(t, pcs)
    ensures t.Valid() && TableOk(Receive(t, d).table, pcs)
  {
    var parsed := ParseData(d);
    if parsed.Ok? && parsed.msg.mtype == RESPONSE && parsed.msg.msgid in t.requests {
      CallKeepsTable(t, pcs, t.requests[parsed.msg.msgid], SetResponse(parsed.msg));
    }
  }

  lemma SweepKeepsTable(t: Table, pcs: seq<Pc>, order: seq<Msgid>, e: ErrorInfo)
    requires TableOk(t, pcs) && IsOrder(order, t.requests.Keys)
    ensures t.Valid() && TableOk(Sweep(t, order, e).table, pcs)
  {
    TableOkFacts(t, pcs);
    TargetsAreDistinct(t, order);
    var rs := Targets(t, order);
    SweepIsSweepOfPromises(t, order, e);
    SweepAppends(t.promises, rs, e);
    var after := SweepPromises(t.promises, rs, e).promises;
    forall r | 0 <= r < |pcs|
      ensures PromiseOk(pcs[r], after[r])
    {
      if after[r] != t.promises[r] {
        var i :| 0 <= i < |rs| && rs[i] == r;
        assert pcs[r] == Registered(order[i]);
        PromiseOkMore(pcs[r], t.promises[r], SetError(e));
      }
    }
  }

  lemma RequestKeepsInv(s: State, w: Wanted)
    requires Inv(s)
    ensures s.table.Valid() && Inv(Next(s, Request(w)))
  {
  }

  lemma FetchKeepsInv(s: State, r: nat)
    requires Inv(s) && Enabled(s, Fetch(r))
    ensures s.table.Valid() && Inv(Next(s, Fetch(r)))
  {
    PcKeepsTable(s.table, s.pcs, r, Holding(s.next, Packed(s.wanted[r], s.next)));
    CounterNext(s.fetches);
  }

  lemma CounterNext(n: nat)
    ensures (n % MSGID_MODULUS + 1) % MSGID_MODULUS == (n + 1) % MSGID_MODULUS
  {
    assert n == MSGID_MODULUS * (n / MSGID_MODULUS) + n % MSGID_MODULUS;
  }

  lemma PcKeepsTable(t: Table, pcs: seq<Pc>, r: nat, pc: Pc)
    requires TableOk(t, pcs) && r < |pcs| && !pcs[r].Registered?
    ensures TableOk(t, pcs[r := pc])
  {
    assert PromiseOk(pcs[r], t.promises[r]);
  }

  lemma EntryKeepsTable(t: Table, pcs: seq<Pc>, r: nat, id: Msgid)
    requires TableOk(t, pcs) && r < |pcs| && pcs[r] == Registered(id)
    ensures TableOk(Entering(t, id, r), pcs)
  {
  }

  lemma RegisterKeepsInv(s: State, r: nat)
    requires Inv(s) && Enabled(s, Register(r))
    ensures s.table.Valid() && Inv(Next(s, Register(r)))
  {
    var id := s.pcs[r].id;
    if id in s.table.requests {
      PcKeepsTable(s.table, s.pcs, r, Fetching);
    } else {
      PcKeepsTable(s.table, s.pcs, r, Registered(id));
      EntryKeepsTable(s.table, s.pcs[r := Registered(id)], r, id);
    }
  }

  /** Every step keeps the invariant. */
  lemma InvStep(s: State, step: Step)
    requires Inv(s) && Enabled(s, step)
    ensures s.table.Valid() && Inv(Next(s, step))
  {
    match step
    case Request(w) => RequestKeepsInv(s, w);
    case Fetch(r) => FetchKeepsInv(s, r);
    case Register(r) => RegisterKeepsInv(s, r);
    case WriteFailed(id, e) => FailKeepsTable(s.table, s.pcs, id, e);
    case ReadFailed(e, order) => SweepKeepsTable(s.table, s.pcs, order, e);
    case Catch(order) => SweepKeepsTable(s.table, s.pcs, order, NoError);
    case Try(i) => ReceiveKeepsTable(s.table, s.pcs, s.inbox[i]);
    case Attach(r, h) => CallKeepsTable(s.table, s.pcs, r, SetHandler(h));
    case _ =>
  }

  // ---- Runs.

  ghost predicate CanStep(s: State, step: Step) {
    s.table.Valid() && |s.table.promises| == |s.pcs| == |s.wanted| && Enabled(s, step)
  }

  ghost predicate IsRun(run: seq<State>, steps: seq<Step>) {
    && |run| == |steps| + 1 && run[0] == INIT
    && forall i :: 0 <= i < |steps| ==> CanStep(run[i], steps[i]) && run[i + 1] == Next(run[i], steps[i])
  }

  lemma {:induction false} RunsKeepInv(run: seq<State>, steps: seq<Step>, i: nat)
    requires IsRun(run, steps) && i < |run|
    ensures Inv(run[i])
  {
    if i > 0 {
      RunsKeepInv(run, steps, i - 1);
      InvStep(run[i - 1], steps[i - 1]);
    }
  }

  /** In every interleaving a promise is settled at most once and delivered at most once, and a
      response only ever reaches the request registered under its message ID, whether a handler is
      attached yet or not. */
  lemma NoRequestReceivesAnothersResponse(run: seq<State>, steps: seq<Step>, i: nat, r: nat)
    requires IsRun(run, steps) && i < |run| && r < |run[i].pcs|
    ensures |run[i].table.promises| == |run[i].pcs|
    ensures var p := run[i].table.promises[r];
      && AcceptedResults(p) <= 1
      && |PostedBy(p)| <= 1
      && (forall k :: 0 <= k < |p| && p[k].SetResponse? ==> run[i].pcs[r] == Registered(p[k].msg.msgid))
      && (PostedBy(p) != [] ==>
            var d := PostedBy(p)[0];
            if d.msg == DEFAULT_MESSAGE then exists k :: 0 <= k < |p| && p[k] == SetError(d.error)
            else d.error == NoError && d.msg.mtype == RESPONSE && run[i].pcs[r] == Registered(d.msg.msgid))
  {
    RunsKeepInv(run, steps, i);
    var p := run[i].table.promises[r];
    assert PromiseOk(run[i].pcs[r], p);
    SettledAtMostOnce(p);
    DeliveredExactlyOnce(p);
    if PostedBy(p) != [] {
      var k: nat, j: nat :| FirstResult(p, k) && FirstHandler(p, j) && (p[j].handler.Some? || k < j);
      assert PostedBy(p) == Expected(p, k, j);
    }
  }

  /** The lookup of a pending write callback never misses and finds the promise of the very
      request that issued the write, also after IDs wrapped or were reused. */
  lemma PendingWritesFindTheirRequest(run: seq<State>, steps: seq<Step>, i: nat, id: Msgid)
    requires IsRun(run, steps) && i < |run| && id in run[i].writes
    ensures id in run[i].table.requests
    ensures run[i].table.requests[id] == run[i].writes[id] < |run[i].pcs|
    ensures run[i].pcs[run[i].writes[id]] == Registered(id)
  {
    RunsKeepInv(run, steps, i);
  }

  // ---- What stays over whole runs, past any number of wrap-arounds.

  lemma FailRemovesOnlyItsEntry(t: Table, id: Msgid, e: ErrorInfo)
    requires t.Valid()
    ensures FailWrite(t, id, e).table.requests == t.requests
      || FailWrite(t, id, e).table.requests == t.requests - {id}
  {
  }

  lemma StepKeepsEntry(s: State, step: Step, id: Msgid)
    requires CanStep(s, step) && id in s.table.requests
    ensures var after := Next(s, step).table.requests;
      (id in after && after[id] == s.table.requests[id])
      || (step.WriteFailed? && step.id == id && id !in after)
  {
    match step
    case WriteFailed(w, e) => FailRemovesOnlyItsEntry(s.table, w, e);
    case Register(r) =>
    case _ => assert Next(s, step).table.requests == s.table.requests;
  }

  /** Step k is the failed write of request r, and takes its entry away. */
  ghost predicate FreesId(run: seq<State>, steps: seq<Step>, k: nat, id: Msgid, r: nat) {
    && k < |steps| < |run| && steps[k].WriteFailed? && steps[k].id == id
    && id in run[k].table.requests && run[k].table.requests[id] == r
    && id !in run[k + 1].table.requests
  }

  lemma EntryStaysOrGoes(run: seq<State>, steps: seq<Step>, k: nat, id: Msgid, r: nat)
    requires IsRun(run, steps) && k < |steps| && LeadsTo(run[k], id, r)
    ensures LeadsTo(run[k + 1], id, r) || FreesId(run, steps, k, id, r)
  {
    StepKeepsEntry(run[k], steps[k], id);
  }

  /** The failed write of request r freed its ID between two moments. */
  ghost predicate Freed(run: seq<State>, steps: seq<Step>, i: nat, j: nat, id: Msgid, r: nat) {
    exists k: nat :: i <= k < j && FreesId(run, steps, k, id, r)
  }

  ghost predicate LeadsTo(s: State, id: Msgid, r: nat) {
    id in s.table.requests && s.table.requests[id] == r
  }

  lemma FreedEarlier(run: seq<State>, steps: seq<Step>, i: nat, j: nat, id: Msgid, r: nat)
    requires i < j && (Freed(run, steps, i + 1, j, id, r) || FreesId(run, steps, i, id, r))
    ensures Freed(run, steps, i, j, id, r)
  {
  }

  /** Between any two moments of a run, an ID leads to the same request, unless the failed write of
      that very request came between. */
  lemma {:induction false} EntriesAreStable(run: seq<State>, steps: seq<Step>, i: nat, j: nat, id: Msgid, r: nat)
    requires IsRun(run, steps) && i <= j < |run| && LeadsTo(run[i], id, r)
    ensures LeadsTo(run[j], id, r) || Freed(run, steps, i, j, id, r)
    decreases j - i
  {
    if i < j {
      EntryStaysOrGoes(run, steps, i, id, r);
      if LeadsTo(run[i + 1], id, r) {
        EntriesAreStable(run, steps, i + 1, j, id, r);
      }
      if !LeadsTo(run[j], id, r) {
        FreedEarlier(run, steps, i, j, id, r);
      }
    }
  }

  /** The call a step makes on a promise, if it makes one. */
  ghost predicate Makes(step: Step, call: Call) {
    match step
    case WriteFailed(_, e) => call == SetError(e)
    case ReadFailed(e, _) => call == SetError(e)
    case Catch(_) => call == SetError(NoError)
    case Try(_) => call.SetResponse?
    case Attach(_, h) => call == SetHandler(h)
    case _ => false
  }

  /** A step makes at most one call on each promise. */
  ghost predicate Extends(step: Step, p: Promise, q: Promise) {
    q == p || exists call :: Makes(step, call) && q == p + [call]
  }

  lemma SweepExtends(t: Table, pcs: seq<Pc>, order: seq<Msgid>, e: ErrorInfo, r: nat)
    requires TableOk(t, pcs) && IsOrder(order, t.requests.Keys) && r < |t.promises|
    ensures t.Valid()
    ensures var q := Sweep(t, order, e).table.promises[r]; q == t.promises[r] || q == t.promises[r] + [SetError(e)]
  {
    TableOkFacts(t, pcs);
    TargetsAreDistinct(t, order);
    SweepIsSweepOfPromises(t, order, e);
    SweepAppends(t.promises, Targets(t, order), e);
  }

  lemma FailExtends(t: Table, id: Msgid, e: ErrorInfo, r: nat)
    requires t.Valid() && r < |t.promises|
    ensures var q := FailWrite(t, id, e).table.promises[r]; q == t.promises[r] || q == t.promises[r] + [SetError(e)]
  {
  }

  lemma ReceiveExtends(t: Table, d: Data, r: nat)
    requires t.Valid() && r < |t.promises|
    ensures var q := Receive(t, d).table.promises[r];
      q == t.promises[r] || exists m :: q == t.promises[r] + [SetResponse(m)]
  {
    var parsed, q := ParseData(d), Receive(t, d).table.promises[r];
    assert q == t.promises[r] || (parsed.Ok? && q == t.promises[r] + [SetResponse(parsed.msg)]);
  }

  lemma TryExtends(s: State, i: nat, r: nat)
    requires CanStep(s, Try(i)) && r < |s.pcs|
    ensures Extends(Try(i), s.table.promises[r], Next(s, Try(i)).table.promises[r])
  {
    ReceiveExtends(s.table, s.inbox[i], r);
    var p, q := s.table.promises[r], Next(s, Try(i)).table.promises[r];
    if q != p {
      var m :| q == p + [SetResponse(m)];
      assert Makes(Try(i), SetResponse(m));
    }
  }

  lemma CallExtends(step: Step, p: Promise, call: Call, q: Promise)
    requires Makes(step, call) && (q == p || q == p + [call])
    ensures Extends(step, p, q)
  {
  }

  lemma StepExtendsPromises(s: State, step: Step, r: nat)
    requires Inv(s) && Enabled(s, step) && r < |s.pcs|
    ensures s.table.Valid() && r < |Next(s, step).table.promises|
    ensures Extends(step, s.table.promises[r], Next(s, step).table.promises[r])
  {
    TableOkFacts(s.table, s.pcs);
    var p, q := s.table.promises[r], Next(s, step).table.promises[r];
    match step
    case WriteFailed(id, e) =>
      FailExtends(s.table, id, e, r);
      CallExtends(step, p, SetError(e), q);
    case ReadFailed(e, order) =>
      SweepExtends(s.table, s.pcs, order, e, r);
      CallExtends(step, p, SetError(e), q);
    case Catch(order) =>
      SweepExtends(s.table, s.pcs, order, NoError, r);
      CallExtends(step, p, SetError(NoError), q);
    case Attach(a, h) => CallExtends(step, p, SetHandler(h), q);
    case Try(i) => TryExtends(s, i, r);
    case _ => assert q == p;
  }

  lemma StepKeepsPc(s: State, step: Step, r: nat)
    requires CanStep(s, step) && r < |s.pcs|
    ensures r < |Next(s, step).pcs| && (s.pcs[r].Registered? ==> Next(s, step).pcs[r] == s.pcs[r])
  {
    match step
    case Request(_) => assert Next(s, step).pcs == s.pcs + [Fetching];
    case _ =>
  }

  /** What one request looks like later: it keeps its ID, and its promise keeps its record. */
  ghost predicate Later(s: State, s': State, r: nat) {
    && r < |s.pcs| && r < |s.table.promises| && r < |s'.pcs| && r < |s'.table.promises|
    && s.table.promises[r] <= s'.table.promises[r]
    && (s.pcs[r].Registered? ==> s'.pcs[r] == s.pcs[r])
  }

  lemma ExtendsIsPrefix(step: Step, p: Promise, q: Promise)
    requires Extends(step, p, q)
    ensures p <= q
  {
  }

  lemma StepIsLater(run: seq<State>, steps: seq<Step>, k: nat, r: nat)
    requires IsRun(run, steps) && k < |steps| && r < |run[k].pcs|
    ensures Later(run[k], run[k + 1], r)
  {
    RunsKeepInv(run, steps, k);
    StepKeepsPc(run[k], steps[k], r);
    StepExtendsPromises(run[k], steps[k], r);
    ExtendsIsPrefix(steps[k], run[k].table.promises[r], run[k + 1].table.promises[r]);
  }

  lemma LaterThen(a: State, b: State, c: State, r: nat)
    requires Later(a, b, r) && Later(b, c, r)
    ensures Later(a, c, r)
  {
  }

  lemma {:induction false} StaysLater(run: seq<State>, steps: seq<Step>, i: nat, j: nat, r: nat)
    requires IsRun(run, steps) && i <= j < |run| && r < |run[i].pcs|
    ensures Later(run[i], run[j], r)
    decreases j - i
  {
    if i == j {
      RunsKeepInv(run, steps, i);
    } else {
      StepIsLater(run, steps, i, r);
      StaysLater(run, steps, i + 1, j, r);
      LaterThen(run[i], run[i + 1], run[j], r);
    }
  }

  /** A registered request keeps its message ID for good: at every later moment at most that ID leads
      to it. Everything ever done to its promise stays on record. */
  lemma RegisteredForGood(run: seq<State>, steps: seq<Step>, i: nat, j: nat, r: nat)
    requires IsRun(run, steps) && i <= j < |run| && r < |run[i].pcs|
    ensures r < |run[i].table.promises| && r < |run[j].table.promises| == |run[j].pcs|
    ensures run[i].table.promises[r] <= run[j].table.promises[r]
    ensures run[i].pcs[r].Registered? ==> run[j].pcs[r] == run[i].pcs[r]
    ensures forall id :: id in run[j].table.requests && run[j].table.requests[id] == r ==>
      run[j].pcs[r] == Registered(id)
  {
    StaysLater(run, steps, i, j, r);
    RunsKeepInv(run, steps, j);
  }

  // ---- Which step settled a promise.

  /** Step k is the one that settles request r. */
  ghost predicate SettledAt(run: seq<State>, steps: seq<Step>, r: nat, k: nat) {
    && k < |steps| < |run| && r < |run[k].table.promises| && r < |run[k + 1].table.promises|
    && Results(run[k].table.promises[r]) == [] && Results(run[k + 1].table.promises[r]) != []
  }

  lemma ExtendedResults(step: Step, p: Promise, q: Promise)
    requires Extends(step, p, q)
    ensures Results(p) <= Results(q)
    ensures Results(p) == [] && Results(q) != [] ==>
      |Results(q)| == 1 && Makes(step, Results(q)[0]) && Results(q)[0].IsResult()
  {
    if q != p {
      var call :| Makes(step, call) && q == p + [call];
      ResultsOneMore(p, call);
    }
  }

  lemma NewPromiseIsEmpty(s: State, step: Step, r: nat)
    requires CanStep(s, step) && r < |Next(s, step).table.promises|
    ensures r < |s.pcs| || Next(s, step).table.promises[r] == []
  {
    if step.Request? {
      assert Next(s, step).table.promises == s.table.promises + [[]];
    } else {
      assert |Next(s, step).table.promises| == |s.table.promises|;
    }
  }

  /** A settled promise was settled by one step, with the call that step makes. */
  lemma {:induction false} SettledBySomeStep(run: seq<State>, steps: seq<Step>, i: nat, r: nat) returns (k: nat)
    requires IsRun(run, steps) && i < |run| && r < |run[i].table.promises|
    requires Results(run[i].table.promises[r]) != []
    ensures k < i && SettledAt(run, steps, r, k)
    ensures Makes(steps[k], Results(run[i].table.promises[r])[0])
  {
    RunsKeepInv(run, steps, i);
    k := i - 1;
    RunsKeepInv(run, steps, k);
    NewPromiseIsEmpty(run[k], steps[k], r);
    StepExtendsPromises(run[k], steps[k], r);
    ExtendedResults(steps[k], run[k].table.promises[r], run[i].table.promises[r]);
    if Results(run[k].table.promises[r]) != [] {
      k := SettledBySomeStep(run, steps, k, r);
    }
  }

  /** Only one step settles a promise, and its first result is what that step brought. */
  lemma SettledByThisStep(run: seq<State>, steps: seq<Step>, i: nat, r: nat, k: nat)
    requires IsRun(run, steps) && i < |run| && k < i && SettledAt(run, steps, r, k)
    ensures r < |run[i].table.promises| && Results(run[i].table.promises[r]) != []
    ensures Makes(steps[k], Results(run[i].table.promises[r])[0])
  {
    RunsKeepInv(run, steps, k);
    RunsKeepInv(run, steps, k + 1);
    StepExtendsPromises(run[k], steps[k], r);
    ExtendedResults(steps[k], run[k].table.promises[r], run[k + 1].table.promises[r]);
    RegisteredForGood(run, steps, k + 1, i, r);
    ResultsOfPrefix(run[k + 1].table.promises[r], run[i].table.promises[r]);
  }

  /** In every run: the first result of a promise is the empty error exactly when a catch sweep
      settled it. */
  lemma EmptyErrorIffCatch(run: seq<State>, steps: seq<Step>, i: nat, r: nat)
    requires IsRun(run, steps) && i < |run| && r < |run[i].table.promises|
    ensures (Results(run[i].table.promises[r]) != [] && Results(run[i].table.promises[r])[0] == SetError(NoError))
      <==> exists k: nat :: k < i && SettledAt(run, steps, r, k) && steps[k].Catch?
  {
    if Results(run[i].table.promises[r]) != [] {
      var k := SettledBySomeStep(run, steps, i, r);
      assert CanStep(run[k], steps[k]);
    }
    if k: nat :| k < i && SettledAt(run, steps, r, k) && steps[k].Catch? {
      SettledByThisStep(run, steps, i, r, k);
    }
  }

  // ---- Exceptions that leave a callback.

  /** When a step makes an exception leave its callback. */
  ghost predicate Escaping(s: State, step: Step)
    requires CanStep(s, step)
  {
    match step
    case WriteFailed(id, _) => id in s.table.requests && Settled(s.table.promises[s.table.requests[id]])
    case ReadFailed(_, _) => AnySettled(s.table)
    case Catch(_) => AnySettled(s.table)
    case Try(i) => s.inbox[i].Truncated?
    case _ => false
  }

  ghost predicate AnySettled(t: Table)
    requires t.Valid()
  {
    exists id :: id in t.requests && Settled(t.promises[t.requests[id]])
  }

  /** In every run an exception leaves a callback exactly when a write fails after its request was
      settled, a sweep finds a settled entry, or data was truncated. A failed write takes the entry
      away exactly when no exception leaves it. */
  lemma ExceptionsEscapeIff(run: seq<State>, steps: seq<Step>, i: nat)
    requires IsRun(run, steps) && i < |steps|
    ensures CanStep(run[i], steps[i])
    ensures run[i + 1].escaped == run[i].escaped + Count(Escaping(run[i], steps[i]))
    ensures steps[i].WriteFailed? ==>
      (steps[i].id in run[i + 1].table.requests <==> Escaping(run[i], steps[i]))
  {
    RunsKeepInv(run, steps, i);
    var t := run[i].table;
    TableOkFacts(t, run[i].pcs);
    match steps[i]
    case WriteFailed(id, e) => FailedWriteThrowsIffSettled(t, id, e);
    case ReadFailed(e, order) => SweepIsCompleteIffNothingSettled(t, order, e);
    case Catch(order) => SweepIsCompleteIffNothingSettled(t, order, NoError);
    case Try(k) => ReceiveExits(t, run[i].inbox[k]);
    case _ =>
  }

  ghost predicate Sweeps(step: Step) {
    step.ReadFailed? || step.Catch?
  }

  /** In every run a sweep leaves a registered request unsettled exactly when it was unsettled and
      listed behind a settled one. */
  lemma SweepsMissExactly(run: seq<State>, steps: seq<Step>, i: nat, j: nat)
    requires IsRun(run, steps) && i < |steps| && Sweeps(steps[i]) && j < |steps[i].order|
    ensures CanStep(run[i], steps[i]) && |run[i].table.promises| <= |run[i + 1].table.promises|
    ensures var t, order := run[i].table, steps[i].order;
      !Settled(run[i + 1].table.promises[t.requests[order[j]]]) <==>
        !Settled(t.promises[t.requests[order[j]]])
        && exists l :: 0 <= l < j && Settled(t.promises[t.requests[order[l]]])
  {
    RunsKeepInv(run, steps, i);
    TableOkFacts(run[i].table, run[i].pcs);
    SweepMissesExactly(run[i].table, steps[i].order, if steps[i].Catch? then NoError else steps[i].error, j);
  }

  // ---- The thread pool's log.

  lemma NewPromiseConserves(ps: seq<Promise>)
    ensures Conserved(ps, ps + [[]], [])
  {
    TotalAppends(Logs(ps));
    assert Logs(ps + [[]]) == Logs(ps) + [[]];
  }

  lemma StepConserves(s: State, step: Step)
    requires CanStep(s, step)
    ensures s.posted <= Next(s, step).posted
    ensures Conserved(s.table.promises, Next(s, step).table.promises, Next(s, step).posted[|s.posted|..])
  {
    match step
    case Request(_) => NewPromiseConserves(s.table.promises);
    case WriteFailed(id, e) => FailWriteConserves(s.table, id, e);
    case ReadFailed(e, order) => SweepConserves(s.table, order, e);
    case Catch(order) => SweepConserves(s.table, order, NoError);
    case Try(i) => ReceiveConserves(s.table, s.inbox[i]);
    case Attach(r, h) => CallOnConserves(s.table, r, SetHandler(h));
    case _ => NothingConserved(s.table.promises);
  }

  /** In every run the tasks posted to the thread pool are exactly the deliveries of the promises. */
  lemma {:induction false} RunsConserveDeliveries(run: seq<State>, steps: seq<Step>, i: nat)
    requires IsRun(run, steps) && i < |run|
    ensures multiset(run[i].posted) == Deliveries(run[i].table.promises)
  {
    if i > 0 {
      RunsConserveDeliveries(run, steps, i - 1);
      StepConserves(run[i - 1], steps[i - 1]);
      var a, b := run[i - 1].posted, run[i].posted[|run[i - 1].posted|..];
      assert run[i].posted == a + b;
      assert multiset(a + b) == multiset(a) + multiset(b);
    }
  }

  // ---- What is written.

  /** A call holds and has written nothing but its own request under its own ID, and has written it
      exactly if it is registered. */
  ghost predicate CallOk(pc: Pc, w: Wanted, r: nat, sent: map<nat, Obj>) {
    match pc
    case Fetching => r !in sent
    case Holding(id, msg) => msg == Packed(w, id) && r !in sent
    case Registered(id) => r in sent && sent[r] == Packed(w, id)
  }

  ghost predicate SentOk(pcs: seq<Pc>, wanted: seq<Wanted>, sent: map<nat, Obj>) {
    && |wanted| == |pcs| && (forall r :: r in sent ==> r < |pcs|)
    && (forall r :: 0 <= r < |pcs| ==> CallOk(pcs[r], wanted[r], r, sent))
  }

  lemma PcKeepsSent(pcs: seq<Pc>, wanted: seq<Wanted>, sent: map<nat, Obj>, r: nat, pc: Pc)
    requires SentOk(pcs, wanted, sent) && r < |pcs| && CallOk(pc, wanted[r], r, sent)
    ensures SentOk(pcs[r := pc], wanted, sent)
  {
  }

  lemma WriteKeepsSent(pcs: seq<Pc>, wanted: seq<Wanted>, sent: map<nat, Obj>, r: nat)
    requires SentOk(pcs, wanted, sent) && r < |pcs| && pcs[r].Holding?
    ensures SentOk(pcs[r := Registered(pcs[r].id)], wanted, sent[r := pcs[r].msg])
  {
    assert CallOk(pcs[r], wanted[r], r, sent);
  }

  lemma NewCallIsSent(pcs: seq<Pc>, wanted: seq<Wanted>, sent: map<nat, Obj>, w: Wanted)
    requires SentOk(pcs, wanted, sent)
    ensures SentOk(pcs + [Fetching], wanted + [w], sent)
  {
  }

  lemma StepKeepsSent(s: State, step: Step)
    requires CanStep(s, step) && SentOk(s.pcs, s.wanted, s.sent)
    ensures var s' := Next(s, step); SentOk(s'.pcs, s'.wanted, s'.sent)
  {
    match step
    case Request(w) => NewCallIsSent(s.pcs, s.wanted, s.sent, w);
    case Fetch(r) =>
      assert CallOk(s.pcs[r], s.wanted[r], r, s.sent);
      PcKeepsSent(s.pcs, s.wanted, s.sent, r, Next(s, step).pcs[r]);
    case Register(r) =>
      assert CallOk(s.pcs[r], s.wanted[r], r, s.sent);
      if s.pcs[r].id in s.table.requests {
        PcKeepsSent(s.pcs, s.wanted, s.sent, r, Fetching);
      } else {
        WriteKeepsSent(s.pcs, s.wanted, s.sent, r);
      }
    case _ =>
  }

  lemma {:induction false} RunsKeepSent(run: seq<State>, steps: seq<Step>, i: nat)
    requires IsRun(run, steps) && i < |run|
    ensures SentOk(run[i].pcs, run[i].wanted, run[i].sent)
  {
    if i > 0 {
      RunsKeepSent(run, steps, i - 1);
      StepKeepsSent(run[i - 1], steps[i - 1]);
    }
  }

  /** In every run a request is written exactly if it is registered, and what is written parses to its
      own method and parameters under the very ID it is registered under, however often the loop had
      to fetch another one. */
  lemma WrittenAsRegistered(run: seq<State>, steps: seq<Step>, i: nat, r: nat)
    requires IsRun(run, steps) && i < |run|
    ensures r in run[i].sent <==> r < |run[i].pcs| && run[i].pcs[r].Registered?
    ensures r in run[i].sent ==>
      && r < |run[i].wanted|
      && Parse(run[i].sent[r]) == Ok(Message(REQUEST, run[i].pcs[r].id, run[i].wanted[r].name,
                                             Some(Arr(run[i].wanted[r].params)), None, None, run[i].sent[r]))
  {
    RunsKeepSent(run, steps, i);
    if r < |run[i].pcs| {
      assert CallOk(run[i].pcs[r], run[i].wanted[r], r, run[i].sent);
      if run[i].pcs[r].Registered? {
        RequestRoundTrip(run[i].pcs[r].id, run[i].wanted[r].name, Arr(run[i].wanted[r].params));
      }
    }
  }

  // ---- Message IDs in flight.

  predicate HasId(pc: Pc) { !pc.Fetching? }

  /** The IDs held and registered are below a bound and pairwise distinct. */
  ghost predicate DistinctBelow(pcs: seq<Pc>, bound: nat) {
    && (forall r :: 0 <= r < |pcs| && HasId(pcs[r]) ==> pcs[r].id < bound)
    && (forall r, q :: 0 <= r < q < |pcs| && HasId(pcs[r]) && HasId(pcs[q]) ==> pcs[r].id != pcs[q].id)
  }

  /** Until the counter has wrapped, the IDs held and registered are pairwise distinct. */
  ghost predicate IdsDistinct(s: State) {
    s.fetches <= MSGID_MODULUS ==> DistinctBelow(s.pcs, s.fetches)
  }

  lemma FetchKeepsDistinct(pcs: seq<Pc>, bound: nat, r: nat, msg: Obj)
    requires DistinctBelow(pcs, bound) && r < |pcs| && bound < MSGID_MODULUS
    ensures DistinctBelow(pcs[r := Holding(bound, msg)], bound + 1)
  {
  }

  lemma SameIdKeepsDistinct(pcs: seq<Pc>, bound: nat, r: nat, pc: Pc)
    requires DistinctBelow(pcs, bound) && r < |pcs|
    requires pc.Fetching? || (HasId(pcs[r]) && pc.id == pcs[r].id)
    ensures DistinctBelow(pcs[r := pc], bound)
  {
  }

  lemma FetchStaysDistinct(s: State, r: nat)
    requires Inv(s) && IdsDistinct(s) && CanStep(s, Fetch(r))
    ensures IdsDistinct(Next(s, Fetch(r)))
  {
    if s.fetches < MSGID_MODULUS {
      FetchKeepsDistinct(s.pcs, s.fetches, r, Packed(s.wanted[r], s.next));
    }
  }

  lemma RegisterStaysDistinct(s: State, r: nat)
    requires IdsDistinct(s) && CanStep(s, Register(r))
    ensures IdsDistinct(Next(s, Register(r)))
  {
    if s.fetches <= MSGID_MODULUS {
      SameIdKeepsDistinct(s.pcs, s.fetches, r, Next(s, Register(r)).pcs[r]);
    }
  }

  lemma RequestStaysDistinct(s: State, w: Wanted)
    requires IdsDistinct(s) && CanStep(s, Request(w))
    ensures IdsDistinct(Next(s, Request(w)))
  {
    assert Next(s, Request(w)).pcs == s.pcs + [Fetching];
  }

  lemma IdsStayDistinct(s: State, step: Step)
    requires Inv(s) && IdsDistinct(s) && Enabled(s, step)
    ensures s.table.Valid() && IdsDistinct(Next(s, step))
  {
    TableOkFacts(s.table, s.pcs);
    match step
    case Fetch(r) => FetchStaysDistinct(s, r);
    case Register(r) => RegisterStaysDistinct(s, r);
    case Request(w) => RequestStaysDistinct(s, w);
    case _ => assert Next(s, step).pcs == s.pcs && Next(s, step).fetches == s.fetches;
  }

  lemma {:induction false} RunsKeepIdsDistinct(run: seq<State>, steps: seq<Step>, i: nat)
    requires IsRun(run, steps) && i < |run|
    ensures IdsDistinct(run[i])
  {
    if i > 0 {
      RunsKeepInv(run, steps, i - 1);
      RunsKeepIdsDistinct(run, steps, i - 1);
      IdsStayDistinct(run[i - 1], steps[i - 1]);
    }
  }

  /** With at most 2^32 fetches in the whole run, every registration succeeds at the first try. */
  lemma RegistrationSucceedsAtFirstTry(run: seq<State>, steps: seq<Step>, i: nat)
    requires IsRun(run, steps) && i < |steps| && steps[i].Register?
    requires run[i].fetches <= MSGID_MODULUS
    ensures run[i + 1].pcs[steps[i].r] == Registered(run[i].pcs[steps[i].r].id)
  {
    RunsKeepInv(run, steps, i);
    RunsKeepIdsDistinct(run, steps, i);
    var s, r := run[i], steps[i].r;
    assert s.pcs[r].id !in s.table.requests;
  }
}
