/**
 The request table of the client: what each section under the client's lock does to the
 registered promises. A promise is represented by the calls made on its cell so far;
 Future.CellAfter gives the cell and Future.PostedBy the deliveries.
 */
module Requests {
  import opened Wire
  import opened Future

  type Promise = seq<Call>

  predicate Settled(p: Promise) {
    CellAfter(p).hasResponse
  }

  /** The registered requests, as positions in the sequence of all promises ever made. */
  datatype Table = Table(requests: map<Msgid, nat>, promises: seq<Promise>)
  {
    ghost predicate Valid() {
      forall id :: id in requests ==> requests[id] < |promises|
    }

    /** No two message IDs lead to the same promise. */
    ghost predicate Injective() {
      forall i, j :: i in requests && j in requests && requests[i] == requests[j] ==> i == j
    }
  }

  /** Calls are only ever added to the record of a promise. */
  ghost predicate Grows(ps: seq<Promise>, qs: seq<Promise>) {
    |ps| == |qs| && forall r :: 0 <= r < |ps| ==> ps[r] <= qs[r]
  }

  /** The table after a section of code, what it posted, and whether an exception left it. */
  datatype Effect = Effect(table: Table, posted: seq<Delivery>, thrown: bool)

  /** A new promise. */
  function Requesting(t: Table): Table {
    t.(promises := t.promises + [[]])
  }

  /** A promise entered under a message ID. */
  function Entering(t: Table, id: Msgid, r: nat): Table {
    t.(requests := t.requests[id := r])
  }

  function CallOn(t: Table, r: nat, call: Call): (f: Effect)
    requires r < |t.promises|
    ensures Grows(t.promises, f.table.promises) && f.table.requests == t.requests
  {
    var o := Apply(CellAfter(t.promises[r]), call);
    Effect(t.(promises := t.promises[r := t.promises[r] + [call]]), o.posted, o.thrown)
  }

  /** The failure branch of the write callback: the entry goes only if setting the error did not throw. */
  function FailWrite(t: Table, id: Msgid, e: ErrorInfo): (f: Effect)
    requires t.Valid()
    ensures Grows(t.promises, f.table.promises)
  {
    if id !in t.requests then Effect(t, [], true)
    else
      var f := CallOn(t, t.requests[id], SetError(e));
      if f.thrown then f else f.(table := f.table.(requests := f.table.requests - {id}))
  }

  /** How the try block of the read callback is left: normally, into its catch block, or by an
      exception that the catch block does not take. */
  datatype Exit = Returns | Caught | Escapes

  datatype Received = Received(table: Table, posted: seq<Delivery>, exit: Exit)

  /** The try block of the read callback. */
  function Receive(t: Table, d: Data): (f: Received)
    requires t.Valid()
    ensures Grows(t.promises, f.table.promises) && f.table.requests == t.requests
  {
    match ParseData(d)
    case Unhandled => Received(t, [], Escapes)
    case Err(_) => Received(t, [], Caught)
    case Ok(m) =>
      if m.mtype != RESPONSE then Received(t, [], Caught)
      else if m.msgid !in t.requests then Received(t, [], Returns)
      else
        var f := CallOn(t, t.requests[m.msgid], SetResponse(m));
        Received(f.table, f.posted, if f.thrown then Caught else Returns)
  }

  /** The write callback throws exactly when its request was settled before or is not registered; then
      the entry stays. Otherwise the request is settled with the error and its entry goes. */
  lemma FailedWriteThrowsIffSettled(t: Table, id: Msgid, e: ErrorInfo)
    requires t.Valid()
    ensures id !in t.requests ==> FailWrite(t, id, e) == Effect(t, [], true)
    ensures id in t.requests ==>
      var f, p := FailWrite(t, id, e), t.promises[t.requests[id]];
      && (f.thrown <==> Settled(p))
      && (if f.thrown then f.table.requests == t.requests && SameState(f.table.promises[t.requests[id]], p)
          else f.table.requests == t.requests - {id} && Settled(f.table.promises[t.requests[id]]))
  {
    if id in t.requests {
      AfterOneMore(t.promises[t.requests[id]], SetError(e));
    }
  }

  /** Reading data leads to the catch sweep exactly when it was decoded as no response, cannot be
      decoded, or answers a request that was settled before. Truncated data, and nothing else, makes
      an exception leave the callback without a sweep. A response to no request is ignored. */
  lemma ReceiveExits(t: Table, d: Data)
    requires t.Valid()
    ensures Receive(t, d).exit.Escapes? <==> d.Truncated?
    ensures Receive(t, d).exit.Caught? <==>
      && !d.Truncated?
      && ((forall id: Msgid :: !Answers(d, id))
          || (exists id: Msgid :: Answers(d, id) && id in t.requests && Settled(t.promises[t.requests[id]])))
    ensures forall id: Msgid :: Answers(d, id) && id !in t.requests ==> Receive(t, d) == Received(t, [], Returns)
  {
    forall id: Msgid | Answers(d, id)
      ensures ParseData(d).Ok? && ParseData(d).msg.mtype == RESPONSE && ParseData(d).msg.msgid == id
    {
      var error, result :| IsResponse(d.tree, id, error, result);
      ResponsesAreExactlyResponseTrees(d, id, error, result);
    }
    var parsed := ParseData(d);
    if parsed.Ok? && parsed.msg.mtype == RESPONSE {
      ResponsesAreExactlyResponseTrees(d, parsed.msg.msgid, parsed.msg.error.value, parsed.msg.result.value);
      assert Answers(d, parsed.msg.msgid);
    }
  }

  ghost predicate Answers(d: Data, id: Msgid) {
    d.Decoded? && IsReply(d.tree, id)
  }

  /** Any order in which a hash table may list its keys. */
  ghost predicate IsOrder(order: seq<Msgid>, keys: set<Msgid>) {
    && (forall i :: 0 <= i < |order| ==> order[i] in keys)
    && (forall id :: id in keys ==> id in order)
    && (forall i, j :: 0 <= i < j < |order| ==> order[i] != order[j])
  }

  /** The promises behind a list of registered IDs. */
  function Targets(t: Table, order: seq<Msgid>): (rs: seq<nat>)
    requires t.Valid() && forall i :: 0 <= i < |order| ==> order[i] in t.requests
    ensures |rs| == |order|
    ensures forall i :: 0 <= i < |rs| ==> rs[i] == t.requests[order[i]] < |t.promises|
  {
    seq(|order|, i requires 0 <= i < |order| => t.requests[order[i]])
  }

  ghost predicate Distinct(rs: seq<nat>) {
    forall i, j :: 0 <= i < j < |rs| ==> rs[i] != rs[j]
  }

  ghost predicate Within(rs: seq<nat>, n: nat) {
    forall i :: 0 <= i < |rs| ==> rs[i] < n
  }

  datatype Sweeping = Sweeping(promises: seq<Promise>, thrown: bool)

  /** The loop that sets an error on one promise after another, left by the first call that throws. */
  function SweepPromises(ps: seq<Promise>, rs: seq<nat>, e: ErrorInfo): (s: Sweeping)
    requires Within(rs, |ps|)
    ensures Grows(ps, s.promises)
    decreases |rs|
  {
    if rs == [] then Sweeping(ps, false)
    else
      var p := ps[rs[0]];
      var next := ps[rs[0] := p + [SetError(e)]];
      if Settled(p) then Sweeping(next, true) else SweepPromises(next, rs[1..], e)
  }

  /** The sweep over registered IDs. */
  function Sweep(t: Table, order: seq<Msgid>, e: ErrorInfo): (f: Effect)
    requires t.Valid() && forall i :: 0 <= i < |order| ==> order[i] in t.requests
    ensures Grows(t.promises, f.table.promises) && f.table.requests == t.requests
    decreases |order|
  {
    if order == [] then Effect(t, [], false)
    else
      var f := CallOn(t, t.requests[order[0]], SetError(e));
      if f.thrown then f
      else
        var rest := Sweep(f.table, order[1..], e);
        rest.(posted := f.posted + rest.posted)
  }

  lemma {:induction false} SweepIsSweepOfPromises(t: Table, order: seq<Msgid>, e: ErrorInfo)
    requires t.Valid() && forall i :: 0 <= i < |order| ==> order[i] in t.requests
    ensures var s, f := SweepPromises(t.promises, Targets(t, order), e), Sweep(t, order, e);
      f.table == t.(promises := s.promises) && f.thrown == s.thrown
    decreases |order|
  {
    if order != [] {
      var f := CallOn(t, t.requests[order[0]], SetError(e));
      SweepIsSweepOfPromises(f.table, order[1..], e);
      assert Targets(t, order)[1..] == Targets(f.table, order[1..]);
    }
  }

  /** How many promises come before the first settled one. */
  function Unsettled(ps: seq<Promise>, rs: seq<nat>): (k: nat)
    requires Within(rs, |ps|)
    ensures k <= |rs|
    ensures forall i :: 0 <= i < k ==> !Settled(ps[rs[i]])
    ensures k < |rs| ==> Settled(ps[rs[k]])
  {
    if rs == [] || Settled(ps[rs[0]]) then 0 else 1 + Unsettled(ps, rs[1..])
  }

  /** Two promises look the same to everyone: same cell, same deliveries. */
  ghost predicate SameState(p: Promise, q: Promise) {
    CellAfter(p) == CellAfter(q) && PostedBy(p) == PostedBy(q)
  }

  lemma SettledRejects(p: Promise, call: Call)
    requires Settled(p) && call.IsResult()
    ensures SameState(p + [call], p)
  {
    AfterOneMore(p, call);
  }

  /** The calls a sweep with k unsettled promises at the front makes: on those and on the next one. */
  ghost predicate Called(ps: seq<Promise>, rs: seq<nat>, e: ErrorInfo, k: nat, after: seq<Promise>)
    requires Within(rs, |ps|)
  {
    && |after| == |ps|
    && (forall i :: 0 <= i < |rs| ==>
          after[rs[i]] == if i <= k then ps[rs[i]] + [SetError(e)] else ps[rs[i]])
    && (forall r :: 0 <= r < |ps| && r !in rs ==> after[r] == ps[r])
  }

  lemma CalledFirst(ps: seq<Promise>, rs: seq<nat>, e: ErrorInfo, k: nat, after: seq<Promise>)
    requires Within(rs, |ps|) && Distinct(rs) && rs != []
    requires Called(ps[rs[0] := ps[rs[0]] + [SetError(e)]], rs[1..], e, k, after)
    ensures Called(ps, rs, e, k + 1, after)
  {
    var rest := rs[1..];
    forall i | 0 <= i < |rs|
      ensures after[rs[i]] == if i <= k + 1 then ps[rs[i]] + [SetError(e)] else ps[rs[i]]
    {
      if i == 0 {
        assert rs[0] !in rest;
      } else {
        assert rest[i - 1] == rs[i] != rs[0];
      }
    }
    assert forall r :: r in rest ==> r in rs;
  }

  lemma CalledOnlyFirst(ps: seq<Promise>, rs: seq<nat>, e: ErrorInfo)
    requires Within(rs, |ps|) && Distinct(rs) && rs != []
    ensures Called(ps, rs, e, 0, ps[rs[0] := ps[rs[0]] + [SetError(e)]])
  {
  }

  lemma {:induction false} SweepCalls(ps: seq<Promise>, rs: seq<nat>, e: ErrorInfo)
    requires Within(rs, |ps|) && Distinct(rs)
    ensures Called(ps, rs, e, Unsettled(ps, rs), SweepPromises(ps, rs, e).promises)
    ensures SweepPromises(ps, rs, e).thrown <==> Unsettled(ps, rs) < |rs|
    decreases |rs|
  {
    if rs != [] {
      if Settled(ps[rs[0]]) {
        CalledOnlyFirst(ps, rs, e);
      } else {
        var rest, next := rs[1..], ps[rs[0] := ps[rs[0]] + [SetError(e)]];
        assert forall i :: 0 <= i < |rest| ==> rest[i] == rs[i + 1] != rs[0];
        SweepCalls(next, rest, e);
        SameUnsettled(ps, next, rest);
        CalledFirst(ps, rs, e, Unsettled(ps, rest), SweepPromises(next, rest, e).promises);
      }
    }
  }

  lemma SweepAppends(ps: seq<Promise>, rs: seq<nat>, e: ErrorInfo)
    requires Within(rs, |ps|) && Distinct(rs)
    ensures var after := SweepPromises(ps, rs, e).promises;
      forall r :: 0 <= r < |ps| ==>
        after[r] == ps[r] || (r in rs && after[r] == ps[r] + [SetError(e)])
  {
    SweepCalls(ps, rs, e);
    var after := SweepPromises(ps, rs, e).promises;
    forall r | 0 <= r < |ps|
      ensures after[r] == ps[r] || (r in rs && after[r] == ps[r] + [SetError(e)])
    {
      if r in rs {
        var i :| 0 <= i < |rs| && rs[i] == r;
      }
    }
  }

  lemma {:induction false} SameUnsettled(ps: seq<Promise>, qs: seq<Promise>, rs: seq<nat>)
    requires |ps| == |qs| && Within(rs, |ps|)
    requires forall i :: 0 <= i < |rs| ==> ps[rs[i]] == qs[rs[i]]
    ensures Unsettled(ps, rs) == Unsettled(qs, rs)
  {
    if rs != [] {
      SameUnsettled(ps, qs, rs[1..]);
    }
  }

  /** The sweep settles exactly the promises before the first settled one; the others keep
      their cell and their deliveries. */
  lemma SweepSettlesUpToFirstSettled(ps: seq<Promise>, rs: seq<nat>, e: ErrorInfo)
    requires Within(rs, |ps|) && Distinct(rs)
    ensures var s, k := SweepPromises(ps, rs, e), Unsettled(ps, rs);
      && (s.thrown <==> k < |rs|)
      && (forall i :: 0 <= i < k ==>
            var o := Apply(CellAfter(ps[rs[i]]), SetError(e));
            && !o.thrown && CellAfter(s.promises[rs[i]]) == o.cell
            && PostedBy(s.promises[rs[i]]) == PostedBy(ps[rs[i]]) + o.posted)
      && (forall r :: 0 <= r < |ps| && r !in rs[..k] ==> SameState(s.promises[r], ps[r]))
  {
    SweepCalls(ps, rs, e);
    var s, k := SweepPromises(ps, rs, e), Unsettled(ps, rs);
    forall i | 0 <= i < k
      ensures CellAfter(s.promises[rs[i]]) == Apply(CellAfter(ps[rs[i]]), SetError(e)).cell
      ensures PostedBy(s.promises[rs[i]])
           == PostedBy(ps[rs[i]]) + Apply(CellAfter(ps[rs[i]]), SetError(e)).posted
    {
      AfterOneMore(ps[rs[i]], SetError(e));
    }
    forall r | 0 <= r < |ps| && r !in rs[..k]
      ensures SameState(s.promises[r], ps[r])
    {
      assert forall i :: 0 <= i < k ==> rs[..k][i] == rs[i];
      if i :| 0 <= i < |rs| && rs[i] == r {
        if i == k {
          SettledRejects(ps[r], SetError(e));
        }
      }
    }
  }

  lemma TargetsAreDistinct(t: Table, order: seq<Msgid>)
    requires t.Valid() && t.Injective() && IsOrder(order, t.requests.Keys)
    ensures Distinct(Targets(t, order))
  {
    forall i, j | 0 <= i < j < |order|
      ensures t.requests[order[i]] != t.requests[order[j]]
    {
      assert order[i] != order[j];
    }
  }

  /** For any iteration order: if nothing was settled every entry ends settled with the error
      and nothing is thrown; one settled entry makes an exception leave the loop. */
  lemma SweepIsCompleteIffNothingSettled(t: Table, order: seq<Msgid>, e: ErrorInfo)
    requires t.Valid() && t.Injective() && IsOrder(order, t.requests.Keys)
    ensures Sweep(t, order, e).thrown <==>
      exists id :: id in t.requests && Settled(t.promises[t.requests[id]])
    ensures !Sweep(t, order, e).thrown ==>
      forall id :: id in t.requests ==>
        var p := Sweep(t, order, e).table.promises[t.requests[id]];
        Settled(p) && p == t.promises[t.requests[id]] + [SetError(e)]
  {
    var rs := Targets(t, order);
    TargetsAreDistinct(t, order);
    SweepIsSweepOfPromises(t, order, e);
    SweepCalls(t.promises, rs, e);
    var k := Unsettled(t.promises, rs);
    if k < |order| {
      assert order[k] in t.requests && Settled(t.promises[t.requests[order[k]]]);
    } else {
      forall id | id in t.requests
        ensures !Settled(t.promises[t.requests[id]])
        ensures Sweep(t, order, e).table.promises[t.requests[id]] == t.promises[t.requests[id]] + [SetError(e)]
        ensures Settled(t.promises[t.requests[id]] + [SetError(e)])
      {
        var i :| 0 <= i < |order| && order[i] == id;
        SetErrorSettles(t.promises[rs[i]], e);
      }
    }
  }

  lemma SetErrorSettles(p: Promise, e: ErrorInfo)
    ensures Settled(p + [SetError(e)])
  {
    AfterOneMore(p, SetError(e));
  }

  /** The end of the read callback: the sweep with the empty error, if the try block was left into
      the catch block. */
  function AfterReceived(f: Received, order: seq<Msgid>): Effect
    requires f.table.Valid() && forall i :: 0 <= i < |order| ==> order[i] in f.table.requests
  {
    match f.exit
    case Returns => Effect(f.table, f.posted, false)
    case Escapes => Effect(f.table, f.posted, true)
    case Caught =>
      var g := Sweep(f.table, order, NoError);
      g.(posted := f.posted + g.posted)
  }

  /** The read callback after a successful read. */
  function HandleData(t: Table, d: Data, order: seq<Msgid>): Effect
    requires t.Valid() && forall i :: 0 <= i < |order| ==> order[i] in t.requests
  {
    AfterReceived(Receive(t, d), order)
  }

  /** After a sweep, in any order: an entry is left unsettled exactly when it was unsettled and
      listed behind a settled one. */
  lemma SweepMissesExactly(t: Table, order: seq<Msgid>, e: ErrorInfo, j: nat)
    requires t.Valid() && t.Injective() && IsOrder(order, t.requests.Keys) && j < |order|
    ensures var after := Sweep(t, order, e).table.promises;
      !Settled(after[t.requests[order[j]]]) <==>
        !Settled(t.promises[t.requests[order[j]]])
        && exists l :: 0 <= l < j && Settled(t.promises[t.requests[order[l]]])
  {
    var rs := Targets(t, order);
    TargetsAreDistinct(t, order);
    SweepIsSweepOfPromises(t, order, e);
    SweepCalls(t.promises, rs, e);
    var k := Unsettled(t.promises, rs);
    SetErrorSettles(t.promises[rs[j]], e);
    if k < j {
      assert Settled(t.promises[t.requests[order[k]]]);
    }
    assert forall l :: 0 <= l < k ==> !Settled(t.promises[rs[l]]);
  }

  // ---- Deliveries are neither lost nor made up.

  ghost function Total(logs: seq<seq<Delivery>>): multiset<Delivery> {
    if logs == [] then multiset{} else multiset(logs[0]) + Total(logs[1..])
  }

  function Logs(ps: seq<Promise>): (logs: seq<seq<Delivery>>)
    ensures |logs| == |ps| && forall r :: 0 <= r < |ps| ==> logs[r] == PostedBy(ps[r])
  {
    seq(|ps|, r requires 0 <= r < |ps| => PostedBy(ps[r]))
  }

  /** What all promises together have posted. */
  ghost function Deliveries(ps: seq<Promise>): multiset<Delivery> {
    Total(Logs(ps))
  }

  lemma {:induction false} TotalGains(logs: seq<seq<Delivery>>, r: nat, more: seq<Delivery>)
    requires r < |logs|
    ensures Total(logs[r := logs[r] + more]) == Total(logs) + multiset(more)
  {
    var after := logs[r := logs[r] + more];
    if r == 0 {
      assert after[1..] == logs[1..];
      assert multiset(logs[0] + more) == multiset(logs[0]) + multiset(more);
    } else {
      assert after[1..] == logs[1..][r - 1 := logs[r] + more];
      TotalGains(logs[1..], r - 1, more);
    }
  }

  lemma {:induction false} TotalAppends(logs: seq<seq<Delivery>>)
    ensures Total(logs + [[]]) == Total(logs)
  {
    if logs == [] {
      assert (logs + [[]])[1..] == logs;
    } else {
      assert (logs + [[]])[1..] == logs[1..] + [[]];
      TotalAppends(logs[1..]);
    }
  }

  /** The promises have gained exactly these deliveries. */
  ghost predicate Conserved(ps: seq<Promise>, qs: seq<Promise>, posted: seq<Delivery>) {
    Deliveries(qs) == Deliveries(ps) + multiset(posted)
  }

  lemma ConservedThen(ps: seq<Promise>, qs: seq<Promise>, us: seq<Promise>, a: seq<Delivery>, b: seq<Delivery>)
    requires Conserved(ps, qs, a) && Conserved(qs, us, b)
    ensures Conserved(ps, us, a + b)
  {
    assert multiset(a + b) == multiset(a) + multiset(b);
  }

  lemma GainIsConserved(ps: seq<Promise>, r: nat, q: Promise, posted: seq<Delivery>)
    requires r < |ps| && PostedBy(q) == PostedBy(ps[r]) + posted
    ensures Conserved(ps, ps[r := q], posted)
  {
    TotalGains(Logs(ps), r, posted);
    assert Logs(ps[r := q]) == Logs(ps)[r := Logs(ps)[r] + posted];
  }

  lemma CallOnConserves(t: Table, r: nat, call: Call)
    requires r < |t.promises|
    ensures Conserved(t.promises, CallOn(t, r, call).table.promises, CallOn(t, r, call).posted)
  {
    AfterOneMore(t.promises[r], call);
    GainIsConserved(t.promises, r, t.promises[r] + [call], Apply(CellAfter(t.promises[r]), call).posted);
  }

  lemma NothingConserved(ps: seq<Promise>)
    ensures Conserved(ps, ps, [])
  {
  }

  lemma FailWriteConserves(t: Table, id: Msgid, e: ErrorInfo)
    requires t.Valid()
    ensures Conserved(t.promises, FailWrite(t, id, e).table.promises, FailWrite(t, id, e).posted)
  {
    if id in t.requests {
      CallOnConserves(t, t.requests[id], SetError(e));
    } else {
      NothingConserved(t.promises);
    }
  }

  lemma ReceiveConserves(t: Table, d: Data)
    requires t.Valid()
    ensures Conserved(t.promises, Receive(t, d).table.promises, Receive(t, d).posted)
  {
    var parsed := ParseData(d);
    if parsed.Ok? && parsed.msg.mtype == RESPONSE && parsed.msg.msgid in t.requests {
      CallOnConserves(t, t.requests[parsed.msg.msgid], SetResponse(parsed.msg));
    } else {
      NothingConserved(t.promises);
    }
  }

  lemma {:induction false} SweepConserves(t: Table, order: seq<Msgid>, e: ErrorInfo)
    requires t.Valid() && forall i :: 0 <= i < |order| ==> order[i] in t.requests
    ensures Conserved(t.promises, Sweep(t, order, e).table.promises, Sweep(t, order, e).posted)
    decreases |order|
  {
    if order == [] {
      NothingConserved(t.promises);
    } else {
      var f := CallOn(t, t.requests[order[0]], SetError(e));
      CallOnConserves(t, t.requests[order[0]], SetError(e));
      if !f.thrown {
        var rest := Sweep(f.table, order[1..], e);
        SweepConserves(f.table, order[1..], e);
        ConservedThen(t.promises, f.table.promises, rest.table.promises, f.posted, rest.posted);
      }
    }
  }

  lemma AfterReceivedConserves(ps: seq<Promise>, f: Received, order: seq<Msgid>)
    requires f.table.Valid() && forall i :: 0 <= i < |order| ==> order[i] in f.table.requests
    requires Conserved(ps, f.table.promises, f.posted)
    ensures Conserved(ps, AfterReceived(f, order).table.promises, AfterReceived(f, order).posted)
  {
    if f.exit.Caught? {
      var g := Sweep(f.table, order, NoError);
      SweepConserves(f.table, order, NoError);
      ConservedThen(ps, f.table.promises, g.table.promises, f.posted, g.posted);
    }
  }

  lemma HandleDataConserves(t: Table, d: Data, order: seq<Msgid>)
    requires t.Valid() && forall i :: 0 <= i < |order| ==> order[i] in t.requests
    ensures Conserved(t.promises, HandleData(t, d, order).table.promises, HandleData(t, d, order).posted)
  {
    ReceiveConserves(t, d);
    AfterReceivedConserves(t.promises, Receive(t, d), order);
  }

  // ---- What the read callback does to the table.

  /** One promise has seen one more call, and no other promise anything. */
  ghost predicate OnlyCalled(ps: seq<Promise>, qs: seq<Promise>, r: nat, call: Call) {
    && |qs| == |ps| && r < |ps| && qs[r] == ps[r] + [call]
    && forall q :: 0 <= q < |ps| && q != r ==> qs[q] == ps[q]
  }

  /** The data answers an entry that nothing has settled yet. */
  ghost predicate AnswersOpen(t: Table, d: Data, id: Msgid)
    requires t.Valid()
  {
    Answers(d, id) && id in t.requests && !Settled(t.promises[t.requests[id]])
  }

  lemma AnsweredMessage(d: Data, id: Msgid)
    requires Answers(d, id)
    ensures ParseData(d).Ok? && ParseData(d).msg.mtype == RESPONSE && ParseData(d).msg.msgid == id
  {
    var error, result :| IsResponse(d.tree, id, error, result);
    ResponsesAreExactlyResponseTrees(d, id, error, result);
  }

  /** A response to an open entry sets exactly that response on exactly that promise, and the callback
      returns. */
  lemma OpenEntryIsAnswered(t: Table, d: Data, order: seq<Msgid>, id: Msgid)
    requires t.Valid() && IsOrder(order, t.requests.Keys) && AnswersOpen(t, d, id)
    ensures var f := HandleData(t, d, order);
      && !f.thrown && f.table.requests == t.requests && Parse(d.tree).Ok?
      && OnlyCalled(t.promises, f.table.promises, t.requests[id], SetResponse(Parse(d.tree).msg))
  {
    AnsweredMessage(d, id);
  }

  /** A response to no entry changes nothing, and neither does truncated data, which throws. */
  lemma OtherDataIsIgnored(t: Table, d: Data, order: seq<Msgid>)
    requires t.Valid() && IsOrder(order, t.requests.Keys)
    ensures d.Truncated? ==> HandleData(t, d, order) == Effect(t, [], true)
    ensures forall id: Msgid :: Answers(d, id) && id !in t.requests ==> HandleData(t, d, order) == Effect(t, [], false)
  {
    ReceiveExits(t, d);
  }

  /** Data that leads to the catch block. */
  ghost predicate IsBad(t: Table, d: Data)
    requires t.Valid()
  {
    && !d.Truncated?
    && forall id: Msgid :: Answers(d, id) ==> id in t.requests && Settled(t.promises[t.requests[id]])
  }

  /** Bad data changes no cell before the sweep. */
  lemma BadDataIsCaught(t: Table, d: Data)
    requires t.Valid() && IsBad(t, d)
    ensures var f := Receive(t, d);
      && f.exit.Caught? && f.posted == [] && f.table.requests == t.requests && |f.table.promises| == |t.promises|
      && forall r :: 0 <= r < |t.promises| ==> SameState(f.table.promises[r], t.promises[r])
                                               && (!Settled(t.promises[r]) ==> f.table.promises[r] == t.promises[r])
  {
    ReceiveExits(t, d);
    var parsed := ParseData(d);
    if parsed.Ok? && parsed.msg.mtype == RESPONSE {
      ResponsesAreExactlyResponseTrees(d, parsed.msg.msgid, parsed.msg.error.value, parsed.msg.result.value);
      assert Answers(d, parsed.msg.msgid);
      SettledRejects(t.promises[t.requests[parsed.msg.msgid]], SetResponse(parsed.msg));
    }
  }

  /** Bad data sweeps with the empty error: it throws exactly when some entry was settled, misses
      exactly the open entries listed behind a settled one, and sets the empty error on exactly the
      others. */
  lemma BadDataSweeps(t: Table, d: Data, order: seq<Msgid>)
    requires t.Valid() && t.Injective() && IsOrder(order, t.requests.Keys) && IsBad(t, d)
    ensures var f := HandleData(t, d, order);
      && (f.thrown <==> exists id :: id in t.requests && Settled(t.promises[t.requests[id]]))
      && f.table.requests == t.requests && |f.table.promises| == |t.promises|
      && forall j :: 0 <= j < |order| ==> SweptOrMissed(t, f.table.promises, order, j)
  {
    BadDataIsCaught(t, d);
    SweepIsCompleteIffNothingSettled(Receive(t, d).table, order, NoError);
    forall j | 0 <= j < |order|
      ensures SweptOrMissed(t, HandleData(t, d, order).table.promises, order, j)
    {
      BadDataAt(t, d, order, j);
    }
  }

  lemma BadDataAt(t: Table, d: Data, order: seq<Msgid>, j: nat)
    requires t.Valid() && t.Injective() && IsOrder(order, t.requests.Keys) && IsBad(t, d) && j < |order|
    ensures |HandleData(t, d, order).table.promises| == |t.promises|
    ensures SweptOrMissed(t, HandleData(t, d, order).table.promises, order, j)
  {
    BadDataIsCaught(t, d);
    var m := Receive(t, d).table;
    SweepReaches(m, order, NoError, j);
    assert forall l :: 0 <= l < |order| ==>
      SameState(m.promises[t.requests[order[l]]], t.promises[t.requests[order[l]]]);
  }

  ghost predicate SweptOrMissed(t: Table, after: seq<Promise>, order: seq<Msgid>, j: nat)
    requires t.Valid() && |after| == |t.promises| && j < |order|
    requires forall i :: 0 <= i < |order| ==> order[i] in t.requests
  {
    var r := t.requests[order[j]];
    !Settled(t.promises[r]) ==>
      after[r] == if exists l :: 0 <= l < j && Settled(t.promises[t.requests[order[l]]])
                  then t.promises[r] else t.promises[r] + [SetError(NoError)]
  }

  /** An open entry gets the error exactly when no settled one is listed before it. */
  lemma SweepReaches(t: Table, order: seq<Msgid>, e: ErrorInfo, j: nat)
    requires t.Valid() && t.Injective() && IsOrder(order, t.requests.Keys) && j < |order|
    ensures var r, after := t.requests[order[j]], Sweep(t, order, e).table.promises;
      !Settled(t.promises[r]) ==>
        after[r] == if exists l :: 0 <= l < j && Settled(t.promises[t.requests[order[l]]])
                    then t.promises[r] else t.promises[r] + [SetError(e)]
  {
    var rs := Targets(t, order);
    TargetsAreDistinct(t, order);
    SweepIsSweepOfPromises(t, order, e);
    SweepCalls(t.promises, rs, e);
    var k := Unsettled(t.promises, rs);
    if k < j {
      assert Settled(t.promises[t.requests[order[k]]]);
    }
    assert forall l :: 0 <= l < k ==> !Settled(t.promises[rs[l]]);
  }
}
