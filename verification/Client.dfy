/**
 The client object: its atomic counter, its request table and the code of its locked
 sections. Every method is tied to the value-level table of module Requests, which the
 state machine of module Protocol steps through.
 */
module Client {
  import opened Wire
  import opened Future
  import opened Requests
  import opened MessageIds

  /** The object of a promise has seen the calls that the table records for it. */
  ghost predicate Represents(promise: ResponseFutureData, threads: ThreadPool, r: nat, calls: Promise)
    reads promise
  {
    promise.Valid() && promise.threads == threads && promise.number == r && promise.calls == calls
  }

  /** With the log as it is now, the rest of a sweep completes the whole one. */
  ghost predicate Completes(whole: Effect, rest: Effect, before: seq<Delivery>, now: seq<Delivery>) {
    rest.table == whole.table && rest.thrown == whole.thrown && now + rest.posted == before + whole.posted
  }

  lemma CompletesLater(whole: Effect, posted: seq<Delivery>, rest: Effect, before: seq<Delivery>, now: seq<Delivery>)
    requires Completes(whole, rest.(posted := posted + rest.posted), before, now)
    ensures Completes(whole, rest, before, now + posted)
  {
    assert now + (posted + rest.posted) == now + posted + rest.posted;
  }

  lemma SweepFrom(t: Table, order: seq<Msgid>, i: nat, e: ErrorInfo)
    requires t.Valid() && i < |order| && forall k :: 0 <= k < |order| ==> order[k] in t.requests
    ensures var f, g := CallOn(t, t.requests[order[i]], SetError(e)), Sweep(t, order[i..], e);
      if f.thrown then g == f
      else
        var rest := Sweep(f.table, order[i + 1..], e);
        g == rest.(posted := f.posted + rest.posted)
  {
    assert order[i..][0] == order[i] && order[i..][1..] == order[i + 1..];
  }

  /** One round of the sweep loop. */
  lemma SweepRound(whole: Effect, t: Table, order: seq<Msgid>, i: nat, e: ErrorInfo,
                   before: seq<Delivery>, now: seq<Delivery>)
    requires t.Valid() && i < |order| && forall k :: 0 <= k < |order| ==> order[k] in t.requests
    requires Completes(whole, Sweep(t, order[i..], e), before, now)
    ensures var f := CallOn(t, t.requests[order[i]], SetError(e));
      if f.thrown then Completes(whole, f, before, now)
      else Completes(whole, Sweep(f.table, order[i + 1..], e), before, now + f.posted)
  {
    SweepFrom(t, order, i, e);
    var f := CallOn(t, t.requests[order[i]], SetError(e));
    if !f.thrown {
      CompletesLater(whole, f.posted, Sweep(f.table, order[i + 1..], e), before, now);
    }
  }

  lemma SweepDone(whole: Effect, t: Table, order: seq<Msgid>, e: ErrorInfo, before: seq<Delivery>, now: seq<Delivery>)
    requires t.Valid() && order == [] && Completes(whole, Sweep(t, order, e), before, now)
    ensures whole.table == t && !whole.thrown && now == before + whole.posted
  {
  }

  lemma CaughtEffect(f: Received, order: seq<Msgid>, log: seq<Delivery>)
    requires f.table.Valid() && f.exit.Caught? && forall i :: 0 <= i < |order| ==> order[i] in f.table.requests
    ensures Completes(AfterReceived(f, order), Sweep(f.table, order, NoError), log, log + f.posted)
  {
    CompletesLater(AfterReceived(f, order), f.posted, Sweep(f.table, order, NoError), log, log);
  }

  class Client {
    const threads: ThreadPool
    var nextMsgid: Msgid
    var requests: map<Msgid, ResponseFutureData>

    /** The table as a value: its promises are numbered in the order they were made. */
    ghost var table: Table

    /** All promises ever made, registered or not. */
    ghost var made: seq<ResponseFutureData>

    ghost predicate Valid()
      reads this, made
    {
      && table.Valid() && table.Injective() && |made| == |table.promises|
      && (forall r :: 0 <= r < |made| ==> Represents(made[r], threads, r, table.promises[r]))
      && table.requests.Keys == requests.Keys
      && (forall id :: id in requests ==> requests[id] == made[table.requests[id]])
    }

    /** What happened is this effect: on the table, on the thread pool's log, and in what was thrown. */
    ghost predicate Matches(f: Effect, thrown: bool, before: seq<Delivery>)
      reads this, threads
    {
      table == f.table && thrown == f.thrown && threads.posted == before + f.posted
    }

    constructor (threads: ThreadPool)
      ensures Valid() && this.threads == threads && nextMsgid == 0 && table == Table(map[], [])
    {
      this.threads := threads;
      nextMsgid := 0;
      requests := map[];
      table := Table(map[], []);
      made := [];
    }

    /** The request loop run alone: it draws IDs, and packs the request under each, until one is not
        registered. */
    method DrawFreeId(name: string, params: seq<Obj>) returns (id: Msgid, msg: Obj, attempts: nat)
      requires |requests| < MSGID_MODULUS
      modifies `nextMsgid
      ensures 1 <= attempts <= |requests| + 1
      ensures id == Cyclic(old(nextMsgid), attempts - 1) && id !in requests
      ensures forall j :: 0 <= j < attempts - 1 ==> Cyclic(old(nextMsgid), j) in requests
      ensures nextMsgid == Cyclic(old(nextMsgid), attempts) && msg == PackRequest(id, name, Arr(params))
    {
      attempts := 0;
      ghost var start := nextMsgid;
      while true
        invariant attempts <= |requests| && nextMsgid == Cyclic(start, attempts)
        invariant Tried(start, attempts) <= requests.Keys
        decreases |requests| - attempts
      {
        SearchIsShort(requests.Keys, start, attempts);
        CyclicNext(start, attempts);
        id := nextMsgid;
        nextMsgid := (nextMsgid + 1) % MSGID_MODULUS;
        msg := PackRequest(id, name, Arr(params));
        attempts := attempts + 1;
        if id !in requests {
          assert forall j :: 0 <= j < attempts - 1 ==> Cyclic(start, j) in Tried(start, attempts - 1);
          return;
        }
        assert Tried(start, attempts) == Tried(start, attempts - 1) + {id};
      }
    }

    method MakePromise() returns (promise: ResponseFutureData)
      requires Valid()
      modifies `table, `made
      ensures Valid() && fresh(promise) && promise.number == |old(made)| && made == old(made) + [promise]
      ensures table == Requesting(old(table))
    {
      promise := new ResponseFutureData(threads, |made|);
      made := made + [promise];
      table := Requesting(table);
    }

    /** Registers a promise unless the ID is taken. */
    method Emplace(id: Msgid, promise: ResponseFutureData) returns (inserted: bool)
      requires Valid() && promise.number < |made| && made[promise.number] == promise
      requires promise.number !in table.requests.Values
      modifies `requests, `table
      ensures Valid() && inserted == (id !in old(requests))
      ensures requests == if inserted then old(requests)[id := promise] else old(requests)
      ensures table == if inserted then Entering(old(table), id, promise.number) else old(table)
    {
      inserted := id !in requests;
      if inserted {
        requests := requests[id := promise];
        table := Entering(table, id, promise.number);
      }
    }

    /** A new promise registered under the first free ID counted cyclically from the counter, and the
        request handed to the connector. */
    method AsyncRequest(name: string, params: seq<Obj>)
      returns (promise: ResponseFutureData, id: Msgid, msg: Obj, attempts: nat)
      requires Valid() && |requests| < MSGID_MODULUS
      modifies this
      ensures Valid() && fresh(promise) && promise.number == |old(made)| && made == old(made) + [promise]
      ensures 1 <= attempts <= |old(requests)| + 1 && nextMsgid == Cyclic(old(nextMsgid), attempts)
      ensures id == Cyclic(old(nextMsgid), attempts - 1) && id !in old(requests)
      ensures msg == PackRequest(id, name, Arr(params))
      ensures forall j :: 0 <= j < attempts - 1 ==> Cyclic(old(nextMsgid), j) in old(requests)
      ensures requests == old(requests)[id := promise]
      ensures table == Entering(Requesting(old(table)), id, promise.number)
    {
      promise := MakePromise();
      id, msg, attempts := DrawFreeId(name, params);
      var inserted := Emplace(id, promise);
    }

    /** then on the future of a promise, at any time after it was made. */
    method Then(promise: ResponseFutureData, h: Option<Handler>) returns (thrown: bool)
      requires Valid() && promise.number < |made| && made[promise.number] == promise
      modifies `table, promise, threads
      ensures Valid()
      ensures Matches(CallOn(old(table), promise.number, SetHandler(h)), thrown, old(threads.posted))
    {
      thrown := promise.SetHandler(h);
      table := CallOn(table, promise.number, SetHandler(h)).table;
      assert forall r :: 0 <= r < |made| && r != promise.number ==> made[r] != promise;
    }

    /** set_error on the promise registered under an ID. */
    method SetErrorOn(id: Msgid, e: ErrorInfo) returns (thrown: bool)
      requires Valid() && id in requests
      modifies `table, requests[id], threads
      ensures Valid()
      ensures Matches(CallOn(old(table), old(table).requests[id], SetError(e)), thrown, old(threads.posted))
    {
      var promise := requests[id];
      thrown := promise.SetError(e);
      table := CallOn(table, promise.number, SetError(e)).table;
      assert forall r :: 0 <= r < |made| && r != promise.number ==> made[r] != promise;
    }

    /** The failure branch of the write callback. */
    method OnWriteFailed(id: Msgid, e: ErrorInfo) returns (thrown: bool)
      requires Valid() && id in requests
      modifies `requests, `table, requests[id], threads
      ensures Valid()
      ensures Matches(FailWrite(old(table), id, e), thrown, old(threads.posted))
    {
      thrown := SetErrorOn(id, e);
      if !thrown {
        Erase(id);
      }
    }

    method Erase(id: Msgid)
      requires Valid()
      modifies `requests, `table
      ensures Valid() && requests == old(requests) - {id}
      ensures table == old(table).(requests := old(table).requests - {id})
    {
      requests := requests - {id};
      table := table.(requests := table.requests - {id});
    }

    /** The try block of the read callback, and how it is left. */
    method Receive(data: Data) returns (exit: Exit)
      requires Valid()
      modifies `table, requests.Values, threads
      ensures Valid()
      ensures var f := Requests.Receive(old(table), data);
        table == f.table && exit == f.exit && threads.posted == old(threads.posted) + f.posted
    {
      var parsed := ParseData(data);
      if parsed.Unhandled? {
        return Escapes;
      }
      if parsed.Err? || parsed.msg.mtype != RESPONSE {
        return Caught;
      }
      var msg := parsed.msg;
      if msg.msgid !in requests {
        return Returns;
      }
      var thrown := SetResponseOn(msg);
      return if thrown then Caught else Returns;
    }

    /** set_response on the promise registered under the message's ID. */
    method SetResponseOn(msg: Message) returns (thrown: bool)
      requires Valid() && msg.msgid in requests
      modifies `table, requests[msg.msgid], threads
      ensures Valid()
      ensures Matches(CallOn(old(table), old(table).requests[msg.msgid], SetResponse(msg)), thrown, old(threads.posted))
    {
      var promise := requests[msg.msgid];
      thrown := promise.SetResponse(msg);
      table := CallOn(table, promise.number, SetResponse(msg)).table;
      assert forall r :: 0 <= r < |made| && r != promise.number ==> made[r] != promise;
    }

    /** A sweep before its i-th entry. */
    ghost predicate Midway(whole: Effect, order: seq<Msgid>, i: nat, e: ErrorInfo, before: seq<Delivery>)
      reads this, made, threads
    {
      && Valid() && i <= |order| && (forall k :: 0 <= k < |order| ==> order[k] in requests)
      && Completes(whole, Sweep(table, order[i..], e), before, threads.posted)
    }

    /** One round of the sweep. */
    method SweepOne(ghost whole: Effect, order: seq<Msgid>, i: nat, e: ErrorInfo, ghost before: seq<Delivery>)
      returns (thrown: bool)
      requires Midway(whole, order, i, e, before) && i < |order|
      modifies `table, requests[order[i]], threads
      ensures Valid()
      ensures thrown ==> Matches(whole, true, before)
      ensures !thrown ==> Midway(whole, order, i + 1, e, before)
    {
      SweepRound(whole, table, order, i, e, before, threads.posted);
      thrown := SetErrorOn(order[i], e);
    }

    /** The sweep over the entries, in the order the hash table lists them. */
    method SetErrorOnAll(e: ErrorInfo, order: seq<Msgid>) returns (thrown: bool)
      requires Valid() && forall i :: 0 <= i < |order| ==> order[i] in requests
      modifies `table, requests.Values, threads
      ensures Valid() && Matches(Sweep(old(table), order, e), thrown, old(threads.posted))
    {
      ghost var whole, before := Sweep(table, order, e), threads.posted;
      assert order[0..] == order;
      for i := 0 to |order|
        invariant Midway(whole, order, i, e, before)
      {
        thrown := SweepOne(whole, order, i, e, before);
        if thrown {
          return;
        }
      }
      SweepDone(whole, table, order[|order|..], e, before, threads.posted);
      thrown := false;
    }

    /** The read callback run alone; escaped tells whether an exception left it. An exception of
        the library in the try block leads to the sweep with the empty error. */
    method OnRead(error: ErrorInfo, data: Data, order: seq<Msgid>) returns (escaped: bool)
      requires Valid() && IsOrder(order, requests.Keys)
      modifies `table, requests.Values, threads
      ensures Valid()
      ensures Matches(if error.Failure? then Sweep(old(table), order, error) else HandleData(old(table), data, order),
                      escaped, old(threads.posted))
    {
      if error.Failure? {
        escaped := SetErrorOnAll(error, order);
        return;
      }
      escaped := OnData(data, order);
    }

    /** The read callback after a successful read. */
    method OnData(data: Data, order: seq<Msgid>) returns (escaped: bool)
      requires Valid() && forall i :: 0 <= i < |order| ==> order[i] in requests
      modifies `table, requests.Values, threads
      ensures Valid()
      ensures Matches(HandleData(old(table), data, order), escaped, old(threads.posted))
    {
      ghost var f, log := Requests.Receive(table, data), threads.posted;
      var exit := Receive(data);
      escaped := AfterTry(exit, order, f, log);
    }

    /** What follows the try block: the sweep with the empty error, if it was left into the catch block. */
    method AfterTry(exit: Exit, order: seq<Msgid>, ghost f: Received, ghost log: seq<Delivery>)
      returns (escaped: bool)
      requires Valid() && forall i :: 0 <= i < |order| ==> order[i] in requests
      requires table == f.table && exit == f.exit && threads.posted == log + f.posted
      modifies `table, requests.Values, threads
      ensures Valid()
      ensures Matches(AfterReceived(f, order), escaped, log)
    {
      escaped := exit.Escapes?;
      if exit.Caught? {
        CaughtEffect(f, order, log);
        escaped := SetErrorOnAll(NoError, order);
      }
    }
  }
}
