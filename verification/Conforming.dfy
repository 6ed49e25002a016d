/**
 The client facing a conforming peer: it parses what it was sent and answers with a response that
 carries the message ID it has read. It sends at most one reply per request and none to a request
 whose write failed, and reading never fails. Replies may come in any order and at any time after
 the write was issued.
 */
module Conforming {
  import opened Wire
  import opened Future
  import opened Requests
  import opened Protocol
  import opened MessageIds

  datatype Net = Net(
    s: State,
    replies: map<nat, Obj>,        // the reply sent for a request
    unread: seq<nat>,              // the requests whose replies are in the client's inbox, in its order
    failed: map<nat, ErrorInfo>)   // the requests whose write failed, and how

  const NET_INIT := Net(INIT, map[], [], map[])

  /** What the environment may do; r is the request that read data replies to. */
  ghost predicate Allowed(n: Net, step: Step, r: nat) {
    match step
    case ReadFailed(_, _) => false
    case ReadData(d) =>
      && r in n.s.sent && r !in n.replies && r !in n.failed
      && d.Decoded? && Parse(n.s.sent[r]).Ok? && IsReply(d.tree, Parse(n.s.sent[r]).msg.msgid)
    case WriteFailed(id, _) => id in n.s.writes && n.s.writes[id] !in n.replies
    case _ => true
  }

  ghost function NetNext(n: Net, step: Step, r: nat): Net
    requires CanStep(n.s, step) && Allowed(n, step, r) && |n.unread| == |n.s.inbox|
  {
    var n' := n.(s := Next(n.s, step));
    match step
    case ReadData(d) => n'.(replies := n.replies[r := d.tree], unread := n.unread + [r])
    case Try(i) => n'.(unread := n.unread[..i] + n.unread[i + 1..])
    case WriteFailed(id, e) => n'.(failed := n.failed[n.s.writes[id] := e])
    case _ => n'
  }

  /** The results a request's promise must have seen: its own reply once that was handled, the
      write error if the write failed, nothing otherwise. */
  ghost predicate ResultsOk(results: seq<Call>, r: nat, replies: map<nat, Obj>, unread: seq<nat>,
                            failed: map<nat, ErrorInfo>) {
    if r in failed then failed[r].Failure? && results == [SetError(failed[r])]
    else if r in replies && r !in unread
      then Parse(replies[r]).Ok? && results == [SetResponse(Parse(replies[r]).msg)]
    else results == []
  }

  ghost predicate AllResultsOk(ps: seq<Promise>, replies: map<nat, Obj>, unread: seq<nat>,
                               failed: map<nat, ErrorInfo>) {
    forall r :: 0 <= r < |ps| ==> ResultsOk(Results(ps[r]), r, replies, unread, failed)
  }

  /** Requests that did not fail stay registered; failed ones are gone from the table. */
  ghost predicate RegisteredOk(pcs: seq<Pc>, requests: map<Msgid, nat>, failed: map<nat, ErrorInfo>) {
    && (forall r :: 0 <= r < |pcs| && pcs[r].Registered? && r !in failed ==>
          pcs[r].id in requests && requests[pcs[r].id] == r)
    && (forall id :: id in requests ==> requests[id] !in failed)
  }

  /** Replies answer requests whose write did not fail; the unread ones are the inbox. */
  ghost predicate RepliesOk(pcs: seq<Pc>, inbox: seq<Data>,
                            replies: map<nat, Obj>, unread: seq<nat>, failed: map<nat, ErrorInfo>) {
    && (forall r :: r in failed ==> r < |pcs| && pcs[r].Registered?)
    && (forall r :: r in replies ==>
          r < |pcs| && pcs[r].Registered? && r !in failed && IsReply(replies[r], pcs[r].id))
    && |unread| == |inbox| && Distinct(unread)
    && (forall i :: 0 <= i < |unread| ==> unread[i] in replies && inbox[i] == Decoded(replies[unread[i]]))
  }

  ghost predicate NetInv(n: Net) {
    && Inv(n.s) && n.s.catching == 0 && n.s.escaped == 0
    && RegisteredOk(n.s.pcs, n.s.table.requests, n.failed)
    && SentOk(n.s.pcs, n.s.wanted, n.s.sent)
    && RepliesOk(n.s.pcs, n.s.inbox, n.replies, n.unread, n.failed)
    && AllResultsOk(n.s.table.promises, n.replies, n.unread, n.failed)
  }

  /** Handling an unread reply settles the request it answers, without throwing. */
  lemma ReplyIsReceived(n: Net, i: nat)
    requires NetInv(n) && i < |n.unread|
    ensures n.s.table.Valid()
    ensures var r, o := n.unread[i], n.replies[n.unread[i]];
      && Parse(o).Ok? && Parse(o).msg.mtype == RESPONSE && n.s.pcs[r] == Registered(Parse(o).msg.msgid)
      && Receive(n.s.table, n.s.inbox[i]).table == CallOn(n.s.table, r, SetResponse(Parse(o).msg)).table
      && Receive(n.s.table, n.s.inbox[i]).exit == Returns
  {
    var r, o := n.unread[i], n.replies[n.unread[i]];
    var id := n.s.pcs[r].id;
    var error, result :| IsResponse(o, id, error, result);
    ResponsesAreExactlyResponseTrees(Decoded(o), id, error, result);
    assert ResultsOk(Results(n.s.table.promises[r]), r, n.replies, n.unread, n.failed);
    ResultsFacts(n.s.table.promises[r]);
  }

  lemma RemoveOne(rs: seq<nat>, i: nat)
    requires Distinct(rs) && i < |rs|
    ensures var rest := rs[..i] + rs[i + 1..];
      Distinct(rest) && forall q :: q in rest <==> q in rs && q != rs[i]
  {
    var rest := rs[..i] + rs[i + 1..];
    forall q
      ensures q in rest <==> q in rs && q != rs[i]
    {
      if q in rs && q != rs[i] {
        var k :| 0 <= k < |rs| && rs[k] == q;
        assert q == rest[if k < i then k else k - 1];
      }
    }
  }

  lemma TryKeepsResults(ps: seq<Promise>, replies: map<nat, Obj>, unread: seq<nat>,
                        failed: map<nat, ErrorInfo>, i: nat)
    requires i < |unread| && Distinct(unread) && unread[i] in replies && unread[i] !in failed && unread[i] < |ps|
    requires AllResultsOk(ps, replies, unread, failed) && Parse(replies[unread[i]]).Ok?
    ensures var r := unread[i];
      AllResultsOk(ps[r := ps[r] + [SetResponse(Parse(replies[r]).msg)]],
                   replies, unread[..i] + unread[i + 1..], failed)
  {
    var r, rest := unread[i], unread[..i] + unread[i + 1..];
    var ps' := ps[r := ps[r] + [SetResponse(Parse(replies[r]).msg)]];
    ResultsOneMore(ps[r], SetResponse(Parse(replies[r]).msg));
    RemoveOne(unread, i);
    forall q | 0 <= q < |ps|
      ensures ResultsOk(Results(ps'[q]), q, replies, rest, failed)
    {
      assert ResultsOk(Results(ps[q]), q, replies, unread, failed);
    }
  }

  lemma TryKeepsReplies(pcs: seq<Pc>, inbox: seq<Data>, replies: map<nat, Obj>, unread: seq<nat>,
                        failed: map<nat, ErrorInfo>, i: nat)
    requires RepliesOk(pcs, inbox, replies, unread, failed) && i < |inbox|
    ensures RepliesOk(pcs, inbox[..i] + inbox[i + 1..], replies, unread[..i] + unread[i + 1..], failed)
  {
    RemoveOne(unread, i);
  }

  /** The peer reads the message ID of a registered request off what it was sent. */
  lemma SentIdIsRegistered(s: State, r: nat)
    requires SentOk(s.pcs, s.wanted, s.sent) && r in s.sent
    ensures r < |s.pcs| && s.pcs[r].Registered? && s.sent[r] == Packed(s.wanted[r], s.pcs[r].id)
    ensures Parse(s.sent[r]).Ok? && Parse(s.sent[r]).msg.msgid == s.pcs[r].id
  {
    assert CallOk(s.pcs[r], s.wanted[r], r, s.sent);
    RequestRoundTrip(s.pcs[r].id, s.wanted[r].name, Arr(s.wanted[r].params));
  }

  lemma TryKeepsNet(n: Net, i: nat)
    requires NetInv(n) && Enabled(n.s, Try(i))
    ensures CanStep(n.s, Try(i)) && NetInv(NetNext(n, Try(i), 0))
  {
    InvStep(n.s, Try(i));
    StepKeepsSent(n.s, Try(i));
    ReplyIsReceived(n, i);
    TryKeepsReplies(n.s.pcs, n.s.inbox, n.replies, n.unread, n.failed, i);
    TryKeepsResults(n.s.table.promises, n.replies, n.unread, n.failed, i);
  }

  lemma FailKeepsResults(ps: seq<Promise>, replies: map<nat, Obj>, unread: seq<nat>,
                         failed: map<nat, ErrorInfo>, r: nat, e: ErrorInfo)
    requires r < |ps| && r !in replies && r !in failed && e.Failure?
    requires AllResultsOk(ps, replies, unread, failed)
    ensures !Settled(ps[r]) && AllResultsOk(ps[r := ps[r] + [SetError(e)]], replies, unread, failed[r := e])
  {
    var ps' := ps[r := ps[r] + [SetError(e)]];
    assert ResultsOk(Results(ps[r]), r, replies, unread, failed);
    ResultsFacts(ps[r]);
    ResultsOneMore(ps[r], SetError(e));
    forall q | 0 <= q < |ps|
      ensures ResultsOk(Results(ps'[q]), q, replies, unread, failed[r := e])
    {
      assert ResultsOk(Results(ps[q]), q, replies, unread, failed);
    }
  }

  lemma FailKeepsRegistered(t: Table, pcs: seq<Pc>, failed: map<nat, ErrorInfo>, id: Msgid, e: ErrorInfo)
    requires TableOk(t, pcs) && RegisteredOk(pcs, t.requests, failed) && id in t.requests
    ensures RegisteredOk(pcs, t.requests - {id}, failed[t.requests[id] := e])
  {
  }

  /** The write callback of a request that was not settled. */
  lemma FailOfUnsettled(t: Table, id: Msgid, e: ErrorInfo)
    requires t.Valid() && id in t.requests && !Settled(t.promises[t.requests[id]])
    ensures var r := t.requests[id];
      && FailWrite(t, id, e).table == Table(t.requests - {id}, t.promises[r := t.promises[r] + [SetError(e)]])
      && !FailWrite(t, id, e).thrown
  {
  }

  lemma WriteFailedKeepsNet(n: Net, id: Msgid, e: ErrorInfo)
    requires NetInv(n) && Enabled(n.s, WriteFailed(id, e)) && Allowed(n, WriteFailed(id, e), 0)
    ensures CanStep(n.s, WriteFailed(id, e)) && NetInv(NetNext(n, WriteFailed(id, e), 0))
  {
    InvStep(n.s, WriteFailed(id, e));
    StepKeepsSent(n.s, WriteFailed(id, e));
    var t, r := n.s.table, n.s.writes[id];
    FailKeepsResults(t.promises, n.replies, n.unread, n.failed, r, e);
    FailOfUnsettled(t, id, e);
    FailKeepsRegistered(t, n.s.pcs, n.failed, id, e);
    FailKeepsReplies(n.s.pcs, n.s.inbox, n.replies, n.unread, n.failed, r, e);
  }

  lemma FailKeepsReplies(pcs: seq<Pc>, inbox: seq<Data>, replies: map<nat, Obj>, unread: seq<nat>,
                         failed: map<nat, ErrorInfo>, r: nat, e: ErrorInfo)
    requires RepliesOk(pcs, inbox, replies, unread, failed) && r < |pcs| && pcs[r].Registered? && r !in replies
    ensures RepliesOk(pcs, inbox, replies, unread, failed[r := e])
  {
  }

  lemma ReadKeepsResults(ps: seq<Promise>, replies: map<nat, Obj>, unread: seq<nat>,
                         failed: map<nat, ErrorInfo>, r: nat, o: Obj)
    requires r !in replies && r !in failed
    requires AllResultsOk(ps, replies, unread, failed)
    ensures AllResultsOk(ps, replies[r := o], unread + [r], failed)
  {
    forall q | 0 <= q < |ps|
      ensures ResultsOk(Results(ps[q]), q, replies[r := o], unread + [r], failed)
    {
      assert ResultsOk(Results(ps[q]), q, replies, unread, failed);
    }
  }

  lemma ReadKeepsReplies(pcs: seq<Pc>, inbox: seq<Data>, replies: map<nat, Obj>, unread: seq<nat>,
                         failed: map<nat, ErrorInfo>, r: nat, o: Obj)
    requires RepliesOk(pcs, inbox, replies, unread, failed)
    requires r < |pcs| && pcs[r].Registered? && r !in replies && r !in failed && IsReply(o, pcs[r].id)
    ensures RepliesOk(pcs, inbox + [Decoded(o)], replies[r := o], unread + [r], failed)
  {
    assert r !in unread;
  }

  lemma ReadDataKeepsNet(n: Net, d: Data, r: nat)
    requires NetInv(n) && Enabled(n.s, ReadData(d)) && Allowed(n, ReadData(d), r)
    ensures CanStep(n.s, ReadData(d)) && NetInv(NetNext(n, ReadData(d), r))
  {
    InvStep(n.s, ReadData(d));
    StepKeepsSent(n.s, ReadData(d));
    SentIdIsRegistered(n.s, r);
    ReadKeepsReplies(n.s.pcs, n.s.inbox, n.replies, n.unread, n.failed, r, d.tree);
    ReadKeepsResults(n.s.table.promises, n.replies, n.unread, n.failed, r, d.tree);
  }

  lemma AttachKeepsNet(n: Net, r: nat, h: Option<Handler>)
    requires NetInv(n) && Enabled(n.s, Attach(r, h))
    ensures CanStep(n.s, Attach(r, h)) && NetInv(NetNext(n, Attach(r, h), 0))
  {
    InvStep(n.s, Attach(r, h));
    StepKeepsSent(n.s, Attach(r, h));
    ResultsOneMore(n.s.table.promises[r], SetHandler(h));
  }

  lemma RequestKeepsNet(n: Net, w: Wanted)
    requires NetInv(n)
    ensures CanStep(n.s, Request(w)) && NetInv(NetNext(n, Request(w), 0))
  {
    InvStep(n.s, Request(w));
    StepKeepsSent(n.s, Request(w));
  }

  lemma PcKeepsReplies(pcs: seq<Pc>, inbox: seq<Data>, replies: map<nat, Obj>, unread: seq<nat>,
                       failed: map<nat, ErrorInfo>, r: nat, pc: Pc)
    requires RepliesOk(pcs, inbox, replies, unread, failed) && r < |pcs| && !pcs[r].Registered?
    ensures RepliesOk(pcs[r := pc], inbox, replies, unread, failed)
  {
  }

  lemma FetchKeepsNet(n: Net, r: nat)
    requires NetInv(n) && Enabled(n.s, Fetch(r))
    ensures CanStep(n.s, Fetch(r)) && NetInv(NetNext(n, Fetch(r), 0))
  {
    InvStep(n.s, Fetch(r));
    StepKeepsSent(n.s, Fetch(r));
    PcKeepsReplies(n.s.pcs, n.s.inbox, n.replies, n.unread, n.failed, r,
                   Holding(n.s.next, Packed(n.s.wanted[r], n.s.next)));
  }

  lemma EntryKeepsRegistered(pcs: seq<Pc>, requests: map<Msgid, nat>, failed: map<nat, ErrorInfo>, r: nat, id: Msgid)
    requires RegisteredOk(pcs, requests, failed) && r < |pcs| && !pcs[r].Registered?
    requires id !in requests && r !in failed
    ensures RegisteredOk(pcs[r := Registered(id)], requests[id := r], failed)
  {
  }

  lemma BackKeepsRegistered(pcs: seq<Pc>, requests: map<Msgid, nat>, failed: map<nat, ErrorInfo>, r: nat)
    requires RegisteredOk(pcs, requests, failed) && r < |pcs| && !pcs[r].Registered?
    ensures RegisteredOk(pcs[r := Fetching], requests, failed)
  {
  }

  lemma RegisterKeepsNet(n: Net, r: nat)
    requires NetInv(n) && Enabled(n.s, Register(r))
    ensures CanStep(n.s, Register(r)) && NetInv(NetNext(n, Register(r), 0))
  {
    InvStep(n.s, Register(r));
    StepKeepsSent(n.s, Register(r));
    var id := n.s.pcs[r].id;
    if id in n.s.table.requests {
      PcKeepsReplies(n.s.pcs, n.s.inbox, n.replies, n.unread, n.failed, r, Fetching);
      BackKeepsRegistered(n.s.pcs, n.s.table.requests, n.failed, r);
    } else {
      PcKeepsReplies(n.s.pcs, n.s.inbox, n.replies, n.unread, n.failed, r, Registered(id));
      EntryKeepsRegistered(n.s.pcs, n.s.table.requests, n.failed, r, id);
    }
  }

  lemma NetInvStep(n: Net, step: Step, r: nat)
    requires NetInv(n) && Enabled(n.s, step) && Allowed(n, step, r)
    ensures CanStep(n.s, step) && NetInv(NetNext(n, step, r))
  {
    match step
    case Request(w) => RequestKeepsNet(n, w);
    case Fetch(q) => FetchKeepsNet(n, q);
    case Register(q) => RegisterKeepsNet(n, q);
    case Try(i) => TryKeepsNet(n, i);
    case WriteFailed(id, e) => WriteFailedKeepsNet(n, id, e);
    case ReadData(d) => ReadDataKeepsNet(n, d, r);
    case Attach(q, h) => AttachKeepsNet(n, q, h);
    case _ =>
      InvStep(n.s, step);
      StepKeepsSent(n.s, step);
  }

  // ---- Runs against a conforming peer.

  ghost predicate IsNetRun(run: seq<Net>, steps: seq<Step>, about: seq<nat>) {
    && |run| == |steps| + 1 == |about| + 1 && run[0] == NET_INIT
    && forall i :: 0 <= i < |steps| ==>
         && CanStep(run[i].s, steps[i]) && Allowed(run[i], steps[i], about[i])
         && |run[i].unread| == |run[i].s.inbox|
         && run[i + 1] == NetNext(run[i], steps[i], about[i])
  }

  lemma {:induction false} NetRunsKeepInv(run: seq<Net>, steps: seq<Step>, about: seq<nat>, i: nat)
    requires IsNetRun(run, steps, about) && i < |run|
    ensures NetInv(run[i])
  {
    if i > 0 {
      NetRunsKeepInv(run, steps, about, i - 1);
      NetInvStep(run[i - 1], steps[i - 1], about[i - 1]);
    }
  }

  /** Against a conforming peer no exception ever leaves a callback, and the catch sweep is never
      entered: nothing the callbacks do to a promise throws. */
  lemma CallbacksNeverThrow(run: seq<Net>, steps: seq<Step>, about: seq<nat>, i: nat)
    requires IsNetRun(run, steps, about) && i < |run|
    ensures run[i].s.catching == 0 && run[i].s.escaped == 0
    ensures forall r :: 0 <= r < |run[i].s.table.promises| ==> |Results(run[i].s.table.promises[r])| <= 1
  {
    NetRunsKeepInv(run, steps, about, i);
    var n := run[i];
    assert forall r :: 0 <= r < |n.s.table.promises| ==>
      ResultsOk(Results(n.s.table.promises[r]), r, n.replies, n.unread, n.failed);
  }

  /** A handled reply has reached its request: the delivery to the first handler happens exactly
      once and carries the reply to the very request that was written, with its method, parameters and
      message ID. A failed write delivers its error. */
  lemma EachRequestGetsItsOwnReply(run: seq<Net>, steps: seq<Step>, about: seq<nat>, i: nat, r: nat, j: nat)
    requires IsNetRun(run, steps, about) && i < |run|
    requires r < |run[i].s.table.promises| && FirstHandler(run[i].s.table.promises[r], j)
    requires run[i].s.table.promises[r][j].handler.Some?
    ensures r < |run[i].s.pcs|
    ensures var n, p := run[i], run[i].s.table.promises[r];
      if r in n.replies && r !in n.unread then
        && r in n.s.sent && r < |n.s.wanted| && Parse(n.replies[r]).Ok?
        && n.s.sent[r] == Packed(n.s.wanted[r], Parse(n.replies[r]).msg.msgid)
        && n.s.pcs[r] == Registered(Parse(n.replies[r]).msg.msgid)
        && PostedBy(p) == [Delivery(p[j].handler, NoError, Parse(n.replies[r]).msg)]
      else if r in n.failed then PostedBy(p) == [Delivery(p[j].handler, n.failed[r], DEFAULT_MESSAGE)]
      else PostedBy(p) == []
  {
    NetRunsKeepInv(run, steps, about, i);
    var n, p := run[i], run[i].s.table.promises[r];
    assert ResultsOk(Results(p), r, n.replies, n.unread, n.failed);
    DeliversFirstResult(p, j);
    if r in n.replies && r !in n.unread {
      var id := n.s.pcs[r].id;
      var error, result :| IsResponse(n.replies[r], id, error, result);
      ResponsesAreExactlyResponseTrees(Decoded(n.replies[r]), id, error, result);
      assert CallOk(n.s.pcs[r], n.s.wanted[r], r, n.s.sent);
    }
  }

  // ---- Answered requests keep their message IDs.

  /** The requests that hold a message ID: all registered ones whose write did not fail, answered or not. */
  ghost function Holders(n: Net): set<nat> {
    set r: nat | r < |n.s.pcs| && n.s.pcs[r].Registered? && r !in n.failed
  }

  lemma {:induction false} InjectiveSize(m: map<Msgid, nat>)
    requires forall i, j :: i in m && j in m && m[i] == m[j] ==> i == j
    ensures |m.Values| == |m|
    decreases |m|
  {
    if |m| > 0 {
      var k :| k in m;
      var rest := m - {k};
      assert rest.Keys == m.Keys - {k};
      InjectiveSize(rest);
      assert m.Values == rest.Values + {m[k]} by {
        forall v | v in m.Values
          ensures v in rest.Values + {m[k]}
        {
          var i :| i in m && m[i] == v;
          assert i == k || (i in rest && rest[i] == v);
        }
      }
      assert m[k] !in rest.Values;
    }
  }

  /** Entries are never removed after a reply. So the table grows with every request that was
      written, and a further one can find a free message ID exactly while fewer than 2^32 requests
      were ever registered without a failed write. */
  lemma FreeIdIffFewerThanAllIdsHeld(run: seq<Net>, steps: seq<Step>, about: seq<nat>, i: nat)
    requires IsNetRun(run, steps, about) && i < |run|
    ensures |run[i].s.table.requests| == |Holders(run[i])|
    ensures (exists id: Msgid :: id !in run[i].s.table.requests.Keys) <==> |Holders(run[i])| < MSGID_MODULUS
  {
    NetRunsKeepInv(run, steps, about, i);
    var n := run[i];
    var requests := n.s.table.requests;
    TableOkFacts(n.s.table, n.s.pcs);
    InjectiveSize(requests);
    forall r: nat
      ensures r in Holders(n) <==> r in requests.Values
    {
      if r in Holders(n) {
        assert requests[n.s.pcs[r].id] == r;
      }
      if r in requests.Values {
        var id :| id in requests && requests[id] == r;
      }
    }
    assert Holders(n) == requests.Values;
    assert |requests.Keys| == |requests|;
    FreeIdIffNotAllTaken(requests.Keys);
  }
}
