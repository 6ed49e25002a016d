/**
 Messages parsed without copying: the parsed tree points into the block of the received data.
 All copies of a message share one inner object with one handle on that block; the handle is
 given up with the last copy.
 */
module NoCopyMessages {
  import opened Wire
  import opened RefCount

  type MessageId = nat

  datatype Shared = Shared(
    core: State,
    inner: map<MessageId, HandleId>,      // the handle in the inner object of each message
    seen: map<MessageId, seq<Byte>>)      // the bytes the message was parsed from

  datatype Event =
    | Other(step: Step)                            // any step on handles outside messages
    | Parsed(m: MessageId, h: HandleId)            // the constructor has assigned the data and parsed it
    | Copied(m: MessageId, from: MessageId)
    | Dropped(m: MessageId)

  ghost predicate Owned(s: Shared, h: HandleId) {
    exists m :: m in s.inner && s.inner[m] == h
  }

  ghost predicate Allowed(s: Shared, e: Event) {
    match e
    case Other(step) =>
      && Enabled(s.core, step) && !Owned(s, step.h)
      && (step.MoveConstruct? || step.MoveAssign? ==> !Owned(s, step.src))
    case Parsed(m, h) => m !in s.inner && Readable(s.core, h) && s.core.handles[h].Counted?
    case Copied(m, from) => m !in s.inner && from in s.inner
    case Dropped(m) => m in s.inner
  }

  ghost function Next(s: Shared, e: Event): Shared
    requires Inv(s.core) && Allowed(s, e) && s.seen.Keys == s.inner.Keys
  {
    match e
    case Other(step) => s.(core := RefCount.Next(s.core, step))
    case Parsed(m, h) =>
      s.(inner := s.inner[m := h], seen := s.seen[m := s.core.blocks[s.core.handles[h].block].data])
    case Copied(m, from) => s.(inner := s.inner[m := s.inner[from]], seen := s.seen[m := s.seen[from]])
    case Dropped(m) => s.(inner := s.inner - {m}, seen := s.seen - {m})
  }

  /** The block of a message is alive and holds the bytes it was parsed from. */
  ghost predicate MessageOk(s: Shared, m: MessageId)
    requires m in s.inner && m in s.seen
  {
    var h := s.inner[m];
    && Readable(s.core, h) && s.core.handles[h].Counted?
    && s.core.handles[h].block < |s.core.blocks|
    && s.core.blocks[s.core.handles[h].block].deletes == 0
    && s.core.blocks[s.core.handles[h].block].data == s.seen[m]
  }

  ghost predicate SharedInv(s: Shared) {
    && Inv(s.core) && s.seen.Keys == s.inner.Keys
    && forall m :: m in s.inner ==> MessageOk(s, m)
  }

  lemma OtherStepKeepsMessages(s: Shared, step: Step)
    requires SharedInv(s) && Allowed(s, Other(step))
    ensures SharedInv(Next(s, Other(step)))
  {
    var s' := Next(s, Other(step));
    InvStep(s.core, step);
    forall m | m in s.inner
      ensures MessageOk(s', m)
    {
      assert MessageOk(s, m);
      OthersLeaveHandleAlone(s.core, step, s.inner[m]);
      CountedIsAlive(s'.core, s.inner[m]);
    }
  }

  lemma SharedInvStep(s: Shared, e: Event)
    requires SharedInv(s) && Allowed(s, e)
    ensures SharedInv(Next(s, e))
  {
    var s' := Next(s, e);
    match e
    case Other(step) => OtherStepKeepsMessages(s, step);
    case Parsed(m, h) =>
      CountedIsAlive(s.core, h);
      assert forall k :: k in s.inner ==> MessageOk(s, k) && s'.inner[k] == s.inner[k];
      assert MessageOk(s', m);
    case Copied(m, from) =>
      assert forall k :: k in s.inner ==> MessageOk(s, k) && s'.inner[k] == s.inner[k];
    case Dropped(m) =>
      assert forall k :: k in s'.inner ==> MessageOk(s, k) && s'.inner[k] == s.inner[k];
  }

  ghost predicate IsRun(run: seq<Shared>, events: seq<Event>) {
    && |run| == |events| + 1 && run[0] == Shared(INIT, map[], map[])
    && forall i :: 0 <= i < |events| ==>
         && Inv(run[i].core) && Allowed(run[i], events[i]) && run[i].seen.Keys == run[i].inner.Keys
         && run[i + 1] == Next(run[i], events[i])
  }

  lemma {:induction false} RunsKeepSharedInv(run: seq<Shared>, events: seq<Event>, i: nat)
    requires IsRun(run, events) && i < |run|
    ensures SharedInv(run[i])
  {
    if i > 0 {
      RunsKeepSharedInv(run, events, i - 1);
      SharedInvStep(run[i - 1], events[i - 1]);
    }
  }

  lemma InnerIsFixed(s: Shared, e: Event, m: MessageId)
    requires Inv(s.core) && Allowed(s, e) && s.seen.Keys == s.inner.Keys
    requires m in s.inner && m in Next(s, e).inner
    ensures Next(s, e).inner[m] == s.inner[m] && Next(s, e).seen[m] == s.seen[m]
  {
  }

  ghost predicate Lives(run: seq<Shared>, m: MessageId, i: nat, j: nat)
    requires i <= j < |run|
  {
    forall k :: i <= k <= j ==> m in run[k].inner && m in run[k].seen
  }

  lemma {:induction false} InnerIsFixedWhileAlive(run: seq<Shared>, events: seq<Event>, i: nat, j: nat, m: MessageId)
    requires IsRun(run, events) && i <= j < |run| && Lives(run, m, i, j)
    ensures run[i].inner[m] == run[j].inner[m] && run[i].seen[m] == run[j].seen[m]
    decreases j - i
  {
    if i < j {
      var k := j - 1;
      InnerIsFixedWhileAlive(run, events, i, k, m);
      assert run[k + 1] == Next(run[k], events[k]);
      InnerIsFixed(run[k], events[k], m);
    }
  }

  // ---- From parsing to the last copy.

  /** Some message holds the handle all the time. */
  ghost predicate OwnedThroughout(run: seq<Shared>, h: HandleId, i: nat, j: nat)
    requires i <= j < |run|
  {
    forall k :: i <= k <= j ==> Owned(run[k], h)
  }

  /** The handle counts on a block that is alive and holds these bytes. */
  ghost predicate Holds(s: Shared, h: HandleId, x: Handle, data: seq<Byte>) {
    && h in s.core.handles && s.core.handles[h] == x && x.Counted? && Readable(s.core, h)
    && x.block < |s.core.blocks| && s.core.blocks[x.block].deletes == 0 && s.core.blocks[x.block].data == data
  }

  lemma OwnedHolds(s: Shared, m: MessageId)
    requires SharedInv(s) && m in s.inner
    ensures Holds(s, s.inner[m], s.core.handles[s.inner[m]], s.seen[m])
  {
    assert MessageOk(s, m);
  }

  /** An event that leaves the handle with some message leaves the handle and its block as they are. */
  lemma EventKeepsHold(s: Shared, e: Event, h: HandleId, x: Handle, data: seq<Byte>)
    requires SharedInv(s) && Allowed(s, e) && Owned(s, h) && Holds(s, h, x, data)
    ensures Holds(Next(s, e), h, x, data)
  {
    if e.Other? {
      InvStep(s.core, e.step);
      OthersLeaveHandleAlone(s.core, e.step, h);
      CountedIsAlive(Next(s, e).core, h);
    }
  }

  lemma HoldStaysOnce(run: seq<Shared>, events: seq<Event>, i: nat, h: HandleId, x: Handle, data: seq<Byte>)
    requires IsRun(run, events) && i < |events| && Owned(run[i], h) && Holds(run[i], h, x, data)
    ensures Holds(run[i + 1], h, x, data)
  {
    RunsKeepSharedInv(run, events, i);
    EventKeepsHold(run[i], events[i], h, x, data);
  }

  lemma {:induction false} HoldStays(run: seq<Shared>, events: seq<Event>, i: nat, j: nat,
                                     h: HandleId, x: Handle, data: seq<Byte>)
    requires IsRun(run, events) && i <= j < |run| && OwnedThroughout(run, h, i, j) && Holds(run[i], h, x, data)
    ensures Holds(run[j], h, x, data)
    decreases j - i
  {
    if i < j {
      HoldStaysOnce(run, events, i, h, x, data);
      HoldStays(run, events, i + 1, j, h, x, data);
    }
  }

  /** From the moment a message was parsed until its last copy is dropped, in whatever order the
      message and its copies go and whatever happens to other handles: the block is the same, is
      alive, and holds the bytes that were parsed, and every copy sees those bytes. */
  lemma MessageStaysReadable(run: seq<Shared>, events: seq<Event>, i: nat, j: nat, m: MessageId)
    requires IsRun(run, events) && i <= j < |run| && m in run[i].inner && m in run[i].seen
    requires OwnedThroughout(run, run[i].inner[m], i, j)
    ensures var h := run[i].inner[m];
      && h in run[i].core.handles && Holds(run[j], h, run[i].core.handles[h], run[i].seen[m])
      && forall c :: c in run[j].inner && run[j].inner[c] == h ==>
           c in run[j].seen && run[j].seen[c] == run[i].seen[m]
  {
    RunsKeepSharedInv(run, events, i);
    RunsKeepSharedInv(run, events, j);
    var h := run[i].inner[m];
    OwnedHolds(run[i], m);
    HoldStays(run, events, i, j, h, run[i].core.handles[h], run[i].seen[m]);
    forall c | c in run[j].inner && run[j].inner[c] == h
      ensures c in run[j].seen && run[j].seen[c] == run[i].seen[m]
    {
      OwnedHolds(run[j], c);
    }
  }

  /** In particular for one message while it lives. */
  lemma LivingMessageStaysReadable(run: seq<Shared>, events: seq<Event>, i: nat, j: nat, m: MessageId)
    requires IsRun(run, events) && i <= j < |run| && Lives(run, m, i, j)
    ensures MessageOk(run[j], m)
    ensures run[j].inner[m] == run[i].inner[m] && run[j].seen[m] == run[i].seen[m]
  {
    RunsKeepSharedInv(run, events, j);
    InnerIsFixedWhileAlive(run, events, i, j, m);
  }

  // ---- Where messages and their bytes come from.

  /** In every run: a parsed message has the handle it was parsed from and sees that block's bytes, a
      copy has the handle and the bytes of its original, a dropped message is gone, and all other
      messages stay as they are. */
  lemma MessagesComeAndGo(run: seq<Shared>, events: seq<Event>, k: nat, m: MessageId)
    requires IsRun(run, events) && k < |events|
    ensures var s, s', e := run[k], run[k + 1], events[k];
      && (e.Parsed? && e.m == m ==>
            && m in s'.inner && s'.inner[m] == e.h && m in s'.seen
            && MessageOk(s', m))
      && (e.Copied? && e.m == m ==>
            && m in s'.inner && e.from in s.inner && s'.inner[m] == s.inner[e.from]
            && m in s'.seen && e.from in s.seen && s'.seen[m] == s.seen[e.from])
      && (e.Dropped? && e.m == m ==> m !in s'.inner)
      && (e.Other? || e.m != m ==>
            && (m in s'.inner <==> m in s.inner) && (m in s'.seen <==> m in s.seen)
            && (m in s.inner ==> s'.inner[m] == s.inner[m]) && (m in s.seen ==> s'.seen[m] == s.seen[m]))
  {
    RunsKeepSharedInv(run, events, k + 1);
    var s, e := run[k], events[k];
    assert Allowed(s, e) && run[k + 1] == Next(s, e);
  }

  lemma {:induction false} SharedBytesStay(run: seq<Shared>, events: seq<Event>, i: nat, j: nat, b: BlockId)
    requires IsRun(run, events) && i <= j < |run| && b < |run[i].core.blocks|
    ensures b < |run[j].core.blocks| && run[j].core.blocks[b].data == run[i].core.blocks[b].data
    decreases j - i
  {
    if i < j {
      SharedBytesStayOnce(run, events, i);
      SharedBytesStay(run, events, i + 1, j, b);
    }
  }

  lemma SharedBytesStayOnce(run: seq<Shared>, events: seq<Event>, i: nat)
    requires IsRun(run, events) && i < |events|
    ensures |run[i].core.blocks| <= |run[i + 1].core.blocks|
    ensures forall b :: 0 <= b < |run[i].core.blocks| ==>
      run[i + 1].core.blocks[b].data == run[i].core.blocks[b].data
  {
    var s, e := run[i], events[i];
    assert Allowed(s, e) && run[i + 1] == Next(s, e);
    if e.Other? {
      BytesStay(s.core, e.step);
    }
  }

  /** A message parsed from any handle on the block of some received data sees those very bytes. */
  lemma ReceivedBytesAreSeen(run: seq<Shared>, events: seq<Event>, i: nat, k: nat)
    requires IsRun(run, events) && i < k < |events| && events[i].Other? && events[i].step.NewData?
    requires events[k].Parsed? && events[k].h in run[k].core.handles
    requires run[k].core.handles[events[k].h] == Counted(|run[i].core.blocks|)
    ensures events[k].m in run[k + 1].seen && run[k + 1].seen[events[k].m] == events[i].step.data
  {
    assert run[i + 1] == Next(run[i], events[i]) && run[k + 1] == Next(run[k], events[k]);
    SharedBytesStay(run, events, i + 1, k, |run[i].core.blocks|);
  }
}
