/**
 Reference-counted binaries as steps of concurrent threads. Copying, assigning and releasing
 a handle take several atomic steps on the shared block; threads interleave between them.
 A handle may be read by several threads at once but is written by one that owns it, which is
 what the language demands of callers.
 */
module RefCount {
  import opened Wire
  import opened Sizes

  type HandleId = nat
  type BlockId = nat

  /** What an operation still has to do once its reset is over. */
  datatype Rest = Nothing | CopyFrom(src: HandleId) | MoveFrom(src: HandleId)

  datatype Handle =
    | Empty
    | Counted(block: BlockId)
    | Dropped(block: BlockId, post: int, rest: Rest)   // counter decremented to post, pointer still set
    | Cleared(rest: Rest)                              // pointer null, operation not over
    | Loaded(block: BlockId, src: HandleId)            // pointer copied from src, counter not yet incremented

  /** A block: its bytes, its counter, and how often it was deleted. */
  datatype Block = Block(data: seq<Byte>, ref: int, deletes: nat)

  datatype State = State(handles: map<HandleId, Handle>, blocks: seq<Block>)

  const INIT := State(map[], [])

  datatype Step =
    | NewEmpty(h: HandleId)
    | NewData(h: HandleId, data: seq<Byte>)
    | CopyConstruct(h: HandleId, src: HandleId)    // pointer only; Count follows
    | MoveConstruct(h: HandleId, src: HandleId)
    | Assign(h: HandleId, src: HandleId)           // begins reset() of h
    | MoveAssign(h: HandleId, src: HandleId)       // begins reset() of h, also when src is h
    | Reset(h: HandleId)
    | Release(h: HandleId)                         // delete at zero, clear the pointer
    | Load(h: HandleId)
    | Count(h: HandleId)
    | Exchange(h: HandleId)
    | Return(h: HandleId)
    | Destroy(h: HandleId)                         // the end of a handle's life, after reset()

  predicate Idle(x: Handle) { x.Empty? || x.Counted? }

  /** What the running operation of a handle still takes from another handle. */
  function Pending(x: Handle): Rest {
    match x
    case Dropped(_, _, rest) => rest
    case Cleared(rest) => rest
    case Loaded(_, src) => CopyFrom(src)
    case _ => Nothing
  }

  predicate Uses(x: Handle, src: HandleId) {
    Pending(x) == CopyFrom(src) || Pending(x) == MoveFrom(src)
  }

  /** A handle a thread may read: nobody writes it. */
  ghost predicate Readable(s: State, h: HandleId) {
    h in s.handles && Idle(s.handles[h])
    && forall g :: g in s.handles ==> Pending(s.handles[g]) != MoveFrom(h)
  }

  /** A handle a thread may write: nobody else reads or writes it. */
  ghost predicate Writable(s: State, h: HandleId) {
    h in s.handles && Idle(s.handles[h]) && forall g :: g in s.handles ==> !Uses(s.handles[g], h)
  }

  ghost predicate Enabled(s: State, step: Step) {
    match step
    case NewEmpty(h) => h !in s.handles && |s.handles| + 1 < SIZE_MODULUS
    case NewData(h, _) => h !in s.handles && |s.handles| + 1 < SIZE_MODULUS
    case CopyConstruct(h, src) => h !in s.handles && |s.handles| + 1 < SIZE_MODULUS && Readable(s, src)
    case MoveConstruct(h, src) => h !in s.handles && |s.handles| + 1 < SIZE_MODULUS && Writable(s, src)
    case Assign(h, src) => Writable(s, h) && Readable(s, src) && h != src
    case MoveAssign(h, src) => Writable(s, h) && Writable(s, src)
    case Reset(h) => Writable(s, h)
    case Release(h) => h in s.handles && s.handles[h].Dropped?
    case Load(h) => h in s.handles && s.handles[h].Cleared? && s.handles[h].rest.CopyFrom?
    case Count(h) => h in s.handles && s.handles[h].Loaded?
    case Exchange(h) => h in s.handles && s.handles[h].Cleared? && s.handles[h].rest.MoveFrom?
    case Return(h) => h in s.handles && s.handles[h] == Cleared(Nothing)
    case Destroy(h) => Writable(s, h) && s.handles[h].Empty?
  }

  type Handles = map<HandleId, Handle>

  /** The pointers lead to existing blocks. */
  ghost predicate PointersOk(hs: Handles, n: nat) {
    forall h :: h in hs && (hs[h].Counted? || hs[h].Dropped? || hs[h].Loaded?) ==> hs[h].block < n
  }

  /** The source of a running operation is there and idle, and still counts once its pointer was copied. */
  ghost predicate SourceOk(hs: Handles, h: HandleId, x: Handle) {
    match Pending(x)
    case Nothing => true
    case CopyFrom(src) =>
      src in hs && src != h && Idle(hs[src]) && (x.Loaded? ==> hs[src] == Counted(x.block))
    case MoveFrom(src) => src in hs && (src == h || Idle(hs[src]))
  }

  /** What one operation moves from, no other operation uses. */
  ghost predicate MovesAlone(hs: Handles, h: HandleId, x: Handle) {
    Pending(x).MoveFrom? ==> forall g :: g in hs && g != h ==> !Uses(hs[g], Pending(x).src)
  }

  ghost predicate SourcesOk(hs: Handles) {
    forall h :: h in hs ==> SourceOk(hs, h, hs[h]) && MovesAlone(hs, h, hs[h])
  }

  ghost predicate Sound(s: State) {
    PointersOk(s.handles, |s.blocks|) && SourcesOk(s.handles)
  }

  function Add(b: Block, n: int): Block {
    b.(ref := (b.ref + n) % SIZE_MODULUS)
  }

  /** The decrement that begins reset(). */
  function BeginReset(s: State, h: HandleId, rest: Rest): State
    requires h in s.handles && (s.handles[h].Counted? ==> s.handles[h].block < |s.blocks|)
  {
    if !s.handles[h].Counted? then s.(handles := s.handles[h := Cleared(rest)])
    else
      var b := s.handles[h].block;
      var block := Add(s.blocks[b], -1);
      State(s.handles[h := Dropped(b, block.ref, rest)], s.blocks[b := block])
  }

  /** A pointer copied without counting; a null pointer needs no counting. */
  function LoadFrom(s: State, h: HandleId, src: HandleId): State
    requires src in s.handles
  {
    s.(handles := s.handles[h := if s.handles[src].Counted? then Loaded(s.handles[src].block, src) else Empty])
  }

  function MoveInto(s: State, h: HandleId, src: HandleId): State
    requires src in s.handles
  {
    s.(handles := s.handles[h := if h == src then Empty else s.handles[src]][src := Empty])
  }

  ghost function Next(s: State, step: Step): State
    requires Sound(s) && Enabled(s, step)
  {
    match step
    case NewEmpty(h) => s.(handles := s.handles[h := Empty])
    case NewData(h, data) => State(s.handles[h := Counted(|s.blocks|)], s.blocks + [Block(data, 1, 0)])
    case CopyConstruct(h, src) => LoadFrom(s, h, src)
    case MoveConstruct(h, src) => MoveInto(s, h, src)
    case Assign(h, src) => BeginReset(s, h, CopyFrom(src))
    case MoveAssign(h, src) => BeginReset(s, h, MoveFrom(src))
    case Reset(h) => BeginReset(s, h, Nothing)
    case Release(h) =>
      var x := s.handles[h];
      State(s.handles[h := Cleared(x.rest)],
            if x.post == 0 then s.blocks[x.block := s.blocks[x.block].(deletes := s.blocks[x.block].deletes + 1)]
            else s.blocks)
    case Load(h) => LoadFrom(s, h, s.handles[h].rest.src)
    case Count(h) =>
      var b := s.handles[h].block;
      State(s.handles[h := Counted(b)], s.blocks[b := Add(s.blocks[b], 1)])
    case Exchange(h) => MoveInto(s, h, s.handles[h].rest.src)
    case Return(h) => s.(handles := s.handles[h := Empty])
    case Destroy(h) => s.(handles := s.handles - {h})
  }

  // ---- The invariant.

  /** The handles that count for a block. */
  ghost function Counters(hs: Handles, b: BlockId): set<HandleId> {
    set h | h in hs && hs[h] == Counted(b)
  }

  /** A handle whose owner saw the counter reach zero and will delete the block. */
  predicate LastOf(x: Handle, b: BlockId) {
    x.Dropped? && x.block == b && x.post == 0
  }

  ghost function Deleters(hs: Handles, b: BlockId): set<HandleId> {
    set h | h in hs && LastOf(hs[h], b)
  }

  /** The counter is the number of counting handles. At zero exactly one thread is about to delete
      the block, or it has been deleted once; before that nobody is. */
  ghost predicate BlockOk(hs: Handles, b: BlockId, block: Block) {
    && block.ref == |Counters(hs, b)|
    && block.deletes <= 1
    && (block.ref > 0 ==> block.deletes == 0)
    && |Deleters(hs, b)| == if block.ref == 0 && block.deletes == 0 then 1 else 0
  }

  ghost predicate BlocksOk(s: State) {
    forall b :: 0 <= b < |s.blocks| ==> BlockOk(s.handles, b, s.blocks[b])
  }

  ghost predicate Inv(s: State) {
    Sound(s) && BlocksOk(s) && |s.handles| < SIZE_MODULUS
  }

  // ---- Every step keeps the counters.

  /** Nothing about block b differs between two states of the handles. */
  ghost predicate SameFor(hs: Handles, hs': Handles, b: BlockId) {
    Counters(hs, b) == Counters(hs', b) && Deleters(hs, b) == Deleters(hs', b)
  }

  /** A handle that neither counts for nor is about to delete block b. */
  predicate Neutral(x: Handle, b: BlockId) {
    x != Counted(b) && !LastOf(x, b)
  }

  lemma NeutralUpdate(hs: Handles, h: HandleId, x: Handle, b: BlockId)
    requires Neutral(x, b) && (h in hs ==> Neutral(hs[h], b))
    ensures SameFor(hs, hs[h := x], b)
  {
  }

  lemma NeutralRemoval(hs: Handles, h: HandleId, b: BlockId)
    requires h in hs && Neutral(hs[h], b)
    ensures SameFor(hs, hs - {h}, b)
  {
  }

  lemma NeutralStep(s: State, h: HandleId, x: Handle)
    requires BlocksOk(s)
    requires forall b :: 0 <= b < |s.blocks| ==> Neutral(x, b) && (h in s.handles ==> Neutral(s.handles[h], b))
    ensures BlocksOk(s.(handles := s.handles[h := x]))
  {
    forall b | 0 <= b < |s.blocks|
      ensures BlockOk(s.handles[h := x], b, s.blocks[b])
    {
      NeutralUpdate(s.handles, h, x, b);
    }
  }

  lemma CountersBound(hs: Handles, b: BlockId)
    ensures |Counters(hs, b)| <= |hs|
  {
    assert hs.Keys == Counters(hs, b) + (hs.Keys - Counters(hs, b));
  }

  /** A counting handle gives up its count. */
  lemma DropBlock(hs: Handles, h: HandleId, b: BlockId, block: Block, rest: Rest)
    requires BlockOk(hs, b, block) && h in hs && hs[h] == Counted(b) && |hs| < SIZE_MODULUS
    ensures Add(block, -1).ref == block.ref - 1
    ensures BlockOk(hs[h := Dropped(b, block.ref - 1, rest)], b, Add(block, -1))
  {
    var hs' := hs[h := Dropped(b, block.ref - 1, rest)];
    assert h in Counters(hs, b);
    assert Counters(hs', b) == Counters(hs, b) - {h};
    CountersBound(hs, b);
    assert Deleters(hs, b) == {};
    assert Deleters(hs', b) == if block.ref == 1 then {h} else {};
  }

  lemma BeginResetKeepsBlocks(s: State, h: HandleId, rest: Rest)
    requires Sound(s) && BlocksOk(s) && |s.handles| < SIZE_MODULUS && h in s.handles && Idle(s.handles[h])
    ensures BlocksOk(BeginReset(s, h, rest))
  {
    if s.handles[h].Empty? {
      NeutralStep(s, h, Cleared(rest));
    } else {
      var t, c := BeginReset(s, h, rest), s.handles[h].block;
      assert BlockOk(s.handles, c, s.blocks[c]);
      DropBlock(s.handles, h, c, s.blocks[c], rest);
      forall b | 0 <= b < |s.blocks| && b != c
        ensures BlockOk(t.handles, b, t.blocks[b])
      {
        assert BlockOk(s.handles, b, s.blocks[b]);
        NeutralUpdate(s.handles, h, t.handles[h], b);
      }
    }
  }

  /** The last owner deletes the block, which was not deleted before. */
  lemma DeleteBlock(hs: Handles, h: HandleId, b: BlockId, block: Block, x: Handle)
    requires BlockOk(hs, b, block) && h in hs && LastOf(hs[h], b) && Neutral(x, b)
    ensures block.deletes == 0 && Counters(hs, b) == {}
    ensures BlockOk(hs[h := x], b, block.(deletes := 1))
  {
    var hs' := hs[h := x];
    assert h in Deleters(hs, b);
    SingletonIs(Deleters(hs, b), h);
    assert forall g :: g in hs && LastOf(hs[g], b) ==> g in Deleters(hs, b);
    assert Deleters(hs', b) == {};
    assert Counters(hs', b) == Counters(hs, b);
  }

  lemma SingletonIs<T>(a: set<T>, x: T)
    requires x in a && |a| <= 1
    ensures a == {x}
  {
    assert a == {x} + (a - {x});
  }

  lemma ReleaseKeepsBlocks(s: State, h: HandleId)
    requires Sound(s) && BlocksOk(s) && Enabled(s, Release(h))
    ensures BlocksOk(Next(s, Release(h)))
  {
    var t, x := Next(s, Release(h)), s.handles[h];
    assert BlockOk(s.handles, x.block, s.blocks[x.block]);
    if x.post == 0 {
      DeleteBlock(s.handles, h, x.block, s.blocks[x.block], Cleared(x.rest));
    }
    forall b | 0 <= b < |s.blocks| && (b != x.block || x.post != 0)
      ensures BlockOk(t.handles, b, t.blocks[b])
    {
      assert BlockOk(s.handles, b, s.blocks[b]);
      NeutralUpdate(s.handles, h, Cleared(x.rest), b);
    }
  }

  /** Counting a copied pointer: the source still counts, so the block is alive. */
  lemma CountBlock(hs: Handles, h: HandleId, src: HandleId, b: BlockId, block: Block)
    requires BlockOk(hs, b, block) && |hs| < SIZE_MODULUS
    requires h in hs && hs[h].Loaded? && src in hs && hs[src] == Counted(b)
    ensures block.deletes == 0
    ensures BlockOk(hs[h := Counted(b)], b, Add(block, 1))
  {
    assert src in Counters(hs, b) && h !in Counters(hs, b);
    assert Counters(hs[h := Counted(b)], b) == Counters(hs, b) + {h};
    CountersBound(hs[h := Counted(b)], b);
    assert |hs[h := Counted(b)].Keys| == |hs.Keys| by { assert hs[h := Counted(b)].Keys == hs.Keys; }
    assert Deleters(hs[h := Counted(b)], b) == Deleters(hs, b);
  }

  lemma CountKeepsBlocks(s: State, h: HandleId)
    requires Inv(s) && Enabled(s, Count(h))
    ensures BlocksOk(Next(s, Count(h)))
  {
    var t, c := Next(s, Count(h)), s.handles[h].block;
    assert BlockOk(s.handles, c, s.blocks[c]);
    CountBlock(s.handles, h, s.handles[h].src, c, s.blocks[c]);
    forall b | 0 <= b < |s.blocks| && b != c
      ensures BlockOk(t.handles, b, t.blocks[b])
    {
      assert BlockOk(s.handles, b, s.blocks[b]);
      NeutralUpdate(s.handles, h, Counted(c), b);
    }
  }

  lemma MoveCounters(hs: Handles, h: HandleId, src: HandleId, b: BlockId)
    requires src in hs && h != src && Idle(hs[src]) && (h in hs ==> Neutral(hs[h], b))
    ensures var hs' := hs[h := hs[src]][src := Empty];
      && Deleters(hs', b) == Deleters(hs, b)
      && Counters(hs', b) == if hs[src] == Counted(b) then Counters(hs, b) - {src} + {h} else Counters(hs, b)
    ensures h !in Counters(hs, b)
  {
  }

  /** Moving a handle moves its count along. */
  lemma MoveBlock(hs: Handles, h: HandleId, src: HandleId, b: BlockId, block: Block)
    requires BlockOk(hs, b, block) && src in hs && h != src && Idle(hs[src]) && (h in hs ==> Neutral(hs[h], b))
    ensures BlockOk(hs[h := hs[src]][src := Empty], b, block)
  {
    MoveCounters(hs, h, src, b);
    var counters := Counters(hs, b);
    if hs[src] == Counted(b) {
      assert src in counters;
      assert |counters - {src} + {h}| == |counters|;
    }
  }

  lemma MoveKeepsBlocks(s: State, h: HandleId, src: HandleId)
    requires BlocksOk(s) && src in s.handles && (h != src ==> Idle(s.handles[src]))
    requires h in s.handles ==> s.handles[h].Cleared?
    ensures BlocksOk(MoveInto(s, h, src))
  {
    if h == src {
      NeutralStep(s, h, Empty);
      assert s.handles[h := Empty][src := Empty] == s.handles[h := Empty];
    } else {
      forall b | 0 <= b < |s.blocks|
        ensures BlockOk(MoveInto(s, h, src).handles, b, s.blocks[b])
      {
        MoveBlock(s.handles, h, src, b, s.blocks[b]);
      }
    }
  }

  lemma NewDataKeepsBlocks(s: State, h: HandleId, data: seq<Byte>)
    requires Sound(s) && BlocksOk(s) && h !in s.handles
    ensures BlocksOk(State(s.handles[h := Counted(|s.blocks|)], s.blocks + [Block(data, 1, 0)]))
  {
    var c := |s.blocks|;
    var hs := s.handles[h := Counted(c)];
    assert Counters(hs, c) == {h} && Deleters(hs, c) == {};
    forall b | 0 <= b < |s.blocks|
      ensures BlockOk(hs, b, s.blocks[b])
    {
      NeutralUpdate(s.handles, h, Counted(c), b);
    }
  }

  lemma DestroyKeepsBlocks(s: State, h: HandleId)
    requires BlocksOk(s) && h in s.handles && s.handles[h].Empty?
    ensures BlocksOk(s.(handles := s.handles - {h}))
  {
    forall b | 0 <= b < |s.blocks|
      ensures BlockOk(s.handles - {h}, b, s.blocks[b])
    {
      NeutralRemoval(s.handles, h, b);
    }
  }

  lemma LoadKeepsBlocks(s: State, h: HandleId, src: HandleId)
    requires BlocksOk(s) && src in s.handles && (h in s.handles ==> s.handles[h].Cleared?)
    ensures BlocksOk(LoadFrom(s, h, src))
  {
    NeutralStep(s, h, LoadFrom(s, h, src).handles[h]);
  }

  lemma StepKeepsBlocks(s: State, step: Step)
    requires Inv(s) && Enabled(s, step)
    ensures BlocksOk(Next(s, step))
  {
    match step
    case NewEmpty(h) => NeutralStep(s, h, Empty);
    case NewData(h, data) => NewDataKeepsBlocks(s, h, data);
    case CopyConstruct(h, src) => LoadKeepsBlocks(s, h, src);
    case MoveConstruct(h, src) => MoveKeepsBlocks(s, h, src);
    case Assign(h, src) => BeginResetKeepsBlocks(s, h, CopyFrom(src));
    case MoveAssign(h, src) => BeginResetKeepsBlocks(s, h, MoveFrom(src));
    case Reset(h) => BeginResetKeepsBlocks(s, h, Nothing);
    case Release(h) => ReleaseKeepsBlocks(s, h);
    case Load(h) => LoadKeepsBlocks(s, h, s.handles[h].rest.src);
    case Count(h) => CountKeepsBlocks(s, h);
    case Exchange(h) => MoveKeepsBlocks(s, h, s.handles[h].rest.src);
    case Return(h) => NeutralStep(s, h, Empty);
    case Destroy(h) => DestroyKeepsBlocks(s, h);
  }

  // ---- Every step keeps the sources of running operations.

  /** No other operation uses this handle. */
  ghost predicate NoSource(hs: Handles, h: HandleId) {
    forall g :: g in hs && g != h ==> !Uses(hs[g], h)
  }

  /** Nobody else moves from what x copies from. */
  ghost predicate CopiesUndisturbed(hs: Handles, h: HandleId, x: Handle) {
    Pending(x).CopyFrom? ==> forall g :: g in hs && g != h ==> Pending(hs[g]) != MoveFrom(Pending(x).src)
  }

  lemma UpdateKeepsSources(hs: Handles, h: HandleId, x: Handle)
    requires SourcesOk(hs) && NoSource(hs, h)
    requires SourceOk(hs[h := x], h, x) && MovesAlone(hs, h, x) && CopiesUndisturbed(hs, h, x)
    ensures SourcesOk(hs[h := x])
  {
    var hs' := hs[h := x];
    forall g | g in hs'
      ensures SourceOk(hs', g, hs'[g]) && MovesAlone(hs', g, hs'[g])
    {
      if g != h {
        assert SourceOk(hs, g, hs[g]) && MovesAlone(hs, g, hs[g]);
        assert !Uses(hs[g], h);
      }
    }
  }

  /** A handle that uses no source can take its value whenever nobody uses it. */
  lemma IdleUpdateKeepsSources(hs: Handles, h: HandleId, x: Handle)
    requires SourcesOk(hs) && NoSource(hs, h) && Pending(x).Nothing?
    ensures SourcesOk(hs[h := x])
  {
    UpdateKeepsSources(hs, h, x);
  }

  /** Going on with an operation keeps its source. */
  lemma ContinueKeepsSources(hs: Handles, h: HandleId, x: Handle)
    requires SourcesOk(hs) && h in hs && Pending(x) == Pending(hs[h]) && !Pending(x).Nothing? && !Idle(hs[h])
    requires x.Loaded? ==> x.src in hs && hs[x.src] == Counted(x.block)
    ensures SourcesOk(hs[h := x])
  {
    BusyIsNoSource(hs, h);
    assert SourceOk(hs, h, hs[h]) && MovesAlone(hs, h, hs[h]);
    forall g | g in hs && g != h && Pending(x).CopyFrom?
      ensures Pending(hs[g]) != MoveFrom(Pending(x).src)
    {
      assert MovesAlone(hs, g, hs[g]);
      assert Uses(hs[h], Pending(x).src);
    }
    UpdateKeepsSources(hs, h, x);
  }

  /** An operation under way is nobody else's source, and neither is a handle that does not exist. */
  lemma BusyIsNoSource(hs: Handles, h: HandleId)
    requires SourcesOk(hs) && (h in hs ==> !Idle(hs[h]))
    ensures NoSource(hs, h)
  {
    forall g | g in hs && g != h
      ensures !Uses(hs[g], h)
    {
      assert SourceOk(hs, g, hs[g]);
    }
  }

  lemma MoveKeepsSources(hs: Handles, h: HandleId, src: HandleId)
    requires SourcesOk(hs) && src in hs && h != src && Idle(hs[src]) && NoSource(hs, h)
    requires forall g :: g in hs && g != h ==> !Uses(hs[g], src)
    ensures SourcesOk(hs[h := hs[src]][src := Empty])
  {
    IdleUpdateKeepsSources(hs, h, hs[src]);
    IdleUpdateKeepsSources(hs[h := hs[src]], src, Empty);
  }

  lemma DestroyKeepsSources(hs: Handles, h: HandleId)
    requires SourcesOk(hs) && h in hs && NoSource(hs, h)
    ensures SourcesOk(hs - {h})
  {
    forall g | g in hs - {h}
      ensures SourceOk(hs - {h}, g, hs[g]) && MovesAlone(hs - {h}, g, hs[g])
    {
      assert SourceOk(hs, g, hs[g]) && MovesAlone(hs, g, hs[g]);
    }
  }

  lemma ConstructKeepsSources(s: State, step: Step)
    requires Sound(s) && Enabled(s, step)
    requires step.NewEmpty? || step.NewData? || step.CopyConstruct? || step.MoveConstruct?
    ensures SourcesOk(Next(s, step).handles)
  {
    var hs := s.handles;
    BusyIsNoSource(hs, step.h);
    match step
    case NewEmpty(h) => IdleUpdateKeepsSources(hs, h, Empty);
    case NewData(h, _) => IdleUpdateKeepsSources(hs, h, Counted(|s.blocks|));
    case CopyConstruct(h, src) => UpdateKeepsSources(hs, h, LoadFrom(s, h, src).handles[h]);
    case MoveConstruct(h, src) => MoveKeepsSources(hs, h, src);
  }

  lemma BeginKeepsSources(s: State, h: HandleId, rest: Rest)
    requires Sound(s) && Writable(s, h)
    requires rest.CopyFrom? ==> Readable(s, rest.src) && rest.src != h
    requires rest.MoveFrom? ==> Writable(s, rest.src)
    ensures SourcesOk(BeginReset(s, h, rest).handles)
  {
    UpdateKeepsSources(s.handles, h, BeginReset(s, h, rest).handles[h]);
  }

  lemma LoadKeepsSources(s: State, h: HandleId)
    requires Sound(s) && Enabled(s, Load(h))
    ensures SourcesOk(Next(s, Load(h)).handles)
  {
    var hs := s.handles;
    assert SourceOk(hs, h, hs[h]);
    BusyIsNoSource(hs, h);
    var src := hs[h].rest.src;
    if hs[src].Counted? {
      ContinueKeepsSources(hs, h, Loaded(hs[src].block, src));
    } else {
      IdleUpdateKeepsSources(hs, h, Empty);
    }
  }

  lemma ReleaseKeepsSources(s: State, h: HandleId)
    requires Sound(s) && Enabled(s, Release(h))
    ensures SourcesOk(Next(s, Release(h)).handles)
  {
    var hs := s.handles;
    BusyIsNoSource(hs, h);
    if hs[h].rest.Nothing? {
      IdleUpdateKeepsSources(hs, h, Cleared(Nothing));
    } else {
      ContinueKeepsSources(hs, h, Cleared(hs[h].rest));
    }
  }

  lemma ExchangeKeepsSources(s: State, h: HandleId)
    requires Sound(s) && Enabled(s, Exchange(h))
    ensures SourcesOk(Next(s, Exchange(h)).handles)
  {
    var hs := s.handles;
    var src := hs[h].rest.src;
    BusyIsNoSource(hs, h);
    assert SourceOk(hs, h, hs[h]) && MovesAlone(hs, h, hs[h]);
    if src == h {
      IdleUpdateKeepsSources(hs, h, Empty);
      assert hs[h := Empty][h := Empty] == hs[h := Empty];
    } else {
      MoveKeepsSources(hs, h, src);
    }
  }

  lemma StepKeepsSources(s: State, step: Step)
    requires Sound(s) && Enabled(s, step)
    ensures SourcesOk(Next(s, step).handles)
  {
    match step
    case Assign(h, src) => BeginKeepsSources(s, h, CopyFrom(src));
    case MoveAssign(h, src) => BeginKeepsSources(s, h, MoveFrom(src));
    case Reset(h) => BeginKeepsSources(s, h, Nothing);
    case Release(h) => ReleaseKeepsSources(s, h);
    case Load(h) => LoadKeepsSources(s, h);
    case Count(h) =>
      BusyIsNoSource(s.handles, h);
      IdleUpdateKeepsSources(s.handles, h, Counted(s.handles[h].block));
    case Exchange(h) => ExchangeKeepsSources(s, h);
    case Return(h) =>
      BusyIsNoSource(s.handles, h);
      IdleUpdateKeepsSources(s.handles, h, Empty);
    case Destroy(h) => DestroyKeepsSources(s.handles, h);
    case _ => ConstructKeepsSources(s, step);
  }

  lemma StepKeepsPointers(s: State, step: Step)
    requires Sound(s) && Enabled(s, step)
    ensures PointersOk(Next(s, step).handles, |Next(s, step).blocks|)
  {
  }

  lemma StepKeepsSize(s: State, step: Step)
    requires Sound(s) && Enabled(s, step) && |s.handles| < SIZE_MODULUS
    ensures |Next(s, step).handles| < SIZE_MODULUS
  {
    var keys := Next(s, step).handles.Keys;
    assert keys == s.handles.Keys + {step.h} || keys == s.handles.Keys || keys == s.handles.Keys - {step.h};
  }

  lemma InvStep(s: State, step: Step)
    requires Inv(s) && Enabled(s, step)
    ensures Inv(Next(s, step))
  {
    StepKeepsSources(s, step);
    StepKeepsPointers(s, step);
    StepKeepsBlocks(s, step);
    StepKeepsSize(s, step);
  }

  // ---- Runs.

  ghost predicate IsRun(run: seq<State>, steps: seq<Step>) {
    && |run| == |steps| + 1 && run[0] == INIT
    && forall i :: 0 <= i < |steps| ==>
         Sound(run[i]) && Enabled(run[i], steps[i]) && run[i + 1] == Next(run[i], steps[i])
  }

  lemma {:induction false} RunsKeepInv(run: seq<State>, steps: seq<Step>, i: nat)
    requires IsRun(run, steps) && i < |run|
    ensures Inv(run[i])
  {
    if i > 0 {
      RunsKeepInv(run, steps, i - 1);
      InvStep(run[i - 1], steps[i - 1]);
    }
  }

  /** In every interleaving the counter of a block is the number of handles that count for it; the
      block is deleted at most once, and it is deleted exactly when no handle counts for it and the
      thread that saw zero has done its work. A pointer copied but not yet counted keeps it alive. */
  lemma CounterIsNumberOfHandles(run: seq<State>, steps: seq<Step>, i: nat, b: BlockId)
    requires IsRun(run, steps) && i < |run| && b < |run[i].blocks|
    ensures var hs, block := run[i].handles, run[i].blocks[b];
      && block.ref == |Counters(hs, b)| < SIZE_MODULUS
      && block.deletes <= 1
      && (block.deletes == 1 <==> Counters(hs, b) == {} && Deleters(hs, b) == {})
      && (forall h :: h in hs && hs[h].Loaded? && hs[h].block == b ==>
            hs[h].src in Counters(hs, b) && block.deletes == 0)
  {
    RunsKeepInv(run, steps, i);
    var hs, block := run[i].handles, run[i].blocks[b];
    assert BlockOk(hs, b, block);
    CountersBound(hs, b);
    forall h | h in hs && hs[h].Loaded? && hs[h].block == b
      ensures hs[h].src in Counters(hs, b)
    {
      assert SourceOk(hs, h, hs[h]);
    }
    if Deleters(hs, b) != {} {
      assert |Deleters(hs, b)| > 0;
    }
  }

  /** The block whose counter or memory a step touches. */
  ghost function Touched(s: State, step: Step): Option<BlockId> {
    match step
    case Assign(h, _) => if h in s.handles && s.handles[h].Counted? then Some(s.handles[h].block) else None
    case MoveAssign(h, _) => if h in s.handles && s.handles[h].Counted? then Some(s.handles[h].block) else None
    case Reset(h) => if h in s.handles && s.handles[h].Counted? then Some(s.handles[h].block) else None
    case Count(h) => if h in s.handles && s.handles[h].Loaded? then Some(s.handles[h].block) else None
    case Release(h) =>
      if h in s.handles && s.handles[h].Dropped? && s.handles[h].post == 0 then Some(s.handles[h].block) else None
    case _ => None
  }

  /** No step touches a deleted block. A deleting step finds no counted and no uncounted pointer to
      its block, and it is the only one that changes how often a block was deleted. */
  lemma DeletedOnceAndNeverTouchedAgain(run: seq<State>, steps: seq<Step>, i: nat)
    requires IsRun(run, steps) && i < |steps|
    ensures var s, s', t := run[i], run[i + 1], Touched(run[i], steps[i]);
      && |s.blocks| <= |s'.blocks|
      && (t.Some? ==> t.value < |s.blocks| && s.blocks[t.value].deletes == 0)
      && (forall b :: 0 <= b < |s.blocks| ==>
            s'.blocks[b].deletes == s.blocks[b].deletes + if steps[i].Release? && t == Some(b) then 1 else 0)
      && (steps[i].Release? && t.Some? ==>
            forall h :: h in s.handles && (s.handles[h].Counted? || s.handles[h].Loaded?) ==>
              s.handles[h].block != t.value)
  {
    RunsKeepInv(run, steps, i);
    var s, step := run[i], steps[i];
    var hs, t := s.handles, Touched(s, step);
    if t.Some? {
      assert BlockOk(hs, t.value, s.blocks[t.value]);
      if step.Release? {
        DeleteBlock(hs, step.h, t.value, s.blocks[t.value], Empty);
        assert forall h :: h in hs && hs[h] == Counted(t.value) ==> h in Counters(hs, t.value);
        forall h | h in hs && hs[h].Loaded?
          ensures hs[h].block != t.value
        {
          assert SourceOk(hs, h, hs[h]);
        }
      } else {
        assert SourceOk(hs, step.h, hs[step.h]);
        var counting := if step.Count? then hs[step.h].src else step.h;
        assert counting in Counters(hs, t.value);
      }
    }
  }

  /** The handle a step moves from. */
  ghost predicate StepMovesFrom(s: State, step: Step, g: HandleId)
    requires Enabled(s, step)
  {
    (step.MoveConstruct? && step.src == g) || (step.Exchange? && s.handles[step.h].rest.src == g)
  }

  /** Apart from its own handle, a step changes at most the one it moves from. */
  lemma OtherHandleAfter(s: State, step: Step, g: HandleId)
    requires Sound(s) && Enabled(s, step) && g != step.h && !StepMovesFrom(s, step, g)
    ensures var hs, hs' := s.handles, Next(s, step).handles;
      (g in hs <==> g in hs') && (g in hs ==> hs'[g] == hs[g])
  {
  }

  /** Nothing is moved from a readable handle unless a step begins to. */
  lemma NoNewMove(s: State, step: Step, h: HandleId, g: HandleId)
    requires Sound(s) && Enabled(s, step) && Readable(s, h)
    requires step.MoveConstruct? || step.MoveAssign? ==> step.src != h
    requires g in Next(s, step).handles
    ensures Pending(Next(s, step).handles[g]) != MoveFrom(h)
  {
    if g != step.h && !StepMovesFrom(s, step, g) {
      OtherHandleAfter(s, step, g);
    }
  }

  /** A step that neither writes an idle handle nor moves from it leaves it as it is, and no step
      changes the bytes of a block. */
  lemma OthersLeaveHandleAlone(s: State, step: Step, h: HandleId)
    requires Sound(s) && Enabled(s, step) && Readable(s, h) && step.h != h
    requires step.MoveConstruct? || step.MoveAssign? ==> step.src != h
    ensures Readable(Next(s, step), h) && Next(s, step).handles[h] == s.handles[h]
    ensures |s.blocks| <= |Next(s, step).blocks|
    ensures forall b :: 0 <= b < |s.blocks| ==> Next(s, step).blocks[b].data == s.blocks[b].data
  {
    var s' := Next(s, step);
    assert !StepMovesFrom(s, step, h);
    OtherHandleAfter(s, step, h);
    forall g | g in s'.handles
      ensures Pending(s'.handles[g]) != MoveFrom(h)
    {
      NoNewMove(s, step, h, g);
    }
  }

  /** A block with a counting handle is alive. */
  lemma CountedIsAlive(s: State, h: HandleId)
    requires Inv(s) && h in s.handles && s.handles[h].Counted?
    ensures s.handles[h].block < |s.blocks| && s.blocks[s.handles[h].block].deletes == 0
  {
    var b := s.handles[h].block;
    assert BlockOk(s.handles, b, s.blocks[b]);
    assert h in Counters(s.handles, b);
  }

  // ---- What an operation yields, whatever other threads do meanwhile.

  /** The operation running on h still has to take from src. */
  ghost predicate Takes(s: State, h: HandleId, rest: Rest) {
    h in s.handles && !Idle(s.handles[h]) && Pending(s.handles[h]) == rest
  }

  /** What the operation leaves in h, given what src holds; resetting and moving a handle into itself
      leave it empty. */
  ghost function Yield(s: State, h: HandleId, rest: Rest): Handle {
    if rest.Nothing? || rest.src == h || rest.src !in s.handles then Empty else s.handles[rest.src]
  }

  /** A step of another handle does not touch what the operation works on. */
  lemma OthersLeaveOperationAlone(s: State, step: Step, h: HandleId, rest: Rest)
    requires Sound(s) && Enabled(s, step) && Takes(s, h, rest) && step.h != h
    ensures Takes(Next(s, step), h, rest) && Yield(Next(s, step), h, rest) == Yield(s, h, rest)
  {
    assert SourceOk(s.handles, h, s.handles[h]) && MovesAlone(s.handles, h, s.handles[h]);
    BusyIsNotMoved(s, step, h);
    OtherHandleAfter(s, step, h);
    if !rest.Nothing? && rest.src != h {
      SourceIsNotWritten(s, step, h, rest);
      OtherHandleAfter(s, step, rest.src);
    }
  }

  lemma BusyIsNotMoved(s: State, step: Step, h: HandleId)
    requires Sound(s) && Enabled(s, step) && h in s.handles && !Idle(s.handles[h]) && step.h != h
    ensures !StepMovesFrom(s, step, h)
  {
    if step.Exchange? {
      assert SourceOk(s.handles, step.h, s.handles[step.h]);
    }
  }

  lemma SourceIsNotWritten(s: State, step: Step, h: HandleId, rest: Rest)
    requires Sound(s) && Enabled(s, step) && Takes(s, h, rest) && step.h != h
    requires !rest.Nothing? && rest.src != h
    ensures step.h != rest.src && !StepMovesFrom(s, step, rest.src)
  {
    assert Uses(s.handles[h], rest.src);
    assert SourceOk(s.handles, h, s.handles[h]) && MovesAlone(s.handles, h, s.handles[h]);
    if step.Exchange? {
      assert SourceOk(s.handles, step.h, s.handles[step.h]) && MovesAlone(s.handles, step.h, s.handles[step.h]);
    }
  }

  /** A step of the operation itself brings it nearer to its end, or ends it with its yield. */
  lemma OperationGoesOn(s: State, step: Step, h: HandleId, rest: Rest)
    requires Sound(s) && Enabled(s, step) && Takes(s, h, rest) && step.h == h
    ensures var s' := Next(s, step);
      && h in s'.handles
      && (if Idle(s'.handles[h]) then s'.handles[h] == Yield(s, h, rest)
          else Takes(s', h, rest) && Yield(s', h, rest) == Yield(s, h, rest))
  {
    assert SourceOk(s.handles, h, s.handles[h]);
  }

  /** The operation runs from moment i on, and ends with step j - 1. */
  ghost predicate Operates(run: seq<State>, h: HandleId, rest: Rest, i: nat, j: nat) {
    && i < j < |run| && (forall k :: i <= k < j ==> Takes(run[k], h, rest))
    && h in run[j].handles && Idle(run[j].handles[h])
  }

  lemma YieldStaysOnce(run: seq<State>, steps: seq<Step>, k: nat, h: HandleId, rest: Rest)
    requires IsRun(run, steps) && k < |steps| && Takes(run[k], h, rest) && Takes(run[k + 1], h, rest)
    ensures Yield(run[k + 1], h, rest) == Yield(run[k], h, rest)
  {
    RunsKeepInv(run, steps, k);
    if steps[k].h == h {
      OperationGoesOn(run[k], steps[k], h, rest);
    } else {
      OthersLeaveOperationAlone(run[k], steps[k], h, rest);
    }
  }

  lemma OperationEnds(run: seq<State>, steps: seq<Step>, k: nat, h: HandleId, rest: Rest)
    requires IsRun(run, steps) && k < |steps| && Takes(run[k], h, rest)
    requires h in run[k + 1].handles && Idle(run[k + 1].handles[h])
    ensures run[k + 1].handles[h] == Yield(run[k], h, rest)
    ensures rest.MoveFrom? ==> rest.src in run[k + 1].handles && run[k + 1].handles[rest.src] == Empty
  {
    RunsKeepInv(run, steps, k);
    if steps[k].h == h {
      OperationGoesOn(run[k], steps[k], h, rest);
    } else {
      OthersLeaveOperationAlone(run[k], steps[k], h, rest);
    }
  }

  lemma {:induction false} OperationEndsWithYield(run: seq<State>, steps: seq<Step>, i: nat, j: nat,
                                                  h: HandleId, rest: Rest)
    requires IsRun(run, steps) && Operates(run, h, rest, i, j)
    ensures run[j].handles[h] == Yield(run[i], h, rest)
    ensures rest.MoveFrom? ==> rest.src in run[j].handles && run[j].handles[rest.src] == Empty
    decreases j - i
  {
    if i + 1 == j {
      OperationEnds(run, steps, i, h, rest);
    } else {
      YieldStaysOnce(run, steps, i, h, rest);
      OperationEndsWithYield(run, steps, i + 1, j, h, rest);
    }
  }

  /** What an operation that begins with this step takes. */
  function RestOf(step: Step): Rest {
    match step
    case CopyConstruct(_, src) => CopyFrom(src)
    case Assign(_, src) => CopyFrom(src)
    case MoveConstruct(_, src) => MoveFrom(src)
    case MoveAssign(_, src) => MoveFrom(src)
    case _ => Nothing
  }

  predicate Begins(step: Step) {
    step.CopyConstruct? || step.MoveConstruct? || step.Assign? || step.MoveAssign? || step.Reset?
  }

  /** An operation over with its first step has its yield; another one takes what its source held
      before. */
  lemma OperationBegins(s: State, step: Step)
    requires Sound(s) && Enabled(s, step) && Begins(step)
    ensures step.h in Next(s, step).handles
    ensures var s', rest := Next(s, step), RestOf(step);
      if Idle(s'.handles[step.h])
      then s'.handles[step.h] == Yield(s, step.h, rest)
           && (rest.MoveFrom? ==> rest.src in s'.handles && s'.handles[rest.src] == Empty)
      else Takes(s', step.h, rest) && Yield(s', step.h, rest) == Yield(s, step.h, rest)
  {
  }

  lemma BeginsInRun(run: seq<State>, steps: seq<Step>, i: nat)
    requires IsRun(run, steps) && i < |steps| && Begins(steps[i])
    ensures steps[i].h in run[i + 1].handles
    ensures var h, rest := steps[i].h, RestOf(steps[i]);
      if Idle(run[i + 1].handles[h])
      then run[i + 1].handles[h] == Yield(run[i], h, rest)
           && (rest.MoveFrom? ==> rest.src in run[i + 1].handles && run[i + 1].handles[rest.src] == Empty)
      else Takes(run[i + 1], h, rest) && Yield(run[i + 1], h, rest) == Yield(run[i], h, rest)
  {
    RunsKeepInv(run, steps, i);
    OperationBegins(run[i], steps[i]);
  }

  /** The operation that step i begins is over at moment j and not before. */
  ghost predicate Lasts(run: seq<State>, steps: seq<Step>, i: nat, j: nat)
    requires i < |steps|
  {
    var h, rest := steps[i].h, RestOf(steps[i]);
    && i < j < |run| && (forall k :: i < k < j ==> Takes(run[k], h, rest))
    && h in run[j].handles && Idle(run[j].handles[h])
  }

  /** In every interleaving an operation, of one step or of several, ends with what its source held when
      it began: a copy shares the block, a move takes it and leaves the source empty, a reset leaves
      nothing. */
  lemma OperationYieldsItsSource(run: seq<State>, steps: seq<Step>, i: nat, j: nat)
    requires IsRun(run, steps) && i < |steps| && Begins(steps[i]) && Lasts(run, steps, i, j)
    ensures var h, rest := steps[i].h, RestOf(steps[i]);
      && run[j].handles[h] == Yield(run[i], h, rest)
      && (rest.MoveFrom? ==> rest.src in run[j].handles && run[j].handles[rest.src] == Empty)
  {
    BeginsInRun(run, steps, i);
    if j > i + 1 {
      assert Takes(run[i + 1], steps[i].h, RestOf(steps[i]));
      OperationEndsWithYield(run, steps, i + 1, j, steps[i].h, RestOf(steps[i]));
    }
  }

  // ---- Where handles and bytes come from.

  predicate Creates(step: Step) {
    step.NewEmpty? || step.NewData? || step.CopyConstruct? || step.MoveConstruct?
  }

  /** Handles come with their constructors and go with their destructors only. */
  lemma HandlesComeAndGo(s: State, step: Step, g: HandleId)
    requires Sound(s) && Enabled(s, step)
    ensures g in Next(s, step).handles <==>
      (g in s.handles && step != Destroy(g)) || (Creates(step) && step.h == g)
  {
    if step.Exchange? {
      assert SourceOk(s.handles, step.h, s.handles[step.h]);
    }
  }

  /** Blocks stay, with their bytes. */
  lemma BytesStay(s: State, step: Step)
    requires Sound(s) && Enabled(s, step)
    ensures |s.blocks| <= |Next(s, step).blocks|
    ensures forall b :: 0 <= b < |s.blocks| ==> Next(s, step).blocks[b].data == s.blocks[b].data
  {
  }

  lemma {:induction false} BlockKeepsBytes(run: seq<State>, steps: seq<Step>, i: nat, j: nat, b: BlockId)
    requires IsRun(run, steps) && i <= j < |run| && b < |run[i].blocks|
    ensures b < |run[j].blocks| && run[j].blocks[b].data == run[i].blocks[b].data
    decreases j - i
  {
    if i < j {
      BytesStayInRun(run, steps, i);
      BlockKeepsBytes(run, steps, i + 1, j, b);
    }
  }

  lemma BytesStayInRun(run: seq<State>, steps: seq<Step>, i: nat)
    requires IsRun(run, steps) && i < |steps|
    ensures |run[i].blocks| <= |run[i + 1].blocks|
    ensures forall b :: 0 <= b < |run[i].blocks| ==> run[i + 1].blocks[b].data == run[i].blocks[b].data
  {
    RunsKeepInv(run, steps, i);
    BytesStay(run[i], steps[i]);
  }

  /** A new binary has a block of its own with the bytes it was given, and whoever counts for that
      block, at any later moment, finds it alive with those bytes. An empty one has none. */
  lemma NewDataIsReadLater(run: seq<State>, steps: seq<Step>, i: nat, j: nat, g: HandleId)
    requires IsRun(run, steps) && i < |steps| && i < j < |run|
    ensures steps[i].NewEmpty? ==> steps[i].h in run[i + 1].handles && run[i + 1].handles[steps[i].h] == Empty
    ensures steps[i].NewData? ==>
      var b := |run[i].blocks|;
      && steps[i].h in run[i + 1].handles && run[i + 1].handles[steps[i].h] == Counted(b)
      && b < |run[j].blocks| && run[j].blocks[b].data == steps[i].data
      && (g in run[j].handles && run[j].handles[g] == Counted(b) ==> run[j].blocks[b].deletes == 0)
  {
    if steps[i].NewData? {
      BlockKeepsBytes(run, steps, i + 1, j, |run[i].blocks|);
      RunsKeepInv(run, steps, j);
      if g in run[j].handles && run[j].handles[g] == Counted(|run[i].blocks|) {
        CountedIsAlive(run[j], g);
      }
    }
  }
}
