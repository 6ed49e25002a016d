/**
 The growable buffer: a byte queue in one block of memory, with a doubling capacity.
 */
module Buffer {
  import opened Wire
  import opened Sizes

  const MAX_SIZE := SIZE_MODULUS - 1
  const INITIAL_CAPACITY := 1024

  /** An unsigned 64-bit size. */
  type Size = n: int | 0 <= n <= MAX_SIZE

  // ---- The capacity law.

  /** c doubled k times. */
  ghost function Doubled(c: nat, k: nat): nat {
    if k == 0 then c else 2 * Doubled(c, k - 1)
  }

  /** A capacity reached by doubling the initial one, or one beyond half of all memory. */
  ghost predicate CapacityOk(c: Size) {
    c > MAX_SIZE / 2 || exists k: nat :: c == Doubled(INITIAL_CAPACITY, k)
  }

  /** What the next capacity must be, told without the loop: the required size itself beyond half
      of memory, else the smallest doubling of the current capacity that suffices. */
  ghost predicate IsNextCapacity(current: Size, required: Size, c: Size) {
    if required > MAX_SIZE / 2 then c == required
    else
      && c >= required
      && (exists k: nat :: c == Doubled(current, k))
      && (c > current ==> c < 2 * required)
  }

  lemma {:induction false} DoubledMonotone(c: nat, j: nat, k: nat)
    requires 0 < c && j < k
    ensures c <= Doubled(c, j) && 2 * Doubled(c, j) <= Doubled(c, k)
    decreases j + k
  {
    if j > 0 {
      DoubledMonotone(c, j - 1, k - 1);
    } else if k > 1 {
      DoubledMonotone(c, 0, k - 1);
    }
  }

  lemma {:induction false} DoubledTwice(c: nat, j: nat, k: nat)
    ensures Doubled(Doubled(c, j), k) == Doubled(c, j + k)
  {
    if k > 0 {
      DoubledTwice(c, j, k - 1);
    }
  }

  /** That determines the next capacity. */
  lemma NextCapacityIsUnique(current: Size, required: Size, c: Size, d: Size)
    requires 0 < current && IsNextCapacity(current, required, c) && IsNextCapacity(current, required, d)
    ensures c == d
  {
    if required <= MAX_SIZE / 2 {
      var j: nat :| c == Doubled(current, j);
      var k: nat :| d == Doubled(current, k);
      if j < k {
        DoubledMonotone(current, j, k);
      } else if k < j {
        DoubledMonotone(current, k, j);
      }
    }
  }

  /** Growing keeps the capacity law and never shrinks. */
  lemma NextCapacityKeepsLaw(current: Size, required: Size, c: Size)
    requires CapacityOk(current) && 0 < current < required && IsNextCapacity(current, required, c)
    ensures CapacityOk(c) && c > current
  {
    if required <= MAX_SIZE / 2 {
      var j: nat :| current == Doubled(INITIAL_CAPACITY, j);
      var k: nat :| c == Doubled(current, k);
      DoubledTwice(INITIAL_CAPACITY, j, k);
    }
  }

  /** The doubling loop, in 64-bit arithmetic: it ends and never wraps around. */
  method CalculateNextCapacity(current: Size, required: Size) returns (c: Size)
    requires 0 < current
    ensures IsNextCapacity(current, required, c)
  {
    c := current;
    if required > MAX_SIZE / 2 {
      return required;
    }
    ghost var k: nat := 0;
    while c < required
      invariant c == Doubled(current, k)
      invariant c >= current && (c > current ==> c < 2 * required)
      decreases required - c
    {
      assert 2 * c <= MAX_SIZE;
      c := (c * 2) % (MAX_SIZE + 1);
      k := k + 1;
    }
  }

  // ---- The buffer as a byte queue.

  datatype Queue = Queue(contents: seq<Byte>, capacity: Size)

  /** A buffer that holds what it has room for. */
  ghost predicate Valid(q: Queue) {
    |q.contents| <= q.capacity && 0 < q.capacity && CapacityOk(q.capacity)
  }

  /** The operations; ok tells whether memory is found if more is asked for. */
  datatype Op =
    | Push(bytes: seq<Byte>, ok: bool)      // resize, then write behind the old end
    | Reserve(n: Size, ok: bool)
    | Consume(n: Size)

  /** A capacity of at least n, if there is memory for it. */
  ghost predicate Grown(before: Size, n: Size, ok: bool, after: Size) {
    if n <= before || !ok then after == before else IsNextCapacity(before, n, after)
  }

  ghost predicate Fails(q: Queue, n: int, ok: bool) {
    n > q.capacity && !ok
  }

  function Drop(s: seq<Byte>, n: nat): seq<Byte> {
    if n >= |s| then [] else s[n..]
  }

  ghost predicate Stepped(q: Queue, op: Op, q': Queue) {
    match op
    case Push(bytes, ok) =>
      && |q.contents| + |bytes| <= MAX_SIZE
      && Grown(q.capacity, |q.contents| + |bytes|, ok, q'.capacity)
      && q'.contents == if Fails(q, |q.contents| + |bytes|, ok) then q.contents else q.contents + bytes
    case Reserve(n, ok) => Grown(q.capacity, n, ok, q'.capacity) && q'.contents == q.contents
    case Consume(n) => q'.capacity == q.capacity && q'.contents == Drop(q.contents, n)
  }

  lemma GrownKeepsLaw(before: Size, n: Size, ok: bool, after: Size)
    requires CapacityOk(before) && 0 < before && Grown(before, n, ok, after)
    ensures CapacityOk(after) && after >= before && (ok ==> after >= n)
  {
    if n > before && ok {
      NextCapacityKeepsLaw(before, n, after);
    }
  }

  lemma StepKeepsValid(q: Queue, op: Op, q': Queue)
    requires Valid(q) && Stepped(q, op, q')
    ensures Valid(q') && q'.capacity >= q.capacity
  {
    match op
    case Push(bytes, ok) => GrownKeepsLaw(q.capacity, |q.contents| + |bytes|, ok, q'.capacity);
    case Reserve(n, ok) => GrownKeepsLaw(q.capacity, n, ok, q'.capacity);
    case Consume(_) =>
  }

  /** Runs from any buffer, as each constructor may leave it. */
  ghost predicate IsRun(run: seq<Queue>, ops: seq<Op>) {
    && |run| == |ops| + 1 && Valid(run[0])
    && forall i :: 0 <= i < |ops| ==> Stepped(run[i], ops[i], run[i + 1])
  }

  /** What an operation puts in: the bytes of a push that found memory. */
  ghost function PutIn(q: Queue, op: Op): seq<Byte> {
    if op.Push? && !Fails(q, |q.contents| + |op.bytes|, op.ok) then op.bytes else []
  }

  /** What an operation takes out. */
  ghost function TakenOut(q: Queue, op: Op): seq<Byte> {
    if !op.Consume? then [] else if op.n >= |q.contents| then q.contents else q.contents[..op.n]
  }

  lemma StepConserves(q: Queue, op: Op, q': Queue)
    requires Stepped(q, op, q')
    ensures q.contents + PutIn(q, op) == TakenOut(q, op) + q'.contents
  {
  }

  lemma Chain(first: seq<Byte>, w: seq<Byte>, t: seq<Byte>, c: seq<Byte>, put: seq<Byte>, out: seq<Byte>, c': seq<Byte>)
    requires first + w == t + c && c + put == out + c'
    ensures first + (w + put) == t + out + c'
  {
    assert first + (w + put) == first + w + put;
    assert t + c + put == t + (c + put);
    assert t + out + c' == t + (out + c');
  }

  /** What the first i operations put in, and what they took out, in order. */
  ghost function Written(run: seq<Queue>, ops: seq<Op>, i: nat): seq<Byte>
    requires |run| == |ops| + 1 && i <= |ops|
  {
    if i == 0 then [] else Written(run, ops, i - 1) + PutIn(run[i - 1], ops[i - 1])
  }

  ghost function Taken(run: seq<Queue>, ops: seq<Op>, i: nat): seq<Byte>
    requires |run| == |ops| + 1 && i <= |ops|
  {
    if i == 0 then [] else Taken(run, ops, i - 1) + TakenOut(run[i - 1], ops[i - 1])
  }

  /** In every run the bytes at first and those written are the bytes taken followed by those still
      there: none is lost, doubled or reordered. The capacity law holds and the capacity never
      decreases. */
  lemma {:induction false} BufferIsQueue(run: seq<Queue>, ops: seq<Op>, i: nat)
    requires IsRun(run, ops) && i <= |ops|
    ensures Valid(run[i])
    ensures run[0].contents + Written(run, ops, i) == Taken(run, ops, i) + run[i].contents
    ensures run[0].capacity <= run[i].capacity
    ensures i > 0 ==> run[i - 1].capacity <= run[i].capacity
  {
    if i > 0 {
      var k := i - 1;
      BufferIsQueue(run, ops, k);
      assert Stepped(run[k], ops[k], run[k + 1]);
      StepKeepsValid(run[k], ops[k], run[i]);
      StepConserves(run[k], ops[k], run[i]);
      Chain(run[0].contents, Written(run, ops, k), Taken(run, ops, k), run[k].contents,
            PutIn(run[k], ops[k]), TakenOut(run[k], ops[k]), run[i].contents);
    }
  }

  // ---- The buffer object.

  class Buffer {
    var data: array<Byte>
    var size: Size
    var capacity: Size

    ghost predicate Valid()
      reads this, data
    {
      data.Length == capacity && size <= capacity && 0 < capacity && CapacityOk(capacity)
    }

    ghost function Abs(): Queue
      requires Valid()
      reads this, data
    {
      Queue(data[..size], capacity)
    }

    /** A new buffer; its bytes are whatever the memory holds. */
    constructor (size: Size)
      ensures Valid() && fresh(data)
      ensures this.size == size
      ensures size <= INITIAL_CAPACITY ==> capacity == INITIAL_CAPACITY
      ensures size > INITIAL_CAPACITY ==> IsNextCapacity(INITIAL_CAPACITY, size, capacity)
    {
      var c := CalculateNextCapacity(INITIAL_CAPACITY, size);
      data := new Byte[c];
      this.size := size;
      capacity := c;
      assert INITIAL_CAPACITY == Doubled(INITIAL_CAPACITY, 0);
      if size <= INITIAL_CAPACITY {
        assert IsNextCapacity(INITIAL_CAPACITY, size, INITIAL_CAPACITY);
        NextCapacityIsUnique(INITIAL_CAPACITY, size, c, INITIAL_CAPACITY);
      } else {
        NextCapacityKeepsLaw(INITIAL_CAPACITY, size, c);
      }
    }

    /** Construction as a whole: without memory it throws, and there is no buffer. */
    static method Make(size: Size, ok: bool) returns (b: Buffer?)
      ensures b == null <==> !ok
      ensures b != null ==> fresh(b) && b.Valid() && fresh(b.data) && b.size == size
      ensures b != null && size <= INITIAL_CAPACITY ==> b.capacity == INITIAL_CAPACITY
      ensures b != null && size > INITIAL_CAPACITY ==> IsNextCapacity(INITIAL_CAPACITY, size, b.capacity)
    {
      if ok {
        b := new Buffer(size);
      } else {
        b := null;
      }
    }

    /** Construction with a copy of data; a null pointer throws as well. */
    static method MakeFrom(bytes: Option<seq<Byte>>, size: Size, ok: bool) returns (b: Buffer?)
      requires bytes.Some? ==> size == |bytes.value|
      ensures b == null <==> !ok || bytes == None
      ensures b != null ==> fresh(b) && b.Valid() && fresh(b.data) && b.Abs().contents == bytes.value
    {
      b := Make(size, ok);
      if b == null || bytes.None? {
        return null;
      }
      for i := 0 to size
        invariant b.Valid() && b.size == size && fresh(b) && fresh(b.data)
        invariant b.data[..i] == bytes.value[..i]
      {
        b.data[i] := bytes.value[i];
      }
    }

    /** realloc: a larger block that begins with the old bytes, or nothing changes. */
    method Reallocate(c: Size, ok: bool) returns (thrown: bool)
      requires Valid() && c > capacity && CapacityOk(c)
      modifies this
      ensures thrown == !ok
      ensures thrown ==> unchanged(this)
      ensures !thrown ==> Valid() && fresh(data) && capacity == c && size == old(size)
      ensures !thrown ==> data[..old(capacity)] == old(data[..])
    {
      if !ok {
        return true;
      }
      var bigger := new Byte[c];
      forall i | 0 <= i < data.Length {
        bigger[i] := data[i];
      }
      assert bigger[..data.Length] == data[..];
      data := bigger;
      capacity := c;
      return false;
    }

    method Reserve(n: Size, ok: bool) returns (thrown: bool)
      requires Valid()
      modifies this
      ensures Valid() && thrown == Fails(old(Abs()), n, ok)
      ensures data == old(data) || fresh(data)
      ensures size == old(size)
      ensures Stepped(old(Abs()), Op.Reserve(n, ok), Abs())
      ensures data[..old(capacity)] == old(data[..])
    {
      if n <= capacity {
        return false;
      }
      var c := CalculateNextCapacity(capacity, n);
      NextCapacityKeepsLaw(capacity, n, c);
      ghost var before := data[..];
      thrown := Reallocate(c, ok);
      assert data[..old(size)] == before[..old(size)];
    }

    /** The bytes up to the smaller of both sizes stay; new ones are unspecified. */
    method Resize(n: Size, ok: bool) returns (thrown: bool)
      requires Valid()
      modifies this
      ensures Valid() && thrown == Fails(old(Abs()), n, ok)
      ensures data == old(data) || fresh(data)
      ensures thrown ==> unchanged(this)
      ensures !thrown ==> size == n && Grown(old(capacity), n, ok, capacity)
      ensures data[..old(capacity)] == old(data[..])
    {
      if n <= capacity {
        size := n;
        return false;
      }
      var c := CalculateNextCapacity(capacity, n);
      NextCapacityKeepsLaw(capacity, n, c);
      thrown := Reallocate(c, ok);
      if !thrown {
        size := n;
      }
    }

    /** Growing by some bytes and writing them behind the old end, as users of the buffer do. */
    method Push(bytes: seq<Byte>, ok: bool) returns (thrown: bool)
      requires Valid() && size + |bytes| <= MAX_SIZE
      modifies this, data
      ensures Valid() && thrown == Fails(old(Abs()), old(size) + |bytes|, ok)
      ensures data == old(data) || fresh(data)
      ensures Stepped(old(Abs()), Op.Push(bytes, ok), Abs())
    {
      var tail := size;
      ghost var before := data[..];
      thrown := Resize(size + |bytes|, ok);
      if thrown {
        return;
      }
      assert data[..tail] == before[..tail];
      forall i | 0 <= i < |bytes| {
        data[tail + i] := bytes[i];
      }
      assert data[..size] == before[..tail] + bytes;
    }

    /** Removes bytes at the beginning by moving the rest, over itself, to the front. */
    method Consume(n: Size)
      requires Valid()
      modifies this, data
      ensures Valid() && data == old(data)
      ensures Stepped(old(Abs()), Op.Consume(n), Abs())
    {
      if n >= size {
        size := 0;
        return;
      }
      var moved := size - n;
      forall i | 0 <= i < moved {
        data[i] := data[n + i];
      }
      size := moved;
    }
  }
}
