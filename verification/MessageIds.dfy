/**
 The 32-bit message IDs counted cyclically, and when a free one can be found.
 */
module MessageIds {
  import opened Wire
  import opened Sets

  /** The k-th message ID after start, wrapping around. */
  function Cyclic(start: Msgid, k: nat): Msgid {
    (start + k) % MSGID_MODULUS
  }

  lemma CyclicDistinct(start: Msgid, j: nat, k: nat)
    requires j < k < j + MSGID_MODULUS
    ensures Cyclic(start, j) != Cyclic(start, k)
  {
    var a, b := start + j, start + k;
    assert a == MSGID_MODULUS * (a / MSGID_MODULUS) + a % MSGID_MODULUS;
    assert b == MSGID_MODULUS * (b / MSGID_MODULUS) + b % MSGID_MODULUS;
  }

  lemma CyclicNext(start: Msgid, k: nat)
    ensures Cyclic(start, k + 1) == (Cyclic(start, k) + 1) % MSGID_MODULUS
  {
    var a := start + k;
    assert a == MSGID_MODULUS * (a / MSGID_MODULUS) + a % MSGID_MODULUS;
  }

  /** The first k message IDs from start on. */
  ghost function Tried(start: Msgid, k: nat): set<Msgid> {
    set j | 0 <= j < k :: Cyclic(start, j)
  }

  lemma {:induction false} TriedCount(start: Msgid, k: nat)
    requires k <= MSGID_MODULUS
    ensures |Tried(start, k)| == k
  {
    if k > 0 {
      TriedCount(start, k - 1);
      TriedIsNew(start, k - 1);
      assert Tried(start, k) == Tried(start, k - 1) + {Cyclic(start, k - 1)};
    }
  }

  lemma TriedIsNew(start: Msgid, k: nat)
    requires k < MSGID_MODULUS
    ensures Cyclic(start, k) !in Tried(start, k)
  {
    forall j | 0 <= j < k
      ensures Cyclic(start, j) != Cyclic(start, k)
    {
      CyclicDistinct(start, j, k);
    }
  }

  /** While fewer IDs than all are taken, the search from any start has not tried more IDs
      than are taken, and finds a free one by then. */
  lemma SearchIsShort(taken: set<Msgid>, start: Msgid, k: nat)
    requires |taken| < MSGID_MODULUS && k <= MSGID_MODULUS && Tried(start, k) <= taken
    ensures k <= |taken|
    ensures k == |taken| ==> Cyclic(start, k) !in taken
  {
    TriedCount(start, k);
    SubsetSize(Tried(start, k), taken);
    if k == |taken| {
      TriedIsNew(start, k);
    }
  }

  /** A free ID exists exactly while fewer than 2^32 are taken: with a full table the request
      loop can never register, and only a failed write can free an ID again. */
  lemma FreeIdIffNotAllTaken(taken: set<Msgid>)
    ensures (exists id: Msgid :: id !in taken) <==> |taken| < MSGID_MODULUS
  {
    var all := Tried(0, MSGID_MODULUS);
    TriedCount(0, MSGID_MODULUS);
    forall id: Msgid
      ensures id in all
    {
      assert Cyclic(0, id) == id;
    }
    SubsetSize(taken, all);
    assert taken == all || exists id :: id in all && id !in taken;
  }
}
