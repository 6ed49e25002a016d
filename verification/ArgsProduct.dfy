/**
 The enumeration of all argument combinations of a benchmark: an odometer of indices, the first
 list turning fastest.
 */
module ArgsProduct {
  import opened Sizes

  type Lists = seq<seq<int>>

  ghost predicate NonEmptyLists(ls: Lists) {
    forall i :: 0 <= i < |ls| ==> ls[i] != []
  }

  function Product(ls: Lists): nat {
    if ls == [] then 1 else |ls[0]| * Product(ls[1..])
  }

  /** Indices into the lists. */
  ghost predicate Indices(ls: Lists, ds: seq<nat>) {
    |ds| == |ls| && forall i :: 0 <= i < |ls| ==> ds[i] < |ls[i]|
  }

  /** The mixed-radix digits of i, the first list being the least significant. */
  ghost function Digits(ls: Lists, i: nat): (ds: seq<nat>)
    requires NonEmptyLists(ls)
    ensures Indices(ls, ds)
  {
    if ls == [] then [] else [i % |ls[0]|] + Digits(ls[1..], i / |ls[0]|)
  }

  /** The number with these digits. */
  ghost function Value(ls: Lists, ds: seq<nat>): nat
    requires |ds| == |ls|
  {
    if ls == [] then 0 else ds[0] + |ls[0]| * Value(ls[1..], ds[1..])
  }

  lemma DivMod(i: nat, n: nat)
    requires n > 0
    ensures i == i % n + n * (i / n)
  {
  }

  lemma DivModUnique(r: nat, q: nat, n: nat)
    requires r < n
    ensures (r + n * q) % n == r && (r + n * q) / n == q
  {
    var i := r + n * q;
    DivMod(i, n);
    var q' := i / n;
    if q' < q {
      MulMonotone(n, q' + 1, q);
    } else if q' > q {
      MulMonotone(n, q + 1, q');
    }
  }

  lemma MulMonotone(n: nat, a: nat, b: nat)
    requires a <= b
    ensures n * a <= n * b && n * a == n + n * (a - 1)
  {
  }

  lemma {:induction false} ValueOfDigits(ls: Lists, i: nat)
    requires NonEmptyLists(ls) && i < Product(ls)
    ensures Value(ls, Digits(ls, i)) == i
  {
    if ls != [] {
      var n, rest := |ls[0]|, ls[1..];
      DivMod(i, n);
      QuotientBound(i, n, Product(rest));
      ValueOfDigits(rest, i / n);
      assert Digits(ls, i)[1..] == Digits(rest, i / n);
    }
  }

  lemma QuotientBound(i: nat, n: nat, p: nat)
    requires n > 0 && i < n * p
    ensures i / n < p
  {
    DivMod(i, n);
    if i / n >= p {
      MulMonotone(n, p, i / n);
    }
  }

  lemma {:induction false} DigitsOfValue(ls: Lists, ds: seq<nat>)
    requires NonEmptyLists(ls) && Indices(ls, ds)
    ensures Digits(ls, Value(ls, ds)) == ds && Value(ls, ds) < Product(ls)
  {
    if ls != [] {
      var n, rest := |ls[0]|, ls[1..];
      DigitsOfValue(rest, ds[1..]);
      var q := Value(rest, ds[1..]);
      DivModUnique(ds[0], q, n);
      MulMonotone(n, q + 1, Product(rest));
      assert ds == [ds[0]] + ds[1..];
    }
  }

  // ---- The carry.

  /** One index turned by one. */
  function Turn(d: nat, n: nat): (r: nat)
    requires d < n
    ensures r == if d + 1 < n then d + 1 else 0
  {
    (d + 1) % n
  }

  /** The indices one further, carrying from the front; after the last ones all are zero. */
  ghost function Increment(ls: Lists, ds: seq<nat>): (r: seq<nat>)
    requires Indices(ls, ds)
    ensures Indices(ls, r)
  {
    if ls == [] then []
    else if ds[0] + 1 < |ls[0]| then [ds[0] + 1] + ds[1..]
    else [0] + Increment(ls[1..], ds[1..])
  }

  lemma DivModOf(i: nat, r: nat, q: nat, n: nat)
    requires r < n && i == r + n * q
    ensures i % n == r && i / n == q
  {
    DivModUnique(r, q, n);
  }

  lemma DivModNext(i: nat, r: nat, q: nat, n: nat)
    requires n > 0 && r == i % n && q == i / n
    ensures if r + 1 < n then (i + 1) % n == r + 1 && (i + 1) / n == q
            else (i + 1) % n == 0 && (i + 1) / n == q + 1
  {
    assert i == r + n * q && r < n by { DivMod(i, n); }
    if r + 1 < n {
      DivModOf(i + 1, r + 1, q, n);
    } else {
      assert n * (q + 1) == n + n * q;
      DivModOf(i + 1, 0, q + 1, n);
    }
  }

  lemma DigitsCons(ls: Lists, i: nat, r: nat, q: nat)
    requires NonEmptyLists(ls) && ls != [] && i % |ls[0]| == r && i / |ls[0]| == q
    ensures Digits(ls, i) == [r] + Digits(ls[1..], q)
  {
  }

  lemma IncrementCons(ls: Lists, r: nat, rest: seq<nat>)
    requires ls != [] && Indices(ls, [r] + rest) && Indices(ls[1..], rest)
    ensures Increment(ls, [r] + rest)
      == if r + 1 < |ls[0]| then [r + 1] + rest else [0] + Increment(ls[1..], rest)
  {
    assert ([r] + rest)[1..] == rest;
  }

  /** The digits of a number and of the next one. */
  lemma NextDigits(ls: Lists, i: nat) returns (r: nat, q: nat)
    requires NonEmptyLists(ls) && ls != []
    ensures Digits(ls, i) == [r] + Digits(ls[1..], q)
    ensures Digits(ls, i + 1) == if r + 1 < |ls[0]| then [r + 1] + Digits(ls[1..], q) else [0] + Digits(ls[1..], q + 1)
  {
    var n := |ls[0]|;
    r, q := i % n, i / n;
    DivModNext(i, r, q, n);
    DigitsCons(ls, i, r, q);
    if r + 1 < n {
      DigitsCons(ls, i + 1, r + 1, q);
    } else {
      DigitsCons(ls, i + 1, 0, q + 1);
    }
  }

  lemma {:induction false} IncrementIsNext(ls: Lists, i: nat)
    requires NonEmptyLists(ls)
    ensures Increment(ls, Digits(ls, i)) == Digits(ls, i + 1)
    decreases |ls|
  {
    if ls != [] {
      var r, q := NextDigits(ls, i);
      IncrementCons(ls, r, Digits(ls[1..], q));
      IncrementIsNext(ls[1..], q);
    }
  }

  ghost predicate AllZero(ds: seq<nat>) {
    forall k :: 0 <= k < |ds| ==> ds[k] == 0
  }

  /** At zero and after the last combination all indices are zero. */
  lemma {:induction false} DigitsAtEnds(ls: Lists)
    requires NonEmptyLists(ls)
    ensures AllZero(Digits(ls, 0)) && AllZero(Digits(ls, Product(ls)))
  {
    if ls != [] {
      var n, rest := |ls[0]|, ls[1..];
      DigitsAtEnds(rest);
      DivModUnique(0, Product(rest), n);
      DivModUnique(0, 0, n);
    }
  }

  // ---- The rows.

  function Row(ls: Lists, ds: seq<nat>): (row: seq<int>)
    requires Indices(ls, ds)
    ensures |row| == |ls| && forall k :: 0 <= k < |ls| ==> row[k] == ls[k][ds[k]]
  {
    seq(|ls|, k requires 0 <= k < |ls| => ls[k][ds[k]])
  }

  /** The first n rows. */
  ghost function Rows(ls: Lists, n: nat): (rows: seq<seq<int>>)
    requires NonEmptyLists(ls)
    ensures |rows| == n && forall i :: 0 <= i < n ==> rows[i] == Row(ls, Digits(ls, i))
  {
    seq(n, i requires 0 <= i < n => Row(ls, Digits(ls, i)))
  }

  lemma RowsOneMore(ls: Lists, n: nat, before: seq<seq<int>>)
    requires NonEmptyLists(ls)
    ensures before + Rows(ls, n + 1) == before + Rows(ls, n) + [Row(ls, Digits(ls, n))]
  {
    assert Rows(ls, n + 1) == Rows(ls, n) + [Row(ls, Digits(ls, n))];
  }

  /** What the call appends: as many rows as the 64-bit product of the sizes says. */
  ghost function Appended(ls: Lists): seq<seq<int>> {
    var total := Product(ls) % SIZE_MODULUS;
    if NonEmptyLists(ls) then Rows(ls, total) else []
  }

  /** Different numbers below the product have different digits. */
  lemma DigitsAreInjective(ls: Lists, i: nat, j: nat)
    requires NonEmptyLists(ls) && i < Product(ls) && j < Product(ls) && Digits(ls, i) == Digits(ls, j)
    ensures i == j
  {
    ValueOfDigits(ls, i);
    ValueOfDigits(ls, j);
  }

  /** A combination of positions is the row at its value, if that is among the rows, and at no
      other place. */
  lemma CombinationAppearsAtItsValue(ls: Lists, ds: seq<nat>, i: nat)
    requires NonEmptyLists(ls) && Indices(ls, ds) && i < |Appended(ls)|
    ensures Digits(ls, i) == ds <==> i == Value(ls, ds)
    ensures i == Value(ls, ds) ==> Appended(ls)[i] == Row(ls, ds)
  {
    DigitsOfValue(ls, ds);
    AppendedRow(ls, i);
    if Digits(ls, i) == ds {
      DigitsAreInjective(ls, i, Value(ls, ds));
    }
  }

  /** As many rows as the product of the sizes modulo 2^64, and none if a list is empty. */
  lemma AppendedSize(ls: Lists)
    ensures |Appended(ls)| == Product(ls) % SIZE_MODULUS
  {
    if !NonEmptyLists(ls) {
      SomeEmptyMeansNoRows(ls);
    }
  }

  lemma AppendedRow(ls: Lists, i: nat)
    requires NonEmptyLists(ls) && i < |Appended(ls)|
    ensures i < Product(ls) && Appended(ls)[i] == Row(ls, Digits(ls, i))
  {
    DivMod(Product(ls), SIZE_MODULUS);
  }

  ghost predicate Reached(ls: Lists, ds: seq<nat>)
    requires |ds| == |ls|
  {
    Value(ls, ds) < |Appended(ls)|
  }

  /** Every combination appears exactly when the product of the sizes fits 64 bits. */
  lemma EveryCombinationIff(ls: Lists)
    requires NonEmptyLists(ls)
    ensures Product(ls) < SIZE_MODULUS <==> forall ds :: Indices(ls, ds) ==> Reached(ls, ds)
  {
    if Product(ls) < SIZE_MODULUS {
      forall ds | Indices(ls, ds)
        ensures Reached(ls, ds)
      {
        DigitsOfValue(ls, ds);
      }
    } else {
      var last := Product(ls) - 1;
      ValueOfDigits(ls, last);
      assert Indices(ls, Digits(ls, last)) && !Reached(ls, Digits(ls, last));
    }
  }

  ghost function Power2(k: nat): nat {
    if k == 0 then 1 else 2 * Power2(k - 1)
  }

  lemma Power2At64()
    ensures Power2(64) == SIZE_MODULUS
  {
    assert Power2(8) == 0x100;
    assert Power2(16) == 0x1_0000;
    assert Power2(24) == 0x100_0000;
    assert Power2(32) == 0x1_0000_0000;
    assert Power2(40) == 0x100_0000_0000;
    assert Power2(48) == 0x1_0000_0000_0000;
    assert Power2(56) == 0x100_0000_0000_0000;
  }

  lemma {:induction false} ProductOfPairs(ls: Lists)
    requires forall i :: 0 <= i < |ls| ==> |ls[i]| == 2
    ensures Product(ls) == Power2(|ls|)
  {
    if ls != [] {
      ProductOfPairs(ls[1..]);
    }
  }

  /** Any 64 lists of two arguments have 2^64 combinations, and none of them appears. */
  lemma AllCombinationsLost(ls: Lists)
    requires |ls| == 64 && forall i :: 0 <= i < |ls| ==> |ls[i]| == 2
    ensures NonEmptyLists(ls) && Product(ls) == SIZE_MODULUS && Appended(ls) == []
    ensures forall ds :: Indices(ls, ds) ==> !Reached(ls, ds)
  {
    ProductOfPairs(ls);
    Power2At64();
    forall i | 0 <= i < |ls|
      ensures ls[i] != []
    {
      assert |ls[i]| == 2;
    }
  }

  lemma {:induction false} SomeEmptyMeansNoRows(ls: Lists)
    requires !NonEmptyLists(ls)
    ensures Product(ls) == 0
  {
    if ls[0] != [] {
      var k :| 0 <= k < |ls| && ls[k] == [];
      assert ls[1..][k - 1] == [];
      SomeEmptyMeansNoRows(ls[1..]);
    }
  }

  // ---- The method.

  lemma ProductSnoc(ls: Lists, l: seq<int>)
    ensures Product(ls + [l]) == Product(ls) * |l|
  {
    if ls == [] {
      assert ([] + [l])[1..] == [];
    } else {
      assert (ls + [l])[1..] == ls[1..] + [l];
      ProductSnoc(ls[1..], l);
      MulAssociates(|ls[0]|, Product(ls[1..]), |l|);
    }
  }

  lemma MulAssociates(a: nat, b: nat, c: nat)
    ensures a * (b * c) == a * b * c
  {
  }

  lemma WrappedProduct(a: nat, b: nat)
    ensures ((a % SIZE_MODULUS) * b) % SIZE_MODULUS == (a * b) % SIZE_MODULUS
  {
    var m, r, q := SIZE_MODULUS, a % SIZE_MODULUS, a / SIZE_MODULUS;
    DivMod(a, m);
    assert a * b == r * b + m * (q * b) by {
      assert (r + m * q) * b == r * b + m * q * b;
      MulAssociates(m, q, b);
    }
    var x, y := r * b, q * b;
    DivMod(x, m);
    DivModUnique(x % m, x / m + y, m);
    assert m * (x / m + y) == m * (x / m) + m * y;
  }

  /** The product of the sizes in 64-bit arithmetic. */
  method Total(ls: Lists) returns (total: nat)
    ensures total == Product(ls) % SIZE_MODULUS
  {
    total := 1;
    assert ls[..0] == [];
    for i := 0 to |ls|
      invariant total == Product(ls[..i]) % SIZE_MODULUS
    {
      assert ls[..i + 1] == ls[..i] + [ls[i]];
      ProductSnoc(ls[..i], ls[i]);
      WrappedProduct(Product(ls[..i]), |ls[i]|);
      total := (total * |ls[i]|) % SIZE_MODULUS;
    }
    assert ls[..|ls|] == ls;
  }

  /** The indices done so far and, with or without a carry, the others make the incremented ones. */
  ghost predicate Carried(ls: Lists, before: seq<nat>, done: seq<nat>, arg: nat, carry: bool)
    requires Indices(ls, before) && arg <= |ls|
  {
    Increment(ls, before) == done + if carry then Increment(ls[arg..], before[arg..]) else before[arg..]
  }

  method SetIndex(indices: array<nat>, arg: nat, d: nat)
    requires arg < indices.Length
    modifies indices
    ensures indices[..arg + 1] == old(indices[..arg]) + [d]
    ensures indices[arg + 1..] == old(indices[arg + 1..])
  {
    indices[arg] := d;
  }

  /** The carry loop, in place on the indices. */
  method Advance(ls: Lists, indices: array<nat>)
    requires ls != [] && Indices(ls, indices[..])
    modifies indices
    ensures indices[..] == Increment(ls, old(indices[..]))
  {
    ghost var before := indices[..];
    var arg := 0;
    var carry := true;
    CarryStarts(ls, before);
    while carry && arg < |ls|
      invariant arg <= |ls| && indices[arg..] == before[arg..]
      invariant Carried(ls, before, indices[..arg], arg, carry)
    {
      CarryOne(ls, before, indices[..arg], arg);
      SameFront(indices[arg..], before, arg);
      var d := Turn(indices[arg], |ls[arg]|);
      SetIndex(indices, arg, d);
      carry := d == 0;
      arg := arg + 1;
    }
    assert indices[..] == indices[..arg] + indices[arg..];
  }

  lemma CarryStarts(ls: Lists, before: seq<nat>)
    requires Indices(ls, before)
    ensures Carried(ls, before, [], 0, true)
  {
    assert ls[0..] == ls && before[0..] == before;
    assert [] + Increment(ls, before) == Increment(ls, before);
  }

  lemma SameFront(rest: seq<nat>, before: seq<nat>, arg: nat)
    requires arg < |before| && rest == before[arg..]
    ensures rest[0] == before[arg] && rest[1..] == before[arg + 1..]
  {
  }

  lemma CarryOne(ls: Lists, before: seq<nat>, done: seq<nat>, arg: nat)
    requires Indices(ls, before) && arg < |ls| && Carried(ls, before, done, arg, true)
    ensures var d := Turn(before[arg], |ls[arg]|); Carried(ls, before, done + [d], arg + 1, d == 0)
  {
    CarryText(ls, before, done, arg);
  }

  lemma CarryText(ls: Lists, before: seq<nat>, done: seq<nat>, arg: nat)
    requires Indices(ls, before) && arg < |ls|
    ensures var d := Turn(before[arg], |ls[arg]|);
      done + Increment(ls[arg..], before[arg..])
      == done + [d] + if d == 0 then Increment(ls[arg + 1..], before[arg + 1..]) else before[arg + 1..]
  {
    var here, rest := ls[arg..], before[arg + 1..];
    assert here[1..] == ls[arg + 1..] && before[arg..] == [before[arg]] + rest;
    IncrementCons(here, before[arg], rest);
    CarrySplit(done, Turn(before[arg], |ls[arg]|),
               if before[arg] + 1 < |ls[arg]| then rest else Increment(here[1..], rest));
  }

  lemma CarrySplit(done: seq<nat>, d: nat, rest: seq<nat>)
    ensures done + ([d] + rest) == done + [d] + rest
  {
  }

  // ---- Which numbers of arguments a benchmark accepts.

  /** The rows of a benchmark and the names of its arguments. */
  datatype Family = Family(args: seq<seq<int>>, names: seq<string>)

  datatype Setting = AddRow(row: seq<int>) | SetNames(names: seq<string>) | AddProduct(lists: Lists)

  function Arity(x: Setting): nat {
    match x
    case AddRow(row) => |row|
    case SetNames(names) => |names|
    case AddProduct(lists) => |lists|
  }

  /** Some row, or without rows the names, has another number of arguments. */
  ghost predicate Rejects(m: Family, n: nat) {
    || (exists row :: row in m.args && |row| != n)
    || (m.args == [] && m.names != [] && |m.names| != n)
  }

  /** The first row, or without rows the names, have another number of arguments. */
  ghost predicate FirstDiffers(m: Family, n: nat) {
    if m.args != [] then |m.args[0]| != n else m.names != [] && |m.names| != n
  }

  lemma UniformRejects(m: Family, n: nat)
    requires Uniform(m)
    ensures Rejects(m, n) <==> FirstDiffers(m, n)
  {
    if m.args != [] {
      assert m.args[0] in m.args;
    }
  }

  ghost function Set(m: Family, x: Setting): Family {
    if Rejects(m, Arity(x)) then m
    else match x
      case AddRow(row) => m.(args := m.args + [row])
      case SetNames(names) => m.(names := names)
      case AddProduct(lists) => m.(args := m.args + Appended(lists))
  }

  /** All rows have the same number of arguments, and the names, if any, have that number as well. */
  ghost predicate Uniform(m: Family) {
    && (forall i, j :: 0 <= i < |m.args| && 0 <= j < |m.args| ==> |m.args[i]| == |m.args[j]|)
    && (m.args != [] && m.names != [] ==> |m.names| == |m.args[0]|)
  }

  lemma AppendedArity(ls: Lists)
    ensures forall i :: 0 <= i < |Appended(ls)| ==> |Appended(ls)[i]| == |ls|
  {
  }

  lemma SettingKeepsUniform(m: Family, x: Setting)
    requires Uniform(m)
    ensures Uniform(Set(m, x))
  {
    if !Rejects(m, Arity(x)) {
      assert forall i :: 0 <= i < |m.args| ==> m.args[i] in m.args && |m.args[i]| == Arity(x);
      if x.AddProduct? {
        AppendedArity(x.lists);
      }
    }
  }

  ghost function AllSet(xs: seq<Setting>): Family {
    if xs == [] then Family([], []) else Set(AllSet(xs[..|xs| - 1]), xs[|xs| - 1])
  }

  /** After any settings of a new benchmark all rows have the same number of arguments. */
  lemma {:induction false} SettingsStayUniform(xs: seq<Setting>)
    ensures Uniform(AllSet(xs))
  {
    if xs != [] {
      SettingsStayUniform(xs[..|xs| - 1]);
      SettingKeepsUniform(AllSet(xs[..|xs| - 1]), xs[|xs| - 1]);
    }
  }

  class Benchmark {
    var args: seq<seq<int>>
    var argNames: seq<string>

    constructor ()
      ensures args == [] && argNames == []
    {
      args, argNames := [], [];
    }

    /** The number of arguments the benchmark is fixed to, -1 if none. */
    function ArgsCnt(): int
      reads this
    {
      if args == [] then (if argNames == [] then -1 else |argNames|) else |args[0]|
    }

    ghost function Abs(): Family
      reads this
    {
      Family(args, argNames)
    }

    /** The check in front of every setting looks at the first row, which settles it for a benchmark
        that settings have made. */
    method Accepts(n: nat) returns (ok: bool)
      ensures ok <==> !FirstDiffers(Abs(), n)
      ensures Uniform(Abs()) ==> (ok <==> !Rejects(Abs(), n))
    {
      ok := ArgsCnt() == -1 || ArgsCnt() == n;
      if Uniform(Abs()) {
        UniformRejects(Abs(), n);
      }
    }

    method Args(row: seq<int>) returns (aborted: bool)
      modifies this
      ensures aborted <==> FirstDiffers(old(Abs()), |row|)
      ensures aborted ==> Abs() == old(Abs())
      ensures !aborted ==> args == old(args) + [row] && argNames == old(argNames)
      ensures old(Uniform(Abs())) ==> Uniform(Abs()) && Abs() == Set(old(Abs()), AddRow(row))
    {
      if Uniform(Abs()) {
        SettingKeepsUniform(Abs(), AddRow(row));
      }
      var ok := Accepts(|row|);
      if ok {
        args := args + [row];
      }
      aborted := !ok;
    }

    method ArgNames(names: seq<string>) returns (aborted: bool)
      modifies this
      ensures aborted <==> FirstDiffers(old(Abs()), |names|)
      ensures aborted ==> Abs() == old(Abs())
      ensures !aborted ==> argNames == names && args == old(args)
      ensures old(Uniform(Abs())) ==> Uniform(Abs()) && Abs() == Set(old(Abs()), SetNames(names))
    {
      if Uniform(Abs()) {
        SettingKeepsUniform(Abs(), SetNames(names));
      }
      var ok := Accepts(|names|);
      if ok {
        argNames := names;
      }
      aborted := !ok;
    }

    /** Appends all rows. Without lists the carry loop would leave the indices' bounds. */
    method ArgsProduct(ls: Lists) returns (aborted: bool)
      requires ls != []
      modifies this
      ensures aborted <==> FirstDiffers(old(Abs()), |ls|)
      ensures old(Uniform(Abs())) ==> (aborted <==> Rejects(old(Abs()), |ls|))
      ensures old(Uniform(Abs())) ==> Uniform(Abs()) && Abs() == Set(old(Abs()), AddProduct(ls))
      ensures argNames == old(argNames)
      ensures args == if aborted then old(args) else old(args) + Appended(ls)
    {
      if Uniform(Abs()) {
        SettingKeepsUniform(Abs(), AddProduct(ls));
      }
      var ok := Accepts(|ls|);
      if ok {
        AppendProduct(ls);
      }
      aborted := !ok;
    }

    /** The rows, once the check was passed. */
    method AppendProduct(ls: Lists)
      requires ls != []
      modifies `args
      ensures args == old(args) + Appended(ls)
    {
      var indices := new nat[|ls|](i => 0);
      var total := Total(ls);
      if total != 0 {
        EmptyListsHaveNoTotal(ls);
        DigitsAtEnds(ls);
        assert indices[..] == Digits(ls, 0);
      } else if !NonEmptyLists(ls) {
        SomeEmptyMeansNoRows(ls);
      }
      for i := 0 to total
        invariant total != 0 ==> NonEmptyLists(ls) && indices[..] == Digits(ls, i)
        invariant args == old(args) + if total == 0 then [] else Rows(ls, i)
      {
        AppendRow(ls, i, indices, old(args));
      }
    }

    /** One round of the loop: the row at the indices, and the next indices. */
    method AppendRow(ls: Lists, ghost i: nat, indices: array<nat>, ghost before: seq<seq<int>>)
      requires ls != [] && NonEmptyLists(ls) && indices[..] == Digits(ls, i) && args == before + Rows(ls, i)
      modifies `args, indices
      ensures indices[..] == Digits(ls, i + 1) && args == before + Rows(ls, i + 1)
    {
      var row := OneRow(ls, indices);
      RowsOneMore(ls, i, before);
      args := args + [row];
      IncrementIsNext(ls, i);
      Advance(ls, indices);
    }

    static method OneRow(ls: Lists, indices: array<nat>) returns (row: seq<int>)
      requires Indices(ls, indices[..])
      ensures row == Row(ls, indices[..])
    {
      row := [];
      for arg := 0 to |ls|
        invariant |row| == arg && forall k :: 0 <= k < arg ==> row[k] == ls[k][indices[k]]
      {
        row := row + [ls[arg][indices[arg]]];
      }
    }
  }

  lemma EmptyListsHaveNoTotal(ls: Lists)
    requires Product(ls) % SIZE_MODULUS != 0
    ensures NonEmptyLists(ls)
  {
    if !NonEmptyLists(ls) {
      SomeEmptyMeansNoRows(ls);
    }
  }
}
