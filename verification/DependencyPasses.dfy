/** Repeated ordering passes: for acyclic dependencies they settle, level by level, in an order in
    which every class comes after all its dependencies. */
module DependencyPasses {
  import opened DependencyOrder

  // ---------------------------------------------------------------- one move

  function NewPosition(p: nat, i: nat, j: nat): nat
    requires i < j
  {
    if p == i then j else if i < p <= j then p - 1 else p
  }

  lemma ShiftAt(order: seq<Name>, i: nat, j: nat, p: nat)
    requires i < j < |order| && p < |order|
    ensures |Shift(order, i, j)| == |order|
    ensures NewPosition(p, i, j) < |order| && Shift(order, i, j)[NewPosition(p, i, j)] == order[p]
  {
  }

  lemma ShiftReorders(order: seq<Name>, i: nat, j: nat)
    requires NoDuplicates(order) && i < j < |order|
    ensures Reordered(Shift(order, i, j), order)
  {
    var s := Shift(order, i, j);
    ShiftAt(order, i, j, i);
    assert |s| == |order|;
    forall q | 0 <= q < |s| ensures s[q] == order[if q == j then i else if i <= q < j then q + 1 else q] {
      ShiftAt(order, i, j, if q == j then i else if i <= q < j then q + 1 else q);
    }
    forall x | x in order ensures x in s {
      ShiftAt(order, i, j, Index(order, x));
    }
  }

  lemma ShiftIndex(order: seq<Name>, i: nat, j: nat, x: Name)
    requires NoDuplicates(order) && i < j < |order| && x in order
    ensures Index(Shift(order, i, j), x) == NewPosition(Index(order, x), i, j)
  {
    ShiftAt(order, i, j, Index(order, x));
    ShiftReorders(order, i, j);
    hide Shift;
    IndexOf(Shift(order, i, j), NewPosition(Index(order, x), i, j));
  }

  lemma MoveAfterReorders(order: seq<Name>, key: Name, dep: Name)
    requires NoDuplicates(order)
    ensures Reordered(MoveAfter(order, key, dep), order)
  {
    var i, j := Index(order, key), Index(order, dep);
    if i < j < |order| {
      ShiftReorders(order, i, j);
    }
  }

  /** A move puts the key behind its dependency, and leaves every other name where it was relative
      to the names that did not move; the key itself only goes towards the end. */
  lemma MoveAfterKeepsBefore(order: seq<Name>, key: Name, dep: Name, x: Name, y: Name)
    requires NoDuplicates(order) && x in order && y in order
    requires x != key || MoveAfter(order, key, dep) == order
    ensures Before(order, x, y) ==> Before(MoveAfter(order, key, dep), x, y)
    ensures x == dep && y == key && key != dep ==> Before(MoveAfter(order, key, dep), x, y)
  {
    var i, j := Index(order, key), Index(order, dep);
    if i < j < |order| {
      ShiftIndex(order, i, j, x);
      ShiftIndex(order, i, j, y);
      hide Shift, NoDuplicates;
      SamePosition(order, key, x);
      SamePosition(order, key, y);
      hide Index;
    }
  }

  lemma SamePosition(order: seq<Name>, x: Name, y: Name)
    requires x in order && y in order
    ensures Index(order, x) == Index(order, y) <==> x == y
  {
  }

  // ---------------------------------------------------------------- passes

  type Dependencies = Name -> seq<Name>

  /** Every dependency of one key in turn. */
  function PlaceAfterAll(order: seq<Name>, key: Name, deps: seq<Name>): seq<Name> {
    if deps == [] then order
    else MoveAfter(PlaceAfterAll(order, key, deps[..|deps| - 1]), key, deps[|deps| - 1])
  }

  /** The keys of a snapshot in turn. */
  function Process(order: seq<Name>, names: seq<Name>, deps: Dependencies): seq<Name> {
    if names == [] then order
    else
      var last := names[|names| - 1];
      PlaceAfterAll(Process(order, names[..|names| - 1], deps), last, deps(last))
  }

  function Pass(order: seq<Name>, deps: Dependencies): seq<Name> {
    Process(order, order, deps)
  }

  function Passes(order: seq<Name>, deps: Dependencies, n: nat): seq<Name> {
    if n == 0 then order else Pass(Passes(order, deps, n - 1), deps)
  }

  lemma {:induction false} PlaceReorders(order: seq<Name>, key: Name, deps: seq<Name>)
    requires NoDuplicates(order)
    ensures Reordered(PlaceAfterAll(order, key, deps), order)
  {
    if deps != [] {
      PlaceReorders(order, key, deps[..|deps| - 1]);
      MoveAfterReorders(PlaceAfterAll(order, key, deps[..|deps| - 1]), key, deps[|deps| - 1]);
    }
  }

  lemma {:induction false} ProcessReorders(order: seq<Name>, names: seq<Name>, deps: Dependencies)
    requires NoDuplicates(order)
    ensures Reordered(Process(order, names, deps), order)
  {
    if names != [] {
      var last := names[|names| - 1];
      ProcessReorders(order, names[..|names| - 1], deps);
      PlaceReorders(Process(order, names[..|names| - 1], deps), last, deps(last));
    }
  }

  /** A pass, and any number of passes, only permutes the keys. */
  lemma {:induction false} PassesReorder(order: seq<Name>, deps: Dependencies, n: nat)
    requires NoDuplicates(order)
    ensures Reordered(Passes(order, deps, n), order)
  {
    if n > 0 {
      PassesReorder(order, deps, n - 1);
      var was := Passes(order, deps, n - 1);
      ProcessReorders(was, was, deps);
    }
  }

  // ---------------------------------------------------------------- levels

  /** Every dependency of a class is itself a class. */
  ghost predicate Closed(order: seq<Name>, deps: Dependencies) {
    forall key, dep :: key in order && dep in deps(key) ==> dep in order
  }

  /** The dependencies are acyclic: the rank falls along each of them. The length of the longest
      chain of dependencies below a class is such a rank. */
  ghost predicate Ranked(order: seq<Name>, deps: Dependencies, rank: Name -> nat) {
    forall key, dep :: key in order && dep in deps(key) && dep in order ==> rank(dep) < rank(key)
  }

  ghost predicate Placed(order: seq<Name>, deps: Dependencies, key: Name) {
    forall dep :: dep in deps(key) ==> Before(order, dep, key)
  }

  /** Every class comes after all its dependencies. */
  ghost predicate Topological(order: seq<Name>, deps: Dependencies) {
    forall key :: key in order ==> Placed(order, deps, key)
  }

  /** Every class of rank at most `r` comes after all its dependencies. */
  ghost predicate Settled(order: seq<Name>, deps: Dependencies, rank: Name -> nat, r: nat) {
    forall key :: key in order && rank(key) <= r ==> Placed(order, deps, key)
  }

  /** The classes of rank at most `r`, in order. */
  function Low(order: seq<Name>, rank: Name -> nat, r: nat): seq<Name> {
    if order == [] then []
    else if rank(order[0]) <= r then [order[0]] + Low(order[1..], rank, r)
    else Low(order[1..], rank, r)
  }

  lemma {:induction false} LowConcat(a: seq<Name>, b: seq<Name>, rank: Name -> nat, r: nat)
    ensures Low(a + b, rank, r) == Low(a, rank, r) + Low(b, rank, r)
  {
    if a == [] {
      assert a + b == b;
    } else {
      LowConcat(a[1..], b, rank, r);
      assert (a + b)[1..] == a[1..] + b;
    }
  }

  /** Moving a class of a higher rank leaves the order of the lower ones alone. */
  lemma ShiftKeepsLow(order: seq<Name>, i: nat, j: nat, rank: Name -> nat, r: nat)
    requires i < j < |order| && rank(order[i]) > r
    ensures Low(Shift(order, i, j), rank, r) == Low(order, rank, r)
  {
    var a, b, c := order[..i], order[i + 1..j + 1], order[j + 1..];
    assert order == a + [order[i]] + b + c;
    LowConcat(a + [order[i]] + b, c, rank, r);
    LowConcat(a + [order[i]], b, rank, r);
    LowConcat(a, [order[i]], rank, r);
    LowConcat(a + b + [order[i]], c, rank, r);
    LowConcat(a + b, [order[i]], rank, r);
    LowConcat(a, b, rank, r);
    LowOfHigh(order[i], rank, r);
  }

  lemma LowOfHigh(x: Name, rank: Name -> nat, r: nat)
    requires rank(x) > r
    ensures Low([x], rank, r) == []
  {
    assert [x][1..] == [];
  }

  /** One move while the ranks up to `r` are settled: it leaves them settled and in the same order,
      it only moves classes of higher rank, and it does not undo a class of rank `r + 1`. */
  lemma MoveKeepsSettled(order: seq<Name>, deps: Dependencies, rank: Name -> nat, r: nat, key: Name, dep: Name)
    requires NoDuplicates(order) && Closed(order, deps) && Ranked(order, deps, rank)
    requires Settled(order, deps, rank, r) && key in order && dep in deps(key)
    ensures Settled(MoveAfter(order, key, dep), deps, rank, r)
    ensures Low(MoveAfter(order, key, dep), rank, r) == Low(order, rank, r)
    ensures MoveAfter(order, key, dep) != order ==> rank(key) > r
    ensures forall k ::
      k in order && rank(k) <= r + 1 && Placed(order, deps, k) ==> Placed(MoveAfter(order, key, dep), deps, k)
    ensures rank(key) <= r + 1 ==> Before(MoveAfter(order, key, dep), dep, key)
  {
    var next := MoveAfter(order, key, dep);
    MoveAfterReorders(order, key, dep);
    if rank(key) <= r {
      assert Placed(order, deps, key);
      assert next == order;
    } else if Index(order, key) < Index(order, dep) < |order| {
      ShiftKeepsLow(order, Index(order, key), Index(order, dep), rank, r);
    }
    forall k | k in order && rank(k) <= r + 1 && Placed(order, deps, k) ensures Placed(next, deps, k) {
      MoveKeepsPlaced(order, deps, rank, r, key, dep, k);
    }
    MoveAfterKeepsBefore(order, key, dep, dep, key);
  }

  lemma MoveKeepsPlaced(order: seq<Name>, deps: Dependencies, rank: Name -> nat, r: nat, key: Name, dep: Name, k: Name)
    requires NoDuplicates(order) && Closed(order, deps) && Ranked(order, deps, rank)
    requires MoveAfter(order, key, dep) != order ==> rank(key) > r
    requires k in order && rank(k) <= r + 1 && Placed(order, deps, k)
    ensures Placed(MoveAfter(order, key, dep), deps, k)
  {
    forall d | d in deps(k) ensures Before(MoveAfter(order, key, dep), d, k) {
      MoveAfterKeepsBefore(order, key, dep, d, k);
    }
  }

  /** One key handled: nothing settled is lost, and a key of rank `r + 1` is placed. */
  lemma {:induction false} PlaceSettles(
    order: seq<Name>, deps: Dependencies, rank: Name -> nat, r: nat, key: Name, part: seq<Name>)
    requires NoDuplicates(order) && Closed(order, deps) && Ranked(order, deps, rank)
    requires Settled(order, deps, rank, r) && key in order && forall d :: d in part ==> d in deps(key)
    ensures Reordered(PlaceAfterAll(order, key, part), order)
    ensures Settled(PlaceAfterAll(order, key, part), deps, rank, r)
    ensures Low(PlaceAfterAll(order, key, part), rank, r) == Low(order, rank, r)
    ensures forall k ::
      k in order && rank(k) <= r + 1 && Placed(order, deps, k) ==> Placed(PlaceAfterAll(order, key, part), deps, k)
    ensures rank(key) <= r + 1 ==> forall d :: d in part ==> Before(PlaceAfterAll(order, key, part), d, key)
  {
    if part != [] {
      var front, last := part[..|part| - 1], part[|part| - 1];
      PlaceSettles(order, deps, rank, r, key, front);
      var was := PlaceAfterAll(order, key, front);
      var next := MoveAfter(was, key, last);
      MoveAfterReorders(was, key, last);
      assert last in deps(key);
      MoveKeepsSettled(was, deps, rank, r, key, last);
      if rank(key) <= r + 1 {
        forall d | d in part ensures Before(next, d, key) {
          if d in front {
            MoveAfterKeepsBefore(was, key, last, d, key);
          } else {
            assert d == last;
          }
        }
      }
    }
  }

  /** The names handled so far: those of rank `r + 1` are placed. */
  lemma {:induction false} ProcessSettles(
    order: seq<Name>, deps: Dependencies, rank: Name -> nat, r: nat, names: seq<Name>)
    requires NoDuplicates(order) && Closed(order, deps) && Ranked(order, deps, rank)
    requires Settled(order, deps, rank, r) && forall k :: k in names ==> k in order
    ensures Reordered(Process(order, names, deps), order)
    ensures Settled(Process(order, names, deps), deps, rank, r)
    ensures Low(Process(order, names, deps), rank, r) == Low(order, rank, r)
    ensures forall k :: k in names && rank(k) <= r + 1 ==> Placed(Process(order, names, deps), deps, k)
  {
    if names != [] {
      var front, last := names[..|names| - 1], names[|names| - 1];
      ProcessSettles(order, deps, rank, r, front);
      var was := Process(order, front, deps);
      assert last in names;
      PlaceSettles(was, deps, rank, r, last, deps(last));
      var next := PlaceAfterAll(was, last, deps(last));
      forall k | k in names && rank(k) <= r + 1 ensures Placed(next, deps, k) {
        if k in front {
          assert Placed(was, deps, k);
        } else {
          assert k == last;
        }
      }
    }
  }

  /** A pass settles one more rank, and leaves the order of the settled ones alone. */
  lemma PassSettles(order: seq<Name>, deps: Dependencies, rank: Name -> nat, r: nat)
    requires NoDuplicates(order) && Closed(order, deps) && Ranked(order, deps, rank)
    requires Settled(order, deps, rank, r)
    ensures Settled(Pass(order, deps), deps, rank, r + 1)
    ensures Low(Pass(order, deps), rank, r) == Low(order, rank, r)
  {
    ProcessSettles(order, deps, rank, r, order);
  }

  lemma RankZeroIsSettled(order: seq<Name>, deps: Dependencies, rank: Name -> nat)
    requires Closed(order, deps) && Ranked(order, deps, rank)
    ensures Settled(order, deps, rank, 0)
  {
  }

  lemma ReorderedKeepsRanks(order: seq<Name>, was: seq<Name>, deps: Dependencies, rank: Name -> nat)
    requires Reordered(order, was) && Closed(was, deps) && Ranked(was, deps, rank)
    ensures Closed(order, deps) && Ranked(order, deps, rank)
  {
  }

  /** After `n` passes every class of rank at most `n` comes after its dependencies. */
  lemma {:induction false} PassesSettle(order: seq<Name>, deps: Dependencies, rank: Name -> nat, n: nat)
    requires NoDuplicates(order) && Closed(order, deps) && Ranked(order, deps, rank)
    ensures Settled(Passes(order, deps, n), deps, rank, n)
  {
    if n == 0 {
      RankZeroIsSettled(order, deps, rank);
    } else {
      PassesSettle(order, deps, rank, n - 1);
      PassesReorder(order, deps, n - 1);
      ReorderedKeepsRanks(Passes(order, deps, n - 1), order, deps, rank);
      PassSettles(Passes(order, deps, n - 1), deps, rank, n - 1);
    }
  }

  /** After `n` passes no class of rank at most `n` ever moves again: the order of these classes
      stays what it is, whatever number of passes follows. */
  lemma {:induction false} LowNeverMovesAgain(
    order: seq<Name>, deps: Dependencies, rank: Name -> nat, n: nat, more: nat)
    requires NoDuplicates(order) && Closed(order, deps) && Ranked(order, deps, rank)
    ensures Low(Passes(order, deps, n + more), rank, n) == Low(Passes(order, deps, n), rank, n)
    decreases more
  {
    hide Settled, Ranked, Closed, NoDuplicates, Pass, Low;
    if more > 0 {
      var before := Passes(order, deps, n + (more - 1));
      LowNeverMovesAgain(order, deps, rank, n, more - 1);
      PassesSettle(order, deps, rank, n + (more - 1));
      PassesReorder(order, deps, n + (more - 1));
      ReorderedKeepsRanks(before, order, deps, rank);
      SettledBelow(before, deps, rank, n, n + (more - 1));
      PassSettles(before, deps, rank, n);
    }
  }

  lemma SettledBelow(order: seq<Name>, deps: Dependencies, rank: Name -> nat, r: nat, s: nat)
    requires Settled(order, deps, rank, s) && r <= s
    ensures Settled(order, deps, rank, r)
  {
  }

  // ---------------------------------------------------------------- stable orders

  lemma {:induction false} PlacedStays(order: seq<Name>, key: Name, deps: seq<Name>)
    requires forall d :: d in deps ==> Before(order, d, key)
    ensures PlaceAfterAll(order, key, deps) == order
  {
    if deps != [] {
      PlacedStays(order, key, deps[..|deps| - 1]);
      assert Before(order, deps[|deps| - 1], key);
    }
  }

  /** In a topological order no single move of a pass does anything. */
  lemma {:induction false} TopologicalStays(order: seq<Name>, names: seq<Name>, deps: Dependencies)
    requires Topological(order, deps) && forall k :: k in names ==> k in order
    ensures Process(order, names, deps) == order
  {
    if names != [] {
      var last := names[|names| - 1];
      TopologicalStays(order, names[..|names| - 1], deps);
      assert last in names && Placed(order, deps, last);
      PlacedStays(order, last, deps(last));
    }
  }

  lemma {:induction false} StableSettles(order: seq<Name>, deps: Dependencies, rank: Name -> nat, r: nat)
    requires NoDuplicates(order) && Closed(order, deps) && Ranked(order, deps, rank)
    requires Pass(order, deps) == order
    ensures Settled(order, deps, rank, r)
  {
    if r == 0 {
      RankZeroIsSettled(order, deps, rank);
    } else {
      StableSettles(order, deps, rank, r - 1);
      PassSettles(order, deps, rank, r - 1);
    }
  }

  /** For acyclic dependencies, one full pass leaves the order unchanged exactly when every class
      already comes after all its dependencies. */
  lemma StableIffTopological(order: seq<Name>, deps: Dependencies, rank: Name -> nat)
    requires NoDuplicates(order) && Closed(order, deps) && Ranked(order, deps, rank)
    ensures Pass(order, deps) == order <==> Topological(order, deps)
  {
    if Pass(order, deps) == order {
      forall key | key in order ensures Placed(order, deps, key) {
        StableSettles(order, deps, rank, rank(key));
      }
    }
    if Topological(order, deps) {
      TopologicalStays(order, order, deps);
    }
  }

  ghost predicate RankedBy(order: seq<Name>, deps: Dependencies, rank: Name -> nat, bound: nat) {
    Ranked(order, deps, rank) && forall key :: key in order ==> rank(key) <= bound
  }

  /** With dependency chains of length at most `bound`, `bound` passes are enough, and from there on
      every pass leaves the order as it is. */
  lemma SettlesWithin(order: seq<Name>, deps: Dependencies, rank: Name -> nat, bound: nat, n: nat)
    requires NoDuplicates(order) && Closed(order, deps) && RankedBy(order, deps, rank, bound) && n >= bound
    ensures Topological(Passes(order, deps, n), deps)
    ensures Passes(order, deps, n + 1) == Passes(order, deps, n)
  {
    var last := Passes(order, deps, n);
    PassesSettle(order, deps, rank, n);
    PassesReorder(order, deps, n);
    TopologicalStays(last, last, deps);
  }

  /** The passes reach an order that they no longer change within `bound` passes. */
  ghost predicate Stabilizes(order: seq<Name>, deps: Dependencies, bound: nat) {
    Passes(order, deps, bound + 1) == Passes(order, deps, bound)
  }

  /** Acyclic dependencies do, within the length of their longest chain. */
  lemma AcyclicStabilizes(order: seq<Name>, deps: Dependencies, rank: Name -> nat, bound: nat)
    requires NoDuplicates(order) && Closed(order, deps) && RankedBy(order, deps, rank, bound)
    ensures Stabilizes(order, deps, bound)
  {
    SettlesWithin(order, deps, rank, bound, bound);
  }

  lemma {:induction false} StaysStable(order: seq<Name>, deps: Dependencies, bound: nat, n: nat)
    requires Stabilizes(order, deps, bound) && n >= bound
    ensures Passes(order, deps, n + 1) == Passes(order, deps, n)
  {
    hide Pass;
    if n > bound {
      StaysStable(order, deps, bound, n - 1);
    }
  }

  lemma StillMoving(order: seq<Name>, deps: Dependencies, bound: nat, n: nat)
    requires Stabilizes(order, deps, bound) && Passes(order, deps, n + 1) != Passes(order, deps, n)
    ensures n < bound
  {
    hide Pass, Passes;
    if n >= bound {
      StaysStable(order, deps, bound, n);
    }
  }

  /** A stable order is topological exactly when the dependencies are acyclic. */
  lemma StableTopologicalIffAcyclic(order: seq<Name>, deps: Dependencies)
    requires NoDuplicates(order) && Closed(order, deps) && Pass(order, deps) == order
    ensures Topological(order, deps) <==> exists rank: Name -> nat :: Ranked(order, deps, rank)
  {
    if Topological(order, deps) {
      var rank: Name -> nat := x => Index(order, x);
      assert Ranked(order, deps, rank) by {
        forall key, dep | key in order && dep in deps(key) && dep in order ensures rank(dep) < rank(key) {
          assert Placed(order, deps, key);
        }
      }
    }
    if rank: Name -> nat :| Ranked(order, deps, rank) {
      StableIffTopological(order, deps, rank);
    }
  }

  // ---------------------------------------------------------------- cyclic dependencies

  lemma PlaceSteps(order: seq<Name>, key: Name, d: Name, e: Name)
    ensures PlaceAfterAll(order, key, [d]) == MoveAfter(order, key, d)
    ensures PlaceAfterAll(order, key, [d, e]) == MoveAfter(MoveAfter(order, key, d), key, e)
  {
    assert [d][..0] == [] && [d, e][..1] == [d];
    assert PlaceAfterAll(order, key, []) == order;
  }

  lemma ProcessSteps(order: seq<Name>, x: Name, y: Name, z: Name, deps: Dependencies)
    ensures
      var first := PlaceAfterAll(order, x, deps(x));
      var second := PlaceAfterAll(first, y, deps(y));
      Process(order, [x, y], deps) == second && Process(order, [x, y, z], deps) == PlaceAfterAll(second, z, deps(z))
  {
    assert [x][..0] == [] && [x, y][..1] == [x] && [x, y, z][..2] == [x, y];
    assert Process(order, [], deps) == order;
    assert Process(order, [x], deps) == PlaceAfterAll(order, x, deps(x));
  }

  lemma MovesInThree(x: Name, y: Name, z: Name)
    requires x != y && y != z && z != x
    ensures MoveAfter([x, y, z], x, z) == [y, z, x]
    ensures MoveAfter([x, y, z], x, y) == [y, x, z]
    ensures MoveAfter([x, y, z], y, z) == [x, z, y]
    ensures MoveAfter([x, y, z], y, x) == [x, y, z]
    ensures MoveAfter([x, y, z], z, x) == [x, y, z]
  {
    var s := [x, y, z];
    assert Index(s, x) == 0;
    IndexOf(s, 1);
    IndexOf(s, 2);
  }

  lemma MovesInTwo(x: Name, y: Name)
    requires x != y
    ensures MoveAfter([x, y], x, y) == [y, x] && !Before([x, y], y, x)
  {
    IndexOf([x, y], 0);
    IndexOf([x, y], 1);
  }

  function Pair(x: Name): seq<Name> {
    if x == "a" then ["b"] else if x == "b" then ["a"] else []
  }

  /** Two classes that need each other move there and back within one pass, so the pass changes
      nothing and yet the order is not right. */
  lemma CyclicPairIsStable()
    ensures Pass(["a", "b"], Pair) == ["a", "b"] && !Topological(["a", "b"], Pair)
  {
    var order: seq<Name> := ["a", "b"];
    ProcessSteps(order, "a", "b", "", Pair);
    PlaceSteps(order, "a", "b", "");
    PlaceSteps(["b", "a"], "b", "a", "");
    MovesInTwo("a", "b");
    MovesInTwo("b", "a");
    assert "b" in Pair("a");
    assert "a" in order && !Placed(order, Pair, "a");
  }

  function Triangle(x: Name): seq<Name> {
    if x == "a" || x == "b" then ["c"] else if x == "c" then ["a", "b"] else []
  }

  /** With three classes the passes can alternate between two orders, so that the loop waiting for a
      stable order does not end. */
  lemma CyclicTriangleAlternates()
    ensures Pass(["a", "b", "c"], Triangle) == ["b", "a", "c"]
    ensures Pass(["b", "a", "c"], Triangle) == ["a", "b", "c"]
  {
    TrianglePass("a", "b");
    TrianglePass("b", "a");
  }

  lemma CyclicTriangleNeverSettles(n: nat)
    ensures Passes(["a", "b", "c"], Triangle, n + 1) != Passes(["a", "b", "c"], Triangle, n)
  {
    CyclicTriangleAlternates();
    var x, y: seq<Name> := ["a", "b", "c"], ["b", "a", "c"];
    assert x[0] != y[0];
    hide Pass;
    Alternates(x, y, Triangle, n);
    Alternates(x, y, Triangle, n + 1);
  }

  lemma {:induction false} Alternates(x: seq<Name>, y: seq<Name>, deps: Dependencies, n: nat)
    requires Pass(x, deps) == y && Pass(y, deps) == x
    ensures Passes(x, deps, n) == if n % 2 == 0 then x else y
  {
    hide Pass;
    if n > 0 {
      Alternates(x, y, deps, n - 1);
    }
  }

  lemma TrianglePass(x: Name, y: Name)
    requires (x == "a" && y == "b") || (x == "b" && y == "a")
    ensures Pass([x, y, "c"], Triangle) == [y, x, "c"]
  {
    var z: Name := "c";
    ProcessSteps([x, y, z], x, y, z, Triangle);
    PlaceSteps([x, y, z], x, z, z);
    PlaceSteps([y, z, x], y, z, z);
    PlaceSteps([z, y, x], z, "a", "b");
    MovesInThree(x, y, z);
    MovesInThree(y, z, x);
    MovesInThree(z, y, x);
    MovesInThree(y, x, z);
    hide MoveAfter, PlaceAfterAll, Process;
    assert Triangle(x) == [z] && Triangle(y) == [z] && Triangle(z) == ["a", "b"];
  }
}
