/** The table of class definitions and the loop that orders it. */
module DependencyTable {
  import opened Wrappers
  import opened DependencyOrder
  import opened DependencyPasses

  /** The dependencies of each class: those its definition mentions. */
  function Mentions(values: map<Name, string>, parse: string -> seq<Name>): Dependencies {
    (x: Name) => if x in values then parse(values[x]) else []
  }

  /** Every class of a topological order is preceded by all that its definition mentions. */
  lemma TopologicalMentions(order: seq<Name>, values: map<Name, string>, parse: string -> seq<Name>)
    requires NoDuplicates(order) && forall x :: x in order ==> x in values
    ensures Topological(order, Mentions(values, parse)) <==>
      forall i, d :: 0 <= i < |order| && d in parse(values[order[i]]) ==> d in order[..i]
  {
    var deps := Mentions(values, parse);
    forall i, d | 0 <= i < |order| ensures Before(order, d, order[i]) <==> d in order[..i] {
      BeforeIsPrefix(order, d, i);
    }
    hide Before;
    if Topological(order, deps) {
      forall i, d | 0 <= i < |order| && d in parse(values[order[i]]) ensures d in order[..i] {
        assert Placed(order, deps, order[i]);
      }
    }
    if forall i, d :: 0 <= i < |order| && d in parse(values[order[i]]) ==> d in order[..i] {
      forall key | key in order ensures Placed(order, deps, key) {
        var i :| 0 <= i < |order| && order[i] == key;
      }
    }
  }

  lemma BeforeIsPrefix(order: seq<Name>, x: Name, i: nat)
    requires NoDuplicates(order) && i < |order|
    ensures Before(order, x, order[i]) <==> x in order[..i]
  {
    IndexOf(order, i);
    if x in order[..i] {
      var j :| 0 <= j < i && order[j] == x;
      IndexOf(order, j);
    }
    if Index(order, x) < i {
      assert order[..i][Index(order, x)] == x;
    }
  }

  lemma NothingToOrder(deps: Dependencies)
    ensures Closed([], deps) && Topological([], deps) && Pass([], deps) == []
    ensures exists rank: Name -> nat :: Ranked([], deps, rank)
  {
    var rank: Name -> nat := _ => 0;
    assert Ranked([], deps, rank);
  }

  /** Reordering the classes does not change whether their dependencies are acyclic. */
  lemma AcyclicAsBefore(order: seq<Name>, was: seq<Name>, deps: Dependencies)
    requires Reordered(order, was) && Closed(was, deps)
    ensures Closed(order, deps)
    ensures (exists rank: Name -> nat :: Ranked(order, deps, rank))
      <==> (exists rank: Name -> nat :: Ranked(was, deps, rank))
  {
    if rank: Name -> nat :| Ranked(was, deps, rank) {
      assert Ranked(order, deps, rank);
    }
    if rank: Name -> nat :| Ranked(order, deps, rank) {
      assert Ranked(was, deps, rank);
    }
  }

  /** No definition mentions, directly or through others, a class that mentions it. */
  ghost predicate RanksMentions(
    order: seq<Name>, values: map<Name, string>, parse: string -> seq<Name>, rank: Name -> nat)
  {
    forall x, d :: x in order && x in values && d in parse(values[x]) ==> rank(d) < rank(x)
  }

  lemma AcyclicMentions(was: seq<Name>, order: seq<Name>, values: map<Name, string>, parse: string -> seq<Name>)
    requires Reordered(order, was) && Closed(was, Mentions(values, parse)) && forall x :: x in order ==> x in values
    ensures (exists rank: Name -> nat :: Ranked(was, Mentions(values, parse), rank))
      <==> exists rank: Name -> nat :: RanksMentions(order, values, parse, rank)
  {
    var deps := Mentions(values, parse);
    if rank: Name -> nat :| Ranked(was, deps, rank) {
      assert RanksMentions(order, values, parse, rank);
    }
    if rank: Name -> nat :| RanksMentions(order, values, parse, rank) {
      assert Ranked(was, deps, rank);
    }
  }

  lemma NothingClosed(names: seq<Name>, deps: Dependencies)
    ensures ClosedUpTo(names, deps, 0)
  {
  }

  lemma NotEarlier(s: seq<Name>, k: nat)
    requires NoDuplicates(s) && k < |s|
    ensures s[k] !in s[..k]
  {
  }

  /** Every dependency of the first `k` names is among the names. */
  ghost predicate ClosedUpTo(names: seq<Name>, deps: Dependencies, k: nat)
    requires k <= |names|
  {
    forall i, d :: 0 <= i < k && d in deps(names[i]) ==> d in names
  }

  lemma ClosedIsUpToAll(names: seq<Name>, deps: Dependencies, k: nat)
    requires k <= |names|
    ensures Closed(names, deps) ==> ClosedUpTo(names, deps, k)
    ensures k == |names| && ClosedUpTo(names, deps, k) ==> Closed(names, deps)
  {
  }

  lemma ClosedUpToNext(names: seq<Name>, deps: Dependencies, k: nat)
    requires k < |names|
    ensures ClosedUpTo(names, deps, k + 1)
       <==> ClosedUpTo(names, deps, k) && forall d :: d in deps(names[k]) ==> d in names
  {
  }

  lemma RestIsInside(order: seq<Name>, key: Name, dep: Name)
    requires NoDuplicates(order) && dep in order && key in order
    ensures
      var rest := order[Index(order, dep) + 1..];
      && NoDuplicates(rest) && key in MoveToEnd(order, dep) && NoDuplicates(MoveToEnd(order, dep))
      && forall x :: x in rest ==> x in MoveToEnd(MoveToEnd(order, dep), key)
  {
    MoveToEndIsWithout(order, dep);
    MoveToEndIsWithout(MoveToEnd(order, dep), key);
  }

  /** A dictionary from class names to definitions, in insertion order. */
  class ClassTable {
    var keys: seq<Name>
    var values: map<Name, string>

    ghost predicate Valid()
      reads this
    {
      NoDuplicates(keys) && forall x :: x in keys <==> x in values
    }

    constructor (keys: seq<Name>, values: map<Name, string>)
      requires NoDuplicates(keys) && forall x :: x in keys <==> x in values
      ensures Valid() && this.keys == keys && this.values == values
    {
      this.keys, this.values := keys, values;
    }

    /** `objects[item] = objects.pop(item)`. */
    method Reinsert(item: Name)
      requires Valid() && item in keys
      modifies this
      ensures Valid() && values == old(values)
      ensures keys == MoveToEnd(old(keys), item)
    {
      MoveToEndIsWithout(keys, item);
      var value := values[item];
      var i := Index(keys, item);
      keys := keys[..i] + keys[i + 1..];
      values := values - {item};
      keys := keys + [item];
      values := values[item := value];
    }

    /** One dependency of one class. */
    method PlaceAfter(key: Name, dep: Name) returns (outcome: Result<(), string>)
      requires Valid() && key in keys
      modifies this
      ensures Valid() && values == old(values)
      ensures outcome.Success? <==> dep in old(keys)
      ensures keys == if outcome.Success? then MoveAfter(old(keys), key, dep) else old(keys)
    {
      if dep !in keys {
        return Failure("dependency is not in list");
      }
      var keyList := keys;
      var rest := keyList[Index(keyList, dep) + 1..];
      PopsMoveAfter(keys, key, dep);
      RestIsInside(keys, key, dep);
      hide MoveToEnd, MoveAfter, NoDuplicates, Without;
      Reinsert(dep);
      Reinsert(key);
      ReinsertEach(rest);
      return Success(());
    }

    /** The keys that stood behind the dependency, re-inserted in their order. */
    method ReinsertEach(rest: seq<Name>)
      requires Valid() && NoDuplicates(rest) && forall x :: x in rest ==> x in keys
      modifies this
      ensures Valid() && values == old(values)
      ensures keys == Without(old(keys), rest) + rest
    {
      WithoutNone(keys, []);
      hide MoveToEnd, Without, NoDuplicates, Index;
      for k := 0 to |rest|
        invariant Valid() && values == old(values)
        invariant keys == Without(old(keys), rest[..k]) + rest[..k]
      {
        NotEarlier(rest, k);
        ghost var done := rest[..k];
        assert rest[..k + 1] == done + [rest[k]];
        MoveNext(old(keys), done, rest[k]);
        Reinsert(rest[k]);
      }
      assert rest[..|rest|] == rest;
    }

    /** Every dependency of one class. */
    method PlaceAfterEach(key: Name, dependencies: seq<Name>) returns (outcome: Result<(), string>)
      requires Valid() && key in keys
      modifies this
      ensures Valid() && values == old(values) && Reordered(keys, old(keys))
      ensures outcome.Success? <==> forall d :: d in dependencies ==> d in old(keys)
      ensures outcome.Success? ==> keys == PlaceAfterAll(old(keys), key, dependencies)
    {
      hide MoveAfter, NoDuplicates, Index;
      for k := 0 to |dependencies|
        invariant Valid() && values == old(values) && Reordered(keys, old(keys))
        invariant forall d :: d in dependencies[..k] ==> d in old(keys)
        invariant keys == PlaceAfterAll(old(keys), key, dependencies[..k])
      {
        var dep := dependencies[k];
        MoveAfterReorders(keys, key, dep);
        var one := PlaceAfter(key, dep);
        if one.Failure? {
          return Failure(one.error);
        }
        assert dependencies[..k + 1][..k] == dependencies[..k];
      }
      assert dependencies[..|dependencies|] == dependencies;
      return Success(());
    }

    /** `dependency_order_class_objects`: one pass over the classes, in the order they had at its
        start. */
    method DependencyOrderClassObjects(parse: string -> seq<Name>) returns (outcome: Result<(), string>)
      requires Valid()
      modifies this
      ensures Valid() && values == old(values) && Reordered(keys, old(keys))
      ensures outcome.Success? <==> Closed(old(keys), Mentions(old(values), parse))
      ensures outcome.Success? ==> keys == Pass(old(keys), Mentions(old(values), parse))
    {
      hide NoDuplicates, PlaceAfterAll, Closed, ClosedUpTo;
      var items := keys;
      ghost var deps := Mentions(values, parse);
      NothingClosed(items, deps);
      for k := 0 to |items|
        invariant Valid() && values == old(values) && Reordered(keys, items)
        invariant ClosedUpTo(items, deps, k)
        invariant keys == Process(items, items[..k], deps)
      {
        var key := items[k];
        assert key in items;
        var one := PlaceAfterEach(key, parse(values[key]));
        ClosedUpToNext(items, deps, k);
        if one.Failure? {
          ClosedIsUpToAll(items, deps, k + 1);
          return Failure(one.error);
        }
        assert items[..k + 1][..k] == items[..k];
      }
      assert items[..|items|] == items;
      ClosedIsUpToAll(items, deps, |items|);
      return Success(());
    }

    /** The ordering loop of `build_spec`: passes until one changes nothing. It ends exactly when the
        passes reach such an order, as they do for acyclic dependencies, and the order is then right
        exactly when the dependencies are acyclic. */
    method OrderUntilStable(parse: string -> seq<Name>, ghost bound: nat)
      returns (outcome: Result<(), string>, ghost passes: nat)
      requires Valid()
      requires Closed(keys, Mentions(values, parse)) ==> Stabilizes(keys, Mentions(values, parse), bound)
      modifies this
      ensures Valid() && values == old(values) && Reordered(keys, old(keys))
      ensures outcome.Success? <==> Closed(old(keys), Mentions(old(values), parse))
      ensures outcome.Success? ==> passes <= bound + 1 && keys == Passes(old(keys), Mentions(values, parse), passes)
      ensures outcome.Success? ==> Pass(keys, Mentions(values, parse)) == keys
      ensures outcome.Success? ==>
        (Topological(keys, Mentions(values, parse)) <==>
          exists rank: Name -> nat :: Ranked(old(keys), Mentions(values, parse), rank))
      ensures outcome.Success? ==>
        ((forall i, d :: 0 <= i < |keys| && d in parse(values[keys[i]]) ==> d in keys[..i]) <==>
          exists rank: Name -> nat :: RanksMentions(keys, values, parse, rank))
    {
      hide NoDuplicates, Ranked, Topological, Pass, RanksMentions;
      ghost var deps := Mentions(values, parse);
      var seenKeys: seq<Name>, seenValues: map<Name, string> := [], map[];
      passes := 0;
      while seenKeys != keys || seenValues != values
        invariant Valid() && values == old(values) && Reordered(keys, old(keys))
        invariant passes <= bound + 1 && keys == Passes(old(keys), deps, passes)
        invariant passes > 0 ==> Closed(old(keys), deps)
        invariant passes > 0 ==> seenKeys == Passes(old(keys), deps, passes - 1) && seenValues == values
        invariant passes == 0 ==> seenKeys == [] && seenValues == map[]
        decreases bound + 1 - passes
      {
        if passes > 0 {
          StillMoving(old(keys), deps, bound, passes - 1);
        }
        seenKeys, seenValues := keys, values;
        var one := DependencyOrderClassObjects(parse);
        if one.Failure? {
          return Failure(one.error), passes;
        }
        passes := passes + 1;
      }
      if passes > 0 {
        AcyclicAsBefore(keys, old(keys), deps);
        StableTopologicalIffAcyclic(keys, deps);
      } else {
        NothingToOrder(deps);
      }
      TopologicalMentions(keys, values, parse);
      AcyclicMentions(old(keys), keys, values, parse);
      return Success(()), passes;
    }
  }
}
