/** Ordering class definitions so that every class comes after the classes it mentions. The order
    of a dictionary's keys is a list without repetitions. */
module DependencyOrder {

  type Name = string

  // ---------------------------------------------------------------- positions

  ghost predicate NoDuplicates(s: seq<Name>) {
    forall i, j :: 0 <= i < j < |s| ==> s[i] != s[j]
  }

  /** The first position of `x`, or the length if there is none. */
  function Index(order: seq<Name>, x: Name): (i: nat)
    ensures i <= |order|
    ensures i < |order| ==> order[i] == x
    ensures i < |order| <==> x in order
  {
    if order == [] then 0 else if order[0] == x then 0 else 1 + Index(order[1..], x)
  }

  lemma IndexOf(order: seq<Name>, i: nat)
    requires NoDuplicates(order) && i < |order|
    ensures Index(order, order[i]) == i
  {
  }

  predicate Before(order: seq<Name>, x: Name, y: Name) {
    Index(order, x) < Index(order, y)
  }

  /** The same names, possibly in another order. */
  ghost predicate Reordered(order: seq<Name>, was: seq<Name>) {
    NoDuplicates(order) && |order| == |was| && forall x :: x in order <==> x in was
  }

  // ---------------------------------------------------------------- popping and re-inserting

  /** Popping a key and inserting it again puts it last. */
  function MoveToEnd(order: seq<Name>, x: Name): seq<Name>
    requires x in order
  {
    var i := Index(order, x);
    order[..i] + order[i + 1..] + [x]
  }

  /** Position `i` taken out and put behind position `j`. */
  function Shift(order: seq<Name>, i: nat, j: nat): seq<Name>
    requires i < j < |order|
  {
    order[..i] + order[i + 1..j + 1] + [order[i]] + order[j + 1..]
  }

  /** The effect of one dependency: a key standing before it is put right behind it. */
  function MoveAfter(order: seq<Name>, key: Name, dep: Name): seq<Name> {
    var i, j := Index(order, key), Index(order, dep);
    if i < j < |order| then Shift(order, i, j) else order
  }

  function Without(order: seq<Name>, gone: seq<Name>): seq<Name> {
    if order == [] then []
    else if order[0] in gone then Without(order[1..], gone)
    else [order[0]] + Without(order[1..], gone)
  }

  lemma {:induction false} WithoutMember(order: seq<Name>, gone: seq<Name>, x: Name)
    ensures x in Without(order, gone) <==> x in order && x !in gone
  {
    if order != [] {
      WithoutMember(order[1..], gone, x);
    }
  }

  lemma Disjoint(order: seq<Name>, gone: seq<Name>, other: seq<Name>)
    requires forall x :: x in order ==> x !in other
    ensures forall x :: x in Without(order, gone) ==> x !in other
  {
    forall x | x in Without(order, gone) ensures x !in other {
      WithoutMember(order, gone, x);
    }
  }

  lemma Within(order: seq<Name>, gone: seq<Name>, other: seq<Name>)
    requires forall x :: x in order ==> x in other
    ensures forall x :: x in Without(order, gone) ==> x in other
  {
    forall x | x in Without(order, gone) ensures x in other {
      WithoutMember(order, gone, x);
    }
  }

  lemma {:induction false} WithoutConcat(a: seq<Name>, b: seq<Name>, gone: seq<Name>)
    ensures Without(a + b, gone) == Without(a, gone) + Without(b, gone)
  {
    if a == [] {
      assert a + b == b;
    } else {
      WithoutConcat(a[1..], b, gone);
      assert (a + b)[1..] == a[1..] + b;
    }
  }

  lemma {:induction false} WithoutNone(a: seq<Name>, gone: seq<Name>)
    requires forall x :: x in a ==> x !in gone
    ensures Without(a, gone) == a
  {
    if a != [] {
      WithoutNone(a[1..], gone);
    }
  }

  lemma {:induction false} WithoutAll(a: seq<Name>, gone: seq<Name>)
    requires forall x :: x in a ==> x in gone
    ensures Without(a, gone) == []
  {
    if a != [] {
      WithoutAll(a[1..], gone);
    }
  }

  lemma {:induction false} WithoutTwice(a: seq<Name>, gone: seq<Name>, more: seq<Name>)
    ensures Without(a, gone + more) == Without(Without(a, gone), more)
  {
    if a != [] {
      WithoutTwice(a[1..], gone, more);
    }
  }

  lemma {:induction false} WithoutKeepsDistinct(a: seq<Name>, gone: seq<Name>)
    requires NoDuplicates(a)
    ensures NoDuplicates(Without(a, gone))
  {
    if a != [] {
      WithoutKeepsDistinct(a[1..], gone);
      WithoutMember(a[1..], gone, a[0]);
    }
  }

  /** Dropping one name of a list is cutting it out at its position. */
  lemma WithoutOne(a: seq<Name>, x: Name)
    requires NoDuplicates(a) && x in a
    ensures Without(a, [x]) == a[..Index(a, x)] + a[Index(a, x) + 1..]
  {
    var i := Index(a, x);
    assert a == a[..i] + ([x] + a[i + 1..]);
    hide Without;
    WithoutMiddle(a[..i], x, a[i + 1..]);
  }

  lemma WithoutMiddle(front: seq<Name>, x: Name, rest: seq<Name>)
    requires x !in front && x !in rest
    ensures Without(front + ([x] + rest), [x]) == front + rest
  {
    WithoutConcat(front, [x] + rest, [x]);
    WithoutConcat([x], rest, [x]);
    WithoutAll([x], [x]);
    WithoutNone(front, [x]);
    WithoutNone(rest, [x]);
    hide Without;
    assert [] + rest == rest;
  }

  lemma {:induction false} IndexInConcat(a: seq<Name>, b: seq<Name>, x: Name)
    ensures Index(a + b, x) == if x in a then Index(a, x) else |a| + Index(b, x)
  {
    if a == [] {
      assert a + b == b;
    } else {
      IndexInConcat(a[1..], b, x);
      assert (a + b)[1..] == a[1..] + b;
    }
  }

  /** One more key of a list of keys moved to the end. */
  lemma MoveNext(order: seq<Name>, moved: seq<Name>, x: Name)
    requires NoDuplicates(order) && x in order && x !in moved
    ensures x in Without(order, moved) + moved
    ensures MoveToEnd(Without(order, moved) + moved, x) == Without(order, moved + [x]) + (moved + [x])
  {
    var kept := Without(order, moved);
    WithoutKeepsDistinct(order, moved);
    WithoutMember(order, moved, x);
    WithoutTwice(order, moved, [x]);
    WithoutOne(kept, x);
    MoveFromFront(kept, moved, x);
  }

  lemma MoveFromFront(a: seq<Name>, b: seq<Name>, x: Name)
    requires x in a
    ensures MoveToEnd(a + b, x) == a[..Index(a, x)] + a[Index(a, x) + 1..] + (b + [x])
  {
    IndexInConcat(a, b, x);
    hide Index;
    CutOut(a, b, Index(a, x));
  }

  lemma CutOut(a: seq<Name>, b: seq<Name>, i: nat)
    requires i < |a|
    ensures (a + b)[..i] == a[..i] && (a + b)[i + 1..] == a[i + 1..] + b
  {
  }

  lemma MoveToEndIsWithout(order: seq<Name>, x: Name)
    requires NoDuplicates(order) && x in order
    ensures MoveToEnd(order, x) == Without(order, [x]) + [x] && NoDuplicates(MoveToEnd(order, x))
    ensures |MoveToEnd(order, x)| == |order| && forall y :: y in MoveToEnd(order, x) <==> y in order
  {
    WithoutOne(order, x);
    WithoutKeepsDistinct(order, [x]);
    WithoutMember(order, [x], x);
    forall y ensures y in MoveToEnd(order, x) <==> y in order {
      WithoutMember(order, [x], y);
    }
  }

  /** What is left once everything behind the dependency has been dropped. */
  lemma ThirdStage(front: seq<Name>, dep: Name, rest: seq<Name>, key: Name)
    requires NoDuplicates(front + rest + [dep]) && key in front + rest + [dep]
    ensures Without(MoveToEnd(front + rest + [dep], key), rest)
         == Without(front, [key]) + Without([dep], [key]) + Without([key], rest)
  {
    MoveToEndIsWithout(front + rest + [dep], key);
    FrontAndRest(front, dep, rest);
    hide NoDuplicates, MoveToEnd, Without;
    WithoutConcat(front + rest, [dep], [key]);
    WithoutConcat(front, rest, [key]);
    var f, r, d := Without(front, [key]), Without(rest, [key]), Without([dep], [key]);
    WithoutConcat(f + r + d, [key], rest);
    WithoutConcat(f + r, d, rest);
    WithoutConcat(f, r, rest);
    Disjoint(front, [key], rest);
    WithoutNone(f, rest);
    Within(rest, [key], rest);
    WithoutAll(r, rest);
    Disjoint([dep], [key], rest);
    WithoutNone(d, rest);
    assert f + [] == f;
  }

  lemma FrontAndRest(front: seq<Name>, dep: Name, rest: seq<Name>)
    requires NoDuplicates(front + rest + [dep])
    ensures dep !in rest && forall x :: x in front ==> x !in rest
  {
    var all := front + rest + [dep];
    assert all[|front| + |rest|] == dep;
    forall k | 0 <= k < |rest| ensures rest[k] != dep && rest[k] !in front {
      assert all[|front| + k] == rest[k];
      assert forall m :: 0 <= m < |front| ==> all[m] == front[m];
    }
  }

  /** The pops of one dependency, in three stages: the dependency, the key, and then all that stood
      behind the dependency. */
  lemma PopsMoveAfter(order: seq<Name>, key: Name, dep: Name)
    requires NoDuplicates(order) && key in order && dep in order
    ensures key in MoveToEnd(order, dep) && NoDuplicates(MoveToEnd(order, dep))
    ensures
      var rest := order[Index(order, dep) + 1..];
      Without(MoveToEnd(MoveToEnd(order, dep), key), rest) + rest == MoveAfter(order, key, dep)
  {
    var j := Index(order, dep);
    var front, rest := order[..j], order[j + 1..];
    assert order == front + [dep] + rest;
    MoveToEndIsWithout(order, dep);
    ThirdStage(front, dep, rest, key);
    FrontAndRest(front, dep, rest);
    if key in front {
      KeyInFront(front, dep, rest, key);
      MoveAfterInFront(front, dep, rest, key);
    } else {
      KeyNotInFront(front, dep, rest, key);
      MoveAfterBehind(front, dep, rest, key);
    }
  }

  lemma MoveAfterInFront(front: seq<Name>, dep: Name, rest: seq<Name>, key: Name)
    requires key in front && dep !in front
    ensures
      var i := Index(front, key);
      MoveAfter(front + [dep] + rest, key, dep) == front[..i] + front[i + 1..] + [dep] + [key] + rest
  {
    assert front + [dep] + rest == front + ([dep] + rest);
    ShiftInFront(front, dep, rest, Index(front, key));
    IndexInConcat(front, [dep] + rest, key);
    IndexInConcat(front, [dep] + rest, dep);
    hide Shift;
  }

  lemma ShiftInFront(front: seq<Name>, dep: Name, rest: seq<Name>, i: nat)
    requires i < |front|
    ensures Shift(front + [dep] + rest, i, |front|) == front[..i] + front[i + 1..] + [dep] + [front[i]] + rest
  {
    var order := front + [dep] + rest;
    assert order[..i] == front[..i];
    assert order[i + 1..|front| + 1] == front[i + 1..] + [dep];
    assert order[|front| + 1..] == rest;
  }

  lemma MoveAfterBehind(front: seq<Name>, dep: Name, rest: seq<Name>, key: Name)
    requires key !in front && dep !in front
    ensures MoveAfter(front + [dep] + rest, key, dep) == front + [dep] + rest
  {
    assert front + [dep] + rest == front + ([dep] + rest);
    IndexInConcat(front, [dep] + rest, key);
    IndexInConcat(front, [dep] + rest, dep);
  }

  lemma KeyInFront(front: seq<Name>, dep: Name, rest: seq<Name>, key: Name)
    requires NoDuplicates(front) && key in front && key !in rest && key != dep
    ensures
      var i := Index(front, key);
      Without(front, [key]) + Without([dep], [key]) + Without([key], rest)
        == front[..i] + front[i + 1..] + [dep] + [key]
  {
    WithoutOne(front, key);
    WithoutNone([dep], [key]);
    WithoutNone([key], rest);
  }

  lemma KeyNotInFront(front: seq<Name>, dep: Name, rest: seq<Name>, key: Name)
    requires key !in front && key in [dep] + rest && dep !in rest
    ensures Without(front, [key]) + Without([dep], [key]) + Without([key], rest) == front + [dep]
  {
    WithoutNone(front, [key]);
    if key == dep {
      WithoutAll([dep], [key]);
      WithoutNone([key], rest);
    } else {
      WithoutNone([dep], [key]);
      WithoutAll([key], rest);
    }
  }
}
