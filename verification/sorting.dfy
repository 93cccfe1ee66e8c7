/** A stable insertion sort over a strict weak order, the contract Go's
    `sort.SliceStable` offers and the one `sort.Slice` meets when no two
    items tie. `before(a, b)` plays the role of the `less` callback. */
module Sorting {
  import opened Seqs

  /** Irreflexive, transitive, and with transitive incomparability (stated
      as negative transitivity): the orders a `less` callback must define. */
  ghost predicate StrictWeakOrder<T(!new)>(before: (T, T) -> bool)
  {
    && (forall a :: !before(a, a))
    && (forall a, b, c :: before(a, b) && before(b, c) ==> before(a, c))
    && (forall a, b, c :: !before(a, b) && !before(b, c) ==> !before(a, c))
  }

  /** No item is strictly before an item to its left. */
  ghost predicate Sorted<T>(s: seq<T>, before: (T, T) -> bool)
  {
    forall i, j :: 0 <= i < j < |s| ==> !before(s[j], s[i])
  }

  ghost predicate StrictlySorted<T>(s: seq<T>, before: (T, T) -> bool)
  {
    forall i, j :: 0 <= i < j < |s| ==> before(s[i], s[j])
  }

  /** The items tied with `k`: neither is before the other. */
  function TiedWith<T>(before: (T, T) -> bool, k: T): T -> bool
  {
    y => !before(y, k) && !before(k, y)
  }

  /** Puts `x` in front of the first item it is strictly before, so after
      every item it ties with. */
  function Insert<T>(x: T, s: seq<T>, before: (T, T) -> bool): (r: seq<T>)
    ensures multiset(r) == multiset(s) + multiset{x}
    ensures |r| == |s| + 1
  {
    if |s| == 0 then [x]
    else if before(x, s[0]) then [x] + s
    else
      assert s == [s[0]] + s[1..];
      [s[0]] + Insert(x, s[1..], before)
  }

  /** Inserts the items one by one in input order. */
  function SortBy<T>(s: seq<T>, before: (T, T) -> bool): (r: seq<T>)
    ensures multiset(r) == multiset(s)
    ensures |r| == |s|
  {
    if |s| == 0 then []
    else
      assert s == s[..|s| - 1] + [s[|s| - 1]];
      Insert(s[|s| - 1], SortBy(s[..|s| - 1], before), before)
  }

  lemma InsertMembers<T>(x: T, s: seq<T>, before: (T, T) -> bool, y: T)
    requires y in Insert(x, s, before)
    ensures y == x || y in s
  {
    assert y in multiset(Insert(x, s, before));
  }

  lemma {:induction false} InsertSorted<T(!new)>(x: T, s: seq<T>, before: (T, T) -> bool)
    requires StrictWeakOrder(before)
    requires Sorted(s, before)
    ensures Sorted(Insert(x, s, before), before)
    decreases |s|
  {
    if |s| > 0 && !before(x, s[0]) {
      var rest := Insert(x, s[1..], before);
      InsertSorted(x, s[1..], before);
      forall j | 0 <= j < |rest|
        ensures !before(rest[j], s[0])
      {
        InsertMembers(x, s[1..], before, rest[j]);
      }
    }
  }

  /** The sort's output is ordered. */
  lemma {:induction false} SortSorted<T(!new)>(s: seq<T>, before: (T, T) -> bool)
    requires StrictWeakOrder(before)
    ensures Sorted(SortBy(s, before), before)
    decreases |s|
  {
    if |s| > 0 {
      SortSorted(s[..|s| - 1], before);
      InsertSorted(s[|s| - 1], SortBy(s[..|s| - 1], before), before);
    }
  }

  /** An item strictly before the head of a sorted sequence ties with
      none of its items' tie class. */
  lemma NoTieAfter<T(!new)>(x: T, s: seq<T>, before: (T, T) -> bool, k: T)
    requires StrictWeakOrder(before)
    requires Sorted(s, before)
    requires |s| > 0 && before(x, s[0])
    requires TiedWith(before, k)(x)
    ensures forall j :: 0 <= j < |s| ==> !TiedWith(before, k)(s[j])
  {
    forall j | 0 <= j < |s|
      ensures before(k, s[j])
    {
      if j > 0 {
        assert !before(s[j], s[0]);
      }
      assert before(x, s[j]);
    }
  }

  /** Inserting ahead of the head keeps the tie classes in order: `x` is
      tied with `k` only when nothing in `s` is. */
  lemma InsertFrontStable<T(!new)>(x: T, s: seq<T>, before: (T, T) -> bool, k: T)
    requires StrictWeakOrder(before)
    requires Sorted(s, before)
    requires |s| > 0 && before(x, s[0])
    ensures Select(Insert(x, s, before), TiedWith(before, k))
         == Select(s, TiedWith(before, k)) + Select([x], TiedWith(before, k))
  {
    var tied := TiedWith(before, k);
    assert Insert(x, s, before) == [x] + s;
    SelectConcat([x], s, tied);
    if tied(x) {
      NoTieAfter(x, s, before, k);
      SelectNone(s, tied);
    } else {
      assert Select([x], tied) == [];
    }
  }

  /** Inserting behind a head leaves the head's selection in front. */
  lemma SelectInsertBehind<T>(x: T, h: T, t: seq<T>, before: (T, T) -> bool, keep: T -> bool)
    requires !before(x, h)
    ensures Select(Insert(x, [h] + t, before), keep) == Select([h], keep) + Select(Insert(x, t, before), keep)
  {
    assert ([h] + t)[1..] == t;
    assert Insert(x, [h] + t, before) == [h] + Insert(x, t, before);
    SelectConcat([h], Insert(x, t, before), keep);
  }

  lemma Reassociate<T>(whole: seq<T>, front: seq<T>, head: seq<T>, tail: seq<T>, last: seq<T>)
    requires whole == head + (tail + last)
    requires front == head + tail
    ensures whole == front + last
  {
  }

  /** One step past the head: if inserting into the tail keeps the tie
      classes in order, so does inserting into the whole. */
  lemma InsertStableStep<T>(x: T, h: T, t: seq<T>, before: (T, T) -> bool, keep: T -> bool)
    requires !before(x, h)
    requires Select(Insert(x, t, before), keep) == Select(t, keep) + Select([x], keep)
    ensures Select(Insert(x, [h] + t, before), keep) == Select([h] + t, keep) + Select([x], keep)
  {
    SelectInsertBehind(x, h, t, before, keep);
    SelectConcat([h], t, keep);
    Reassociate(Select(Insert(x, [h] + t, before), keep), Select([h] + t, keep),
                Select([h], keep), Select(t, keep), Select([x], keep));
  }

  lemma {:induction false} InsertStable<T(!new)>(x: T, s: seq<T>, before: (T, T) -> bool, k: T)
    requires StrictWeakOrder(before)
    requires Sorted(s, before)
    ensures Select(Insert(x, s, before), TiedWith(before, k))
         == Select(s, TiedWith(before, k)) + Select([x], TiedWith(before, k))
    decreases |s|
  {
    if |s| == 0 {
      assert Insert(x, s, before) == [x];
      assert Select(s, TiedWith(before, k)) == [];
    } else if before(x, s[0]) {
      InsertFrontStable(x, s, before, k);
    } else {
      var h, t := s[0], s[1..];
      assert s == [h] + t;
      assert Sorted(t, before);
      InsertStable(x, t, before, k);
      InsertStableStep(x, h, t, before, TiedWith(before, k));
    }
  }

  /** Stability: among items tied with any `k`, the output keeps the input
      order. */
  lemma {:induction false} SortStable<T(!new)>(s: seq<T>, before: (T, T) -> bool, k: T)
    requires StrictWeakOrder(before)
    ensures Select(SortBy(s, before), TiedWith(before, k)) == Select(s, TiedWith(before, k))
    decreases |s|
  {
    if |s| > 0 {
      var init, last := s[..|s| - 1], s[|s| - 1];
      var sorted, tied := SortBy(init, before), TiedWith(before, k);
      calc {
        Select(SortBy(s, before), tied);
        Select(Insert(last, sorted, before), tied);
        { SortSorted(init, before);
          InsertStable(last, sorted, before, k); }
        Select(sorted, tied) + Select([last], tied);
        { SortStable(init, before, k); }
        Select(init, tied) + Select([last], tied);
        { SelectConcat(init, [last], tied);
          assert init + [last] == s; }
        Select(s, tied);
      }
    }
  }

  lemma NoCycle<T(!new)>(x: T, y: T, before: (T, T) -> bool)
    requires StrictWeakOrder(before)
    ensures !(before(x, y) && before(y, x))
  {
    assert before(x, y) && before(y, x) ==> before(x, x);
  }

  /** Two strictly increasing arrangements of one multiset start with the
      same item. */
  lemma HeadsAgree<T(!new)>(a: seq<T>, b: seq<T>, before: (T, T) -> bool)
    requires StrictWeakOrder(before)
    requires StrictlySorted(a, before) && StrictlySorted(b, before)
    requires multiset(a) == multiset(b)
    requires |a| > 0 && |b| > 0
    ensures a[0] == b[0]
  {
    assert a[0] in multiset(b) && b[0] in multiset(a);
    var i :| 0 <= i < |b| && b[i] == a[0];
    var j :| 0 <= j < |a| && a[j] == b[0];
    assert i != 0 ==> before(b[0], a[0]);
    assert j != 0 ==> before(a[0], b[0]);
    NoCycle(a[0], b[0], before);
  }

  /** Removing a common head from two sequences with one multiset leaves
      tails with one multiset. */
  lemma TailsAgree<T>(a: seq<T>, b: seq<T>)
    requires |a| > 0 && |b| > 0 && a[0] == b[0]
    requires multiset(a) == multiset(b)
    ensures multiset(a[1..]) == multiset(b[1..])
  {
    assert a == [a[0]] + a[1..] && b == [b[0]] + b[1..];
    assert multiset(a) == multiset{a[0]} + multiset(a[1..]);
    assert multiset(b) == multiset{a[0]} + multiset(b[1..]);
    assert multiset(a[1..]) == multiset(a) - multiset{a[0]} == multiset(b[1..]);
  }

  /** A strictly increasing arrangement of a multiset is unique: whatever
      order the items arrived in, there is only one way to list them
      strictly sorted. */
  lemma {:induction false} StrictlySortedUnique<T(!new)>(a: seq<T>, b: seq<T>, before: (T, T) -> bool)
    requires StrictWeakOrder(before)
    requires StrictlySorted(a, before) && StrictlySorted(b, before)
    requires multiset(a) == multiset(b)
    ensures a == b
    decreases |a|
  {
    assert |a| == |multiset(a)| == |multiset(b)| == |b|;
    if |a| > 0 {
      HeadsAgree(a, b, before);
      TailsAgree(a, b);
      assert StrictlySorted(a[1..], before) && StrictlySorted(b[1..], before);
      StrictlySortedUnique(a[1..], b[1..], before);
      assert a == [a[0]] + a[1..] && b == [b[0]] + b[1..];
    }
  }
}
