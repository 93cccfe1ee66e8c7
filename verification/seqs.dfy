/** Order-preserving selection over sequences: the shape of every Go loop
    in the service that appends the items passing a test to a fresh slice. */
module Seqs {

  /** The items of `s` that pass `keep`, in their original order. Defined
      from the back, as the appending loop builds it. */
  function Select<T>(s: seq<T>, keep: T -> bool): (r: seq<T>)
    ensures |r| <= |s|
    ensures forall k :: 0 <= k < |r| ==> keep(r[k])
    decreases |s|
  {
    if |s| == 0 then []
    else Select(s[..|s| - 1], keep) + (if keep(s[|s| - 1]) then [s[|s| - 1]] else [])
  }

  /** `r` can be obtained from `s` by deleting elements. */
  ghost predicate IsSubsequence<T>(r: seq<T>, s: seq<T>)
    decreases |s|
  {
    if |r| == 0 then true
    else if |s| == 0 then false
    else if r[|r| - 1] == s[|s| - 1] && IsSubsequence(r[..|r| - 1], s[..|s| - 1]) then true
    else IsSubsequence(r, s[..|s| - 1])
  }

  /** Selection keeps order: its result is a subsequence of the input. */
  lemma {:induction false} SelectIsSubsequence<T>(s: seq<T>, keep: T -> bool)
    ensures IsSubsequence(Select(s, keep), s)
    decreases |s|
  {
    if |s| > 0 {
      var init, last := s[..|s| - 1], s[|s| - 1];
      SelectIsSubsequence(init, keep);
      var r := Select(s, keep);
      if keep(last) {
        assert r[..|r| - 1] == Select(init, keep);
      } else if |r| > 0 {
        assert r == Select(init, keep);
      }
    }
  }

  /** Selection keeps every passing item as often as it occurs and drops
      every failing one. */
  lemma {:induction false} SelectMultiset<T>(s: seq<T>, keep: T -> bool)
    ensures forall x :: multiset(Select(s, keep))[x] == if keep(x) then multiset(s)[x] else 0
    decreases |s|
  {
    if |s| > 0 {
      var init, last := s[..|s| - 1], s[|s| - 1];
      SelectMultiset(init, keep);
      assert s == init + [last];
    }
  }

  lemma {:induction false} SelectConcat<T>(a: seq<T>, b: seq<T>, keep: T -> bool)
    ensures Select(a + b, keep) == Select(a, keep) + Select(b, keep)
    decreases |b|
  {
    if |b| > 0 {
      var init := b[..|b| - 1];
      assert (a + b)[..|a + b| - 1] == a + init;
      SelectConcat(a, init, keep);
    } else {
      assert a + b == a;
    }
  }

  /** Selection with a test every item passes is the identity. */
  lemma {:induction false} SelectAll<T>(s: seq<T>, keep: T -> bool)
    requires forall k :: 0 <= k < |s| ==> keep(s[k])
    ensures Select(s, keep) == s
    decreases |s|
  {
    if |s| > 0 {
      SelectAll(s[..|s| - 1], keep);
    }
  }

  /** Selection with a test no item passes is empty. */
  lemma {:induction false} SelectNone<T>(s: seq<T>, keep: T -> bool)
    requires forall k :: 0 <= k < |s| ==> !keep(s[k])
    ensures Select(s, keep) == []
    decreases |s|
  {
    if |s| > 0 {
      SelectNone(s[..|s| - 1], keep);
    }
  }

  /** Two tests that agree on every item select the same items. */
  lemma {:induction false} SelectSameTest<T>(s: seq<T>, p: T -> bool, q: T -> bool)
    requires forall k :: 0 <= k < |s| ==> p(s[k]) == q(s[k])
    ensures Select(s, p) == Select(s, q)
    decreases |s|
  {
    if |s| > 0 {
      SelectSameTest(s[..|s| - 1], p, q);
    }
  }

  /** The conjunction of two tests. */
  function Both<T>(p: T -> bool, q: T -> bool): T -> bool
  {
    x => p(x) && q(x)
  }

  /** Two selections in a row are one selection with both tests. */
  lemma {:induction false} SelectSelect<T>(s: seq<T>, p: T -> bool, q: T -> bool)
    ensures Select(Select(s, p), q) == Select(s, Both(p, q))
    decreases |s|
  {
    if |s| > 0 {
      var init, last := s[..|s| - 1], s[|s| - 1];
      SelectSelect(init, p, q);
      var tail := if p(last) then [last] else [];
      SelectConcat(Select(init, p), tail, q);
      assert Select(tail, q) == if Both(p, q)(last) then [last] else [] by {
        if p(last) {
          assert tail[..0] == [];
        }
      }
    }
  }
}
