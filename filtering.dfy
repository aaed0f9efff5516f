/** Order-preserving selection over sequences: the model of JavaScript's
    `Array.prototype.filter`, which the store uses to delete records and to
    build the active and completed views. */
module Filtering {

  /** `a` can be obtained from `b` by deleting elements, without reordering. */
  ghost predicate IsSubsequence<T(!new)>(a: seq<T>, b: seq<T>)
    decreases |b|
  {
    a == [] || (b != [] && ((a[0] == b[0] && IsSubsequence(a[1..], b[1..])) || IsSubsequence(a, b[1..])))
  }

  /** Every sequence is a subsequence of itself. */
  lemma {:induction false} SubsequenceOfItself<T(!new)>(s: seq<T>)
    ensures IsSubsequence(s, s)
  {
    if s != [] {
      SubsequenceOfItself(s[1..]);
    }
  }

  /** The elements of `s` that satisfy `keep`, in their original order. */
  function Keep<T(!new)>(s: seq<T>, keep: T -> bool): (r: seq<T>)
    ensures |r| <= |s|
    ensures forall x :: x in r <==> x in s && keep(x)
  {
    if s == [] then []
    else
      assert s == [s[0]] + s[1..];
      (if keep(s[0]) then [s[0]] else []) + Keep(s[1..], keep)
  }

  /** Selection keeps every selected element as often as it occurs in the
      input, and no other element. */
  lemma {:induction false} KeepCount<T(!new)>(s: seq<T>, keep: T -> bool, x: T)
    ensures multiset(Keep(s, keep))[x] == if keep(x) then multiset(s)[x] else 0
  {
    if s != [] {
      KeepCount(s[1..], keep, x);
      assert s == [s[0]] + s[1..];
      assert multiset(s) == multiset{s[0]} + multiset(s[1..]);
      if keep(s[0]) {
        assert multiset(Keep(s, keep)) == multiset{s[0]} + multiset(Keep(s[1..], keep));
      }
    }
  }

  /** Selection keeps the relative order of what it selects. */
  lemma {:induction false} KeepIsSubsequence<T(!new)>(s: seq<T>, keep: T -> bool)
    ensures IsSubsequence(Keep(s, keep), s)
  {
    if s != [] {
      KeepIsSubsequence(s[1..], keep);
      var rest := Keep(s[1..], keep);
      if keep(s[0]) {
        assert Keep(s, keep) == [s[0]] + rest;
        assert (Keep(s, keep))[1..] == rest;
      } else {
        assert Keep(s, keep) == rest;
        if rest != [] {
          assert IsSubsequence(rest, s[1..]);
        }
      }
    }
  }

  /** Selecting from a concatenation selects from each part. */
  lemma {:induction false} KeepAppend<T(!new)>(a: seq<T>, b: seq<T>, keep: T -> bool)
    ensures Keep(a + b, keep) == Keep(a, keep) + Keep(b, keep)
  {
    if a == [] {
      assert a + b == b;
    } else {
      var head := if keep(a[0]) then [a[0]] else [];
      assert (a + b)[0] == a[0];
      assert (a + b)[1..] == a[1..] + b;
      KeepAppend(a[1..], b, keep);
      calc {
        Keep(a + b, keep);
        head + Keep(a[1..] + b, keep);
        head + (Keep(a[1..], keep) + Keep(b, keep));
        (head + Keep(a[1..], keep)) + Keep(b, keep);
        Keep(a, keep) + Keep(b, keep);
      }
    }
  }

  /** Selection returns its input exactly when every element is selected. */
  lemma {:induction false} KeepAllIff<T(!new)>(s: seq<T>, keep: T -> bool)
    ensures Keep(s, keep) == s <==> forall i :: 0 <= i < |s| ==> keep(s[i])
  {
    if forall i :: 0 <= i < |s| ==> keep(s[i]) {
      if s != [] {
        assert forall i :: 0 <= i < |s[1..]| ==> keep(s[1..][i]) by {
          forall i | 0 <= i < |s[1..]| ensures keep(s[1..][i]) {
            assert s[1..][i] == s[i + 1];
          }
        }
        KeepAllIff(s[1..], keep);
        assert keep(s[0]);
        assert s == [s[0]] + s[1..];
      }
    } else {
      var i :| 0 <= i < |s| && !keep(s[i]);
      assert s[i] in s;
      assert s[i] !in Keep(s, keep);
    }
  }

  /** Two complementary tests split a sequence: every element goes to exactly
      one side, so the sizes and the multisets add up. */
  lemma {:induction false} KeepSplit<T(!new)>(s: seq<T>, keep: T -> bool, other: T -> bool)
    requires forall x :: other(x) == !keep(x)
    ensures |Keep(s, keep)| + |Keep(s, other)| == |s|
    ensures multiset(Keep(s, keep)) + multiset(Keep(s, other)) == multiset(s)
  {
    if s != [] {
      KeepSplit(s[1..], keep, other);
      assert s == [s[0]] + s[1..];
      var k, o := Keep(s[1..], keep), Keep(s[1..], other);
      assert multiset(s) == multiset{s[0]} + multiset(s[1..]);
      if keep(s[0]) {
        assert Keep(s, keep) == [s[0]] + k;
        assert Keep(s, other) == o;
        assert multiset(Keep(s, keep)) == multiset{s[0]} + multiset(k);
      } else {
        assert !other(s[0]) == keep(s[0]);
        assert Keep(s, keep) == k;
        assert Keep(s, other) == [s[0]] + o;
        assert multiset(Keep(s, other)) == multiset{s[0]} + multiset(o);
      }
    }
  }
}
