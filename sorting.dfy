/** Python's `list.sort()` and `sorted(..., reverse=True)` on integers, as
    values: an insertion sort proved to return an ordered permutation of its
    input, and the rank characterisation of the element it puts at a given
    position. */
module Sorting {

  predicate Ascending(s: seq<int>)
  {
    forall i, j | 0 <= i < j < |s| :: s[i] <= s[j]
  }

  predicate Descending(s: seq<int>)
  {
    forall i, j | 0 <= i < j < |s| :: s[i] >= s[j]
  }

  /** Inserts `v` before the first element of `s` not smaller than it. */
  function Insert(v: int, s: seq<int>): (r: seq<int>)
    ensures |r| == |s| + 1
  {
    if |s| == 0 || v <= s[0] then [v] + s else [s[0]] + Insert(v, s[1..])
  }

  /** Inserting into an ascending sequence keeps it ascending and adds
      exactly one occurrence of `v`. */
  lemma InsertKeepsOrder(v: int, s: seq<int>)
    requires Ascending(s)
    ensures Ascending(Insert(v, s))
    ensures multiset(Insert(v, s)) == multiset(s) + multiset{v}
    ensures |Insert(v, s)| == |s| + 1
    ensures Insert(v, s)[0] == if |s| == 0 || v <= s[0] then v else s[0]
  {
    InsertOrdered(v, s);
    InsertAddsOne(v, s);
  }

  lemma {:induction false} InsertAddsOne(v: int, s: seq<int>)
    ensures multiset(Insert(v, s)) == multiset(s) + multiset{v}
  {
    if |s| > 0 && v > s[0] {
      InsertAddsOne(v, s[1..]);
      assert s == [s[0]] + s[1..];
      assert Insert(v, s) == [s[0]] + Insert(v, s[1..]);
    } else {
      assert Insert(v, s) == [v] + s;
    }
  }

  lemma {:induction false} InsertOrdered(v: int, s: seq<int>)
    requires Ascending(s)
    ensures Ascending(Insert(v, s))
  {
    if |s| > 0 && v > s[0] {
      var tail := Insert(v, s[1..]);
      InsertOrdered(v, s[1..]);
      var r := [s[0]] + tail;
      assert Insert(v, s) == r;
      // the head is at most the tail's first element, hence at most all of it
      assert tail[0] == if |s| == 1 || v <= s[1] then v else s[1];
      assert s[0] <= tail[0];
      forall i, j | 0 <= i < j < |r| ensures r[i] <= r[j] {
        assert r[j] == tail[j - 1];
        if i == 0 {
          assert tail[0] <= tail[j - 1];
        } else {
          assert r[i] == tail[i - 1];
        }
      }
    } else {
      assert Insert(v, s) == [v] + s;
    }
  }

  /** `sorted(s)`: an insertion sort. */
  function SortAscending(s: seq<int>): (r: seq<int>)
    ensures |r| == |s|
  {
    if |s| == 0 then [] else Insert(s[0], SortAscending(s[1..]))
  }

  /** The ascending sort is an ordered permutation of its input. */
  lemma {:induction false} SortAscendingSorts(s: seq<int>)
    ensures Ascending(SortAscending(s))
    ensures multiset(SortAscending(s)) == multiset(s)
    ensures |SortAscending(s)| == |s|
  {
    if |s| > 0 {
      SortAscendingSorts(s[1..]);
      InsertKeepsOrder(s[0], SortAscending(s[1..]));
      assert s == [s[0]] + s[1..];
    }
  }

  function Reverse(s: seq<int>): (r: seq<int>)
    ensures |r| == |s|
    ensures forall i | 0 <= i < |s| :: r[i] == s[|s| - 1 - i]
  {
    if |s| == 0 then [] else Reverse(s[1..]) + [s[0]]
  }

  lemma {:induction false} ReversePermutes(s: seq<int>)
    ensures multiset(Reverse(s)) == multiset(s)
  {
    if |s| > 0 {
      ReversePermutes(s[1..]);
      assert s == [s[0]] + s[1..];
    }
  }

  /** `sorted(s, reverse=True)`. */
  function SortDescending(s: seq<int>): (r: seq<int>)
    ensures |r| == |s|
  {
    Reverse(SortAscending(s))
  }

  /** The descending sort is a non-increasing permutation of its input. */
  lemma SortDescendingSorts(s: seq<int>)
    ensures Descending(SortDescending(s))
    ensures multiset(SortDescending(s)) == multiset(s)
    ensures |SortDescending(s)| == |s|
  {
    SortAscendingSorts(s);
    ReversePermutes(SortAscending(s));
  }

  /** How many elements of `s` are smaller than `v`. */
  function CountLess(s: seq<int>, v: int): (c: nat)
    ensures c <= |s|
  {
    if |s| == 0 then 0 else CountLess(s[..|s| - 1], v) + if s[|s| - 1] < v then 1 else 0
  }

  /** How many elements of `s` are at most `v`. */
  function CountAtMost(s: seq<int>, v: int): (c: nat)
    ensures c <= |s|
  {
    if |s| == 0 then 0 else CountAtMost(s[..|s| - 1], v) + if s[|s| - 1] <= v then 1 else 0
  }

  lemma {:induction false} CountsSplit(a: seq<int>, b: seq<int>, v: int)
    ensures CountLess(a + b, v) == CountLess(a, v) + CountLess(b, v)
    ensures CountAtMost(a + b, v) == CountAtMost(a, v) + CountAtMost(b, v)
  {
    if |b| > 0 {
      CountsSplit(a, b[..|b| - 1], v);
      assert (a + b)[..|a + b| - 1] == a + b[..|b| - 1];
    } else {
      assert a + b == a;
    }
  }

  /** Dropping the element at `j` removes one occurrence of it. */
  lemma RemoveAt(t: seq<int>, j: nat)
    requires j < |t|
    ensures multiset(t[..j] + t[j + 1..]) == multiset(t) - multiset{t[j]}
  {
    assert t == t[..j] + [t[j]] + t[j + 1..];
  }

  lemma CountsWithout(t: seq<int>, j: nat, v: int)
    requires j < |t|
    ensures CountLess(t, v) == CountLess(t[..j] + t[j + 1..], v) + if t[j] < v then 1 else 0
    ensures CountAtMost(t, v) == CountAtMost(t[..j] + t[j + 1..], v) + if t[j] <= v then 1 else 0
  {
    var before, after := t[..j], t[j + 1..];
    assert t == before + [t[j]] + after;
    CountsSplit(before, after, v);
    CountsSplit(before + [t[j]], after, v);
    CountsSplit(before, [t[j]], v);
    assert [t[j]][..0] == [];
  }

  /** The counts depend only on the multiset of elements. */
  lemma {:induction false} CountsRespectPermutation(s: seq<int>, t: seq<int>, v: int)
    requires multiset(s) == multiset(t)
    ensures CountLess(s, v) == CountLess(t, v)
    ensures CountAtMost(s, v) == CountAtMost(t, v)
  {
    if |s| == 0 {
      assert |t| == |multiset(t)| == 0;
    } else {
      var x, init := s[|s| - 1], s[..|s| - 1];
      assert s == init + [x];
      assert x in multiset(t);
      var j :| 0 <= j < |t| && t[j] == x;
      RemoveAt(t, j);
      CountsWithout(t, j, v);
      CountsRespectPermutation(init, t[..j] + t[j + 1..], v);
    }
  }

  lemma {:induction false} NoneLess(s: seq<int>, v: int)
    requires forall i | 0 <= i < |s| :: s[i] >= v
    ensures CountLess(s, v) == 0
  {
    if |s| > 0 {
      NoneLess(s[..|s| - 1], v);
    }
  }

  lemma {:induction false} AllAtMost(s: seq<int>, v: int)
    requires forall i | 0 <= i < |s| :: s[i] <= v
    ensures CountAtMost(s, v) == |s|
  {
    if |s| > 0 {
      AllAtMost(s[..|s| - 1], v);
    }
  }

  /** In an ascending sequence, fewer than `k + 1` elements are smaller than
      the element at `k`, and at least `k + 1` are at most it. */
  lemma AscendingRank(t: seq<int>, k: nat)
    requires Ascending(t) && k < |t|
    ensures CountLess(t, t[k]) <= k < CountAtMost(t, t[k])
  {
    FewBelow(t, k);
    ManyAtMost(t, k);
  }

  lemma FewBelow(t: seq<int>, k: nat)
    requires Ascending(t) && k < |t|
    ensures CountLess(t, t[k]) <= k
  {
    var low, high := t[..k], t[k..];
    assert t == low + high;
    CountsSplit(low, high, t[k]);
    assert forall i | 0 <= i < |high| :: high[i] >= t[k] by {
      forall i | 0 <= i < |high| ensures high[i] >= t[k] {
        assert high[i] == t[k + i];
      }
    }
    NoneLess(high, t[k]);
  }

  lemma ManyAtMost(t: seq<int>, k: nat)
    requires Ascending(t) && k < |t|
    ensures k < CountAtMost(t, t[k])
  {
    var upTo, beyond := t[..k + 1], t[k + 1..];
    assert t == upTo + beyond;
    CountsSplit(upTo, beyond, t[k]);
    assert forall i | 0 <= i < |upTo| :: upTo[i] <= t[k] by {
      forall i | 0 <= i < |upTo| ensures upTo[i] <= t[k] {
        assert upTo[i] == t[i];
      }
    }
    AllAtMost(upTo, t[k]);
  }

  /** The element at position `k` of the ascending sort is the (k+1)-th
      smallest of `s`: at most `k` elements of `s` lie below it and more
      than `k` lie at or below it. */
  lemma KthSmallest(s: seq<int>, k: nat)
    requires k < |s|
    ensures CountLess(s, SortAscending(s)[k]) <= k < CountAtMost(s, SortAscending(s)[k])
  {
    var t := SortAscending(s);
    SortAscendingSorts(s);
    AscendingRank(t, k);
    CountsRespectPermutation(s, t, t[k]);
  }
}
