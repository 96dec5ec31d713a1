/** The list operations behind removePoints, movePointUp and movePointDown: removal at an index,
    QList::move, std::sort of the index list, and deletion of a set of positions. */
module ListEdits {

  /** `QList::remove(k)`: the element at `k` taken out, the others closing up. */
  function Remove<T>(s: seq<T>, k: nat): (r: seq<T>)
    requires k < |s|
    ensures |r| == |s| - 1
    ensures forall j :: 0 <= j < k ==> r[j] == s[j]
    ensures forall j :: k <= j < |r| ==> r[j] == s[j + 1]
  {
    s[..k] + s[k + 1..]
  }

  /** `x` placed at index `k`, the elements from `k` on moving up one. */
  function Insert<T>(s: seq<T>, k: nat, x: T): (r: seq<T>)
    requires k <= |s|
    ensures |r| == |s| + 1 && r[k] == x
    ensures forall j :: 0 <= j < k ==> r[j] == s[j]
    ensures forall j :: k < j < |r| ==> r[j] == s[j - 1]
  {
    s[..k] + [x] + s[k..]
  }

  /** `QList::move(from, to)`: the element at `from` ends at index `to`. */
  function Move<T>(s: seq<T>, from: nat, to: nat): (r: seq<T>)
    requires from < |s| && to < |s|
    ensures |r| == |s| && r[to] == s[from]
    ensures multiset(r) == multiset(s)
    ensures Remove(r, to) == Remove(s, from)
  {
    var rest := Remove(s, from);
    var moved := Insert(rest, to, s[from]);
    assert s == s[..from] + [s[from]] + s[from + 1..];
    assert multiset(s) == multiset(s[..from]) + multiset{s[from]} + multiset(s[from + 1..]);
    assert multiset(rest) == multiset(s[..from]) + multiset(s[from + 1..]);
    assert rest == rest[..to] + rest[to..];
    assert multiset(rest) == multiset(rest[..to]) + multiset(rest[to..]);
    assert moved == rest[..to] + [s[from]] + rest[to..];
    assert multiset(moved) == multiset(rest[..to]) + multiset{s[from]} + multiset(rest[to..]);
    assert multiset(moved) == multiset(rest) + multiset{s[from]};
    moved
  }

  /** A move between neighbouring slots swaps the two elements and touches nothing else. */
  lemma MoveAdjacentSwaps<T>(s: seq<T>, i: nat, j: nat)
    requires i < |s| && j < |s| && (j == i + 1 || i == j + 1)
    ensures Move(s, i, j) == s[i := s[j]][j := s[i]]
  {
  }

  /** Removing an element just inserted gives the list it was inserted into. */
  lemma RemoveInsert<T>(s: seq<T>, k: nat, x: T)
    requires k <= |s|
    ensures Remove(Insert(s, k, x), k) == s
  {
  }

  /** Moving back undoes a move: movePointDown(i - 1) after movePointUp(i) restores the list. */
  lemma MoveBack<T>(s: seq<T>, from: nat, to: nat)
    requires from < |s| && to < |s|
    ensures Move(Move(s, from, to), to, from) == s
  {
  }

  predicate Sorted(s: seq<int>)
  {
    forall a, b :: 0 <= a < b < |s| ==> s[a] <= s[b]
  }

  predicate StrictlyIncreasing(s: seq<int>)
  {
    forall a, b :: 0 <= a < b < |s| ==> s[a] < s[b]
  }

  predicate Distinct(s: seq<int>)
  {
    forall a, b :: 0 <= a < b < |s| ==> s[a] != s[b]
  }

  /** `x` inserted into a sorted list at its place. */
  function InsertSorted(s: seq<int>, x: int): (r: seq<int>)
    requires Sorted(s)
    ensures Sorted(r) && |r| == |s| + 1
    ensures multiset(r) == multiset(s) + multiset{x}
    ensures r[0] == x || (s != [] && r[0] == s[0])
  {
    if s == [] || x <= s[0] then [x] + s
    else
      assert s == [s[0]] + s[1..];
      var r' := InsertSorted(s[1..], x);
      assert s[0] <= r'[0];
      [s[0]] + r'
  }

  /** `std::sort` on the index list: the same indexes in ascending order. */
  function SortAscending(a: seq<int>): (s: seq<int>)
    ensures Sorted(s) && |s| == |a|
    ensures multiset(s) == multiset(a)
  {
    if a == [] then []
    else
      assert a == a[..|a| - 1] + [a[|a| - 1]];
      InsertSorted(SortAscending(a[..|a| - 1]), a[|a| - 1])
  }

  lemma {:induction false} DistinctHasSingleCopies(s: seq<int>, x: int)
    requires Distinct(s)
    ensures multiset(s)[x] <= 1
  {
    if s != [] {
      var init := s[..|s| - 1];
      assert s == init + [s[|s| - 1]];
      DistinctHasSingleCopies(init, x);
      assert s[|s| - 1] !in init;
    }
  }

  lemma EqualPairHasTwoCopies(s: seq<int>, p: nat, q: nat)
    requires p < q < |s| && s[p] == s[q]
    ensures multiset(s)[s[q]] >= 2
  {
    assert s == s[..q] + [s[q]] + s[q + 1..];
    assert s[..q][p] == s[p];
    assert multiset(s[..q])[s[q]] >= 1;
  }

  /** Sorting distinct indexes gives a strictly increasing list. */
  lemma SortDistinctIsStrict(a: seq<int>)
    requires Distinct(a)
    ensures StrictlyIncreasing(SortAscending(a))
  {
    var s := SortAscending(a);
    assert Sorted(s) && multiset(s) == multiset(a);
    forall p, q | 0 <= p < q < |s| ensures s[p] < s[q] {
      if s[p] == s[q] {
        EqualPairHasTwoCopies(s, p, q);
        DistinctHasSingleCopies(a, s[q]);
      }
    }
  }

  /** The set of values in a list. */
  function Elems(s: seq<int>): (e: set<int>)
    ensures forall x :: x in e <==> x in s
  {
    set x | x in s
  }

  /** Sorting keeps the set of indexes. */
  lemma SortKeepsElems(a: seq<int>)
    ensures Elems(SortAscending(a)) == Elems(a)
  {
    var s := SortAscending(a);
    forall x ensures x in Elems(s) <==> x in Elems(a) {
      assert x in s <==> x in multiset(s);
      assert x in a <==> x in multiset(a);
    }
  }

  /** The list with every position in `del` deleted and the survivors closed up. */
  function Keep<T>(s: seq<T>, del: set<int>): (r: seq<T>)
    ensures |r| <= |s|
  {
    if s == [] then []
    else Keep(s[..|s| - 1], del) + (if |s| - 1 in del then [] else [s[|s| - 1]])
  }

  /** The surviving positions below `n`, in ascending order. */
  function Survivors(n: nat, del: set<int>): (r: seq<nat>)
    ensures forall a, b :: 0 <= a < b < |r| ==> r[a] < r[b]
    ensures forall k :: 0 <= k < |r| ==> r[k] < n
    ensures forall j :: 0 <= j < n ==> (j in r <==> j !in del)
  {
    if n == 0 then [] else Survivors(n - 1, del) + (if n - 1 in del then [] else [n - 1])
  }

  /** The list that Keep leaves is the survivors read in ascending position order: nothing is
      reordered and only deleted positions are missing. */
  lemma {:induction false} KeepIsSurvivors<T>(s: seq<T>, del: set<int>)
    ensures |Keep(s, del)| == |Survivors(|s|, del)|
    ensures forall k :: 0 <= k < |Keep(s, del)| ==> Keep(s, del)[k] == s[Survivors(|s|, del)[k]]
  {
    if s != [] {
      var n := |s|;
      var init := s[..n - 1];
      KeepIsSurvivors(init, del);
      var kept, surv := Keep(init, del), Survivors(n - 1, del);
      var k', s' := Keep(s, del), Survivors(n, del);
      if n - 1 in del {
        assert k' == kept && s' == surv;
        forall k | 0 <= k < |kept| ensures k'[k] == s[s'[k]] {
          assert init[surv[k]] == s[surv[k]];
        }
      } else {
        assert k' == kept + [s[n - 1]] && s' == surv + [n - 1];
        forall k | 0 <= k < |kept| ensures k'[k] == s[s'[k]] {
          assert k'[k] == kept[k] && s'[k] == surv[k];
          assert init[surv[k]] == s[surv[k]];
        }
      }
    }
  }

  /** Keep leaves a list untouched when every position to delete lies beyond it. */
  lemma {:induction false} KeepNothing<T>(s: seq<T>, del: set<int>)
    requires forall d :: d in del ==> d >= |s|
    ensures Keep(s, del) == s
  {
    if s != [] {
      KeepNothing(s[..|s| - 1], del);
      assert s[..|s| - 1] + [s[|s| - 1]] == s;
    }
  }

  /** Removing the index below all those already deleted is one more deletion: this is why
      removePoints works from the highest index down. */
  lemma {:induction false} RemoveBelowDeleted<T>(s: seq<T>, del: set<int>, j: nat)
    requires j < |s|
    requires forall d :: d in del ==> d > j
    ensures j < |Keep(s, del)|
    ensures Remove(Keep(s, del), j) == Keep(s, del + {j})
  {
    var n := |s|;
    var init := s[..n - 1];
    if n - 1 == j {
      KeepNothing(init, del);
      KeepNothing(init, del + {j});
      assert Keep(s, del) == init + [s[j]];
      assert Remove(init + [s[j]], j) == init;
    } else {
      RemoveBelowDeleted(init, del, j);
      var tail := if n - 1 in del then [] else [s[n - 1]];
      var x := Keep(init, del);
      assert Keep(s, del) == x + tail;
      assert Keep(s, del + {j}) == Keep(init, del + {j}) + tail;
      assert Remove(x + tail, j) == Remove(x, j) + tail;
    }
  }
}
