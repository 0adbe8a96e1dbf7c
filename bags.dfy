/** Sequence operations behind the game's tile list: C#'s `List<T>.Remove`
    and drawing tiles one by one without replacement. */
module Bags {

  /** No element occurs twice (a list of distinct objects). */
  predicate Distinct<T(==)>(s: seq<T>) {
    forall i, j :: 0 <= i < j < |s| ==> s[i] != s[j]
  }

  /** The sequence without its element at index `i`. */
  function RemoveAt<T>(s: seq<T>, i: nat): (r: seq<T>)
    requires i < |s|
    ensures |r| == |s| - 1
  {
    s[..i] + s[i + 1..]
  }

  /** Removing the element at `i` keeps exactly the other elements. */
  lemma RemoveAtKeeps<T>(s: seq<T>, i: nat)
    requires i < |s|
    ensures multiset(RemoveAt(s, i)) + multiset{s[i]} == multiset(s)
  {
    assert s == s[..i] + [s[i]] + s[i + 1..];
  }

  /** The element at index `j` after removing index `i`. */
  lemma RemoveAtIndex<T>(s: seq<T>, i: nat, j: nat)
    requires i < |s| && j < |s| - 1
    ensures RemoveAt(s, i)[j] == if j < i then s[j] else s[j + 1]
  {
  }

  /** `List<T>.Remove(x)`: drops the first occurrence of `x`, if there is one. */
  function RemoveFirst<T(==)>(s: seq<T>, x: T): (r: seq<T>)
    ensures x !in s ==> r == s
    ensures x in s ==> |r| == |s| - 1
  {
    if s == [] then []
    else if s[0] == x then s[1..]
    else [s[0]] + RemoveFirst(s[1..], x)
  }

  /** `List<T>.Remove(x)` removes exactly one copy of an `x` that is present. */
  lemma {:induction false} RemoveFirstKeeps<T>(s: seq<T>, x: T)
    requires x in s
    ensures multiset(RemoveFirst(s, x)) == multiset(s) - multiset{x}
  {
    assert s == [s[0]] + s[1..];
    if s[0] != x {
      RemoveFirstKeeps(s[1..], x);
    }
  }

  /** Removing the element at `i` by value removes exactly index `i` when
      no earlier element equals it. */
  lemma {:induction false} RemoveFirstAt<T>(s: seq<T>, i: nat)
    requires i < |s| && s[i] !in s[..i]
    ensures RemoveFirst(s, s[i]) == RemoveAt(s, i)
  {
    if i > 0 {
      var x, tail, before := s[i], s[1..], s[..i];
      assert s[0] != x by { assert s[0] == before[0]; }
      assert tail[i - 1] == x;
      var pre := tail[..i - 1];
      assert x !in pre by {
        forall k | 0 <= k < i - 1 ensures pre[k] != x {
          assert pre[k] == before[k + 1];
        }
      }
      RemoveFirstAt(tail, i - 1);
      assert [s[0]] + pre == before && tail[i..] == s[i + 1..];
    }
  }

  /** In a bag of distinct elements, removing index `i` leaves distinct
      elements, none of them the removed one. */
  lemma DistinctRemoveAt<T>(s: seq<T>, i: nat)
    requires i < |s| && Distinct(s)
    ensures Distinct(RemoveAt(s, i)) && s[i] !in RemoveAt(s, i)
  {
    var r := RemoveAt(s, i);
    forall a, b | 0 <= a < b < |r| ensures r[a] != r[b] {
      RemoveAtIndex(s, i, a);
      RemoveAtIndex(s, i, b);
    }
    forall a | 0 <= a < |r| ensures r[a] != s[i] {
      RemoveAtIndex(s, i, a);
    }
  }

  /** In a list of distinct elements, removal by value removes the chosen index. */
  lemma DistinctRemoveFirst<T>(s: seq<T>, i: nat)
    requires i < |s| && Distinct(s)
    ensures RemoveFirst(s, s[i]) == RemoveAt(s, i)
    ensures Distinct(RemoveAt(s, i)) && s[i] !in RemoveAt(s, i)
  {
    assert s[i] !in s[..i] by {
      forall k | 0 <= k < i ensures s[..i][k] != s[i] {
        assert s[..i][k] == s[k];
      }
    }
    RemoveFirstAt(s, i);
    DistinctRemoveAt(s, i);
  }

  /** `picks` can drive draws from a bag of `n` elements: the j-th pick is an
      index into the bag as it is after j earlier draws. */
  predicate PicksFit(n: nat, picks: seq<nat>) {
    |picks| <= n && forall j :: 0 <= j < |picks| ==> picks[j] < n - j
  }

  /** Draws `picks` one after the other without replacement: the pair of the
      elements drawn, in order, and what is left in the bag. */
  function Draw<T>(s: seq<T>, picks: seq<nat>): (r: (seq<T>, seq<T>))
    requires PicksFit(|s|, picks)
    ensures |r.0| == |picks| && |r.1| == |s| - |picks|
  {
    if picks == [] then ([], s)
    else
      var n := |picks| - 1;
      var before := Draw(s, picks[..n]);
      (before.0 + [before.1[picks[n]]], RemoveAt(before.1, picks[n]))
  }

  /** The draw by the pick at index `i` takes the element that pick names
      from what the earlier picks left, and removes it. */
  lemma DrawNext<T>(s: seq<T>, picks: seq<nat>, i: nat)
    requires PicksFit(|s|, picks) && i < |picks|
    ensures PicksFit(|s|, picks[..i]) && PicksFit(|s|, picks[..i + 1])
    ensures picks[i] < |Draw(s, picks[..i]).1|
    ensures Draw(s, picks[..i + 1])
         == (Draw(s, picks[..i]).0 + [Draw(s, picks[..i]).1[picks[i]]], RemoveAt(Draw(s, picks[..i]).1, picks[i]))
  {
    assert picks[..i + 1][..i] == picks[..i];
  }

  /** Drawing neither loses nor invents elements: what is drawn and what is
      left together are the bag. */
  lemma {:induction false} DrawKeepsBag<T>(s: seq<T>, picks: seq<nat>)
    requires PicksFit(|s|, picks)
    ensures multiset(Draw(s, picks).0) + multiset(Draw(s, picks).1) == multiset(s)
  {
    if picks != [] {
      var n := |picks| - 1;
      DrawKeepsBag(s, picks[..n]);
      var before := Draw(s, picks[..n]);
      RemoveAtKeeps(before.1, picks[n]);
    }
  }

  /** Draws that use up the whole bag produce each element exactly as often as
      the bag held it: the draw order is a permutation of the bag. */
  lemma DrawAllIsPermutation<T>(s: seq<T>, picks: seq<nat>)
    requires PicksFit(|s|, picks) && |picks| == |s|
    ensures Draw(s, picks).1 == []
    ensures multiset(Draw(s, picks).0) == multiset(s)
  {
    DrawKeepsBag(s, picks);
  }
}
