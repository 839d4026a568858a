/** Sequence helpers shared by the games: distinctness, and the random shuffle
    (`array.sort(() => Math.random() - 0.5)`) as a series of swaps chosen by the
    random numbers. Every permutation is such a series, so the model covers every
    order the shuffle can produce. */
module Sequences {

  predicate NoDup<T(==)>(s: seq<T>) {
    forall i, j :: 0 <= i < j < |s| ==> s[i] != s[j]
  }

  lemma {:induction false} NoDupCard<T>(s: seq<T>)
    ensures |(set x | x in s)| <= |s|
    ensures NoDup(s) ==> |(set x | x in s)| == |s|
    decreases |s|
  {
    if |s| > 0 {
      NoDupCard(s[1..]);
      assert (set x | x in s) == (set x | x in s[1..]) + {s[0]};
      if NoDup(s) {
        assert NoDup(s[1..]) by {
          forall i, j | 0 <= i < j < |s[1..]| ensures s[1..][i] != s[1..][j] {
            assert s[i + 1] != s[j + 1];
          }
        }
        assert forall k :: 0 <= k < |s[1..]| ==> s[1..][k] != s[0] by {
          forall k | 0 <= k < |s[1..]| ensures s[1..][k] != s[0] {
            assert s[0] != s[k + 1];
          }
        }
      }
    }
  }

  function Swap<T>(s: seq<T>, i: nat, j: nat): (r: seq<T>)
    requires i < |s| && j < |s|
    ensures |r| == |s| && r[i] == s[j] && r[j] == s[i]
    ensures forall k :: 0 <= k < |s| && k != i && k != j ==> r[k] == s[k]
  {
    s[i := s[j]][j := s[i]]
  }

  /** A swap permutes the sequence: the same elements, as often, and no element
      is duplicated. */
  lemma SwapPermutes<T>(s: seq<T>, i: nat, j: nat)
    requires i < |s| && j < |s|
    ensures multiset(Swap(s, i, j)) == multiset(s)
    ensures NoDup(s) ==> NoDup(Swap(s, i, j))
  {
    var t := s[i := s[j]];
    assert multiset(t) == multiset(s) - multiset{s[i]} + multiset{s[j]};
    assert multiset(t[j := s[i]]) == multiset(t) - multiset{t[j]} + multiset{s[i]};
  }

  predicate InRange(swaps: seq<(nat, nat)>, n: nat) {
    forall k :: 0 <= k < |swaps| ==> swaps[k].0 < n && swaps[k].1 < n
  }

  /** The swaps applied in order. */
  function Shuffle<T>(s: seq<T>, swaps: seq<(nat, nat)>): (r: seq<T>)
    requires InRange(swaps, |s|)
    ensures |r| == |s|
    ensures multiset(r) == multiset(s)
    ensures NoDup(s) ==> NoDup(r)
    decreases |swaps|
  {
    if |swaps| == 0 then s
    else
      SwapPermutes(s, swaps[0].0, swaps[0].1);
      Shuffle(Swap(s, swaps[0].0, swaps[0].1), swaps[1..])
  }

  /** Distinct elements are exactly those that occur at most once. */
  lemma {:induction false} NoDupMultiset<T>(s: seq<T>)
    ensures NoDup(s) <==> forall x :: multiset(s)[x] <= 1
    decreases |s|
  {
    if |s| > 0 {
      var tail := s[1..];
      NoDupMultiset(tail);
      assert s == [s[0]] + tail;
      assert multiset(s) == multiset{s[0]} + multiset(tail);
      if NoDup(s) {
        assert NoDup(tail) by {
          forall i, j | 0 <= i < j < |tail| ensures tail[i] != tail[j] {
            assert s[i + 1] != s[j + 1];
          }
        }
        assert s[0] !in tail by {
          forall k | 0 <= k < |tail| ensures tail[k] != s[0] {
            assert s[0] != s[k + 1];
          }
        }
      }
      if forall x :: multiset(s)[x] <= 1 {
        assert forall x :: multiset(tail)[x] <= 1 by {
          forall x ensures multiset(tail)[x] <= 1 {
            assert multiset(s)[x] <= 1;
          }
        }
        assert multiset(s)[s[0]] <= 1;
        assert multiset(tail)[s[0]] == 0;
        forall i, j | 0 <= i < j < |s| ensures s[i] != s[j] {
          if i == 0 {
            assert s[j] == tail[j - 1];
          } else {
            assert s[i] == tail[i - 1] && s[j] == tail[j - 1];
          }
        }
      }
    }
  }

  /** Rearranging never creates or removes a duplicate. */
  lemma NoDupOfSameMultiset<T>(a: seq<T>, b: seq<T>)
    requires multiset(a) == multiset(b)
    ensures NoDup(a) <==> NoDup(b)
  {
    NoDupMultiset(a);
    NoDupMultiset(b);
  }
}
