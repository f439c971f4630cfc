/**
 * The location lists: each input line holds one id for the left list and one
 * for the right. Part 1 pairs the two lists smallest with smallest and sums
 * the distances; part 2 weighs every distinct left id by how often it occurs
 * in the right list. Ids are `u32` in the program; they are `nat` here.
 */
module LocationLists {
  import opened Numbers

  type Id = nat

  /** Each line pushes its first id onto the left list and its second onto the right. */
  method SplitColumns(lines: seq<(Id, Id)>) returns (left: seq<Id>, right: seq<Id>)
    ensures |left| == |right| == |lines|
    ensures forall i :: 0 <= i < |lines| ==> lines[i] == (left[i], right[i])
  {
    left := [];
    right := [];
    for i := 0 to |lines|
      invariant |left| == |right| == i
      invariant forall j :: 0 <= j < i ==> lines[j] == (left[j], right[j])
    {
      var (x1, y1) := lines[i];
      left := left + [x1];
      right := right + [y1];
    }
  }

  // ------------------------------------------------------------------ part 1

  predicate Sorted(s: seq<Id>)
  {
    forall i, j :: 0 <= i < j < |s| ==> s[i] <= s[j]
  }

  /** `sorted` is the list in ascending order: sorted, and the same ids the same number of times. */
  predicate SortedOf(sorted: seq<Id>, list: seq<Id>)
  {
    Sorted(sorted) && multiset(sorted) == multiset(list)
  }

  /** The distances between the elements at equal positions, as far as the shorter list goes. */
  function Distance(a: seq<Id>, b: seq<Id>): nat
  {
    if |a| == 0 || |b| == 0 then 0 else AbsDiff(a[0], b[0]) + Distance(a[1..], b[1..])
  }

  /** The loop over the two sorted lists zipped together. */
  method TotalDistance(sortedLeft: seq<Id>, sortedRight: seq<Id>) returns (total: nat)
    ensures total == Distance(sortedLeft, sortedRight)
  {
    total := 0;
    var n := if |sortedLeft| < |sortedRight| then |sortedLeft| else |sortedRight|;
    for i := 0 to n
      invariant total + Distance(sortedLeft[i..], sortedRight[i..]) == Distance(sortedLeft, sortedRight)
    {
      var x1 := sortedLeft[i];
      var y1 := sortedRight[i];
      assert sortedLeft[i..][1..] == sortedLeft[i + 1..];
      assert sortedRight[i..][1..] == sortedRight[i + 1..];
      total := total + AbsDiff(x1, y1);
    }
  }

  /** The distance is the same with the two lists swapped. */
  lemma {:induction false} DistanceSymmetric(a: seq<Id>, b: seq<Id>)
    ensures Distance(a, b) == Distance(b, a)
    decreases |a|
  {
    if |a| > 0 && |b| > 0 {
      DistanceSymmetric(a[1..], b[1..]);
    }
  }

  /** The distance is zero exactly when the shorter list is a prefix of the longer. */
  lemma {:induction false} DistanceZero(a: seq<Id>, b: seq<Id>)
    ensures Distance(a, b) == 0 <==> forall i :: 0 <= i < |a| && i < |b| ==> a[i] == b[i]
    decreases |a|
  {
    if |a| > 0 && |b| > 0 {
      DistanceZero(a[1..], b[1..]);
      if forall i :: 0 <= i < |a| - 1 && i < |b| - 1 ==> a[1..][i] == b[1..][i] {
        forall i | 0 <= i < |a| && i < |b| && 0 < i ensures a[i] == b[i] {
          assert a[1..][i - 1] == a[i] && b[1..][i - 1] == b[i];
        }
      }
    }
  }

  /** Two sorted lists holding the same ids are equal. */
  lemma {:induction false} SortedUnique(a: seq<Id>, b: seq<Id>)
    requires Sorted(a) && Sorted(b) && multiset(a) == multiset(b)
    ensures a == b
    decreases |a|
  {
    assert |a| == |multiset(a)| == |multiset(b)| == |b|;
    if |a| > 0 {
      assert a[0] in multiset(b);
      assert b[0] in multiset(a);
      assert a[0] == b[0] by {
        var i :| 0 <= i < |b| && b[i] == a[0];
        var j :| 0 <= j < |a| && a[j] == b[0];
        assert b[0] <= b[i] && a[0] <= a[j];
      }
      assert a == [a[0]] + a[1..];
      assert b == [b[0]] + b[1..];
      assert multiset(a[1..]) == multiset(a) - multiset{a[0]};
      assert multiset(b[1..]) == multiset(b) - multiset{b[0]};
      SortedUnique(a[1..], b[1..]);
    }
  }

  /** Lists holding the same ids, each sorted, are zero apart. */
  lemma PermutedListsZeroApart(left: seq<Id>, right: seq<Id>, sortedLeft: seq<Id>, sortedRight: seq<Id>)
    requires multiset(left) == multiset(right)
    requires SortedOf(sortedLeft, left) && SortedOf(sortedRight, right)
    ensures Distance(sortedLeft, sortedRight) == 0
  {
    SortedUnique(sortedLeft, sortedRight);
    DistanceZero(sortedLeft, sortedRight);
  }

  // ------------------------------------------------------------------ part 2

  /** The distinct ids of a list. */
  function Distinct(list: seq<Id>): set<Id>
  {
    set id | id in list
  }

  /** The sum of `id * counts[id]` over a set of ids. */
  ghost function Weighted(ids: set<Id>, counts: multiset<Id>): nat
  {
    if ids == {} then 0
    else
      var id :| id in ids;
      id * counts[id] + Weighted(ids - {id}, counts)
  }

  /** The sum over a set does not depend on which id is taken first. */
  lemma {:induction false} WeightedRemove(ids: set<Id>, counts: multiset<Id>, id: Id)
    requires id in ids
    ensures Weighted(ids, counts) == id * counts[id] + Weighted(ids - {id}, counts)
    decreases |ids|
  {
    var first: Id :| first in ids && Weighted(ids, counts) == first * counts[first] + Weighted(ids - {first}, counts);
    if first != id {
      WeightedRemove(ids - {first}, counts, id);
      WeightedRemove(ids - {id}, counts, first);
      assert ids - {first} - {id} == ids - {id} - {first};
    }
  }

  /** The similarity score: every distinct left id times its number of occurrences on the right. */
  ghost function Similarity(left: seq<Id>, right: seq<Id>): nat
  {
    Weighted(Distinct(left), multiset(right))
  }

  /** A left id seen again adds nothing: duplicates on the left count once. */
  lemma RepeatedLeftIdAddsNothing(left: seq<Id>, right: seq<Id>, id: Id)
    requires id in left
    ensures Similarity(left + [id], right) == Similarity(left, right)
  {
    assert Distinct(left + [id]) == Distinct(left);
  }

  /** A right id absent from the left list adds nothing. */
  lemma RightOnlyIdAddsNothing(left: seq<Id>, right: seq<Id>, id: Id)
    requires id !in left
    ensures Similarity(left, right + [id]) == Similarity(left, right)
  {
    WeightedSameOn(Distinct(left), multiset(right + [id]), multiset(right));
  }

  /** Counts that agree on every id of the set give the same sum. */
  lemma {:induction false} WeightedSameOn(ids: set<Id>, c1: multiset<Id>, c2: multiset<Id>)
    requires forall id :: id in ids ==> c1[id] == c2[id]
    ensures Weighted(ids, c1) == Weighted(ids, c2)
    decreases |ids|
  {
    if ids != {} {
      var id :| id in ids;
      WeightedRemove(ids, c1, id);
      WeightedRemove(ids, c2, id);
      WeightedSameOn(ids - {id}, c1, c2);
    }
  }

  /**
   * The pairings map: first every left id gets an entry of zero (an id already
   * present keeps its entry), then every right id with an entry adds one to it.
   */
  method Pairings(left: seq<Id>, right: seq<Id>) returns (pairings: map<Id, nat>)
    ensures pairings.Keys == Distinct(left)
    ensures forall id :: id in pairings ==> pairings[id] == multiset(right)[id]
  {
    pairings := map[];
    for i := 0 to |left|
      invariant pairings.Keys == Distinct(left[..i])
      invariant forall id :: id in pairings ==> pairings[id] == 0
    {
      assert left[..i + 1] == left[..i] + [left[i]];
      var id := left[i];
      if id !in pairings {
        pairings := pairings[id := 0];
      }
    }
    assert left[..|left|] == left;
    ghost var keys := pairings.Keys;
    for j := 0 to |right|
      invariant pairings.Keys == keys
      invariant forall id :: id in pairings ==> pairings[id] == multiset(right[..j])[id]
    {
      assert right[..j + 1] == right[..j] + [right[j]];
      var id := right[j];
      if id in pairings {
        pairings := pairings[id := pairings[id] + 1];
      }
    }
    assert right[..|right|] == right;
  }

  /** The loop over the map's entries, in whatever order the map yields them. */
  method Score(left: seq<Id>, right: seq<Id>) returns (similarity: nat)
    ensures similarity == Similarity(left, right)
  {
    var pairings := Pairings(left, right);
    ghost var counts := multiset(right);
    similarity := 0;
    var remaining := pairings.Keys;
    while remaining != {}
      invariant remaining <= pairings.Keys
      invariant similarity + Weighted(remaining, counts) == Similarity(left, right)
      decreases |remaining|
    {
      var id :| id in remaining;
      var count := pairings[id];
      assert count == counts[id];
      WeightedRemove(remaining, counts, id);
      similarity := similarity + id * count;
      remaining := remaining - {id};
    }
  }
}
