/**
 `CenterHeavyTableOrderMgr.reorderTables`: the tables, which come in the order of their weight,
 are dealt out from both ends of a new array at once.
 */
module TableOrder {

  /** Where the loop puts the table at place `i` of `n`: even ones go to the head, odd ones to the tail. */
  function Place(n: nat, i: nat): (p: nat)
    requires i < n
    ensures p < n
  {
    if i % 2 == 0 then i / 2 else n - 1 - i / 2
  }

  /** Which table ends up at place `p`. */
  function Origin(n: nat, p: nat): (i: nat)
    requires p < n
    ensures i < n
  {
    if p < (n + 1) / 2 then 2 * p else 2 * (n - 1 - p) + 1
  }

  /** No place is written twice and none is left out. */
  lemma PlacesAreAPermutation(n: nat, i: nat)
    requires i < n
    ensures Origin(n, Place(n, i)) == i
    ensures Place(n, Origin(n, i)) == i
  {
  }

  function Reordered<T>(tables: seq<T>): (r: seq<T>)
    ensures |r| == |tables|
  {
    seq(|tables|, p requires 0 <= p < |tables| => tables[Origin(|tables|, p)])
  }

  method ReorderTables<T(0)>(oldOrder: array<T>) returns (newOrder: array<T>)
    ensures fresh(newOrder) && newOrder[..] == Reordered(oldOrder[..])
  {
    newOrder := new T[oldOrder.Length];
    var indexHead := 0;
    var indexTail := newOrder.Length - 1;
    var oldIndex := 0;
    while oldIndex < newOrder.Length
      invariant 0 <= oldIndex <= newOrder.Length
      invariant oldIndex < newOrder.Length ==> oldIndex % 2 == 0
      invariant indexHead == (oldIndex + 1) / 2 && indexTail == newOrder.Length - 1 - oldIndex / 2
      invariant forall p | 0 <= p < newOrder.Length && Origin(newOrder.Length, p) < oldIndex ::
        newOrder[p] == oldOrder[Origin(newOrder.Length, p)]
    {
      newOrder[indexHead] := oldOrder[oldIndex];
      indexHead := indexHead + 1;
      oldIndex := oldIndex + 1;
      if oldIndex >= newOrder.Length {
        break;
      }
      newOrder[indexTail] := oldOrder[oldIndex];
      indexTail := indexTail - 1;
      oldIndex := oldIndex + 1;
    }
    assert newOrder[..] == Reordered(oldOrder[..]);
  }

  // ---------- what the order is for ----------

  predicate Rising(weights: seq<nat>)
  {
    forall i, j | 0 <= i <= j < |weights| :: weights[i] <= weights[j]
  }

  /** Weights rise up to place n / 2, where the heaviest is, and fall from there on. */
  lemma HeavyInTheCentre(weights: seq<nat>)
    requires Rising(weights)
    ensures
      var r := Reordered(weights);
      var mid := |weights| / 2;
      (forall p, q | 0 <= p <= q <= mid && q < |r| :: r[p] <= r[q]) &&
      (forall p, q | mid <= p <= q < |r| :: r[p] >= r[q]) &&
      (weights != [] ==> r[mid] == weights[|weights| - 1])
  {
    var n := |weights|;
    var r := Reordered(weights);
    forall p, q | 0 <= p <= q <= n / 2 && q < n ensures r[p] <= r[q] {
      assert Origin(n, p) <= Origin(n, q);
    }
    forall p, q | n / 2 <= p <= q < n ensures r[p] >= r[q] {
      assert Origin(n, p) >= Origin(n, q);
    }
  }

  function Sum(weights: seq<nat>): nat
  {
    if weights == [] then 0 else weights[0] + Sum(weights[1..])
  }

  lemma {:induction false} SumConcat(a: seq<nat>, b: seq<nat>)
    ensures Sum(a + b) == Sum(a) + Sum(b)
  {
    if a == [] {
      assert a + b == b;
    } else {
      SumConcat(a[1..], b);
      assert (a + b)[1..] == a[1..] + b;
    }
  }

  /** How many places are written from the head. */
  function FromHead(n: nat): nat
  {
    (n + 1) / 2
  }

  /** One table more goes into the middle of what there was. */
  lemma OneMore<T>(tables: seq<T>)
    requires tables != []
    ensures
      var last := |tables| - 1;
      var before := Reordered(tables[..last]);
      Reordered(tables) == before[..|tables| / 2] + [tables[last]] + before[|tables| / 2..]
  {
    var n := |tables|;
    forall p | 0 <= p < n
      ensures Reordered(tables)[p] ==
        if p < n / 2 then Reordered(tables[..n - 1])[p]
        else if p == n / 2 then tables[n - 1]
        else Reordered(tables[..n - 1])[p - 1]
    {
      assert Origin(n, p) ==
        if p < n / 2 then Origin(n - 1, p) else if p == n / 2 then n - 1 else Origin(n - 1, p - 1);
    }
  }

  lemma {:induction false} NothingIsLost<T>(tables: seq<T>)
    ensures multiset(Reordered(tables)) == multiset(tables)
  {
    if tables != [] {
      var last := |tables| - 1;
      NothingIsLost(tables[..last]);
      OneMore(tables);
      var before := Reordered(tables[..last]);
      assert before == before[..|tables| / 2] + before[|tables| / 2..];
      assert tables == tables[..last] + [tables[last]];
    }
  }

  function HeadWeight(weights: seq<nat>): nat
  {
    Sum(Reordered(weights)[..FromHead(|weights|)])
  }

  function TailWeight(weights: seq<nat>): nat
  {
    Sum(Reordered(weights)[FromHead(|weights|)..])
  }

  /** What was written from the one end and from the other differs by at most the heaviest table. */
  lemma {:induction false} EndsBalance(weights: seq<nat>)
    requires Rising(weights)
    ensures
      var head, tail := HeadWeight(weights), TailWeight(weights);
      var heaviest := if weights == [] then 0 else weights[|weights| - 1];
      if |weights| % 2 == 0 then head <= tail <= head + heaviest else tail <= head <= tail + heaviest
  {
    if weights != [] {
      var last := |weights| - 1;
      EndsBalance(weights[..last]);
      assert last > 0 ==> weights[..last][last - 1] <= weights[last];
      EndsAfter(weights);
    }
  }

  lemma EndsAfter(weights: seq<nat>)
    requires weights != []
    ensures
      var last := |weights| - 1;
      HeadWeight(weights) == HeadWeight(weights[..last]) + (if last % 2 == 0 then weights[last] else 0) &&
      TailWeight(weights) == TailWeight(weights[..last]) + (if last % 2 == 0 then 0 else weights[last])
  {
    var last := |weights| - 1;
    var before := Reordered(weights[..last]);
    var mid := |weights| / 2;
    OneMore(weights);
    assert FromHead(last) == mid && FromHead(|weights|) == if last % 2 == 0 then mid + 1 else mid;
    CutInserted(before, mid, weights[last]);
    SumConcat(before[..mid], [weights[last]]);
    SumConcat([weights[last]], before[mid..]);
    assert Sum([weights[last]]) == weights[last];
  }

  lemma CutInserted(s: seq<nat>, mid: nat, x: nat)
    requires mid <= |s|
    ensures
      var t := s[..mid] + [x] + s[mid..];
      t[..mid] == s[..mid] && t[mid..] == [x] + s[mid..] && t[..mid + 1] == s[..mid] + [x] && t[mid + 1..] == s[mid..]
  {
  }
}
