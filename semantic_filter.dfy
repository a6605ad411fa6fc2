/**
 * `semantic_filter.py`: `filter_points`, the ordered union without repeats of the
 * points taken from reviews and the points a reader is expected to care about.
 */
module SemanticFilter {

  /** A point is a line of text from `parse_list`. */
  type Point = string

  predicate NoDups(xs: seq<Point>) {
    forall i, j :: 0 <= i < j < |xs| ==> xs[i] != xs[j]
  }

  /** The elements of `xs` appended in turn, each one unless an equal one is already in
      the result. */
  function FirstOccurrences(xs: seq<Point>): (r: seq<Point>)
    ensures |r| <= |xs|
    decreases |xs|
  {
    if xs == [] then []
    else
      var r := FirstOccurrences(xs[..|xs| - 1]);
      var last := xs[|xs| - 1];
      if last in r then r else r + [last]
  }

  /** The result never holds one point twice. */
  lemma {:induction false} FirstOccurrencesDistinct(xs: seq<Point>)
    ensures NoDups(FirstOccurrences(xs))
    decreases |xs|
  {
    if xs != [] {
      FirstOccurrencesDistinct(xs[..|xs| - 1]);
    }
  }

  /** The result holds exactly the elements of `xs`. */
  lemma {:induction false} FirstOccurrencesMembers(xs: seq<Point>)
    ensures forall x :: x in FirstOccurrences(xs) <==> x in xs
    decreases |xs|
  {
    if xs != [] {
      var init := xs[..|xs| - 1];
      FirstOccurrencesMembers(init);
      assert xs == init + [xs[|xs| - 1]];
    }
  }

  /** So an element is kept exactly when it does not occur earlier in `xs`. */
  lemma {:induction false} FirstOccurrencesKeeps(xs: seq<Point>)
    requires xs != []
    ensures var init := xs[..|xs| - 1];
            FirstOccurrences(xs) == if xs[|xs| - 1] in init then FirstOccurrences(init)
                                    else FirstOccurrences(init) + [xs[|xs| - 1]]
  {
    FirstOccurrencesMembers(xs[..|xs| - 1]);
  }

  /** One more element of `xs` is kept exactly when it is not among those kept so far. */
  lemma {:induction false} FirstOccurrencesStep(xs: seq<Point>, i: nat)
    requires i < |xs|
    ensures FirstOccurrences(xs[..i + 1]) ==
              if xs[i] in FirstOccurrences(xs[..i]) then FirstOccurrences(xs[..i])
              else FirstOccurrences(xs[..i]) + [xs[i]]
  {
    assert xs[..i + 1][..i] == xs[..i];
  }

  /** `filter_points(review_points, user_points)`: appends each review point, then each
      user point, unless an equal point is already in the result. */
  method FilterPoints(reviewPoints: seq<Point>, userPoints: seq<Point>) returns (combined: seq<Point>)
    ensures combined == FirstOccurrences(reviewPoints + userPoints)
  {
    combined := [];
    var i := 0;
    while i < |reviewPoints|
      invariant 0 <= i <= |reviewPoints|
      invariant combined == FirstOccurrences(reviewPoints[..i])
    {
      FirstOccurrencesStep(reviewPoints, i);
      if reviewPoints[i] !in combined {
        combined := combined + [reviewPoints[i]];
      }
      i := i + 1;
    }
    assert reviewPoints[..i] == reviewPoints;
    var all := reviewPoints + userPoints;
    var j := 0;
    while j < |userPoints|
      invariant 0 <= j <= |userPoints|
      invariant combined == FirstOccurrences(all[..|reviewPoints| + j])
    {
      FirstOccurrencesStep(all, |reviewPoints| + j);
      assert all[|reviewPoints| + j] == userPoints[j];
      if userPoints[j] !in combined {
        combined := combined + [userPoints[j]];
      }
      j := j + 1;
    }
    assert all[..|reviewPoints| + j] == all;
  }

  /** The position in `xs` at which each element of `FirstOccurrences(xs)` first occurs:
      strictly increasing, so the result keeps first-occurrence order. */
  function FirstPositions(xs: seq<Point>): seq<nat>
    decreases |xs|
  {
    if xs == [] then []
    else
      var n := |xs| - 1;
      var p := FirstPositions(xs[..n]);
      if xs[n] in xs[..n] then p else p + [n]
  }

  /** Each kept element sits at its first occurrence in `xs`, and those positions increase. */
  lemma {:induction false} FirstPositionsTrace(xs: seq<Point>)
    ensures var r := FirstOccurrences(xs);
            var pos := FirstPositions(xs);
            |pos| == |r|
            && (forall a, b :: 0 <= a < b < |pos| ==> pos[a] < pos[b])
            && (forall k :: 0 <= k < |pos| ==> pos[k] < |xs| && xs[pos[k]] == r[k] && r[k] !in xs[..pos[k]])
    decreases |xs|
  {
    if xs != [] {
      var n := |xs| - 1;
      var init := xs[..n];
      FirstPositionsTrace(init);
      var p := FirstPositions(init);
      var r0 := FirstOccurrences(init);
      FirstOccurrencesKeeps(xs);
      forall k | 0 <= k < |p| ensures xs[p[k]] == r0[k] && r0[k] !in xs[..p[k]] {
        assert xs[..p[k]] == init[..p[k]];
      }
    }
  }

  /** Joining a second list only appends: the result for `a` is a prefix of the result
      for `a + b`, and what follows comes from `b` and is not in `a`. */
  lemma {:induction false} FirstOccurrencesAppend(a: seq<Point>, b: seq<Point>)
    ensures var r := FirstOccurrences(a + b);
            var ra := FirstOccurrences(a);
            |ra| <= |r| && r[..|ra|] == ra
            && forall k :: |ra| <= k < |r| ==> r[k] in b && r[k] !in a
    decreases |b|
  {
    if b == [] {
      assert a + b == a;
    } else {
      var n := |b| - 1;
      var ab := a + b;
      assert ab[..|ab| - 1] == a + b[..n] && ab[|ab| - 1] == b[n];
      FirstOccurrencesAppend(a, b[..n]);
      var r0 := FirstOccurrences(a + b[..n]);
      var ra := FirstOccurrences(a);
      var r := FirstOccurrences(ab);
      var isNew := b[n] !in a + b[..n];
      FirstOccurrencesKeeps(ab);
      FirstOccurrencesMembers(a + b[..n]);
      assert r == if isNew then r0 + [b[n]] else r0;
      assert r[..|ra|] == r0[..|ra|];
      forall k | |ra| <= k < |r| ensures r[k] in b && r[k] !in a {
        if k < |r0| {
          assert r[k] == r0[k] && r0[k] in b[..n];
        } else {
          assert r[k] == b[n];
        }
      }
    }
  }

  /** A list without repeats is its own first occurrences. */
  lemma {:induction false} FirstOccurrencesOfDistinct(xs: seq<Point>)
    requires NoDups(xs)
    ensures FirstOccurrences(xs) == xs
    decreases |xs|
  {
    if xs != [] {
      var n := |xs| - 1;
      assert NoDups(xs[..n]);
      FirstOccurrencesOfDistinct(xs[..n]);
      assert xs[n] !in xs[..n];
      assert xs[..n] + [xs[n]] == xs;
    }
  }

  /** Every review point comes before any point found only among the user points. */
  lemma {:induction false} ReviewPointsFirst(reviewPoints: seq<Point>, userPoints: seq<Point>)
    ensures var r := FirstOccurrences(reviewPoints + userPoints);
            forall i, j :: 0 <= i < j < |r| && r[j] in reviewPoints ==> r[i] in reviewPoints
  {
    var r := FirstOccurrences(reviewPoints + userPoints);
    var ra := FirstOccurrences(reviewPoints);
    FirstOccurrencesAppend(reviewPoints, userPoints);
    FirstOccurrencesMembers(reviewPoints);
    forall i, j | 0 <= i < j < |r| && r[j] in reviewPoints ensures r[i] in reviewPoints {
      assert j < |ra|;
      assert r[i] == ra[i];
    }
  }

  /** With review points free of repeats, the result starts with exactly those points. */
  lemma {:induction false} DistinctReviewPointsLead(reviewPoints: seq<Point>, userPoints: seq<Point>)
    requires NoDups(reviewPoints)
    ensures var r := FirstOccurrences(reviewPoints + userPoints);
            |reviewPoints| <= |r| && r[..|reviewPoints|] == reviewPoints
  {
    FirstOccurrencesAppend(reviewPoints, userPoints);
    FirstOccurrencesOfDistinct(reviewPoints);
  }
}
