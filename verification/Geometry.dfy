/** Spatial relationships between observed elements (dingdongditch/page_observer.py:
    `_relationships`). Lengths are reals; distances are compared by their squares. */
module Geometry {
  import opened Wrappers

  datatype Rect = Rect(x: real, y: real, width: real, height: real) {
    predicate Valid() { width >= 0.0 && height >= 0.0 }
    function CentreX(): real { x + width / 2.0 }
    function CentreY(): real { y + height / 2.0 }
  }

  datatype Element = Element(id: string, region: Option<string>, bounds: Rect)

  datatype RelationType =
    | NearestTo
    | SameRowAs
    | SameColumnAs
    | RightOf
    | LeftOf
    | Below
    | Above
    | Overlaps
    | AdjacentTo

  datatype Relationship = Relationship(
    source: string,
    target: string,
    types: seq<RelationType>,
    horizontalGap: real,
    verticalGap: real,
    edgeDistanceSquared: real,
    centreDistanceSquared: real,
    overlap: real)

  function Max(a: real, b: real): real { if a >= b then a else b }
  function Min(a: real, b: real): real { if a <= b then a else b }

  /** The length that the intervals [a, a+m] and [b, b+n] share. */
  function Shared(a: real, m: real, b: real, n: real): real {
    Max(0.0, Min(a + m, b + n) - Max(a, b))
  }

  /** The empty space between the intervals [a, a+m] and [b, b+n]. */
  function Gap(a: real, m: real, b: real, n: real): real {
    Max(0.0, Max(a, b) - Min(a + m, b + n))
  }

  function HorizontalGap(a: Rect, b: Rect): real { Gap(a.x, a.width, b.x, b.width) }
  function VerticalGap(a: Rect, b: Rect): real { Gap(a.y, a.height, b.y, b.height) }

  function SharedArea(a: Rect, b: Rect): real {
    Shared(a.x, a.width, b.x, b.width) * Shared(a.y, a.height, b.y, b.height)
  }

  function Area(r: Rect): real { r.width * r.height }

  /** The smaller area, but at least one square pixel. */
  function Denominator(a: Rect, b: Rect): (d: real)
    ensures d >= 1.0
  {
    Min(Max(1.0, Area(a)), Max(1.0, Area(b)))
  }

  /** The percentage of the smaller rectangle that is shared. */
  function Overlap(a: Rect, b: Rect): real {
    SharedArea(a, b) / Denominator(a, b) * 100.0
  }

  function CentreDistanceSquared(a: Rect, b: Rect): real {
    var dx, dy := b.CentreX() - a.CentreX(), b.CentreY() - a.CentreY();
    dx * dx + dy * dy
  }

  function EdgeDistanceSquared(a: Rect, b: Rect): real {
    var h, v := HorizontalGap(a, b), VerticalGap(a, b);
    h * h + v * v
  }

  // ---------------------------------------------------------------------------
  // Facts about two rectangles

  lemma ProductMonotone(a: real, b: real, c: real, d: real)
    requires 0.0 <= a <= c && 0.0 <= b <= d
    ensures 0.0 <= a * b <= c * d
  {
    assert a * b <= c * b && c * b <= c * d;
  }

  lemma RatioBounds(p: real, d: real)
    requires 0.0 <= p <= d && d >= 1.0
    ensures 0.0 <= p / d <= 1.0
    ensures p > 0.0 <==> p / d > 0.0
  {
    var q := p / d;
    assert q * d == p;
    assert q < 0.0 ==> q * d < 0.0;
    assert q > 1.0 ==> q * d > d;
  }

  lemma SharedIsNoLonger(a: real, m: real, b: real, n: real)
    requires m >= 0.0 && n >= 0.0
    ensures 0.0 <= Shared(a, m, b, n) <= m && Shared(a, m, b, n) <= n
  {
  }

  lemma SharedAreaIsNoLarger(a: Rect, b: Rect)
    requires a.Valid() && b.Valid()
    ensures 0.0 <= SharedArea(a, b) <= Area(a) && SharedArea(a, b) <= Area(b)
  {
    SharedIsNoLonger(a.x, a.width, b.x, b.width);
    SharedIsNoLonger(a.y, a.height, b.y, b.height);
    var w, h := Shared(a.x, a.width, b.x, b.width), Shared(a.y, a.height, b.y, b.height);
    ProductMonotone(w, h, a.width, a.height);
    ProductMonotone(w, h, b.width, b.height);
  }

  lemma ClampedMinimum(p: real, x: real, y: real)
    requires p <= x && p <= y
    ensures p <= Min(Max(1.0, x), Max(1.0, y))
  {
  }

  lemma SharedAreaIsCovered(a: Rect, b: Rect)
    requires a.Valid() && b.Valid()
    ensures 0.0 <= SharedArea(a, b) <= Denominator(a, b)
  {
    var shared, x, y := SharedArea(a, b), Area(a), Area(b);
    assert 0.0 <= shared <= x && shared <= y by {
      SharedAreaIsNoLarger(a, b);
    }
    ClampedMinimum(shared, x, y);
  }

  lemma PercentageBounds(p: real, d: real)
    requires 0.0 <= p <= d && d >= 1.0
    ensures 0.0 <= p / d * 100.0 <= 100.0
    ensures p / d * 100.0 > 0.0 <==> p > 0.0
  {
    RatioBounds(p, d);
  }

  /** The overlap is a percentage, and it is positive exactly when the rectangles share area. */
  lemma OverlapIsAPercentage(a: Rect, b: Rect)
    requires a.Valid() && b.Valid()
    ensures 0.0 <= Overlap(a, b) <= 100.0
    ensures Overlap(a, b) > 0.0 <==> SharedArea(a, b) > 0.0
  {
    SharedAreaIsCovered(a, b);
    PercentageBounds(SharedArea(a, b), Denominator(a, b));
  }

  /** Rectangles that overlap have no gap in either direction. */
  lemma OverlapLeavesNoGap(a: Rect, b: Rect)
    requires a.Valid() && b.Valid() && Overlap(a, b) > 0.0
    ensures HorizontalGap(a, b) == 0.0 && VerticalGap(a, b) == 0.0
    ensures EdgeDistanceSquared(a, b) == 0.0
  {
    OverlapIsAPercentage(a, b);
    var w, h := Shared(a.x, a.width, b.x, b.width), Shared(a.y, a.height, b.y, b.height);
    assert w != 0.0 && h != 0.0;
  }

  /** How two intervals lie, and what they share or leave between them. */
  lemma IntervalsShareOrLeaveAGap(a: real, m: real, b: real, n: real)
    requires m >= 0.0 && n >= 0.0
    ensures a + m <= b ==> Gap(a, m, b, n) == b - (a + m) && Shared(a, m, b, n) == 0.0
    ensures b + n <= a ==> Gap(a, m, b, n) == a - (b + n) && Shared(a, m, b, n) == 0.0
    ensures a <= b && b + n <= a + m ==> Gap(a, m, b, n) == 0.0 && Shared(a, m, b, n) == n
    ensures b <= a && a + m <= b + n ==> Gap(a, m, b, n) == 0.0 && Shared(a, m, b, n) == m
    ensures a <= b <= a + m <= b + n ==> Gap(a, m, b, n) == 0.0 && Shared(a, m, b, n) == a + m - b
    ensures b <= a <= b + n <= a + m ==> Gap(a, m, b, n) == 0.0 && Shared(a, m, b, n) == b + n - a
  {
  }

  lemma ScaledQuotient(p: real, d: real)
    requires d >= 1.0
    ensures p / d * 100.0 * d == 100.0 * p
    ensures p == d ==> p / d * 100.0 == 100.0
  {
    var q := p / d;
    assert q * d == p;
  }

  /** The overlap is the shared area in hundredths of the smaller area, clamped at one. */
  lemma OverlapIsExact(a: Rect, b: Rect)
    ensures var smaller := Min(Max(1.0, Area(a)), Max(1.0, Area(b)));
            Overlap(a, b) * smaller == 100.0 * SharedArea(a, b)
  {
    var shared, smaller := SharedArea(a, b), Denominator(a, b);
    ScaledQuotient(shared, smaller);
  }

  predicate LiesIn(a: Rect, b: Rect) {
    b.x <= a.x && a.x + a.width <= b.x + b.width && b.y <= a.y && a.y + a.height <= b.y + b.height
  }

  /** A rectangle of area at least one inside another overlaps it completely. */
  lemma InnerRectanglesOverlapCompletely(a: Rect, b: Rect)
    requires a.Valid() && b.Valid() && LiesIn(a, b) && Area(a) >= 1.0
    ensures Overlap(a, b) == 100.0
  {
    IntervalsShareOrLeaveAGap(a.x, a.width, b.x, b.width);
    IntervalsShareOrLeaveAGap(a.y, a.height, b.y, b.height);
    ProductMonotone(a.width, a.height, b.width, b.height);
    assert SharedArea(a, b) == Area(a) == Denominator(a, b);
    ScaledQuotient(SharedArea(a, b), Denominator(a, b));
  }

  lemma SquareMonotone(a: real, d: real)
    requires 0.0 <= a && (a <= d || a <= -d)
    ensures a * a <= d * d
  {
    if a <= d {
      ProductMonotone(a, a, d, d);
    } else {
      ProductMonotone(a, a, -d, -d);
      assert (-d) * (-d) == d * d;
    }
  }

  /** The edges are never farther apart than the centres. */
  lemma EdgesAreNearerThanCentres(a: Rect, b: Rect)
    requires a.Valid() && b.Valid()
    ensures EdgeDistanceSquared(a, b) <= CentreDistanceSquared(a, b)
  {
    SquareMonotone(HorizontalGap(a, b), b.CentreX() - a.CentreX());
    SquareMonotone(VerticalGap(a, b), b.CentreY() - a.CentreY());
  }

  // ---------------------------------------------------------------------------
  // The nearest targets of one source. `far[j]` is the squared distance of its centre to
  // that of element j.

  function Distances(elements: seq<Element>, i: nat): (far: seq<real>)
    requires i < |elements|
    ensures |far| == |elements|
    ensures forall j :: 0 <= j < |far| ==> far[j] == CentreDistanceSquared(elements[i].bounds, elements[j].bounds)
  {
    seq(|elements|, j requires 0 <= j < |elements| =>
          CentreDistanceSquared(elements[i].bounds, elements[j].bounds))
  }

  /** Element j is a possible target of element i. */
  predicate Eligible(elements: seq<Element>, far: seq<real>, i: nat, j: nat, limit: real)
    requires i < |elements| && j < |elements| == |far|
  {
    && i != j
    && (elements[i].region == None || elements[i].region == elements[j].region)
    && far[j] <= limit
  }

  predicate InRange(indices: seq<nat>, n: nat) {
    forall k :: 0 <= k < |indices| ==> indices[k] < n
  }

  predicate Distinct(indices: seq<nat>) {
    forall a, b :: 0 <= a < b < |indices| ==> indices[a] != indices[b]
  }

  /** The eligible targets among the first n elements, in order. */
  function Candidates(elements: seq<Element>, far: seq<real>, i: nat, n: nat, limit: real): (r: seq<nat>)
    requires i < |elements| && n <= |elements| == |far|
    ensures InRange(r, n) && Distinct(r)
    ensures forall j: nat :: j in r <==> j < n && Eligible(elements, far, i, j, limit)
  {
    if n == 0 then []
    else
      Candidates(elements, far, i, n - 1, limit) +
      if Eligible(elements, far, i, n - 1, limit) then [n - 1] else []
  }

  predicate Ascending(far: seq<real>, r: seq<nat>)
    requires InRange(r, |far|)
  {
    forall a, b :: 0 <= a < b < |r| ==> far[r[a]] <= far[r[b]]
  }

  /** Put j after everything that is no farther than it. */
  function Insert(far: seq<real>, r: seq<nat>, j: nat): (s: seq<nat>)
    requires j < |far| && InRange(r, |far|) && Ascending(far, r)
    ensures InRange(s, |far|) && Ascending(far, s)
    ensures s != [] && (s[|s| - 1] == j || (r != [] && s[|s| - 1] == r[|r| - 1]))
  {
    if r == [] || far[r[|r| - 1]] <= far[j] then r + [j]
    else
      var shorter, last := r[..|r| - 1], r[|r| - 1];
      var inserted := Insert(far, shorter, j);
      AscendingAppend(far, inserted, last);
      inserted + [last]
  }

  lemma AscendingAppend(far: seq<real>, r: seq<nat>, last: nat)
    requires last < |far| && InRange(r, |far|) && Ascending(far, r)
    requires r != [] ==> far[r[|r| - 1]] <= far[last]
    ensures InRange(r + [last], |far|) && Ascending(far, r + [last])
  {
    forall a | 0 <= a < |r| ensures far[r[a]] <= far[last] {
      assert a < |r| - 1 ==> far[r[a]] <= far[r[|r| - 1]];
    }
  }

  lemma MultisetOfLast(r: seq<nat>)
    requires r != []
    ensures multiset(r) == multiset(r[..|r| - 1]) + multiset{r[|r| - 1]}
  {
    assert r == r[..|r| - 1] + [r[|r| - 1]];
  }

  lemma {:induction false} InsertAddsOne(far: seq<real>, r: seq<nat>, j: nat)
    requires j < |far| && InRange(r, |far|) && Ascending(far, r)
    ensures multiset(Insert(far, r, j)) == multiset(r) + multiset{j}
  {
    var s := Insert(far, r, j);
    if r == [] || far[r[|r| - 1]] <= far[j] {
      assert s == r + [j];
    } else {
      var shorter, last := r[..|r| - 1], r[|r| - 1];
      var inserted := Insert(far, shorter, j);
      assert s == inserted + [last];
      calc {
        multiset(s);
        multiset(inserted) + multiset{last};
        { InsertAddsOne(far, shorter, j); }
        multiset(shorter) + multiset{j} + multiset{last};
        { MultisetOfLast(r); }
        multiset(r) + multiset{j};
      }
    }
  }

  /** A stable sort by distance. */
  function Sorted(far: seq<real>, r: seq<nat>): (s: seq<nat>)
    requires InRange(r, |far|)
    ensures InRange(s, |far|) && Ascending(far, s)
    ensures multiset(s) == multiset(r)
  {
    if r == [] then []
    else
      var sorted := Sorted(far, r[..|r| - 1]);
      InsertAddsOne(far, sorted, r[|r| - 1]);
      assert r == r[..|r| - 1] + [r[|r| - 1]];
      Insert(far, sorted, r[|r| - 1])
  }

  function FirstOf(r: seq<nat>, k: nat): seq<nat> {
    if k < |r| then r[..k] else r
  }

  function Nearest(elements: seq<Element>, far: seq<real>, i: nat, limit: real, k: nat): (r: seq<nat>)
    requires i < |elements| == |far|
    ensures InRange(r, |elements|)
  {
    FirstOf(Sorted(far, Candidates(elements, far, i, |elements|, limit)), k)
  }

  lemma SortedHasTheSameMembers(far: seq<real>, r: seq<nat>)
    requires InRange(r, |far|)
    ensures forall j: nat :: j in Sorted(far, r) <==> j in r
  {
    var s := Sorted(far, r);
    forall j: nat ensures j in s <==> j in r {
      assert j in multiset(s) <==> j in multiset(r);
    }
  }

  /** What the first k of an ascending list leave out is no nearer than what they keep. */
  lemma FirstOfAscending(far: seq<real>, all: seq<nat>, k: nat, b: nat)
    requires InRange(all, |far|) && Ascending(far, all) && b < |all|
    ensures b < |FirstOf(all, k)| ==> FirstOf(all, k)[b] == all[b]
    ensures b >= |FirstOf(all, k)| ==>
              |FirstOf(all, k)| == k && forall a :: 0 <= a < k ==> far[FirstOf(all, k)[a]] <= far[all[b]]
  {
  }

  /** A source keeps at most k targets, all eligible; an eligible target that is left out is no
      nearer than any kept one, and one is left out only when k are kept. */
  lemma NearestKeepsTheNearest(elements: seq<Element>, far: seq<real>, i: nat, limit: real, k: nat)
    requires i < |elements| == |far|
    ensures |Nearest(elements, far, i, limit, k)| <= k
    ensures forall a :: 0 <= a < |Nearest(elements, far, i, limit, k)| ==>
              Eligible(elements, far, i, Nearest(elements, far, i, limit, k)[a], limit)
    ensures forall j: nat :: j < |elements| && Eligible(elements, far, i, j, limit) && j !in Nearest(elements, far, i, limit, k) ==>
              |Nearest(elements, far, i, limit, k)| == k &&
              forall a :: 0 <= a < k ==> far[Nearest(elements, far, i, limit, k)[a]] <= far[j]
  {
    var candidates := Candidates(elements, far, i, |elements|, limit);
    var all := Sorted(far, candidates);
    SortedHasTheSameMembers(far, candidates);
    var kept := Nearest(elements, far, i, limit, k);
    forall a | 0 <= a < |kept| ensures Eligible(elements, far, i, kept[a], limit) {
      assert kept[a] in all;
    }
    forall j: nat | j < |elements| && Eligible(elements, far, i, j, limit) && j !in kept
      ensures |kept| == k && forall a :: 0 <= a < k ==> far[kept[a]] <= far[j]
    {
      assert j in all;
      var b :| 0 <= b < |all| && all[b] == j;
      FirstOfAscending(far, all, k, b);
    }
  }

  // ---------------------------------------------------------------------------
  // The pairs that are related

  datatype Pair = Pair(source: nat, target: nat)

  function WithSource(i: nat, targets: seq<nat>): (r: seq<Pair>)
    ensures |r| == |targets|
    ensures forall a :: 0 <= a < |r| ==> r[a] == Pair(i, targets[a])
  {
    seq(|targets|, a requires 0 <= a < |targets| => Pair(i, targets[a]))
  }

  lemma WithSourceAppend(i: nat, targets: seq<nat>, b: nat)
    requires b < |targets|
    ensures WithSource(i, targets[..b + 1]) == WithSource(i, targets[..b]) + [Pair(i, targets[b])]
  {
  }

  /** The pairs of the first n sources with their targets, source by source. */
  function PairsOf(targets: seq<seq<nat>>, n: nat): seq<Pair>
    requires n <= |targets|
  {
    if n == 0 then [] else PairsOf(targets, n - 1) + WithSource(n - 1, targets[n - 1])
  }

  /** The targets kept for each source, nearest first. */
  function Kept(elements: seq<Element>, limit: real, k: nat): (targets: seq<seq<nat>>)
    ensures |targets| == |elements|
    ensures forall i :: 0 <= i < |targets| ==> targets[i] == Nearest(elements, Distances(elements, i), i, limit, k)
  {
    seq(|elements|, i requires 0 <= i < |elements| => Nearest(elements, Distances(elements, i), i, limit, k))
  }

  /** Every pair of a list passes a test. */
  ghost predicate All(test: Pair -> bool, pairs: seq<Pair>) {
    forall a :: 0 <= a < |pairs| ==> test(pairs[a])
  }

  lemma {:induction false} AllPairsPass(test: Pair -> bool, targets: seq<seq<nat>>, n: nat)
    requires n <= |targets|
    requires forall i :: 0 <= i < n ==> All(test, WithSource(i, targets[i]))
    ensures All(test, PairsOf(targets, n))
  {
    if n > 0 {
      AllPairsPass(test, targets, n - 1);
      assert All(test, WithSource(n - 1, targets[n - 1]));
    }
  }

  /** The pair joins two different elements, the second in the region of the first if that has
      one, whose centres are not too far apart. */
  predicate IsEligiblePair(elements: seq<Element>, limit: real, p: Pair) {
    && p.source < |elements| && p.target < |elements| && p.source != p.target
    && var a, b := elements[p.source], elements[p.target];
       && (a.region.None? || b.region == a.region)
       && CentreDistanceSquared(a.bounds, b.bounds) <= limit
  }

  lemma OwnPairsAreEligible(elements: seq<Element>, i: nat, limit: real, k: nat)
    requires i < |elements|
    ensures All(p => IsEligiblePair(elements, limit, p), WithSource(i, Kept(elements, limit, k)[i]))
  {
    NearestKeepsTheNearest(elements, Distances(elements, i), i, limit, k);
  }

  /** Every related pair joins two different elements of which the second is eligible. */
  lemma PairsAreEligible(elements: seq<Element>, limit: real, k: nat)
    ensures var pairs := PairsOf(Kept(elements, limit, k), |elements|);
            forall a :: 0 <= a < |pairs| ==> IsEligiblePair(elements, limit, pairs[a])
  {
    var test := p => IsEligiblePair(elements, limit, p);
    forall i | 0 <= i < |elements| ensures All(test, WithSource(i, Kept(elements, limit, k)[i])) {
      OwnPairsAreEligible(elements, i, limit, k);
    }
    AllPairsPass(test, Kept(elements, limit, k), |elements|);
  }

  lemma {:induction false} DistinctByMultiset(r: seq<nat>)
    requires forall j :: multiset(r)[j] <= 1
    ensures Distinct(r)
  {
    forall a, b | 0 <= a < b < |r| ensures r[a] != r[b] {
      var rest := r[..b] + r[b + 1..];
      assert r == r[..b] + [r[b]] + r[b + 1..];
      assert multiset(r) == multiset(rest) + multiset{r[b]};
      assert multiset(r)[r[b]] == multiset(rest)[r[b]] + 1;
      assert rest[a] == r[a] && rest[a] in multiset(rest);
    }
  }

  lemma {:induction false} MultisetOfDistinct(r: seq<nat>)
    requires Distinct(r)
    ensures forall j :: multiset(r)[j] <= 1
  {
    if r != [] {
      var init, last := r[..|r| - 1], r[|r| - 1];
      MultisetOfDistinct(init);
      MultisetOfLast(r);
      assert last !in init;
      assert multiset(init)[last] == 0;
    }
  }

  lemma SortedStaysDistinct(far: seq<real>, r: seq<nat>)
    requires InRange(r, |far|) && Distinct(r)
    ensures Distinct(Sorted(far, r))
  {
    MultisetOfDistinct(r);
    DistinctByMultiset(Sorted(far, r));
  }

  lemma FirstStayDistinct(far: seq<real>, all: seq<nat>, k: nat)
    requires InRange(all, |far|) && Ascending(far, all) && Distinct(all)
    ensures InRange(FirstOf(all, k), |far|) && Ascending(far, FirstOf(all, k)) && Distinct(FirstOf(all, k))
  {
  }

  lemma NearestAreSorted(elements: seq<Element>, far: seq<real>, i: nat, limit: real, k: nat)
    requires i < |elements| == |far|
    ensures Distinct(Nearest(elements, far, i, limit, k)) && Ascending(far, Nearest(elements, far, i, limit, k))
  {
    var candidates := Candidates(elements, far, i, |elements|, limit);
    SortedStaysDistinct(far, candidates);
    FirstStayDistinct(far, Sorted(far, candidates), k);
  }

  lemma EligibleIffPairIs(elements: seq<Element>, limit: real, i: nat, j: nat)
    requires i < |elements| && j < |elements|
    ensures Eligible(elements, Distances(elements, i), i, j, limit) <==> IsEligiblePair(elements, limit, Pair(i, j))
  {
  }

  /** The targets kept for a source: at most k of them, each once, nearest first, all eligible; an
      eligible target is left out only when k are kept, and then none of those is farther. */
  lemma KeptAreTheNearest(elements: seq<Element>, limit: real, k: nat, i: nat)
    requires i < |elements|
    ensures var kept, far := Kept(elements, limit, k)[i], Distances(elements, i);
            && |kept| <= k && InRange(kept, |elements|) && Distinct(kept) && Ascending(far, kept)
            && (forall t :: 0 <= t < |kept| ==> IsEligiblePair(elements, limit, Pair(i, kept[t])))
            && (forall j: nat :: j < |elements| && IsEligiblePair(elements, limit, Pair(i, j)) && j !in kept ==>
                  |kept| == k && forall t :: 0 <= t < k ==> far[kept[t]] <= far[j])
  {
    var far := Distances(elements, i);
    NearestKeepsTheNearest(elements, far, i, limit, k);
    NearestAreSorted(elements, far, i, limit, k);
    forall j: nat | j < |elements|
      ensures Eligible(elements, far, i, j, limit) <==> IsEligiblePair(elements, limit, Pair(i, j))
    {
      EligibleIffPairIs(elements, limit, i, j);
    }
  }

  // ---------------------------------------------------------------------------
  // What is said about a pair

  function If(b: bool, t: RelationType): seq<RelationType> {
    if b then [t] else []
  }

  /** The types of a pair whose centres are (dx, dy) apart; `row` and `column` are the larger
      height and width. */
  function TypesFrom(dx: real, dy: real, row: real, column: real, overlaps: bool, adjacent: bool): seq<RelationType> {
    [NearestTo]
    + If(Max(dy, -dy) <= row * 0.5, SameRowAs)
    + If(Max(dx, -dx) <= column * 0.5, SameColumnAs)
    + (if dx > 0.0 then [RightOf] else If(dx < 0.0, LeftOf))
    + (if dy > 0.0 then [Below] else If(dy < 0.0, Above))
    + If(overlaps, Overlaps)
    + If(adjacent, AdjacentTo)
  }

  /** The centres are nearer than twice the longest side. */
  predicate Adjacent(a: Rect, b: Rect) {
    var reach := 2.0 * Max(Max(a.width, a.height), Max(b.width, b.height));
    CentreDistanceSquared(a, b) < reach * reach
  }

  lemma AdjacentIff(a: Rect, b: Rect)
    ensures var longest := Max(Max(a.width, a.height), Max(b.width, b.height));
            Adjacent(a, b) <==> CentreDistanceSquared(a, b) < 4.0 * (longest * longest)
  {
    var longest := Max(Max(a.width, a.height), Max(b.width, b.height));
    assert (2.0 * longest) * (2.0 * longest) == 4.0 * (longest * longest);
  }

  function TypesOf(a: Rect, b: Rect): seq<RelationType> {
    TypesFrom(b.CentreX() - a.CentreX(), b.CentreY() - a.CentreY(), Max(a.height, b.height), Max(a.width, b.width),
              Overlap(a, b) > 0.01, Adjacent(a, b))
  }

  function Relate(a: Element, b: Element): Relationship {
    Relationship(a.id, b.id, TypesOf(a.bounds, b.bounds),
                 HorizontalGap(a.bounds, b.bounds), VerticalGap(a.bounds, b.bounds),
                 EdgeDistanceSquared(a.bounds, b.bounds), CentreDistanceSquared(a.bounds, b.bounds),
                 Overlap(a.bounds, b.bounds))
  }

  /** Element pairs within a capture of n elements. */
  predicate Within(pairs: seq<Pair>, n: nat) {
    forall a :: 0 <= a < |pairs| ==> pairs[a].source < n && pairs[a].target < n
  }

  /** What `relate` says about each pair, in order. */
  function RelateAll<R>(relate: (Element, Element) -> R, elements: seq<Element>, pairs: seq<Pair>): (r: seq<R>)
    requires Within(pairs, |elements|)
    ensures |r| == |pairs|
    ensures forall a :: 0 <= a < |r| ==> r[a] == relate(elements[pairs[a].source], elements[pairs[a].target])
  {
    seq(|pairs|, a requires 0 <= a < |pairs| => relate(elements[pairs[a].source], elements[pairs[a].target]))
  }

  lemma RelateAllAppend<R>(relate: (Element, Element) -> R, elements: seq<Element>, pairs: seq<Pair>, p: Pair)
    requires Within(pairs, |elements|) && p.source < |elements| && p.target < |elements|
    ensures Within(pairs + [p], |elements|)
    ensures RelateAll(relate, elements, pairs + [p])
         == RelateAll(relate, elements, pairs) + [relate(elements[p.source], elements[p.target])]
  {
  }

  /** The inner loop: the relationships of one source with its kept targets. */
  method RelateKept<R>(relate: (Element, Element) -> R, elements: seq<Element>, i: nat, kept: seq<nat>,
                       out: seq<R>, pairs: seq<Pair>)
    returns (out': seq<R>, pairs': seq<Pair>)
    requires i < |elements| && InRange(kept, |elements|)
    requires Within(pairs, |elements|) && out == RelateAll(relate, elements, pairs)
    ensures pairs' == pairs + WithSource(i, kept)
    ensures Within(pairs', |elements|) && out' == RelateAll(relate, elements, pairs')
  {
    out', pairs' := out, pairs;
    for b := 0 to |kept|
      invariant pairs' == pairs + WithSource(i, kept[..b])
      invariant Within(pairs', |elements|) && out' == RelateAll(relate, elements, pairs')
    {
      RelateAllAppend(relate, elements, pairs', Pair(i, kept[b]));
      WithSourceAppend(i, kept, b);
      out' := out' + [relate(elements[i], elements[kept[b]])];
      pairs' := pairs' + [Pair(i, kept[b])];
    }
    assert kept[..|kept|] == kept;
  }

  /** The nested loops that collect the relationships of a capture. */
  method ComputeRelationships(elements: seq<Element>, limit: real, k: nat)
    returns (out: seq<Relationship>, pairs: seq<Pair>)
    ensures pairs == PairsOf(Kept(elements, limit, k), |elements|)
    ensures Within(pairs, |elements|) && out == RelateAll(Relate, elements, pairs)
    ensures out == Relationships(elements, limit, k)
  {
    out, pairs := [], [];
    for i := 0 to |elements|
      invariant pairs == PairsOf(Kept(elements, limit, k), i)
      invariant Within(pairs, |elements|) && out == RelateAll(Relate, elements, pairs)
    {
      var kept := NearestLoop(elements, Distances(elements, i), i, limit, k);
      out, pairs := RelateKept(Relate, elements, i, kept, out, pairs);
    }
  }

  method NearestLoop(elements: seq<Element>, far: seq<real>, i: nat, limit: real, k: nat) returns (kept: seq<nat>)
    requires i < |elements| == |far|
    ensures kept == Nearest(elements, far, i, limit, k)
  {
    var candidates: seq<nat> := [];
    for j := 0 to |elements|
      invariant candidates == Candidates(elements, far, i, j, limit)
    {
      if i != j && (elements[i].region == elements[j].region || elements[i].region == None) {
        if far[j] <= limit {
          candidates := candidates + [j];
        }
      }
    }
    kept := FirstOf(Sorted(far, candidates), k);
  }

  lemma PairsAreWithin(elements: seq<Element>, limit: real, k: nat)
    ensures Within(PairsOf(Kept(elements, limit, k), |elements|), |elements|)
  {
    var targets := Kept(elements, limit, k);
    var test := (p: Pair) => p.source < |elements| && p.target < |elements|;
    AllPairsPass(test, targets, |elements|);
    var pairs := PairsOf(targets, |elements|);
    assert forall a :: 0 <= a < |pairs| ==> test(pairs[a]);
  }

  /** The relationships of a capture, as the nested loops compute them. */
  function Relationships(elements: seq<Element>, limit: real, k: nat): seq<Relationship> {
    PairsAreWithin(elements, limit, k);
    RelateAll(Relate, elements, PairsOf(Kept(elements, limit, k), |elements|))
  }

  /** Every member of the list is said about two elements. */
  lemma SaidAboutElements<R>(relate: (Element, Element) -> R, elements: seq<Element>, pairs: seq<Pair>, r: R)
    requires Within(pairs, |elements|) && r in RelateAll(relate, elements, pairs)
    ensures exists a, b :: a in elements && b in elements && r == relate(a, b)
  {
    var i :| 0 <= i < |pairs| && RelateAll(relate, elements, pairs)[i] == r;
    assert elements[pairs[i].source] in elements && elements[pairs[i].target] in elements;
  }

  lemma RelationshipsRelateElements(elements: seq<Element>, limit: real, k: nat, r: Relationship)
    requires r in Relationships(elements, limit, k)
    ensures exists a, b :: a in elements && b in elements && r == Relate(a, b)
  {
    PairsAreWithin(elements, limit, k);
    SaidAboutElements(Relate, elements, PairsOf(Kept(elements, limit, k), |elements|), r);
  }

  /** What a relationship says about its two elements: their identifiers, the gaps between them in
      either direction, the distances of their edges and of their centres, and their overlap. */
  lemma RelationshipSays(a: Element, b: Element)
    ensures var r, p, q := Relate(a, b), a.bounds, b.bounds;
            && r.source == a.id && r.target == b.id
            && r.horizontalGap == Gap(p.x, p.width, q.x, q.width)
            && r.verticalGap == Gap(p.y, p.height, q.y, q.height)
            && r.edgeDistanceSquared == EdgeDistanceSquared(p, q)
            && r.centreDistanceSquared == CentreDistanceSquared(p, q)
            && r.overlap == Overlap(p, q) && r.types == TypesOf(p, q)
  {
  }

  /** Distances of centres, without halves. */
  lemma CentreDistanceIsExact(a: Rect, b: Rect)
    ensures var dx, dy := 2.0 * b.x + b.width - 2.0 * a.x - a.width, 2.0 * b.y + b.height - 2.0 * a.y - a.height;
            4.0 * CentreDistanceSquared(a, b) == dx * dx + dy * dy
  {
    var dx, dy := b.CentreX() - a.CentreX(), b.CentreY() - a.CentreY();
    assert 2.0 * dx == 2.0 * b.x + b.width - 2.0 * a.x - a.width;
    assert 2.0 * dy == 2.0 * b.y + b.height - 2.0 * a.y - a.height;
    assert (2.0 * dx) * (2.0 * dx) == 4.0 * (dx * dx);
    assert (2.0 * dy) * (2.0 * dy) == 4.0 * (dy * dy);
  }

  /** The measures of a relationship are consistent with one another. */
  predicate Sound(r: Relationship) {
    && 0.0 <= r.overlap <= 100.0
    && r.edgeDistanceSquared <= r.centreDistanceSquared
    && (r.overlap > 0.0 ==> r.horizontalGap == 0.0 && r.verticalGap == 0.0)
  }

  lemma RelateIsSound(a: Element, b: Element)
    requires a.bounds.Valid() && b.bounds.Valid()
    ensures Sound(Relate(a, b))
  {
    OverlapIsAPercentage(a.bounds, b.bounds);
    EdgesAreNearerThanCentres(a.bounds, b.bounds);
    if Overlap(a.bounds, b.bounds) > 0.0 {
      OverlapLeavesNoGap(a.bounds, b.bounds);
    }
  }

  /** Every relationship of a capture is consistent. */
  lemma AllRelationshipsAreSound(elements: seq<Element>, limit: real, k: nat, r: Relationship)
    requires forall e :: e in elements ==> e.bounds.Valid()
    requires r in Relationships(elements, limit, k)
    ensures Sound(r)
  {
    RelationshipsRelateElements(elements, limit, k, r);
    var a, b :| a in elements && b in elements && r == Relate(a, b);
    RelateIsSound(a, b);
  }

  /** The list names an element by its identifier. */
  ghost predicate Lists(elements: seq<Element>, id: string) {
    exists e :: e in elements && e.id == id
  }

  /** Every relationship names two elements of the capture. */
  lemma RelationshipsNameElements(elements: seq<Element>, limit: real, k: nat, r: Relationship)
    requires r in Relationships(elements, limit, k)
    ensures Lists(elements, r.source) && Lists(elements, r.target)
  {
    RelationshipsRelateElements(elements, limit, k, r);
    var a, b :| a in elements && b in elements && r == Relate(a, b);
    assert r.source == a.id && r.target == b.id;
  }

  // ---------------------------------------------------------------------------
  // Relationship types mirror one another

  lemma OverlapIsSymmetric(a: Rect, b: Rect)
    ensures Overlap(a, b) == Overlap(b, a)
  {
    assert SharedArea(a, b) == SharedArea(b, a);
    assert Denominator(a, b) == Denominator(b, a);
  }

  lemma CentreDistanceIsSymmetric(a: Rect, b: Rect)
    ensures CentreDistanceSquared(a, b) == CentreDistanceSquared(b, a)
  {
    var dx, dy := b.CentreX() - a.CentreX(), b.CentreY() - a.CentreY();
    assert (-dx) * (-dx) == dx * dx && (-dy) * (-dy) == dy * dy;
  }

  function Mirrored(t: RelationType): RelationType {
    match t
    case RightOf => LeftOf
    case LeftOf => RightOf
    case Below => Above
    case Above => Below
    case _ => t
  }

  /** When a type is said of a pair. */
  predicate Says(dx: real, dy: real, row: real, column: real, overlaps: bool, adjacent: bool, t: RelationType) {
    match t
    case NearestTo => true
    case SameRowAs => Max(dy, -dy) <= row * 0.5
    case SameColumnAs => Max(dx, -dx) <= column * 0.5
    case RightOf => dx > 0.0
    case LeftOf => dx < 0.0
    case Below => dy > 0.0
    case Above => dy < 0.0
    case Overlaps => overlaps
    case AdjacentTo => adjacent
  }

  lemma InBoth(t: RelationType, x: seq<RelationType>, y: seq<RelationType>)
    ensures t in x + y <==> t in x || t in y
  {
  }

  lemma TypesAreSaid(dx: real, dy: real, row: real, column: real, overlaps: bool, adjacent: bool, t: RelationType)
    ensures t in TypesFrom(dx, dy, row, column, overlaps, adjacent) <==>
            Says(dx, dy, row, column, overlaps, adjacent, t)
  {
    var a := [NearestTo];
    var b := If(Max(dy, -dy) <= row * 0.5, SameRowAs);
    var c := If(Max(dx, -dx) <= column * 0.5, SameColumnAs);
    var d := if dx > 0.0 then [RightOf] else If(dx < 0.0, LeftOf);
    var e := if dy > 0.0 then [Below] else If(dy < 0.0, Above);
    var f, g := If(overlaps, Overlaps), If(adjacent, AdjacentTo);
    InBoth(t, a, b);
    InBoth(t, a + b, c);
    InBoth(t, a + b + c, d);
    InBoth(t, a + b + c + d, e);
    InBoth(t, a + b + c + d + e, f);
    InBoth(t, a + b + c + d + e + f, g);
  }

  /** When a type is said of two rectangles. */
  lemma TypesSay(a: Rect, b: Rect, t: RelationType)
    ensures t in TypesOf(a, b) <==>
            Says(b.CentreX() - a.CentreX(), b.CentreY() - a.CentreY(), Max(a.height, b.height), Max(a.width, b.width),
                 Overlap(a, b) > 0.01, Adjacent(a, b), t)
  {
    TypesAreSaid(b.CentreX() - a.CentreX(), b.CentreY() - a.CentreY(), Max(a.height, b.height), Max(a.width, b.width),
                 Overlap(a, b) > 0.01, Adjacent(a, b), t);
  }

  lemma TypesOfTurnedPair(a: Rect, b: Rect)
    ensures TypesOf(b, a) ==
            TypesFrom(-(b.CentreX() - a.CentreX()), -(b.CentreY() - a.CentreY()), Max(a.height, b.height),
                      Max(a.width, b.width), Overlap(a, b) > 0.01, Adjacent(a, b))
  {
    OverlapIsSymmetric(a, b);
    AdjacencyIsSymmetric(a, b);
  }

  lemma SaysMirrors(dx: real, dy: real, row: real, column: real, overlaps: bool, adjacent: bool, t: RelationType)
    ensures Says(dx, dy, row, column, overlaps, adjacent, t) <==>
            Says(-dx, -dy, row, column, overlaps, adjacent, Mirrored(t))
  {
  }

  lemma TypesFromMirror(dx: real, dy: real, row: real, column: real, overlaps: bool, adjacent: bool, t: RelationType)
    ensures t in TypesFrom(dx, dy, row, column, overlaps, adjacent) <==>
            Mirrored(t) in TypesFrom(-dx, -dy, row, column, overlaps, adjacent)
  {
    TypesAreSaid(dx, dy, row, column, overlaps, adjacent, t);
    TypesAreSaid(-dx, -dy, row, column, overlaps, adjacent, Mirrored(t));
    SaysMirrors(dx, dy, row, column, overlaps, adjacent, t);
  }

  /** What is said of a pair is said, mirrored, of the pair turned round. */
  lemma TypesMirror(a: Rect, b: Rect, t: RelationType)
    ensures t in TypesOf(a, b) <==> Mirrored(t) in TypesOf(b, a)
  {
    TypesOfTurnedPair(a, b);
    TypesFromMirror(b.CentreX() - a.CentreX(), b.CentreY() - a.CentreY(), Max(a.height, b.height),
                    Max(a.width, b.width), Overlap(a, b) > 0.01, Adjacent(a, b), t);
  }

  lemma AdjacencyIsSymmetric(a: Rect, b: Rect)
    ensures Adjacent(a, b) <==> Adjacent(b, a)
  {
    CentreDistanceIsSymmetric(a, b);
  }
}
