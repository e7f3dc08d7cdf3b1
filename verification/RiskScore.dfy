/** The aggregate risk score of `application_risk_summary`: 55% of the worst score plus 45% of
    the mean of the five worst, rounded. Arithmetic is exact; rounding is any monotone function
    that keeps integers. */
module RiskScore {
  import opened Ordering

  predicate Descending(s: seq<int>) {
    forall i, j | 0 <= i < j < |s| :: s[i] >= s[j]
  }

  function Insert(s: seq<int>, x: int): (out: seq<int>)
    ensures |out| == |s| + 1
  {
    if s == [] then [x] else if s[0] >= x then [s[0]] + Insert(s[1..], x) else [x] + s
  }

  /** sorted(scores, reverse=True). */
  function Sorted(scores: seq<int>): (out: seq<int>)
    ensures |out| == |scores|
  {
    if scores == [] then [] else Insert(Sorted(scores[1..]), scores[0])
  }

  function Top(scores: seq<int>): (top: seq<int>)
    ensures |top| == if |scores| < 5 then |scores| else 5
  {
    if |scores| < 5 then Sorted(scores) else Sorted(scores)[..5]
  }

  function Sum(s: seq<int>): int {
    if s == [] then 0 else Sum(s[..|s| - 1]) + s[|s| - 1]
  }

  function Max(scores: seq<int>): int {
    if scores == [] then 0
    else if |scores| == 1 then scores[0]
    else if scores[0] >= Max(scores[1..]) then scores[0]
    else Max(scores[1..])
  }

  function Ratio(sum: int, n: int): real
    requires n > 0
  {
    sum as real / n as real
  }

  /** mean(top or [0]). */
  function Mean(top: seq<int>): real {
    if top == [] then 0.0 else Ratio(Sum(top), |top|)
  }

  function Raw(scores: seq<int>): real {
    Max(scores) as real * 0.55 + Mean(Top(scores)) * 0.45
  }

  type Rounding = real -> int

  function Exactly(n: int): real {
    n as real
  }

  ghost predicate ProperRounding(round: Rounding) {
    && (forall x, y :: x <= y ==> round(x) <= round(y))
    && forall n :: round(Exactly(n)) == n
  }

  function Score(round: Rounding, scores: seq<int>): int {
    round(Raw(scores))
  }

  // ---------------------------------------------------------------------------------------
  // Sorting
  // ---------------------------------------------------------------------------------------

  lemma {:induction false} InsertKeepsScores(s: seq<int>, x: int)
    ensures multiset(Insert(s, x)) == multiset(s) + multiset{x}
  {
    if s != [] {
      assert s == [s[0]] + s[1..];
      if s[0] >= x {
        InsertKeepsScores(s[1..], x);
      }
    }
  }

  lemma {:induction false} InsertKeepsOrder(s: seq<int>, x: int)
    requires Descending(s)
    ensures Descending(Insert(s, x))
  {
    if s != [] && s[0] >= x {
      InsertKeepsOrder(s[1..], x);
      var rest := Insert(s[1..], x);
      forall j | 0 <= j < |rest| ensures s[0] >= rest[j] {
        assert rest[j] in multiset(rest);
        InsertKeepsScores(s[1..], x);
        assert rest[j] == x || rest[j] in s[1..];
      }
    }
  }

  lemma {:induction false} SortedFacts(scores: seq<int>)
    ensures Descending(Sorted(scores)) && multiset(Sorted(scores)) == multiset(scores)
  {
    if scores != [] {
      SortedFacts(scores[1..]);
      InsertKeepsOrder(Sorted(scores[1..]), scores[0]);
      InsertKeepsScores(Sorted(scores[1..]), scores[0]);
      assert scores == [scores[0]] + scores[1..];
    }
  }

  lemma HeadIsGreatest(a: seq<int>, b: seq<int>)
    requires Descending(a) && a != [] && b != [] && multiset(a) == multiset(b)
    ensures a[0] >= b[0]
  {
    assert b[0] in multiset(b);
    assert b[0] in a;
  }

  lemma {:induction false} DescendingIsUnique(a: seq<int>, b: seq<int>)
    requires Descending(a) && Descending(b) && multiset(a) == multiset(b)
    ensures a == b
    decreases |a|
  {
    assert |a| == |multiset(a)| == |multiset(b)| == |b|;
    if a != [] {
      HeadIsGreatest(a, b);
      HeadIsGreatest(b, a);
      RestElements(a);
      RestElements(b);
      DescendingIsUnique(a[1..], b[1..]);
      assert a == [a[0]] + a[1..] && b == [b[0]] + b[1..];
    }
  }

  lemma {:induction false} MaxIsFirst(scores: seq<int>)
    requires scores != []
    ensures Max(scores) == Sorted(scores)[0]
  {
    if |scores| == 1 {
      assert scores[1..] == [];
    } else {
      MaxIsFirst(scores[1..]);
    }
  }

  lemma RawIgnoresOrder(a: seq<int>, b: seq<int>)
    requires multiset(a) == multiset(b)
    ensures Raw(a) == Raw(b)
  {
    SortedFacts(a);
    SortedFacts(b);
    DescendingIsUnique(Sorted(a), Sorted(b));
    assert |a| == |multiset(a)| == |multiset(b)| == |b|;
    if a != [] {
      MaxIsFirst(a);
      MaxIsFirst(b);
    }
  }

  /** The score does not depend on the order of the signals. */
  lemma ScoreIgnoresOrder(round: Rounding, a: seq<int>, b: seq<int>)
    requires multiset(a) == multiset(b)
    ensures Score(round, a) == Score(round, b)
  {
    RawIgnoresOrder(a, b);
  }

  // ---------------------------------------------------------------------------------------
  // Monotonicity
  // ---------------------------------------------------------------------------------------

  predicate Below(a: seq<int>, b: seq<int>) {
    |a| <= |b| && forall i | 0 <= i < |a| :: a[i] <= b[i]
  }

  lemma {:induction false} InsertGrows(s: seq<int>, x: int)
    requires Descending(s)
    ensures Below(s, Insert(s, x))
  {
    if s != [] && s[0] >= x {
      assert s == [s[0]] + s[1..];
      InsertGrows(s[1..], x);
    }
  }

  lemma BelowCons(first: int, second: int, a: seq<int>, b: seq<int>)
    requires first <= second && Below(a, b)
    ensures Below([first] + a, [second] + b)
  {
  }

  lemma {:induction false} InsertMonotone(s: seq<int>, x: int, y: int)
    requires Descending(s) && x <= y
    ensures Below(Insert(s, x), Insert(s, y))
  {
    if s != [] {
      var rest := s[1..];
      assert s == [s[0]] + rest;
      if s[0] >= y {
        InsertMonotone(rest, x, y);
        BelowCons(s[0], s[0], Insert(rest, x), Insert(rest, y));
      } else if s[0] >= x {
        InsertBelowSelf(s, x);
        var low := Insert(s, x);
        forall i | 0 <= i < |low| ensures low[i] <= ([y] + s)[i] {
        }
      }
    }
  }

  /** Inserting below the head shifts no value above its predecessor. */
  lemma {:induction false} InsertBelowSelf(s: seq<int>, x: int)
    requires Descending(s) && s != [] && s[0] >= x
    ensures forall i | 0 < i <= |s| :: Insert(s, x)[i] <= s[i - 1]
  {
    assert s == [s[0]] + s[1..];
    if |s| > 1 && s[1] >= x {
      InsertBelowSelf(s[1..], x);
      forall i | 1 < i <= |s| ensures Insert(s, x)[i] <= s[i - 1] {
        assert Insert(s, x)[i] == Insert(s[1..], x)[i - 1] && s[1..][i - 2] == s[i - 1];
      }
    } else {
      assert |s| > 1 ==> Insert(s[1..], x) == [x] + s[1..];
      assert |s| == 1 ==> Insert(s[1..], x) == [x];
    }
  }

  lemma {:induction false} SumMonotone(a: seq<int>, b: seq<int>)
    requires |a| == |b| && Below(a, b)
    ensures Sum(a) <= Sum(b)
  {
    if a != [] {
      SumMonotone(a[..|a| - 1], b[..|b| - 1]);
    }
  }

  lemma DivisionMonotone(x: real, y: real, n: real)
    requires x <= y && n > 0.0
    ensures x / n <= y / n
  {
    var p, q := x / n, y / n;
    assert p * n == x && q * n == y;
  }

  /** Dominated sorted scores of equally many top scores give a dominated score. */
  lemma RawMonotone(a: seq<int>, b: seq<int>)
    requires a != [] && |Top(a)| == |Top(b)| && Below(Sorted(a), Sorted(b))
    ensures Raw(a) <= Raw(b)
  {
    MaxIsFirst(a);
    MaxIsFirst(b);
    SumMonotone(Top(a), Top(b));
    DivisionMonotone(Sum(Top(a)) as real, Sum(Top(b)) as real, |Top(a)| as real);
  }

  /** Raising one signal's score never lowers the result. */
  lemma RaisingNeverLowers(round: Rounding, before: seq<int>, after: seq<int>, x: int, y: int)
    requires ProperRounding(round) && x <= y
    ensures Score(round, before + [x] + after) <= Score(round, before + [y] + after)
  {
    var rest := before + after;
    assert multiset(before + [x] + after) == multiset([x] + rest);
    assert multiset(before + [y] + after) == multiset([y] + rest);
    ScoreIgnoresOrder(round, before + [x] + after, [x] + rest);
    ScoreIgnoresOrder(round, before + [y] + after, [y] + rest);
    SortedFacts(rest);
    assert ([x] + rest)[1..] == rest && ([y] + rest)[1..] == rest;
    InsertMonotone(Sorted(rest), x, y);
    RawMonotone([x] + rest, [y] + rest);
  }

  // ---------------------------------------------------------------------------------------
  // Adding a signal
  // ---------------------------------------------------------------------------------------

  lemma {:induction false} SumCons(x: int, s: seq<int>)
    ensures Sum([x] + s) == x + Sum(s)
  {
    if s == [] {
      assert [x][..0] == [];
    } else {
      assert ([x] + s)[..|s|] == [x] + s[..|s| - 1];
      SumCons(x, s[..|s| - 1]);
    }
  }

  lemma {:induction false} SumOfInsert(s: seq<int>, x: int)
    ensures Sum(Insert(s, x)) == x + Sum(s)
  {
    if s != [] && s[0] >= x {
      SumOfInsert(s[1..], x);
      SumCons(s[0], Insert(s[1..], x));
      SumCons(s[0], s[1..]);
      assert s == [s[0]] + s[1..];
    } else {
      SumCons(x, s);
    }
  }

  lemma {:induction false} SumOfSorted(s: seq<int>)
    ensures Sum(Sorted(s)) == Sum(s)
  {
    if s != [] {
      SumOfSorted(s[1..]);
      SumOfInsert(Sorted(s[1..]), s[0]);
      SumCons(s[0], s[1..]);
      assert s == [s[0]] + s[1..];
    }
  }

  /** Up to five scores all enter the mean. */
  lemma MeanOfFew(s: seq<int>, n: int, sum: int)
    requires 0 < |s| <= 5 && |s| == n && Sum(s) == sum
    ensures Mean(Top(s)) == Ratio(sum, n)
  {
    SumOfSorted(s);
    assert |s| == 5 ==> Sorted(s)[..5] == Sorted(s);
  }

  lemma {:induction false} MaxBoundsSum(s: seq<int>)
    requires s != []
    ensures Sum(s) <= Max(s) * |s|
  {
    if |s| == 1 {
      assert s[..0] == [];
    } else {
      MaxBoundsSum(s[1..]);
      SumCons(s[0], s[1..]);
      assert s == [s[0]] + s[1..];
      assert Max(s[1..]) * |s[1..]| <= Max(s) * |s[1..]|;
    }
  }

  lemma {:induction false} MaxOfAppend(s: seq<int>, x: int)
    requires s != []
    ensures Max(s + [x]) == if x >= Max(s) then x else Max(s)
  {
    if |s| == 1 {
      assert (s + [x])[1..] == [x];
    } else {
      assert (s + [x])[1..] == s[1..] + [x];
      MaxOfAppend(s[1..], x);
    }
  }

  lemma SumOfAppend(s: seq<int>, x: int)
    ensures Sum(s + [x]) == Sum(s) + x
  {
    assert (s + [x])[..|s|] == s;
  }

  /** The new score reaches the mean of the scores it joins; among five or more that no longer
      matters. */
  predicate KeepsUp(scores: seq<int>, x: int) {
    |scores| >= 5 || (if scores == [] then x >= 0 else x * |scores| >= Sum(scores))
  }

  lemma FirstSignal(x: int)
    ensures Raw([x]) == x as real && Raw([]) == 0.0
  {
    SumOfAppend([], x);
    assert [] + [x] == [x];
    MeanOfFew([x], 1, x);
  }

  lemma PositiveFactor(a: int, n: int)
    requires n > 0 && a * n > 0
    ensures a > 0
  {
  }

  /** One more value does not lower the mean of up to four exactly when it reaches the mean. */
  lemma MeanOfOneMore(scores: seq<int>, x: int, n: int, sum: int)
    requires 0 < |scores| < 5 && |scores| == n && Sum(scores) == sum
    ensures Mean(Top(scores)) <= Mean(Top(scores + [x])) <==> x * n >= sum
  {
    SumOfAppend(scores, x);
    if n == 1 {
      MeanOfFew(scores, 1, sum);
      MeanOfFew(scores + [x], 2, sum + x);
    } else if n == 2 {
      MeanOfFew(scores, 2, sum);
      MeanOfFew(scores + [x], 3, sum + x);
    } else if n == 3 {
      MeanOfFew(scores, 3, sum);
      MeanOfFew(scores + [x], 4, sum + x);
    } else {
      MeanOfFew(scores, 4, sum);
      MeanOfFew(scores + [x], 5, sum + x);
    }
  }

  lemma BelowMeanIsBelowMax(scores: seq<int>, x: int)
    requires scores != [] && x * |scores| < Sum(scores)
    ensures x < Max(scores)
  {
    MaxBoundsSum(scores);
    PositiveFactor(Max(scores) - x, |scores|);
  }

  lemma AddingToFew(scores: seq<int>, x: int)
    requires 0 < |scores| < 5
    ensures Raw(scores) <= Raw(scores + [x]) <==> KeepsUp(scores, x)
  {
    MaxOfAppend(scores, x);
    MeanOfOneMore(scores, x, |scores|, Sum(scores));
    if !KeepsUp(scores, x) {
      BelowMeanIsBelowMax(scores, x);
    }
  }

  lemma AddingToMany(scores: seq<int>, x: int)
    requires |scores| >= 5
    ensures Raw(scores) <= Raw(scores + [x])
  {
    assert multiset(scores + [x]) == multiset([x] + scores);
    RawIgnoresOrder(scores + [x], [x] + scores);
    SortedFacts(scores);
    assert ([x] + scores)[1..] == scores;
    InsertGrows(Sorted(scores), x);
    RawMonotone(scores, [x] + scores);
  }

  /** Before rounding an added signal does not lower the result exactly when it keeps up. */
  lemma AddingLowersUnlessItKeepsUp(scores: seq<int>, x: int)
    ensures Raw(scores) <= Raw(scores + [x]) <==> KeepsUp(scores, x)
  {
    if scores == [] {
      FirstSignal(x);
      assert [] + [x] == [x];
    } else if |scores| < 5 {
      AddingToFew(scores, x);
    } else {
      AddingToMany(scores, x);
    }
  }

  /** An added signal that keeps up never lowers the score. */
  lemma AddingNeverLowers(round: Rounding, scores: seq<int>, x: int)
    requires ProperRounding(round) && KeepsUp(scores, x)
    ensures Score(round, scores) <= Score(round, scores + [x])
  {
    AddingLowersUnlessItKeepsUp(scores, x);
  }

  function Ceiling(r: real): int {
    -((-r).Floor)
  }

  /** Rounds up from `border` on and down below it. */
  function SplitAt(border: real): Rounding {
    r => if r >= border then Ceiling(r) else r.Floor
  }

  lemma SplitIsProper(border: real)
    ensures ProperRounding(SplitAt(border))
  {
    forall x, y | x <= y ensures SplitAt(border)(x) <= SplitAt(border)(y) {
      assert x.Floor as real <= x <= Ceiling(x) as real;
      assert y.Floor as real <= y <= Ceiling(y) as real;
    }
    forall n ensures SplitAt(border)(Exactly(n)) == n {
    }
  }

  /** The condition is exact for the rounded score: a signal that does not keep up lowers it
      under some rounding, one that does lowers it under none. */
  lemma NeverLoweredIffItKeepsUp(scores: seq<int>, x: int)
    ensures (forall round | ProperRounding(round) :: Score(round, scores) <= Score(round, scores + [x]))
            <==> KeepsUp(scores, x)
  {
    AddingLowersUnlessItKeepsUp(scores, x);
    if !KeepsUp(scores, x) {
      var high, low := Raw(scores), Raw(scores + [x]);
      SplitIsProper(high);
      assert low.Floor as real <= low < high <= Ceiling(high) as real;
      assert Score(SplitAt(high), scores + [x]) < Score(SplitAt(high), scores);
    }
  }

  /** A fall that every rounding shows: a second signal without risk next to one of ten. */
  lemma AddingToFewCanLower(round: Rounding)
    requires ProperRounding(round)
    ensures !KeepsUp([10], 0) && Score(round, [10, 0]) < Score(round, [10])
  {
    FirstSignal(10);
    SumOfAppend([], 10);
    SumOfAppend([10], 0);
    assert [] + [10] == [10] && [10] + [0] == [10, 0];
    MeanOfFew([10, 0], 2, 10);
    MaxOfAppend([10], 0);
    assert Raw([10, 0]) <= Exactly(8) && Raw([10]) == Exactly(10);
    assert round(Exactly(8)) == 8 && round(Exactly(10)) == 10;
  }

  // ---------------------------------------------------------------------------------------
  // Bounds
  // ---------------------------------------------------------------------------------------

  lemma {:induction false} SumBounds(s: seq<int>, high: int)
    requires forall x <- s :: 0 <= x <= high
    ensures 0 <= Sum(s) <= high * |s|
  {
    if s != [] {
      var n := |s| - 1;
      assert s[n] in s;
      assert forall x <- s[..n] :: x in s;
      SumBounds(s[..n], high);
      assert high * n + high == high * |s|;
    }
  }

  lemma MeanBounds(top: seq<int>, high: int)
    requires high >= 0 && forall x <- top :: 0 <= x <= high
    ensures 0.0 <= Mean(top) <= high as real
  {
    if top != [] {
      SumBounds(top, high);
      var n := |top| as real;
      DivisionMonotone(0.0, Sum(top) as real, n);
      DivisionMonotone(Sum(top) as real, high as real * n, n);
      assert (high as real * n) / n == high as real;
    }
  }

  lemma TopScoresBounded(scores: seq<int>)
    requires scores != [] && forall x <- scores :: x >= 0
    ensures Max(scores) >= 0 && forall x <- Top(scores) :: 0 <= x <= Max(scores)
  {
    SortedFacts(scores);
    MaxIsFirst(scores);
    var sorted := Sorted(scores);
    forall i | 0 <= i < |sorted| ensures 0 <= sorted[i] <= Max(scores) {
      assert sorted[i] in multiset(sorted);
      assert sorted[i] in scores;
    }
  }

  /** Non-negative scores give a result between the rounded 55% of the worst and the worst. */
  lemma ScoreIsBounded(round: Rounding, scores: seq<int>)
    requires ProperRounding(round) && forall x <- scores :: x >= 0
    ensures round(Max(scores) as real * 0.55) <= Score(round, scores) <= Max(scores)
  {
    if scores != [] {
      TopScoresBounded(scores);
    }
    MeanBounds(Top(scores), Max(scores));
    assert round(Exactly(Max(scores))) == Max(scores);
  }

  // ---------------------------------------------------------------------------------------
  // The weights
  // ---------------------------------------------------------------------------------------

  /** A choice of five worst scores, or of all when there are fewer. */
  ghost predicate WorstFive(scores: seq<int>, top: seq<int>, rest: seq<int>) {
    && multiset(scores) == multiset(top) + multiset(rest)
    && |top| == (if |scores| < 5 then |scores| else 5)
    && forall x, y | x in top && y in rest :: x >= y
  }

  lemma DescendingJoin(a: seq<int>, b: seq<int>)
    requires Descending(a) && Descending(b) && forall x, y | x in a && y in b :: x >= y
    ensures Descending(a + b)
  {
    var s := a + b;
    forall i, j | 0 <= i < j < |s| ensures s[i] >= s[j] {
      if i < |a| <= j {
        assert s[i] in a && s[j] in b;
      }
    }
  }

  lemma WorstFiveIsTop(scores: seq<int>, top: seq<int>, rest: seq<int>)
    requires WorstFive(scores, top, rest)
    ensures Top(scores) == Sorted(top)
  {
    SortedFacts(scores);
    SortedFacts(top);
    SortedFacts(rest);
    forall x, y | x in Sorted(top) && y in Sorted(rest) ensures x >= y {
      assert x in multiset(Sorted(top)) && y in multiset(Sorted(rest));
      assert x in top && y in rest;
    }
    DescendingJoin(Sorted(top), Sorted(rest));
    DescendingIsUnique(Sorted(scores), Sorted(top) + Sorted(rest));
    assert |multiset(scores)| == |scores| && |multiset(top) + multiset(rest)| == |top| + |rest|;
  }

  /** However the five worst are chosen: 55 hundredths of the worst score and 45 hundredths of
      their mean. */
  lemma WeightsAreExact(scores: seq<int>, top: seq<int>, rest: seq<int>, worst: int)
    requires WorstFive(scores, top, rest)
    requires worst in scores && forall x <- scores :: x <= worst
    ensures Raw(scores) == (55.0 * Exactly(worst) + 45.0 * Ratio(Sum(top), |top|)) / 100.0
  {
    WorstFiveIsTop(scores, top, rest);
    WorstIsMax(scores, worst);
    SumOfSorted(top);
    InHundredths(Exactly(worst), Ratio(Sum(top), |top|));
  }

  lemma WorstIsMax(scores: seq<int>, worst: int)
    requires worst in scores && forall x <- scores :: x <= worst
    ensures Max(scores) == worst
  {
    MaxIsFirst(scores);
    SortedFacts(scores);
    assert worst in multiset(Sorted(scores));
    assert Sorted(scores)[0] in multiset(Sorted(scores));
    assert Sorted(scores)[0] in scores;
  }

  lemma InHundredths(worst: real, mean: real)
    ensures worst * 0.55 + mean * 0.45 == (55.0 * worst + 45.0 * mean) / 100.0
  {
  }

  lemma NoSignalsNoScore(round: Rounding)
    requires ProperRounding(round)
    ensures Score(round, []) == 0
  {
    assert round(Exactly(0)) == 0;
  }
}
