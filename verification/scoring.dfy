/**
 * The scoring transform: Likert answers keyed by item to one 0..100 score
 * per dimension.
 *
 * Scores are Dafny `real`s, i.e. exact rationals. Every dimension has ten
 * items, so a mean is a whole number of tenths and its percentage
 * (sum - 10) * 2.5 is a whole number of half points; the rounding to one
 * decimal therefore never changes a score (ScoreIsExact).
 */
module Scoring {
  import opened Questionnaire

  datatype Option<T> = None | Some(value: T)

  /** The collected answers: a key may be absent, or present and still unanswered (None). */
  type Answers = map<string, Option<int>>

  /** The answer recorded for a key; a missing or unset answer counts as the neutral 3. */
  function Answer(a: Answers, key: string): (v: int)
    ensures AnswersOnLikert(a) ==> 1 <= v <= 5
  {
    if key in a && a[key].Some? then a[key].value else 3
  }

  /** Every answer that has been given lies on the 1..5 Likert scale. */
  predicate AnswersOnLikert(a: Answers) {
    forall k :: k in a && a[k].Some? ==> 1 <= a[k].value <= 5
  }

  /** The value an item contributes: its answer, reversed when the item is reverse-keyed. */
  function ItemValue(a: Answers, q: Item): (v: int)
    ensures AnswersOnLikert(a) ==> 1 <= v <= 5
    ensures q.rev ==> v + Answer(a, q.key) == 6
    ensures !q.rev ==> v == Answer(a, q.key)
  {
    if q.rev then ReverseScore(Answer(a, q.key)) else Answer(a, q.key)
  }

  /**
   * The list the scoring loop appends for dimension d after walking `items`:
   * the values of the items of d, in order.
   */
  function Collect(items: seq<Item>, a: Answers, d: Dim): (r: seq<int>)
    ensures |r| == |ItemsOf(items, d)|
  {
    if items == [] then []
    else
      var last := items[|items| - 1];
      Collect(items[..|items| - 1], a, d) + (if last.dim == d then [ItemValue(a, last)] else [])
  }

  /** The values of a sequence of items, position by position. */
  function Values(a: Answers, items: seq<Item>): seq<int> {
    seq(|items|, j requires 0 <= j < |items| => ItemValue(a, items[j]))
  }

  function Sum(s: seq<int>): int {
    if s == [] then 0 else s[0] + Sum(s[1..])
  }

  /** The arithmetic mean of a non-empty list, exactly. */
  function Mean(vals: seq<int>): real
    requires |vals| > 0
  {
    Sum(vals) as real / |vals| as real
  }

  /** Rounding to one decimal, ties to the even tenth. */
  function RoundTenth(x: real): (r: real)
    ensures -0.05 <= r - x <= 0.05
    ensures (r * 10.0).Floor as real == r * 10.0
  {
    var t := x * 10.0;
    var f := t.Floor;
    var n := if t - f as real < 0.5 then f
             else if t - f as real > 0.5 then f + 1
             else if f % 2 == 0 then f else f + 1;
    assert -0.5 <= n as real - t <= 0.5;
    assert (n as real / 10.0) * 10.0 == n as real;
    n as real / 10.0
  }

  /** Rescales a mean on 1..5 to 0..100, rounded to one decimal. */
  function AsPercent(v: real): (p: real)
    ensures 1.0 <= v <= 5.0 ==> 0.0 <= p <= 100.0
  {
    var x := (v - 1.0) / 4.0 * 100.0;
    var r := RoundTenth(x);
    assert 1.0 <= v <= 5.0 ==> 0.0 <= x <= 100.0;
    assert -0.5 <= r * 10.0 - x * 10.0 <= 0.5;
    r
  }

  /** The score of one dimension; an empty list would average to 3. */
  function DimScore(a: Answers, d: Dim): real {
    var vals := Collect(Catalog, a, d);
    AsPercent(if |vals| > 0 then Mean(vals) else 3.0)
  }

  /** The scores of all dimensions: an entry for every dimension and nothing else. */
  function Scores(a: Answers): (r: map<Dim, real>)
    ensures forall d :: d in r
  {
    AllDimsListed();
    map d | d in DimList :: DimScore(a, d)
  }

  /** The lists of every dimension after the scoring loop has walked `items`. */
  function CollectAll(items: seq<Item>, a: Answers): map<Dim, seq<int>> {
    map d | d in DimList :: Collect(items, a, d)
  }

  /**
   * The first pass of the scoring routine: walk the catalog once, appending
   * each item's value (its answer, 3 when missing, reversed when the item is
   * reverse-keyed) to the list of its dimension.
   */
  method GroupByDimension(answers: Answers) returns (perDim: map<Dim, seq<int>>)
    ensures perDim == CollectAll(Catalog, answers)
  {
    perDim := map d | d in DimList :: [];
    assert perDim == CollectAll(Catalog[..0], answers);
    var i := 0;
    while i < |Catalog|
      invariant 0 <= i <= |Catalog|
      invariant perDim == CollectAll(Catalog[..i], answers)
    {
      var p := Catalog[i];
      var v := if p.key in answers && answers[p.key].Some? then answers[p.key].value else 3;
      if p.rev {
        v := ReverseScore(v);
      }
      PerDimStep(perDim, Catalog, i, answers);
      perDim := perDim[p.dim := perDim[p.dim] + [v]];
      i := i + 1;
    }
    CollectedAll(answers, perDim, i);
  }

  /**
   * The scoring routine: group the item values by dimension, then one pass
   * over the dimensions averaging each list (3 for an empty one) and
   * rescaling it to a percentage.
   */
  method ComputeScores(answers: Answers) returns (res: map<Dim, real>)
    ensures forall d :: d in res
    ensures res == Scores(answers)
  {
    var perDim := GroupByDimension(answers);
    res := map[];
    var k := 0;
    while k < |DimList|
      invariant 0 <= k <= |DimList|
      invariant ScoredUpTo(res, k, answers)
    {
      var d := DimList[k];
      var vals := perDim[d];
      var avg := if |vals| > 0 then Mean(vals) else 3.0;
      DimScoreOfList(answers, d, vals);
      ScoredStep(res, k, answers);
      res := res[d := AsPercent(avg)];
      k := k + 1;
    }
    ScoresComplete(res, answers);
  }

  /** The averaging loop's invariant: res holds the scores of the first k dimensions. */
  predicate ScoredUpTo(res: map<Dim, real>, k: int, a: Answers)
    requires 0 <= k <= |DimList|
  {
    && (forall e :: e in res <==> e in DimList[..k])
    && (forall e :: e in res ==> res[e] == DimScore(a, e))
  }

  /** One step of the averaging loop adds the score of the next dimension. */
  lemma ScoredStep(res: map<Dim, real>, k: int, a: Answers)
    requires 0 <= k < |DimList| && ScoredUpTo(res, k, a)
    ensures ScoredUpTo(res[DimList[k] := DimScore(a, DimList[k])], k + 1, a)
  {
    assert DimList[..k + 1] == DimList[..k] + [DimList[k]];
  }

  /** After the last item the scoring loop has walked the whole catalog. */
  lemma CollectedAll(a: Answers, perDim: map<Dim, seq<int>>, i: int)
    requires i == |Catalog| && perDim == CollectAll(Catalog[..i], a)
    ensures perDim == CollectAll(Catalog, a)
  {
    assert Catalog[..i] == Catalog;
  }

  /** Walking one more item appends its value to its own dimension's list only. */
  lemma CollectStep(items: seq<Item>, i: int, a: Answers, d: Dim)
    requires 0 <= i < |items|
    ensures Collect(items[..i + 1], a, d)
      == Collect(items[..i], a, d) + (if items[i].dim == d then [ItemValue(a, items[i])] else [])
  {
    assert items[..i + 1][..i] == items[..i];
  }

  /** One step of the scoring loop appends item i's value to its own dimension's list only. */
  lemma PerDimStep(perDim: map<Dim, seq<int>>, items: seq<Item>, i: int, a: Answers)
    requires 0 <= i < |items|
    requires perDim == CollectAll(items[..i], a)
    ensures items[i].dim in perDim
    ensures perDim[items[i].dim := perDim[items[i].dim] + [ItemValue(a, items[i])]]
      == CollectAll(items[..i + 1], a)
  {
    var q := items[i];
    assert q.dim == DimList[DimIndex(q.dim)];
    var next := perDim[q.dim := perDim[q.dim] + [ItemValue(a, q)]];
    var target := CollectAll(items[..i + 1], a);
    assert next.Keys == target.Keys;
    forall d | d in target
      ensures next[d] == target[d]
    {
      CollectStep(items, i, a, d);
      if d != q.dim {
        assert next[d] == perDim[d] + [];
      }
    }
  }

  /** The averaging loop, once it has visited every dimension, has built the scores. */
  lemma ScoresComplete(res: map<Dim, real>, a: Answers)
    requires ScoredUpTo(res, |DimList|, a)
    ensures forall d :: d in res
    ensures res == Scores(a)
  {
    AllDimsListed();
    assert DimList[..|DimList|] == DimList;
    var target := Scores(a);
    assert res.Keys == target.Keys;
  }

  /** The averaging step applied to the list grouped for d gives d's score. */
  lemma DimScoreOfList(a: Answers, d: Dim, vals: seq<int>)
    requires vals == Collect(Catalog, a, d)
    ensures AsPercent(if |vals| > 0 then Mean(vals) else 3.0) == DimScore(a, d)
  {
  }

  // ---------------------------------------------------------------------
  // From the scoring loop to the blocks of the catalog

  lemma {:induction false} CollectIsValues(items: seq<Item>, a: Answers, d: Dim)
    ensures Collect(items, a, d) == Values(a, ItemsOf(items, d))
  {
    if items != [] {
      var n := |items| - 1;
      var last := items[n];
      CollectIsValues(items[..n], a, d);
      var pre := ItemsOf(items[..n], d);
      if last.dim == d {
        assert Values(a, pre + [last]) == Values(a, pre) + [ItemValue(a, last)];
      } else {
        assert pre + [] == pre;
      }
    }
  }

  /** The list the scoring loop builds for d holds the values of d's ten items, in order. */
  lemma DimensionValues(a: Answers, d: Dim)
    ensures Collect(Catalog, a, d) == Values(a, Block(d))
    ensures |Collect(Catalog, a, d)| == 10
  {
    CollectIsValues(Catalog, a, d);
    CatalogByDimension(d);
  }

  // ---------------------------------------------------------------------
  // Sums

  lemma {:induction false} SumUpdate(s: seq<int>, j: int, x: int)
    requires 0 <= j < |s|
    ensures Sum(s[j := x]) == Sum(s) - s[j] + x
  {
    if j > 0 {
      SumUpdate(s[1..], j - 1, x);
      assert s[j := x][1..] == s[1..][j - 1 := x];
    } else {
      assert s[j := x][1..] == s[1..];
    }
  }

  lemma {:induction false} SumBounds(s: seq<int>)
    requires forall i :: 0 <= i < |s| ==> 1 <= s[i] <= 5
    ensures |s| <= Sum(s) <= 5 * |s|
  {
    if s != [] {
      SumBounds(s[1..]);
    }
  }

  lemma {:induction false} SumConstant(s: seq<int>, c: int)
    requires forall i :: 0 <= i < |s| ==> s[i] == c
    ensures Sum(s) == c * |s|
  {
    if s != [] {
      SumConstant(s[1..], c);
      assert c * |s| == c + c * |s[1..]|;
    }
  }

  // ---------------------------------------------------------------------
  // Rounding and rescaling

  /** Rounding leaves a value that already is a whole number of tenths unchanged. */
  lemma RoundTenthKeepsTenths(x: real)
    requires (x * 10.0).Floor as real == x * 10.0
    ensures RoundTenth(x) == x
  {
  }

  /** The mean of ten values summing to s rescales to exactly (s - 10) * 2.5. */
  lemma AsPercentOfTenItems(s: int)
    ensures AsPercent(s as real / 10.0) == (s - 10) as real * 2.5
  {
    RescaleTenItems(s);
    RoundTenthKeepsHalfPoints(s - 10);
  }

  lemma RescaleTenItems(s: int)
    ensures (s as real / 10.0 - 1.0) / 4.0 * 100.0 == (s - 10) as real * 2.5
  {
    assert s as real / 10.0 - 1.0 == (s - 10) as real / 10.0;
  }

  lemma RoundTenthKeepsHalfPoints(n: int)
    ensures RoundTenth(n as real * 2.5) == n as real * 2.5
  {
    assert n as real * 2.5 * 10.0 == (n * 25) as real;
    RoundTenthKeepsTenths(n as real * 2.5);
  }

  /** The ends and the middle of the Likert scale map to 0, 100 and 50. */
  lemma AsPercentLandmarks()
    ensures AsPercent(1.0) == 0.0
    ensures AsPercent(3.0) == 50.0
    ensures AsPercent(5.0) == 100.0
  {
    AsPercentOfTenItems(10);
    AsPercentOfTenItems(30);
    AsPercentOfTenItems(50);
  }

  // ---------------------------------------------------------------------
  // Properties of the scores

  /** A dimension's score is the rescaled mean of its ten item values. */
  lemma DimScoreOfBlock(a: Answers, d: Dim)
    ensures DimScore(a, d) == AsPercent(Sum(Values(a, Block(d))) as real / 10.0)
  {
    DimensionValues(a, d);
  }

  lemma ScoreLookup(a: Answers, d: Dim)
    ensures d in Scores(a) && Scores(a)[d] == DimScore(a, d)
  {
    assert d == DimList[DimIndex(d)];
  }

  /** Every dimension's score is exactly (sum of its ten item values - 10) * 2.5. */
  lemma ScoreIsExact(a: Answers, d: Dim)
    ensures d in Scores(a)
    ensures Scores(a)[d] == (Sum(Values(a, Block(d))) - 10) as real * 2.5
  {
    ScoreLookup(a, d);
    DimScoreOfBlock(a, d);
    AsPercentOfTenItems(Sum(Values(a, Block(d))));
  }

  /** With every given answer on the Likert scale, every dimension scores within 0..100. */
  lemma ScoresInRange(a: Answers)
    requires AnswersOnLikert(a)
    ensures forall d :: d in Scores(a) && 0.0 <= Scores(a)[d] <= 100.0
  {
    forall d: Dim ensures d in Scores(a) && 0.0 <= Scores(a)[d] <= 100.0 {
      ScoreIsExact(a, d);
      var vals := Values(a, Block(d));
      forall j | 0 <= j < |vals| ensures 1 <= vals[j] <= 5 {
        ReverseScoreOnLikert(Answer(a, Block(d)[j].key));
      }
      SumBounds(vals);
    }
  }

  /** With nothing answered (keys unset or absent), every dimension scores exactly 50. */
  lemma NeutralBaseline(a: Answers)
    requires forall k :: k in a ==> a[k].None?
    ensures forall d :: d in Scores(a) && Scores(a)[d] == 50.0
  {
    forall d: Dim ensures d in Scores(a) && Scores(a)[d] == 50.0 {
      ScoreIsExact(a, d);
      SumConstant(Values(a, Block(d)), 3);
    }
  }

  /** Answering every item of d in the trait's direction (direct 5, reverse 1) scores 100. */
  lemma FullTraitScoresHundred(a: Answers, d: Dim)
    requires forall q :: q in Catalog && q.dim == d ==> Answer(a, q.key) == if q.rev then 1 else 5
    ensures Scores(a)[d] == 100.0
  {
    ScoreIsExact(a, d);
    var vals := Values(a, Block(d));
    forall j | 0 <= j < 10 ensures vals[j] == 5 {
      BlockInCatalog(d, j);
    }
    SumConstant(vals, 5);
  }

  /** Answering every item of d against the trait (direct 1, reverse 5) scores 0. */
  lemma NoTraitScoresZero(a: Answers, d: Dim)
    requires forall q :: q in Catalog && q.dim == d ==> Answer(a, q.key) == if q.rev then 5 else 1
    ensures Scores(a)[d] == 0.0
  {
    ScoreIsExact(a, d);
    var vals := Values(a, Block(d));
    forall j | 0 <= j < 10 ensures vals[j] == 1 {
      BlockInCatalog(d, j);
    }
    SumConstant(vals, 1);
  }

  /** Only the answers to catalog keys matter; any other key is ignored. */
  lemma ForeignKeysIgnored(a: Answers, b: Answers)
    requires forall q :: q in Catalog ==> Answer(a, q.key) == Answer(b, q.key)
    ensures Scores(a) == Scores(b)
  {
    forall d: Dim ensures d in Scores(a) && d in Scores(b) && Scores(a)[d] == Scores(b)[d] {
      SameScore(a, b, d);
    }
  }

  lemma SameScore(a: Answers, b: Answers, d: Dim)
    requires forall q :: q in Catalog ==> Answer(a, q.key) == Answer(b, q.key)
    ensures d in Scores(a) && d in Scores(b) && Scores(a)[d] == Scores(b)[d]
  {
    ScoreIsExact(a, d);
    ScoreIsExact(b, d);
    SameBlockValues(a, b, d);
  }

  lemma SameBlockValues(a: Answers, b: Answers, d: Dim)
    requires forall q :: q in Catalog ==> Answer(a, q.key) == Answer(b, q.key)
    ensures Values(a, Block(d)) == Values(b, Block(d))
  {
    forall j | 0 <= j < 10 ensures Values(a, Block(d))[j] == Values(b, Block(d))[j] {
      BlockInCatalog(d, j);
    }
  }

  /** An unset answer, an absent key and an explicit 3 all score alike. */
  lemma MissingCountsAsNeutral(a: Answers, k: string)
    ensures Scores(a - {k}) == Scores(a[k := None])
    ensures Scores(a[k := None]) == Scores(a[k := Some(3)])
  {
    ForeignKeysIgnored(a - {k}, a[k := None]);
    ForeignKeysIgnored(a[k := None], a[k := Some(3)]);
  }

  /** Re-answering item j of d changes position j of d's values and nothing else there. */
  lemma ValuesAfterAnswer(a: Answers, d: Dim, j: int, v: int)
    requires 0 <= j < 10
    ensures var q := Block(d)[j];
      Values(a[q.key := Some(v)], Block(d)) == Values(a, Block(d))[j := ItemValue(a[q.key := Some(v)], q)]
  {
    var q := Block(d)[j];
    var a' := a[q.key := Some(v)];
    var old_vals, new_vals := Values(a, Block(d)), Values(a', Block(d));
    forall m | 0 <= m < 10 && m != j ensures new_vals[m] == old_vals[m] {
      QuestionKeyInjective(d, m, d, j);
    }
  }

  /** Re-answering an item of d leaves the values of every other dimension alone. */
  lemma OtherValuesAfterAnswer(a: Answers, d: Dim, j: int, v: int, d2: Dim)
    requires 0 <= j < 10 && d2 != d
    ensures var q := Block(d)[j];
      Values(a[q.key := Some(v)], Block(d2)) == Values(a, Block(d2))
  {
    var q := Block(d)[j];
    var a' := a[q.key := Some(v)];
    forall m | 0 <= m < 10 ensures Values(a', Block(d2))[m] == Values(a, Block(d2))[m] {
      QuestionKeyInjective(d2, m, d, j);
    }
  }

  /**
   * Changing the answer to item j of dimension d moves d's score by 2.5
   * points per Likert step, upward for a direct-keyed item and downward
   * for a reverse-keyed one, and leaves every other dimension unchanged.
   */
  lemma AnswerShiftsBlockItem(a: Answers, d: Dim, j: int, v: int)
    requires 0 <= j < 10
    ensures var q := Block(d)[j];
      Scores(a[q.key := Some(v)])[d]
        == Scores(a)[d] + (if q.rev then -2.5 else 2.5) * (v - Answer(a, q.key)) as real
    ensures var q := Block(d)[j];
      forall d2 :: d2 != d ==> Scores(a[q.key := Some(v)])[d2] == Scores(a)[d2]
  {
    var q := Block(d)[j];
    var a' := a[q.key := Some(v)];
    var vals := Values(a, Block(d));
    ValuesAfterAnswer(a, d, j, v);
    SumUpdate(vals, j, ItemValue(a', q));
    var delta := if q.rev then Answer(a, q.key) - v else v - Answer(a, q.key);
    assert ItemValue(a', q) - vals[j] == delta;
    assert Sum(Values(a', Block(d))) == Sum(vals) + delta;
    ScoreIsExact(a, d);
    ScoreIsExact(a', d);
    forall d2 | d2 != d ensures d2 in Scores(a') && d2 in Scores(a) && Scores(a')[d2] == Scores(a)[d2] {
      OtherScoreAfterAnswer(a, d, j, v, d2);
    }
  }

  lemma OtherScoreAfterAnswer(a: Answers, d: Dim, j: int, v: int, d2: Dim)
    requires 0 <= j < 10 && d2 != d
    ensures var a' := a[Block(d)[j].key := Some(v)];
      d2 in Scores(a') && d2 in Scores(a) && Scores(a')[d2] == Scores(a)[d2]
  {
    var a' := a[Block(d)[j].key := Some(v)];
    OtherValuesAfterAnswer(a, d, j, v, d2);
    ScoreIsExact(a, d2);
    ScoreIsExact(a', d2);
  }

  /** The same, for the catalog item at position i. */
  lemma AnswerShiftsOneDimension(a: Answers, i: int, v: int)
    requires 0 <= i < |Catalog|
    ensures var q := Catalog[i];
      Scores(a[q.key := Some(v)])[q.dim]
        == Scores(a)[q.dim] + (if q.rev then -2.5 else 2.5) * (v - Answer(a, q.key)) as real
    ensures var q := Catalog[i];
      forall d :: d != q.dim ==> Scores(a[q.key := Some(v)])[d] == Scores(a)[d]
  {
    CatalogAt(i);
    AnswerShiftsBlockItem(a, DimList[i / 10], i % 10, v);
  }

  /** Raising a direct-keyed answer never lowers its dimension's score. */
  lemma RaisingDirectAnswerNeverLowers(a: Answers, i: int, v: int)
    requires 0 <= i < |Catalog| && !Catalog[i].rev
    requires v >= Answer(a, Catalog[i].key)
    ensures Scores(a[Catalog[i].key := Some(v)])[Catalog[i].dim] >= Scores(a)[Catalog[i].dim]
  {
    AnswerShiftsOneDimension(a, i, v);
  }

  /** Raising a reverse-keyed answer never raises its dimension's score. */
  lemma RaisingReverseAnswerNeverRaises(a: Answers, i: int, v: int)
    requires 0 <= i < |Catalog| && Catalog[i].rev
    requires v >= Answer(a, Catalog[i].key)
    ensures Scores(a[Catalog[i].key := Some(v)])[Catalog[i].dim] <= Scores(a)[Catalog[i].dim]
  {
    AnswerShiftsOneDimension(a, i, v);
  }
}
