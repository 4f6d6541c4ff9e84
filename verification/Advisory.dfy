/** Aggregation of AI advisory reports by median (crates/bleep-consensus/src/ai_advisory.rs). */
module Advisory {
  import opened Encoding

  /** One byte. The constructor clamps it to 100; a decoded report can hold any byte. */
  type Score = s: nat | s < 256

  function Bounded(value: nat): (s: Score)
    ensures value <= 100 ==> s == value
    ensures value > 100 ==> s == 100
  {
    if value <= 100 then value else 100
  }

  datatype Report = Report(epochId: nat, nodeId: string, networkHealth: Score, validatorPerformance: Score,
                           byzantineLikelihood: Score, finalityLatency: Score, signature: Bytes)

  datatype Aggregate = Aggregate(epochId: nat, reportCount: nat, networkHealth: Score, validatorPerformance: Score,
                                 byzantineLikelihood: Score, finalityLatency: Score)

  datatype Error = NoReports | NotSigned | EpochMismatch(expected: nat, got: nat)

  // ---------------------------------------------------------------------------
  // Sorting
  // ---------------------------------------------------------------------------

  predicate Ascending(s: seq<Score>) {
    forall i, j | 0 <= i < j < |s| :: s[i] <= s[j]
  }

  function Insert(x: Score, s: seq<Score>): seq<Score> {
    if s == [] || x <= s[0] then [x] + s else [s[0]] + Insert(x, s[1..])
  }

  /** What `sort_unstable` leaves in the vector. */
  function Sorted(s: seq<Score>): seq<Score> {
    if s == [] then [] else Insert(s[0], Sorted(s[1..]))
  }

  lemma DropAt<T>(s: seq<T>, k: nat)
    requires k < |s|
    ensures multiset(s) == multiset(s[..k] + s[k + 1..]) + multiset{s[k]}
  {
    assert s == s[..k] + [s[k]] + s[k + 1..];
  }

  lemma Cancel<T>(m: multiset<T>, n: multiset<T>, x: multiset<T>)
    requires m + x == n + x
    ensures m == n
  {
    assert m == (m + x) - x && n == (n + x) - x;
  }

  /** Removing equal elements from equal multisets leaves equal multisets. */
  lemma SameRest<T>(a: seq<T>, i: nat, b: seq<T>, j: nat)
    requires i < |a| && j < |b| && a[i] == b[j] && multiset(a) == multiset(b)
    ensures multiset(a[..i] + a[i + 1..]) == multiset(b[..j] + b[j + 1..])
  {
    DropAt(a, i);
    DropAt(b, j);
    Cancel(multiset(a[..i] + a[i + 1..]), multiset(b[..j] + b[j + 1..]), multiset{a[i]});
  }

  lemma ConsElements<T>(x: T, s: seq<T>)
    ensures multiset([x] + s) == multiset(s) + multiset{x}
  {
  }

  lemma {:induction false} InsertKeepsElements(x: Score, s: seq<Score>)
    ensures multiset(Insert(x, s)) == multiset(s) + multiset{x}
  {
    if s == [] || x <= s[0] {
      ConsElements(x, s);
    } else {
      InsertKeepsElements(x, s[1..]);
      ConsElements(s[0], Insert(x, s[1..]));
      ConsElements(s[0], s[1..]);
      assert s == [s[0]] + s[1..];
    }
  }

  lemma {:induction false} InsertKeepsOrder(x: Score, s: seq<Score>)
    requires Ascending(s)
    ensures Ascending(Insert(x, s))
    ensures Insert(x, s)[0] == if s == [] || x <= s[0] then x else s[0]
  {
    if s != [] && x > s[0] {
      var t := Insert(x, s[1..]);
      InsertKeepsOrder(x, s[1..]);
      AscendingCons(s[0], t);
    } else if s != [] {
      AscendingCons(x, s);
    }
  }

  lemma AscendingCons(x: Score, s: seq<Score>)
    requires Ascending(s) && s != [] && x <= s[0]
    ensures Ascending([x] + s)
  {
  }

  lemma {:induction false} SortedIsSorted(s: seq<Score>)
    ensures Ascending(Sorted(s)) && multiset(Sorted(s)) == multiset(s) && |Sorted(s)| == |s|
  {
    if s != [] {
      SortedIsSorted(s[1..]);
      InsertKeepsOrder(s[0], Sorted(s[1..]));
      InsertKeepsElements(s[0], Sorted(s[1..]));
      assert s == [s[0]] + s[1..];
      assert |multiset(Sorted(s))| == |Sorted(s)|;
    }
  }

  lemma SameLeast(a: seq<Score>, b: seq<Score>)
    requires Ascending(a) && Ascending(b) && a != [] && b != [] && multiset(a) == multiset(b)
    ensures a[0] == b[0]
  {
    assert a[0] in multiset(b) && b[0] in multiset(a);
    var i :| 0 <= i < |b| && b[i] == a[0];
    var j :| 0 <= j < |a| && a[j] == b[0];
  }

  lemma AscendingTail(s: seq<Score>)
    requires Ascending(s) && s != []
    ensures Ascending(s[1..])
  {
  }

  /** There is only one way to sort. */
  lemma {:induction false} AscendingUnique(a: seq<Score>, b: seq<Score>)
    requires Ascending(a) && Ascending(b) && multiset(a) == multiset(b)
    ensures a == b
  {
    hide Ascending;
    assert |multiset(a)| == |a| && |multiset(b)| == |b|;
    if a != [] {
      SameLeast(a, b);
      SameTail(a, b);
      AscendingTail(a);
      AscendingTail(b);
      AscendingUnique(a[1..], b[1..]);
      SameHeadAndTail(a, b);
    }
  }

  lemma SameTail(a: seq<Score>, b: seq<Score>)
    requires a != [] && b != [] && a[0] == b[0] && multiset(a) == multiset(b)
    ensures multiset(a[1..]) == multiset(b[1..])
  {
    ConsElements(a[0], a[1..]);
    ConsElements(b[0], b[1..]);
    assert a == [a[0]] + a[1..] && b == [b[0]] + b[1..];
    Cancel(multiset(a[1..]), multiset(b[1..]), multiset{a[0]});
  }

  lemma SameHeadAndTail(a: seq<Score>, b: seq<Score>)
    requires a != [] && b != [] && a[0] == b[0] && a[1..] == b[1..]
    ensures a == b
  {
  }

  // ---------------------------------------------------------------------------
  // The median
  // ---------------------------------------------------------------------------

  /** The middle of any ascending arrangement of the scores, or the floor of the middle two. */
  method MedianScore(scores: seq<Score>) returns (median: Score)
    ensures median == Median(scores)
    ensures scores == [] ==> median == 50
    ensures scores != [] ==>
              forall s: seq<Score> | Ascending(s) && multiset(s) == multiset(scores) ::
                && |s| == |scores|
                && (|s| % 2 == 1 ==> median == s[|s| / 2])
                && (|s| % 2 == 0 ==> 2 * median <= s[|s| / 2 - 1] + s[|s| / 2] <= 2 * median + 1)
  {
    if scores == [] {
      return 50;
    }
    var sorted := Sorted(scores);
    SortedIsSorted(scores);
    forall s: seq<Score> | Ascending(s) && multiset(s) == multiset(scores)
      ensures s == sorted
    {
      AscendingUnique(s, sorted);
    }
    if |sorted| % 2 == 0 {
      var mid := |sorted| / 2;
      median := (sorted[mid - 1] as int + sorted[mid] as int) / 2;
    } else {
      median := sorted[|sorted| / 2];
    }
  }

  function Median(scores: seq<Score>): Score {
    if scores == [] then 50
    else
      SortedIsSorted(scores);
      var s := Sorted(scores);
      if |s| % 2 == 0 then (s[|s| / 2 - 1] as int + s[|s| / 2] as int) / 2 else s[|s| / 2]
  }

  lemma MedianIgnoresOrder(a: seq<Score>, b: seq<Score>)
    requires multiset(a) == multiset(b)
    ensures Median(a) == Median(b)
  {
    assert |multiset(a)| == |a| && |multiset(b)| == |b|;
    SortedIsSorted(a);
    SortedIsSorted(b);
    AscendingUnique(Sorted(a), Sorted(b));
  }

  /** How many scores lie outside lo..hi on one side. */
  function CountAbove(s: seq<Score>, hi: int): nat {
    if s == [] then 0 else (if s[0] > hi then 1 else 0) + CountAbove(s[1..], hi)
  }

  function CountBelow(s: seq<Score>, lo: int): nat {
    if s == [] then 0 else (if s[0] < lo then 1 else 0) + CountBelow(s[1..], lo)
  }

  lemma {:induction false} InsertCounts(x: Score, s: seq<Score>, lo: int, hi: int)
    ensures CountAbove(Insert(x, s), hi) == CountAbove(s, hi) + if x > hi then 1 else 0
    ensures CountBelow(Insert(x, s), lo) == CountBelow(s, lo) + if x < lo then 1 else 0
  {
    if s == [] || x <= s[0] {
      assert ([x] + s)[1..] == s;
    } else {
      InsertCounts(x, s[1..], lo, hi);
      assert ([s[0]] + Insert(x, s[1..]))[1..] == Insert(x, s[1..]);
    }
  }

  lemma {:induction false} SortedCounts(s: seq<Score>, lo: int, hi: int)
    ensures CountAbove(Sorted(s), hi) == CountAbove(s, hi)
    ensures CountBelow(Sorted(s), lo) == CountBelow(s, lo)
  {
    if s != [] {
      SortedCounts(s[1..], lo, hi);
      InsertCounts(s[0], Sorted(s[1..]), lo, hi);
    }
  }

  /** In ascending order, everything from an outlier on is an outlier on that side. */
  lemma {:induction false} AscendingAbove(s: seq<Score>, k: nat, hi: int)
    requires Ascending(s) && k < |s| && s[k] > hi
    ensures CountAbove(s, hi) >= |s| - k
  {
    if k > 0 {
      AscendingAbove(s[1..], k - 1, hi);
    } else {
      AllAbove(s, hi);
    }
  }

  lemma {:induction false} AllAbove(s: seq<Score>, hi: int)
    requires forall i | 0 <= i < |s| :: s[i] > hi
    ensures CountAbove(s, hi) == |s|
  {
    if s != [] { AllAbove(s[1..], hi); }
  }

  lemma {:induction false} AscendingBelow(s: seq<Score>, k: nat, lo: int)
    requires Ascending(s) && k < |s| && s[k] < lo
    ensures CountBelow(s, lo) >= k + 1
  {
    if k > 0 {
      AscendingBelow(s[1..], k - 1, lo);
    }
  }

  /** With fewer outliers than half on either side, the median lies in lo..hi. */
  lemma MedianWithin(scores: seq<Score>, lo: int, hi: int)
    requires 2 * CountAbove(scores, hi) < |scores| && 2 * CountBelow(scores, lo) < |scores|
    ensures lo <= Median(scores) <= hi
  {
    hide CountAbove, CountBelow, Sorted;
    SortedIsSorted(scores);
    SortedCounts(scores, lo, hi);
    var s, mid := Sorted(scores), |scores| / 2;
    var low := if |s| % 2 == 0 then mid - 1 else mid;
    if s[mid] > hi { AscendingAbove(s, mid, hi); }
    if s[low] < lo { AscendingBelow(s, low, lo); }
  }

  // ---------------------------------------------------------------------------
  // Aggregation
  // ---------------------------------------------------------------------------

  datatype Metric = NetworkHealth | ValidatorPerformance | ByzantineLikelihood | FinalityLatency

  function Read(metric: Metric, r: Report): Score {
    match metric
    case NetworkHealth => r.networkHealth
    case ValidatorPerformance => r.validatorPerformance
    case ByzantineLikelihood => r.byzantineLikelihood
    case FinalityLatency => r.finalityLatency
  }

  function ReadAggregate(metric: Metric, a: Aggregate): Score {
    match metric
    case NetworkHealth => a.networkHealth
    case ValidatorPerformance => a.validatorPerformance
    case ByzantineLikelihood => a.byzantineLikelihood
    case FinalityLatency => a.finalityLatency
  }

  function Column(metric: Metric, reports: seq<Report>): (column: seq<Score>)
    ensures |column| == |reports|
  {
    if reports == [] then [] else [Read(metric, reports[0])] + Column(metric, reports[1..])
  }

  /** The reports that can be aggregated: at least one, all signed, all for one epoch. */
  predicate Acceptable(reports: seq<Report>) {
    && reports != []
    && (forall r | r in reports :: r.signature != [])
    && (forall r | r in reports :: r.epochId == reports[0].epochId)
  }

  lemma {:induction false} ColumnAt(metric: Metric, reports: seq<Report>, i: nat)
    requires i < |reports|
    ensures Column(metric, reports)[i] == Read(metric, reports[i])
  {
    if i > 0 { ColumnAt(metric, reports[1..], i - 1); }
  }

  /** The columns are the fields of the reports, in order. */
  lemma ColumnsMean(reports: seq<Report>)
    ensures Column(NetworkHealth, reports) == seq(|reports|, i requires 0 <= i < |reports| => reports[i].networkHealth)
    ensures Column(ValidatorPerformance, reports)
            == seq(|reports|, i requires 0 <= i < |reports| => reports[i].validatorPerformance)
    ensures Column(ByzantineLikelihood, reports)
            == seq(|reports|, i requires 0 <= i < |reports| => reports[i].byzantineLikelihood)
    ensures Column(FinalityLatency, reports)
            == seq(|reports|, i requires 0 <= i < |reports| => reports[i].finalityLatency)
  {
    hide Column;
    forall m, i: nat | i < |reports|
      ensures Column(m, reports)[i] == Read(m, reports[i])
    {
      ColumnAt(m, reports, i);
    }
  }

  method ColumnMedian(metric: Metric, reports: seq<Report>) returns (median: Score)
    ensures median == Median(Column(metric, reports))
  {
    median := MedianScore(Column(metric, reports));
  }

  /** A missing quorum is only logged, so `quorumSize` has no influence on the result. */
  method AggregateReports(quorumSize: nat, reports: seq<Report>) returns (r: Result<Aggregate, Error>)
    ensures r.Ok? <==> Acceptable(reports)
    ensures r.Ok? <==> && reports != []
                       && forall q | q in reports :: q.signature != [] && q.epochId == reports[0].epochId
    ensures r.Ok? ==> r.value.epochId == reports[0].epochId && r.value.reportCount == |reports|
    ensures r.Ok? ==> forall m :: ReadAggregate(m, r.value) == Median(Column(m, reports))
    ensures r.Ok? ==>
              && r.value.networkHealth
                 == Median(seq(|reports|, i requires 0 <= i < |reports| => reports[i].networkHealth))
              && r.value.validatorPerformance
                 == Median(seq(|reports|, i requires 0 <= i < |reports| => reports[i].validatorPerformance))
              && r.value.byzantineLikelihood
                 == Median(seq(|reports|, i requires 0 <= i < |reports| => reports[i].byzantineLikelihood))
              && r.value.finalityLatency
                 == Median(seq(|reports|, i requires 0 <= i < |reports| => reports[i].finalityLatency))
    ensures r.Err? ==> (r.error == NoReports <==> reports == [])
    ensures r.Err? && reports != [] ==> (r.error == NotSigned <==> exists q :: q in reports && q.signature == [])
  {
    if reports == [] {
      return Err(NoReports);
    }
    for i := 0 to |reports|
      invariant forall j | 0 <= j < i :: reports[j].signature != []
    {
      if reports[i].signature == [] {
        assert reports[i] in reports;
        return Err(NotSigned);
      }
    }
    var epochId := reports[0].epochId;
    for i := 1 to |reports|
      invariant forall j | 0 <= j < i :: reports[j].epochId == epochId
    {
      if reports[i].epochId != epochId {
        assert reports[i] in reports;
        return Err(EpochMismatch(epochId, reports[i].epochId));
      }
    }
    hide Median, Column;
    var networkHealth := ColumnMedian(NetworkHealth, reports);
    var validatorPerformance := ColumnMedian(ValidatorPerformance, reports);
    var byzantine := ColumnMedian(ByzantineLikelihood, reports);
    var finalityLatency := ColumnMedian(FinalityLatency, reports);
    r := Ok(Aggregate(epochId, |reports|, networkHealth, validatorPerformance, byzantine, finalityLatency));
    ColumnsMean(reports);
    forall m
      ensures ReadAggregate(m, r.value) == Median(Column(m, reports))
    {
      match m case NetworkHealth => case ValidatorPerformance => case ByzantineLikelihood => case FinalityLatency =>
    }
  }

  lemma ColumnHead(metric: Metric, reports: seq<Report>)
    requires reports != []
    ensures multiset(Column(metric, reports))
            == multiset(Column(metric, reports[1..])) + multiset{Read(metric, reports[0])}
  {
  }

  lemma {:induction false} ColumnRemove(metric: Metric, reports: seq<Report>, k: nat)
    requires k < |reports|
    ensures multiset(Column(metric, reports))
            == multiset(Column(metric, reports[..k] + reports[k + 1..])) + multiset{Read(metric, reports[k])}
  {
    hide Column, Read;
    ColumnHead(metric, reports);
    var rest := reports[..k] + reports[k + 1..];
    if k == 0 {
      assert rest == reports[1..];
    } else {
      ColumnRemove(metric, reports[1..], k - 1);
      ColumnHead(metric, rest);
      assert rest[1..] == reports[1..][..k - 1] + reports[1..][k..];
    }
  }

  lemma {:induction false} ColumnPermutes(metric: Metric, a: seq<Report>, b: seq<Report>)
    requires multiset(a) == multiset(b)
    ensures multiset(Column(metric, a)) == multiset(Column(metric, b))
  {
    hide Column, Read;
    assert |multiset(a)| == |a| && |multiset(b)| == |b|;
    if a == [] {
      assert b == [];
    } else {
      assert a[0] in multiset(b);
      var k :| 0 <= k < |b| && b[k] == a[0];
      var rest := b[..k] + b[k + 1..];
      SameRest(a, 0, b, k);
      assert a[..0] + a[1..] == a[1..];
      ColumnPermutes(metric, a[1..], rest);
      ColumnHead(metric, a);
      ColumnRemove(metric, b, k);
    }
  }

  /** Aggregation does not depend on the order of the reports: whether it succeeds, and every score. */
  lemma AggregationIgnoresOrder(a: seq<Report>, b: seq<Report>, metric: Metric)
    requires multiset(a) == multiset(b)
    ensures Acceptable(a) <==> Acceptable(b)
    ensures Median(Column(metric, a)) == Median(Column(metric, b))
    ensures Acceptable(a) ==> |a| == |b| && a[0].epochId == b[0].epochId
  {
    assert |multiset(a)| == |a| && |multiset(b)| == |b|;
    forall r
      ensures r in a <==> r in b
    {
      assert r in a <==> r in multiset(a);
      assert r in b <==> r in multiset(b);
    }
    if a != [] { assert a[0] in b && b[0] in a; }
    ColumnPermutes(metric, a, b);
    MedianIgnoresOrder(Column(metric, a), Column(metric, b));
  }

  // ---------------------------------------------------------------------------
  // Robustness
  // ---------------------------------------------------------------------------

  function HonestCount(honest: seq<bool>): nat {
    if honest == [] then 0 else (if honest[0] then 1 else 0) + HonestCount(honest[1..])
  }

  ghost predicate HonestWithin(metric: Metric, reports: seq<Report>, honest: seq<bool>, lo: int, hi: int)
    requires |honest| == |reports|
  {
    forall i | 0 <= i < |reports| && honest[i] :: lo <= Read(metric, reports[i]) <= hi
  }

  lemma {:induction false} OutliersAreDishonest(metric: Metric, reports: seq<Report>, honest: seq<bool>,
                                                lo: int, hi: int)
    requires |honest| == |reports| && HonestWithin(metric, reports, honest, lo, hi)
    ensures CountAbove(Column(metric, reports), hi) + HonestCount(honest) <= |reports|
    ensures CountBelow(Column(metric, reports), lo) + HonestCount(honest) <= |reports|
  {
    if reports != [] {
      OutliersAreDishonest(metric, reports[1..], honest[1..], lo, hi);
      assert Column(metric, reports)[1..] == Column(metric, reports[1..]);
    }
  }

  /** A strict majority of honest reports keeps every aggregated score within the honest range,
      whatever the other reports claim. */
  lemma MajorityBoundsMedian(metric: Metric, reports: seq<Report>, honest: seq<bool>, lo: int, hi: int)
    requires |honest| == |reports| && HonestWithin(metric, reports, honest, lo, hi)
    requires 2 * HonestCount(honest) > |reports|
    ensures lo <= Median(Column(metric, reports)) <= hi
  {
    OutliersAreDishonest(metric, reports, honest, lo, hi);
    MedianWithin(Column(metric, reports), lo, hi);
  }

  /** A strict majority is needed: when exactly half of any number of scores are honest and equal,
      the other half can drag the median out of the honest range. */
  lemma HalfIsNotEnough(half: nat, honestScore: Score, falseScore: Score)
    requires half > 0 && honestScore + 1 < falseScore
    ensures var scores := seq(2 * half, i => if i < half then honestScore else falseScore);
            Median(scores) > honestScore
  {
    var scores: seq<Score> := seq(2 * half, i => if i < half then honestScore else falseScore);
    SortedIsSorted(scores);
    AscendingUnique(Sorted(scores), scores);
  }

  /** The sum in 16-bit arithmetic, cut to a byte and clamped. */
  function OverallHealth(a: Aggregate): nat {
    var sum := a.networkHealth + a.validatorPerformance + (100 - a.byzantineLikelihood) + a.finalityLatency;
    Bounded(sum % 65536 / 4 % 256)
  }

  lemma CutSum(sum: int)
    requires -155 <= sum <= 865
    ensures sum >= 0 ==> sum % 65536 / 4 % 256 == sum / 4
    ensures sum < 0 ==> sum % 65536 / 4 % 256 >= 217
  {
    if sum < 0 {
      assert sum % 65536 == sum + 65536;
      assert (sum + 65536) / 4 % 256 == (sum + 65536) / 4 - 16128;
    }
  }

  /** Overall health is in 0..100, and it is the average of the four parts if and only if their sum lies
      in 0..403, as it does for scores up to 100. Above, it is 100; and below zero, when the Byzantine
      likelihood outweighs all that is healthy, it is 100 too. */
  lemma OverallHealthInRange(a: Aggregate)
    ensures var sum := a.networkHealth + a.validatorPerformance + 100 - a.byzantineLikelihood + a.finalityLatency;
            var health := OverallHealth(a);
            && health <= 100
            && (4 * health <= sum < 4 * health + 4 <==> 0 <= sum < 404)
            && (!(0 <= sum < 404) ==> health == 100)
    ensures (forall m :: ReadAggregate(m, a) <= 100) ==>
              4 * OverallHealth(a) <= a.networkHealth + a.validatorPerformance + 100 - a.byzantineLikelihood
                                      + a.finalityLatency < 4 * OverallHealth(a) + 4
  {
    CutSum(a.networkHealth + a.validatorPerformance + 100 - a.byzantineLikelihood + a.finalityLatency);
    if forall m :: ReadAggregate(m, a) <= 100 {
      assert ReadAggregate(NetworkHealth, a) <= 100 && ReadAggregate(ValidatorPerformance, a) <= 100;
      assert ReadAggregate(ByzantineLikelihood, a) <= 100 && ReadAggregate(FinalityLatency, a) <= 100;
    }
  }
}
