/** The workload half of the conflicts page: per-faculty statistics (classes, percentage of
    the nine-class week, classes per day, busiest day, balance score) and the ratings and
    colours the page derives from them. */
module ConflictsPage {
  import opened Basics
  import opened Types
  import opened Catalog
  import Tally

  datatype FacultyStats = FacultyStats(name: string, department: string, totalClasses: nat,
                                       workloadPercentage: real, dayDistribution: map<string, nat>,
                                       maxClassesPerDay: nat, balanceScore: int)

  /** `Math.round`: halves round towards positive infinity. */
  function Round(x: real): (n: int)
    ensures x - 0.5 < n as real <= x + 0.5
  {
    (x + 0.5).Floor
  }

  /** The timetable's size as a percentage of the nine classes a week holds. */
  function WorkloadPercentage(totalClasses: nat): (p: real)
    ensures p * 9.0 == 100.0 * totalClasses as real
  {
    (totalClasses as real / 9.0) * 100.0
  }

  function WorkloadRating(percentage: real): (r: string)
    ensures r == "Under-allocated" <==> percentage < 70.0
    ensures r == "Overloaded" <==> percentage > 110.0
    ensures r == "Balanced" <==> 70.0 <= percentage <= 110.0
  {
    if percentage < 70.0 then "Under-allocated"
    else if percentage > 110.0 then "Overloaded"
    else "Balanced"
  }

  function WorkloadColor(percentage: real): string
  {
    if percentage < 70.0 then "text-amber-500"
    else if percentage > 110.0 then "text-red-500"
    else "text-green-600"
  }

  function BalanceRatingColor(score: int): (c: string)
    ensures c == "text-red-500" <==> score < 60
    ensures c == "text-amber-500" <==> 60 <= score < 80
    ensures c == "text-green-600" <==> score >= 80
  {
    if score < 60 then "text-red-500"
    else if score < 80 then "text-amber-500"
    else "text-green-600"
  }

  /** In whole classes: seven to nine classes is balanced, six or fewer under-allocated,
      ten or more overloaded. */
  lemma RatingByClassCount(n: nat)
    ensures WorkloadRating(WorkloadPercentage(n)) == "Under-allocated" <==> n <= 6
    ensures WorkloadRating(WorkloadPercentage(n)) == "Balanced" <==> 7 <= n <= 9
    ensures WorkloadRating(WorkloadPercentage(n)) == "Overloaded" <==> n >= 10
  {
    var p := WorkloadPercentage(n);
    if n <= 6 {
      assert p * 9.0 <= 600.0;
    } else if n <= 9 {
      assert 630.0 <= p * 9.0 <= 900.0;
    } else {
      assert p * 9.0 >= 1000.0;
    }
  }

  /** The text colour and the rating always tell the same story. */
  lemma ColorFollowsRating(percentage: real)
    ensures WorkloadColor(percentage) == "text-amber-500" <==> WorkloadRating(percentage) == "Under-allocated"
    ensures WorkloadColor(percentage) == "text-red-500" <==> WorkloadRating(percentage) == "Overloaded"
    ensures WorkloadColor(percentage) == "text-green-600" <==> WorkloadRating(percentage) == "Balanced"
  {
  }

  /** The "Target" line: the classes per day if the week's classes were spread evenly. */
  function TargetPerDay(totalClasses: nat): (t: int)
    ensures 6 * t - 3 <= totalClasses as int < 6 * t + 3
  {
    Round(totalClasses as real / 6.0)
  }

  /** The reduce with `Math.max` starting from 0. */
  function MaxOf(counts: seq<nat>): (m: nat)
    ensures forall i :: 0 <= i < |counts| ==> counts[i] <= m
    ensures counts != [] ==> m in counts
    ensures counts == [] ==> m == 0
  {
    if counts == [] then 0
    else
      var m := MaxOf(counts[..|counts| - 1]);
      var last := counts[|counts| - 1];
      if m < last then last else m
  }

  /** The values of a day tally in its key order. */
  function TallyValues(tally: map<string, nat>, keys: seq<string>): (vs: seq<nat>)
    requires forall k :: k in keys ==> k in tally
    ensures |vs| == |keys| && forall i :: 0 <= i < |keys| ==> vs[i] == tally[keys[i]]
  {
    seq(|keys|, i requires 0 <= i < |keys| => tally[keys[i]])
  }

  /** The six counts `calculateBalanceScore` reads: one per catalog day, 0 for a day with no class. */
  function CatalogCounts(dayDistribution: map<string, nat>): (counts: seq<nat>)
    ensures |counts| == |Days|
    ensures forall i :: 0 <= i < |Days| ==>
              counts[i] == if Days[i] in dayDistribution then dayDistribution[Days[i]] else 0
  {
    seq(|Days|, i requires 0 <= i < |Days| =>
      if Days[i] in dayDistribution then dayDistribution[Days[i]] else 0)
  }

  function Total(counts: seq<nat>): nat
  {
    if counts == [] then 0 else Total(counts[..|counts| - 1]) + counts[|counts| - 1]
  }

  function SumOfSquares(counts: seq<nat>): real
  {
    if counts == [] then 0.0
    else
      var c := counts[|counts| - 1] as real;
      SumOfSquares(counts[..|counts| - 1]) + c * c
  }

  /** The sum of squared deviations of the counts from `mean`. */
  function SquaredDeviations(counts: seq<nat>, mean: real): real
  {
    if counts == [] then 0.0
    else
      var x := counts[|counts| - 1] as real - mean;
      SquaredDeviations(counts[..|counts| - 1], mean) + x * x
  }

  lemma PositiveSquare(r: real)
    requires r > 0.0
    ensures r * r > 0.0
  {
  }

  lemma SquareNonNegative(r: real)
    ensures r * r >= 0.0
  {
    if r < 0.0 {
      assert r * r == (-r) * (-r);
    }
  }

  lemma {:induction false} SquaredDeviationsNonNegative(counts: seq<nat>, mean: real)
    ensures SquaredDeviations(counts, mean) >= 0.0
  {
    if counts != [] {
      SquaredDeviationsNonNegative(counts[..|counts| - 1], mean);
      var x := counts[|counts| - 1] as real - mean;
      assert x * x >= 0.0;
    }
  }

  predicate AllZero(counts: seq<nat>)
  {
    forall i :: 0 <= i < |counts| ==> counts[i] == 0
  }

  lemma {:induction false} TotalZero(counts: seq<nat>)
    ensures Total(counts) == 0 <==> AllZero(counts)
  {
    if counts != [] {
      TotalZero(counts[..|counts| - 1]);
    }
  }

  /** `Math.round(100 * (1 - variance / maxVariance))`. */
  function Score(variance: real, maxVariance: real): int
    requires maxVariance > 0.0
  {
    Round(100.0 * (1.0 - variance / maxVariance))
  }

  /** `calculateBalanceScore` as written: the variance of the six day counts against a
      maximum variance of `(total - ideal)^2 / 6`, which leaves out the other five days'
      deviations. */
  function BalanceScoreAsWritten(counts: seq<nat>): int
    requires |counts| == 6
  {
    if AllZero(counts) then 0
    else
      var total := Total(counts) as real;
      var ideal := total / 6.0;
      TotalZero(counts);
      assert (total - ideal) * (total - ideal) > 0.0 by {
        assert total - ideal == total * 5.0 / 6.0;
      }
      Score(SquaredDeviations(counts, ideal) / 6.0, (total - ideal) * (total - ideal) / 6.0)
  }

  lemma CountsSnoc(p: seq<nat>, c: nat, mean: real)
    ensures Total(p + [c]) == Total(p) + c
    ensures SquaredDeviations(p + [c], mean) == SquaredDeviations(p, mean) + (c as real - mean) * (c as real - mean)
    ensures AllZero(p + [c]) <==> AllZero(p) && c == 0
  {
    assert (p + [c])[..|p|] == p;
    if AllZero(p) && c == 0 {
      assert forall i :: 0 <= i < |p + [c]| ==> (p + [c])[i] == (if i < |p| then p[i] else c);
    }
  }

  /** The counts of a week with `n` classes, all on Monday, built one day at a time. */
  lemma OneDayCounts(n: nat, mean: real)
    ensures Total([n, 0, 0, 0, 0, 0]) == n
    ensures SquaredDeviations([n, 0, 0, 0, 0, 0], mean)
            == (n as real - mean) * (n as real - mean) + 5.0 * (mean * mean)
    ensures AllZero([n, 0, 0, 0, 0, 0]) <==> n == 0
  {
    CountsSnoc([], n, mean);
    assert [] + [n] == [n];
    CountsSnoc([n], 0, mean);
    assert [n] + [0] == [n, 0];
    CountsSnoc([n, 0], 0, mean);
    assert [n, 0] + [0] == [n, 0, 0];
    CountsSnoc([n, 0, 0], 0, mean);
    assert [n, 0, 0] + [0] == [n, 0, 0, 0];
    CountsSnoc([n, 0, 0, 0], 0, mean);
    assert [n, 0, 0, 0] + [0] == [n, 0, 0, 0, 0];
    CountsSnoc([n, 0, 0, 0, 0], 0, mean);
    assert [n, 0, 0, 0, 0] + [0] == [n, 0, 0, 0, 0, 0];
  }

  /** A timetable with one class, or with all of its classes on one day, scores -20 out of
      100. */
  lemma AsWrittenGoesNegative()
    ensures BalanceScoreAsWritten([1, 0, 0, 0, 0, 0]) == -20
  {
    var ideal := 1.0 / 6.0;
    OneDayCounts(1, ideal);
    var variance := SquaredDeviations([1, 0, 0, 0, 0, 0], ideal) / 6.0;
    var maxVariance := (1.0 - ideal) * (1.0 - ideal) / 6.0;
    assert variance == 5.0 / 36.0;
    assert maxVariance == 25.0 / 216.0;
    assert variance / maxVariance == 1.2;
  }

  /** The variance of the most lopsided week with `total` classes, every class on one day:
      `(total - ideal)^2` for that day plus `ideal^2` for each of the other five. */
  function MaxVariance(total: real): real
  {
    var ideal := total / 6.0;
    ((total - ideal) * (total - ideal) + 5.0 * (ideal * ideal)) / 6.0
  }

  lemma MaxVariancePositive(total: real)
    requires total > 0.0
    ensures MaxVariance(total) > 0.0
  {
    var ideal := total / 6.0;
    calc {
      MaxVariance(total);
    ==
      ((total - ideal) * (total - ideal) + 5.0 * (ideal * ideal)) / 6.0;
    >=  { SquareNonNegative(total - ideal); }
      5.0 * (ideal * ideal) / 6.0;
    >  { PositiveSquare(ideal); }
      0.0;
    }
  }

  /** The balance score scaled by the variance of the most lopsided week. */
  function BalanceScore(counts: seq<nat>): int
    requires |counts| == 6
  {
    if AllZero(counts) then 0
    else
      var total := Total(counts) as real;
      TotalZero(counts);
      MaxVariancePositive(total);
      Score(SquaredDeviations(counts, total / 6.0) / 6.0, MaxVariance(total))
  }

  lemma ExpandStep(d: real, q: real, t: real, k: real, c: real, mean: real,
                   d': real, q': real, t': real, k': real)
    requires d == q - 2.0 * mean * t + k * (mean * mean)
    requires d' == d + (c - mean) * (c - mean) && q' == q + c * c && t' == t + c && k' == k + 1.0
    ensures d' == q' - 2.0 * mean * t' + k' * (mean * mean)
  {
  }

  lemma {:induction false} SquaredDeviationsExpand(counts: seq<nat>, mean: real)
    ensures SquaredDeviations(counts, mean)
            == SumOfSquares(counts) - 2.0 * mean * (Total(counts) as real) + (|counts| as real) * (mean * mean)
  {
    if counts != [] {
      SquaredDeviationsExpand(counts[..|counts| - 1], mean);
      ExpandSnoc(counts, mean);
    }
  }

  /** One step of the expansion: from the prefix without the last count to the whole list. */
  lemma ExpandSnoc(counts: seq<nat>, mean: real)
    requires counts != []
    requires var p := counts[..|counts| - 1];
             SquaredDeviations(p, mean) == SumOfSquares(p) - 2.0 * mean * (Total(p) as real) + (|p| as real) * (mean * mean)
    ensures SquaredDeviations(counts, mean)
            == SumOfSquares(counts) - 2.0 * mean * (Total(counts) as real) + (|counts| as real) * (mean * mean)
  {
    var p := counts[..|counts| - 1];
    var c := counts[|counts| - 1] as real;
    ExpandStep(SquaredDeviations(p, mean), SumOfSquares(p), Total(p) as real, |p| as real, c, mean,
               SquaredDeviations(counts, mean), SumOfSquares(counts), Total(counts) as real, |counts| as real);
  }

  /** Counts never square to more than their total squared. */
  lemma {:induction false} SumOfSquaresBound(counts: seq<nat>)
    ensures SumOfSquares(counts) <= Total(counts) as real * Total(counts) as real
  {
    if counts != [] {
      var p, c := counts[..|counts| - 1], counts[|counts| - 1] as real;
      SumOfSquaresBound(p);
      var t := Total(p) as real;
      assert (t + c) * (t + c) == t * t + 2.0 * t * c + c * c;
      assert t * c >= 0.0;
    }
  }

  lemma Ratio(a: real, b: real, k: real)
    requires 0.0 <= a <= k * b && b > 0.0
    ensures 0.0 <= a / b <= k
  {
    var r := a / b;
    assert r * b == a;
    assert (r - k) * b <= 0.0;
  }

  lemma ScoreRange(variance: real, maxVariance: real)
    requires 0.0 <= variance <= maxVariance && maxVariance > 0.0
    ensures 0 <= Score(variance, maxVariance) <= 100
  {
    Ratio(variance, maxVariance, 1.0);
  }

  /** With the variance up to 6/5 of the maximum, the score lies between -20 and 100. */
  lemma AsWrittenScoreRange(variance: real, maxVariance: real)
    requires 0.0 <= variance <= 1.2 * maxVariance && maxVariance > 0.0
    ensures -20 <= Score(variance, maxVariance) <= 100
  {
    Ratio(variance, maxVariance, 1.2);
  }

  /** The variance of a week with classes never exceeds that of the week with every class on
      one day. */
  lemma VarianceAtMostMax(counts: seq<nat>)
    requires |counts| == 6 && !AllZero(counts)
    ensures var total := Total(counts) as real;
            0.0 <= SquaredDeviations(counts, total / 6.0) / 6.0 <= MaxVariance(total)
  {
    var total := Total(counts) as real;
    var ideal := total / 6.0;
    var mm := ideal * ideal;
    SquaredDeviationsExpand(counts, ideal);
    SumOfSquaresBound(counts);
    SquaredDeviationsNonNegative(counts, ideal);
    assert (total - ideal) * (total - ideal) == total * total - 2.0 * ideal * total + mm;
  }

  /** The full maximum variance is 6/5 of the one the code divides by, whose square covers
      only the busy day. */
  lemma MaxVarianceRatio(total: real)
    ensures MaxVariance(total) == 1.2 * ((total - total / 6.0) * (total - total / 6.0) / 6.0)
  {
    var ideal := total / 6.0;
    assert total - ideal == 5.0 * ideal;
    assert (5.0 * ideal) * (5.0 * ideal) == 25.0 * (ideal * ideal);
  }

  /** The formula as written keeps the score at most 100, gives 0 to an empty week, and never
      goes below -20; -20 is reached (`AsWrittenGoesNegative`), so the page's "/100" scale
      does not hold for it. */
  lemma BalanceScoreAsWrittenRange(counts: seq<nat>)
    requires |counts| == 6
    ensures -20 <= BalanceScoreAsWritten(counts) <= 100
    ensures AllZero(counts) ==> BalanceScoreAsWritten(counts) == 0
  {
    if !AllZero(counts) {
      TotalZero(counts);
      var total := Total(counts) as real;
      var ideal := total / 6.0;
      VarianceAtMostMax(counts);
      MaxVarianceRatio(total);
      var m := (total - ideal) * (total - ideal) / 6.0;
      assert total - ideal == total * 5.0 / 6.0;
      AsWrittenScoreRange(SquaredDeviations(counts, ideal) / 6.0, m);
    }
  }

  /** The corrected score is always out of 100, and a week with no class on a catalog day
      scores 0. */
  lemma BalanceScoreRange(counts: seq<nat>)
    requires |counts| == 6
    ensures 0 <= BalanceScore(counts) <= 100
    ensures AllZero(counts) ==> BalanceScore(counts) == 0
  {
    if !AllZero(counts) {
      TotalZero(counts);
      var total := Total(counts) as real;
      var ideal := total / 6.0;
      var sq := SquaredDeviations(counts, ideal);
      VarianceAtMostMax(counts);
      MaxVariancePositive(total);
      ScoreRange(sq / 6.0, MaxVariance(total));
    }
  }

  /** A week whose classes are all on one day scores 0. */
  lemma OneDayScoresZero(n: nat)
    requires n > 0
    ensures BalanceScore([n, 0, 0, 0, 0, 0]) == 0
  {
    var total := n as real;
    var ideal := total / 6.0;
    OneDayCounts(n, ideal);
    MaxVariancePositive(total);
    var m := MaxVariance(total);
    assert SquaredDeviations([n, 0, 0, 0, 0, 0], ideal) / 6.0 == m;
    assert m / m == 1.0 by {
      assert (m / m) * m == m;
      assert (m / m - 1.0) * m == 0.0;
    }
  }

  /** The statistics one pass of `calculateWorkloadStats` records for a faculty member. */
  function StatsFor(f: User, t: Timetable): FacultyStats
  {
    var days := DaysOf(t);
    var tally := Tally.TallyOf(days);
    FacultyStats(f.name, f.department, |t|, WorkloadPercentage(|t|), tally,
                 MaxOf(TallyValues(tally, Tally.FirstOccurrences(days))),
                 BalanceScoreAsWritten(CatalogCounts(tally)))
  }

  /** The record `calculateWorkloadStats` returns: every faculty id, a later entry with the
      same id overwriting an earlier one. */
  function StatsMap(faculty: seq<User>, timetables: Timetables): map<string, FacultyStats>
  {
    if faculty == [] then map[]
    else
      var f := faculty[|faculty| - 1];
      StatsMap(faculty[..|faculty| - 1], timetables)[f.id := StatsFor(f, TimetableOf(timetables, f.id))]
  }

  method CalculateWorkloadStats(faculty: seq<User>, timetables: Timetables)
    returns (stats: map<string, FacultyStats>)
    ensures stats == StatsMap(faculty, timetables)
  {
    stats := map[];
    for i := 0 to |faculty|
      invariant stats == StatsMap(faculty[..i], timetables)
    {
      var f := faculty[i];
      var facultyTimetable := TimetableOf(timetables, f.id);
      var days := DaysOf(facultyTimetable);
      var daysCounts := Tally.CountOccurrences(days);
      var maxClassesInADay := MaxOf(TallyValues(daysCounts, Tally.FirstOccurrences(days)));
      var entry := FacultyStats(f.name, f.department, |facultyTimetable|,
                                WorkloadPercentage(|facultyTimetable|), daysCounts,
                                maxClassesInADay, BalanceScoreAsWritten(CatalogCounts(daysCounts)));
      assert entry == StatsFor(f, facultyTimetable);
      assert faculty[..i + 1][..i] == faculty[..i] && faculty[..i + 1][i] == f;
      stats := stats[f.id := entry];
    }
    assert faculty[..|faculty|] == faculty;
  }

  /** Every faculty member has an entry, and it describes the LAST member with that id. */
  lemma {:induction false} StatsMapLastWins(faculty: seq<User>, timetables: Timetables, i: nat)
    requires i < |faculty|
    requires forall j :: i < j < |faculty| ==> faculty[j].id != faculty[i].id
    ensures faculty[i].id in StatsMap(faculty, timetables)
    ensures StatsMap(faculty, timetables)[faculty[i].id]
            == StatsFor(faculty[i], TimetableOf(timetables, faculty[i].id))
  {
    if i < |faculty| - 1 {
      StatsMapLastWins(faculty[..|faculty| - 1], timetables, i);
    }
  }

  /** The record holds no id that is not a faculty member's. */
  lemma {:induction false} StatsMapKeys(faculty: seq<User>, timetables: Timetables)
    ensures forall id :: id in StatsMap(faculty, timetables) <==> id in IdsOf(faculty)
  {
    if faculty != [] {
      var p := faculty[..|faculty| - 1];
      StatsMapKeys(p, timetables);
      assert IdsOf(faculty) == IdsOf(p) + [faculty[|faculty| - 1].id];
    }
  }

  /** The day distribution counts every class exactly once, the busiest day holds at most
      all of them and at least one when there is any, and the recorded balance score, the
      formula as written, lies between -20 and 100 and is 0 for a week with no catalog day. */
  lemma DayCountsAddUp(f: User, t: Timetable)
    ensures var s := StatsFor(f, t);
            && Tally.SumOccurrences(Tally.FirstOccurrences(DaysOf(t)), DaysOf(t)) == s.totalClasses
            && s.maxClassesPerDay <= s.totalClasses
            && (s.totalClasses > 0 <==> s.maxClassesPerDay > 0)
            && -20 <= s.balanceScore <= 100
            && (AllZero(CatalogCounts(s.dayDistribution)) ==> s.balanceScore == 0)
  {
    var days := DaysOf(t);
    var tally := Tally.TallyOf(days);
    var keys := Tally.FirstOccurrences(days);
    var vs := TallyValues(tally, keys);
    Tally.TallySum(days);
    BalanceScoreAsWrittenRange(CatalogCounts(tally));
    forall i | 0 <= i < |vs| ensures 0 < vs[i] <= |t| {
      Tally.TallyPositive(days, keys[i]);
    }
    if |t| > 0 {
      assert days[0] in keys;
    }
  }
}
