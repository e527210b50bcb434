/**
 * The scheduling view's progress estimator: a study's health status from its
 * actual and expected progress, the staffing it needs to meet its quota on
 * time, and the colour, icon and label shown for a status.
 *
 * Instants are integer milliseconds (what `Date.getTime()` returns); "now"
 * is a parameter. Day counts are exact ceiling divisions by the length of a
 * day; progress and productivity are exact reals.
 */
module Gantt {
  import opened Wrappers

  const MsPerDay: int := 1000 * 3600 * 24

  datatype Status = OnTrack | AtRisk | Delayed

  /** A scheduled study as the view holds it; `None` is a missing (or `NaN`) number. */
  datatype GanttTask = GanttTask(
    id: int,
    name: string,
    startMs: int,
    endMs: int,
    progress: Option<real>,
    quotas: Option<int>,
    completedQuotas: Option<int>)

  datatype Enumerator = Enumerator(id: int, name: string, availability: seq<string>, productivity: real)

  /** `Math.ceil(a / b)` for a positive divisor. */
  function CeilDiv(a: int, b: int): (r: int)
    requires b > 0
    ensures (r - 1) * b < a <= r * b
  {
    -((-a) / b)
  }

  /** `Math.ceil((to - from) / (1000 * 3600 * 24))`: whole days, rounded up. */
  function DaysBetween(fromMs: int, toMs: int): (d: int)
    ensures (d - 1) * MsPerDay < toMs - fromMs <= d * MsPerDay
  {
    CeilDiv(toMs - fromMs, MsPerDay)
  }

  /** `task.progress || 0` */
  function ProgressOrZero(progress: Option<real>): real {
    progress.GetOr(0.0)
  }

  /** `100 - (daysRemaining / totalDays) * 100` */
  function ExpectedProgress(daysRemaining: int, totalDays: int): real
    requires totalDays != 0
  {
    100.0 - (daysRemaining as real / totalDays as real) * 100.0
  }

  /** The classification once both day counts are known. */
  function Classify(progress: real, daysRemaining: int, totalDays: int): (r: Status)
    requires daysRemaining > 0 ==> totalDays != 0
    ensures daysRemaining <= 0 ==> r != AtRisk && (r == OnTrack <==> progress >= 100.0)
    ensures daysRemaining > 0 ==>
              var expected := ExpectedProgress(daysRemaining, totalDays);
              && (r == OnTrack <==> progress >= expected + 10.0)
              && (r == AtRisk <==> expected - 10.0 <= progress < expected + 10.0)
              && (r == Delayed <==> progress < expected - 10.0)
  {
    if daysRemaining <= 0 then
      if progress >= 100.0 then OnTrack else Delayed
    else
      var expected := ExpectedProgress(daysRemaining, totalDays);
      if progress >= expected + 10.0 then OnTrack
      else if progress >= expected - 10.0 then AtRisk
      else Delayed
  }

  /**
   * `calculateStatus(task)` at instant `nowMs`. The source divides by the
   * total day count only when some days remain, so only then must it be non-zero.
   */
  function CalculateStatus(task: GanttTask, nowMs: int): (r: Status)
    requires DaysBetween(nowMs, task.endMs) > 0 ==> DaysBetween(task.startMs, task.endMs) != 0
    ensures nowMs >= task.endMs ==> r != AtRisk && (r == OnTrack <==> ProgressOrZero(task.progress) >= 100.0)
  {
    assert nowMs >= task.endMs ==> DaysBetween(nowMs, task.endMs) <= 0;
    Classify(ProgressOrZero(task.progress),
             DaysBetween(nowMs, task.endMs),
             DaysBetween(task.startMs, task.endMs))
  }

  /** delayed < at_risk < on_track */
  function Rank(s: Status): nat {
    match s
    case Delayed => 0
    case AtRisk => 1
    case OnTrack => 2
  }

  /**
   * The ±10-point band, stated without division: for a study that started
   * before its end date and still has days left, the status is decided by
   * comparing `progress * totalDays` with `110 * totalDays - 100 * daysRemaining`
   * and `90 * totalDays - 100 * daysRemaining`.
   */
  lemma {:induction false} BandsCrossMultiplied(progress: real, daysRemaining: int, totalDays: int)
    requires daysRemaining > 0 && totalDays > 0
    ensures var p, d, t := progress * totalDays as real, daysRemaining as real, totalDays as real;
            && (Classify(progress, daysRemaining, totalDays) == OnTrack <==> p >= 110.0 * t - 100.0 * d)
            && (Classify(progress, daysRemaining, totalDays) == AtRisk <==> 90.0 * t - 100.0 * d <= p < 110.0 * t - 100.0 * d)
            && (Classify(progress, daysRemaining, totalDays) == Delayed <==> p < 90.0 * t - 100.0 * d)
  {
    var d, t := daysRemaining as real, totalDays as real;
    var e := ExpectedProgress(daysRemaining, totalDays);
    assert e * t == 100.0 * t - 100.0 * d by {
      assert (d / t) * t == d;
    }
    ScaleBound(progress, e + 10.0, t, 110.0 * t - 100.0 * d);
    ScaleBound(progress, e - 10.0, t, 90.0 * t - 100.0 * d);
  }

  lemma ScaleBound(x: real, bound: real, t: real, scaled: real)
    requires t > 0.0 && bound * t == scaled
    ensures x >= bound <==> x * t >= scaled
  {
    MultiplyBothSides(x, bound, t);
  }

  lemma MultiplyBothSides(x: real, y: real, t: real)
    requires t > 0.0
    ensures x >= y <==> x * t >= y * t
  {
    if x >= y {
      assert (x - y) * t >= 0.0;
    } else {
      assert (y - x) * t > 0.0;
    }
  }

  /** A study exactly on schedule sits inside the band: at risk. */
  lemma OnScheduleIsAtRisk(daysRemaining: int, totalDays: int)
    requires daysRemaining > 0 && totalDays != 0
    ensures Classify(ExpectedProgress(daysRemaining, totalDays), daysRemaining, totalDays) == AtRisk
  {
  }

  /** With the dates fixed, more progress never gives a worse status. */
  lemma ProgressMonotone(p1: real, p2: real, daysRemaining: int, totalDays: int)
    requires daysRemaining > 0 ==> totalDays != 0
    requires p1 <= p2
    ensures Rank(Classify(p1, daysRemaining, totalDays)) <= Rank(Classify(p2, daysRemaining, totalDays))
  {
  }

  /** A missing progress value is classified as progress 0. */
  lemma MissingProgressIsZero(task: GanttTask, nowMs: int)
    requires DaysBetween(nowMs, task.endMs) > 0 ==> DaysBetween(task.startMs, task.endMs) != 0
    ensures CalculateStatus(task.(progress := None), nowMs)
         == CalculateStatus(task.(progress := Some(0.0)), nowMs)
  {
  }

  // ------------------------------------------------------------ staffing

  /** `roster.reduce((sum, e) => sum + e.productivity, 0)`, a left fold. */
  function TotalProductivity(roster: seq<Enumerator>): (total: real)
    ensures |roster| == 0 ==> total == 0.0
    ensures (forall i :: 0 <= i < |roster| ==> roster[i].productivity >= 0.0) ==> total >= 0.0
  {
    if |roster| == 0 then 0.0
    else TotalProductivity(roster[..|roster| - 1]) + roster[|roster| - 1].productivity
  }

  /** One enumerator's total is that enumerator's productivity. */
  lemma TotalProductivitySingle(e: Enumerator)
    ensures TotalProductivity([e]) == e.productivity
  {
    assert [e][..0] == [];
  }

  /** The total over two rosters in a row is the sum of their totals. */
  lemma {:induction false} TotalProductivityConcat(a: seq<Enumerator>, b: seq<Enumerator>)
    ensures TotalProductivity(a + b) == TotalProductivity(a) + TotalProductivity(b)
  {
    if |b| == 0 {
      assert a + b == a;
    } else {
      var ab := a + b;
      assert ab[|ab| - 1] == b[|b| - 1];
      assert ab[..|ab| - 1] == a + b[..|b| - 1];
      TotalProductivityConcat(a, b[..|b| - 1]);
    }
  }

  /** The total divided by `roster.length || 1`: an empty roster averages 0. */
  function AverageProductivity(roster: seq<Enumerator>): (avg: real)
    ensures |roster| == 0 ==> avg == 0.0
    ensures avg * |roster| as real == TotalProductivity(roster)
  {
    TotalProductivity(roster) / (if |roster| == 0 then 1 else |roster|) as real
  }

  /** `Math.ceil(x)` */
  function Ceil(x: real): (r: int)
    ensures r as real - 1.0 < x <= r as real
  {
    -((-x).Floor)
  }

  /** The daily capacity `days * avgProductivity` that the quota is divided by. */
  function DailyCapacity(task: GanttTask, roster: seq<Enumerator>): real {
    DaysBetween(task.startMs, task.endMs) as real * AverageProductivity(roster)
  }

  /**
   * `calculateRequiredEnumerators(task)`: the quota (`task.quotas || 0`)
   * divided by the capacity, rounded up. A zero capacity gives an infinite
   * or `NaN` result in the source, so it is excluded here.
   */
  function RequiredEnumerators(task: GanttTask, roster: seq<Enumerator>): (r: int)
    requires DailyCapacity(task, roster) != 0.0
    ensures var ratio := task.quotas.GetOr(0) as real / DailyCapacity(task, roster);
            ratio <= r as real < ratio + 1.0
  {
    Ceil(task.quotas.GetOr(0) as real / DailyCapacity(task, roster))
  }

  /**
   * With a positive capacity the estimate is the least staffing whose total
   * output covers the quota.
   */
  lemma {:induction false} RequiredEnumeratorsIsLeastSufficient(task: GanttTask, roster: seq<Enumerator>, k: int)
    requires DailyCapacity(task, roster) > 0.0
    ensures var r, c, q := RequiredEnumerators(task, roster), DailyCapacity(task, roster), task.quotas.GetOr(0) as real;
            && r as real * c >= q
            && (k as real * c >= q ==> k >= r)
  {
    var r, c, q := RequiredEnumerators(task, roster), DailyCapacity(task, roster), task.quotas.GetOr(0) as real;
    assert q / c <= r as real;
    MultiplyBothSides(r as real, q / c, c);
    assert (q / c) * c == q;
    if k as real * c >= q && k < r {
      assert k as real <= r as real - 1.0;
      MultiplyBothSides(q / c, k as real, c);
      assert false;
    }
  }

  /** Missing quotas need no staff. */
  lemma MissingQuotasNeedNobody(task: GanttTask, roster: seq<Enumerator>)
    requires DailyCapacity(task, roster) != 0.0
    requires task.quotas.None?
    ensures RequiredEnumerators(task, roster) == 0
  {
  }

  // ------------------------------------------------------------ status maps

  /** The status names the source uses as strings. */
  function StatusName(s: Status): string {
    match s
    case OnTrack => "on_track"
    case AtRisk => "at_risk"
    case Delayed => "delayed"
  }

  predicate IsStatusName(status: string) {
    status == "on_track" || status == "at_risk" || status == "delayed"
  }

  const UnknownStatusColor := "bg-gray-100 border-gray-500 text-gray-800"
  const UnknownStatusIcon := "\U{1F4CB}"
  const UnknownStatusText := "Statut inconnu"

  /** `getStatusColor(status)` */
  function StatusColor(status: string): (r: string)
    ensures r == UnknownStatusColor <==> !IsStatusName(status)
  {
    if status == "on_track" then "bg-green-100 border-green-500 text-green-800"
    else if status == "at_risk" then "bg-yellow-100 border-yellow-500 text-yellow-800"
    else if status == "delayed" then "bg-red-100 border-red-500 text-red-800"
    else UnknownStatusColor
  }

  /** `getStatusIcon(status)` */
  function StatusIcon(status: string): (r: string)
    ensures r == UnknownStatusIcon <==> !IsStatusName(status)
  {
    if status == "on_track" then "\U{2705}"
    else if status == "at_risk" then "\U{26A0}\U{FE0F}"
    else if status == "delayed" then "\U{274C}"
    else UnknownStatusIcon
  }

  /** `getStatusText(status)` */
  function StatusText(status: string): (r: string)
    ensures r == UnknownStatusText <==> !IsStatusName(status)
  {
    if status == "on_track" then "Dans les temps"
    else if status == "at_risk" then "\U{00C0} risque"
    else if status == "delayed" then "En retard"
    else UnknownStatusText
  }

  /** Every status has a name the maps know, and each map tells the three statuses apart. */
  lemma StatusMapsDistinguishStatuses(s1: Status, s2: Status)
    ensures IsStatusName(StatusName(s1))
    ensures s1 != s2 ==> StatusColor(StatusName(s1)) != StatusColor(StatusName(s2))
    ensures s1 != s2 ==> StatusIcon(StatusName(s1)) != StatusIcon(StatusName(s2))
    ensures s1 != s2 ==> StatusText(StatusName(s1)) != StatusText(StatusName(s2))
  {
  }
}
