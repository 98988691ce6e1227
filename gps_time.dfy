/** GPS/UTC time conversion over the constant leap-second table, and the
    decomposition of a GPS instant into week, day and seconds. */
module GpsTime {
  import opened Wrappers
  import opened Calendar

  /** The dates of the leap-second table, in table order. */
  const LeapDates: seq<(int, int, int)> := [
    (1980, 1, 1), (1981, 7, 1), (1982, 7, 1), (1983, 7, 1), (1985, 7, 1),
    (1988, 1, 1), (1990, 1, 1), (1991, 1, 1), (1992, 7, 1), (1993, 7, 1),
    (1994, 7, 1), (1996, 1, 1), (1997, 7, 1), (1999, 1, 1), (2006, 1, 1),
    (2009, 1, 1), (2012, 7, 1), (2015, 7, 1), (2017, 1, 1)]

  /** The leap-second table: from the midnight instant of each date on, GPS
      time runs ahead of UTC by the given whole number of seconds. */
  const LeapTable: seq<(Instant, int)> := [
    (62451129600000000, 0),   // 1980-01-01
    (62498390400000000, 1),   // 1981-07-01
    (62529926400000000, 2),   // 1982-07-01
    (62561462400000000, 3),   // 1983-07-01
    (62624620800000000, 4),   // 1985-07-01
    (62703590400000000, 5),   // 1988-01-01
    (62766748800000000, 6),   // 1990-01-01
    (62798284800000000, 7),   // 1991-01-01
    (62845545600000000, 8),   // 1992-07-01
    (62877081600000000, 9),   // 1993-07-01
    (62908617600000000, 10),  // 1994-07-01
    (62956051200000000, 11),  // 1996-01-01
    (63003312000000000, 12),  // 1997-07-01
    (63050745600000000, 13),  // 1999-01-01
    (63271670400000000, 14),  // 2006-01-01
    (63366364800000000, 15),  // 2009-01-01
    (63476697600000000, 16),  // 2012-07-01
    (63571305600000000, 17),  // 2015-07-01
    (63618825600000000, 18)]  // 2017-01-01

  /** The first table date, 1980-01-01; no offset is defined before it. */
  const TableStart: Instant := 62451129600000000

  /** The start of GPS time, 1980-01-06T00:00:00. */
  const GpsEpoch: Instant := 62451561600000000

  /** Every table date is a valid date. */
  lemma LeapDatesValid()
    ensures forall i :: 0 <= i < |LeapDates| ==>
              var (y, m, d) := LeapDates[i];
              MinYear <= y <= MaxYear && ValidDate(y, m, d)
  {
  }

  /** Each entry's instant is midnight of its date. */
  lemma LeapTableDates()
    ensures |LeapTable| == |LeapDates|
    ensures forall i :: 0 <= i < |LeapDates| ==>
              var (y, m, d) := LeapDates[i];
              MinYear <= y <= MaxYear && ValidDate(y, m, d) && LeapTable[i].0 == Midnight(y, m, d)
  {
    LeapDatesValid();
    LeapTableDatesA();
    LeapTableDatesB();
    LeapTableDatesC();
    LeapTableDatesD();
  }

  lemma LeapTableDatesA()
    ensures forall i :: 0 <= i < 5 ==>
              var (y, m, d) := LeapDates[i];
              MinYear <= y <= MaxYear && ValidDate(y, m, d) && LeapTable[i].0 == Midnight(y, m, d)
  {
    LeapDatesValid();
    MidnightsA();
  }

  lemma LeapTableDatesB()
    ensures forall i :: 5 <= i < 10 ==>
              var (y, m, d) := LeapDates[i];
              MinYear <= y <= MaxYear && ValidDate(y, m, d) && LeapTable[i].0 == Midnight(y, m, d)
  {
    LeapDatesValid();
    MidnightsB();
  }

  lemma LeapTableDatesC()
    ensures forall i :: 10 <= i < 15 ==>
              var (y, m, d) := LeapDates[i];
              MinYear <= y <= MaxYear && ValidDate(y, m, d) && LeapTable[i].0 == Midnight(y, m, d)
  {
    LeapDatesValid();
    MidnightsC();
  }

  lemma LeapTableDatesD()
    ensures forall i :: 15 <= i < 19 ==>
              var (y, m, d) := LeapDates[i];
              MinYear <= y <= MaxYear && ValidDate(y, m, d) && LeapTable[i].0 == Midnight(y, m, d)
  {
    LeapDatesValid();
    MidnightsD();
  }

  lemma MidnightsA()
    ensures Midnight(1980, 1, 1) == 62451129600000000
    ensures Midnight(1981, 7, 1) == 62498390400000000
    ensures Midnight(1982, 7, 1) == 62529926400000000
    ensures Midnight(1983, 7, 1) == 62561462400000000
    ensures Midnight(1985, 7, 1) == 62624620800000000
  {
  }

  lemma MidnightsB()
    ensures Midnight(1988, 1, 1) == 62703590400000000
    ensures Midnight(1990, 1, 1) == 62766748800000000
    ensures Midnight(1991, 1, 1) == 62798284800000000
    ensures Midnight(1992, 7, 1) == 62845545600000000
    ensures Midnight(1993, 7, 1) == 62877081600000000
  {
  }

  lemma MidnightsC()
    ensures Midnight(1994, 7, 1) == 62908617600000000
    ensures Midnight(1996, 1, 1) == 62956051200000000
    ensures Midnight(1997, 7, 1) == 63003312000000000
    ensures Midnight(1999, 1, 1) == 63050745600000000
    ensures Midnight(2006, 1, 1) == 63271670400000000
  {
  }

  lemma MidnightsD()
    ensures Midnight(2009, 1, 1) == 63366364800000000
    ensures Midnight(2012, 7, 1) == 63476697600000000
    ensures Midnight(2015, 7, 1) == 63571305600000000
    ensures Midnight(2017, 1, 1) == 63618825600000000
  {
  }

  lemma EpochDates()
    ensures TableStart == Midnight(1980, 1, 1)
    ensures GpsEpoch == Midnight(1980, 1, 6)
  {
  }

  const MicrosPerWeek: int := 7 * MicrosPerDay

  datatype TimeError =
    | NoLeapEntry   // the instant precedes the table: IndexError on an empty slice
    | OutOfRange    // the shifted instant leaves the datetime range: OverflowError

  predicate StrictlyAscending(table: seq<(Instant, int)>) {
    forall i, j :: 0 <= i < j < |table| ==> table[i].0 < table[j].0
  }

  lemma {:induction false} AscendingFromAdjacent(table: seq<(Instant, int)>)
    requires forall i :: 0 <= i < |table| - 1 ==> table[i].0 < table[i + 1].0
    ensures StrictlyAscending(table)
    decreases |table|
  {
    if |table| > 1 {
      var front := table[..|table| - 1];
      assert forall i :: 0 <= i < |front| - 1 ==> front[i].0 < front[i + 1].0 by {
        forall i | 0 <= i < |front| - 1 ensures front[i].0 < front[i + 1].0 {
          assert front[i] == table[i] && front[i + 1] == table[i + 1];
        }
      }
      AscendingFromAdjacent(front);
      forall i, j | 0 <= i < j < |table| ensures table[i].0 < table[j].0 {
        if j < |table| - 1 {
          assert table[i] == front[i] && table[j] == front[j];
        } else if i < j - 1 {
          assert table[i] == front[i] && table[j - 1] == front[j - 1];
        }
      }
    }
  }

  /** The table is sorted by date with no date repeated, entry i has offset
      i, and the offsets end at 18 seconds. */
  lemma LeapTableShape()
    ensures |LeapTable| == 19 && StrictlyAscending(LeapTable)
    ensures forall i :: 0 <= i < |LeapTable| ==> LeapTable[i].1 == i
    ensures LeapTable[|LeapTable| - 1].1 == 18
    ensures TableStart == LeapTable[0].0
  {
    AscendingFromAdjacent(LeapTable);
  }

  /** Index of the last entry dated at or before t. Slicing the table with
      `[:t]` keeps the leading entries dated at or before t, and `[-1]`
      takes the last of them. */
  function LastAtOrBefore(table: seq<(Instant, int)>, t: int): (r: Option<nat>)
    ensures r.Some? ==> r.value < |table| && table[r.value].0 <= t
    ensures r.Some? ==> forall j :: r.value < j < |table| ==> t < table[j].0
    ensures r.None? <==> forall j :: 0 <= j < |table| ==> t < table[j].0
    decreases |table|
  {
    if table == [] then None
    else if table[|table| - 1].0 <= t then Some(|table| - 1)
    else LastAtOrBefore(table[..|table| - 1], t)
  }

  /** How many table dates lie at or before t: a reference count that does
      not depend on the order of the table. */
  function DatesUpTo(table: seq<(Instant, int)>, t: int): nat
    decreases |table|
  {
    if table == [] then 0
    else DatesUpTo(table[..|table| - 1], t) + (if table[|table| - 1].0 <= t then 1 else 0)
  }

  lemma {:induction false} DatesUpToAll(table: seq<(Instant, int)>, t: int)
    requires forall j :: 0 <= j < |table| ==> table[j].0 <= t
    ensures DatesUpTo(table, t) == |table|
    decreases |table|
  {
    if table != [] {
      DatesUpToAll(table[..|table| - 1], t);
    }
  }

  lemma {:induction false} DatesUpToNone(table: seq<(Instant, int)>, t: int)
    requires forall j :: 0 <= j < |table| ==> t < table[j].0
    ensures DatesUpTo(table, t) == 0
    decreases |table|
  {
    if table != [] {
      DatesUpToNone(table[..|table| - 1], t);
    }
  }

  /** On a sorted table the lookup lands on entry DatesUpTo - 1. */
  lemma {:induction false} LastAtOrBeforeCounts(table: seq<(Instant, int)>, t: int)
    requires StrictlyAscending(table)
    ensures LastAtOrBefore(table, t).None? <==> DatesUpTo(table, t) == 0
    ensures LastAtOrBefore(table, t).Some? ==> LastAtOrBefore(table, t).value == DatesUpTo(table, t) - 1
    decreases |table|
  {
    if table != [] {
      var front := table[..|table| - 1];
      if table[|table| - 1].0 <= t {
        DatesUpToAll(front, t);
      } else {
        LastAtOrBeforeCounts(front, t);
      }
    }
  }

  /** The count rises between a and b exactly when some date lies in (a, b]. */
  lemma {:induction false} DatesUpToStep(table: seq<(Instant, int)>, a: int, b: int)
    requires a <= b
    ensures DatesUpTo(table, a) <= DatesUpTo(table, b)
    ensures DatesUpTo(table, a) == DatesUpTo(table, b) <==>
            forall j :: 0 <= j < |table| ==> !(a < table[j].0 <= b)
    decreases |table|
  {
    if table != [] {
      var front := table[..|table| - 1];
      DatesUpToStep(front, a, b);
      assert forall j :: 0 <= j < |front| ==> front[j] == table[j];
    }
  }

  /** GPS minus UTC in whole seconds at t: one per table date passed, the
      first date carrying offset 0. */
  function LeapSeconds(t: int): int {
    DatesUpTo(LeapTable, t) - 1
  }

  /** The table offset that the lookup keyed by t finds. */
  function Offset(t: Instant): (r: Result<int, TimeError>)
    ensures r.Err? <==> t < TableStart
    ensures r.Err? ==> r.error == NoLeapEntry
    ensures r.Ok? ==> r.value == LeapSeconds(t) && 0 <= r.value <= 18
  {
    LeapTableShape();
    LastAtOrBeforeCounts(LeapTable, t);
    match LastAtOrBefore(LeapTable, t)
    case None => Err(NoLeapEntry)
    case Some(i) => Ok(LeapTable[i].1)
  }

  /** `time_utc2gps`: adds the offset of the latest entry dated at or
      before the UTC instant. */
  function Utc2Gps(t: Instant): (r: Result<Instant, TimeError>)
    ensures r == Err(NoLeapEntry) <==> t < TableStart
    ensures r == Err(OutOfRange) <==> TableStart <= t && MaxInstant < t + LeapSeconds(t) * MicrosPerSecond
    ensures r.Ok? ==> r.value == t + LeapSeconds(t) * MicrosPerSecond
  {
    var off :- Offset(t);
    match AddMicros(t, off * MicrosPerSecond)
    case None => Err(OutOfRange)
    case Some(g) => Ok(g)
  }

  /** `time_gps2utc`: subtracts the offset found with the GPS instant itself
      as the key. It never overflows: the earliest accepted instant is far
      more than 18 seconds after year 1. */
  function Gps2Utc(g: Instant): (r: Result<Instant, TimeError>)
    ensures r.Ok? <==> TableStart <= g
    ensures r.Err? ==> r.error == NoLeapEntry
    ensures r.Ok? ==> r.value == g - LeapSeconds(g) * MicrosPerSecond
  {
    var off :- Offset(g);
    match AddMicros(g, -off * MicrosPerSecond)
    case None => assert false; Err(OutOfRange)
    case Some(u) => Ok(u)
  }

  /** GPS time runs strictly forward with UTC: offsets never decrease. */
  lemma Utc2GpsIncreasing(t1: Instant, t2: Instant)
    requires t1 < t2 && Utc2Gps(t1).Ok? && Utc2Gps(t2).Ok?
    ensures Utc2Gps(t1).value < Utc2Gps(t2).value
  {
    DatesUpToStep(LeapTable, t1, t2);
  }

  /** Round trip: converting back recovers t exactly when no table date lies
      in (t, t + offset]; otherwise the later, larger offset is subtracted
      and the result falls short of t. */
  lemma RoundTrip(t: Instant)
    requires Utc2Gps(t).Ok?
    ensures Gps2Utc(Utc2Gps(t).value) == Ok(t) <==>
            forall j :: 0 <= j < |LeapTable| ==> !(t < LeapTable[j].0 <= Utc2Gps(t).value)
    ensures Gps2Utc(Utc2Gps(t).value).Ok? && Gps2Utc(Utc2Gps(t).value).value <= t
  {
    var g := Utc2Gps(t).value;
    DatesUpToStep(LeapTable, t, g);
  }

  /** GPS week, second of week, day of week and second of day; the two
      second counts are in micro-seconds. */
  datatype WeekTime = WeekTime(week: int, secondOfWeek: int, day: int, secondOfDay: int)

  /** `time_gps2wdt`: converts the UTC instant to GPS time and splits the
      time elapsed since the GPS epoch with floor division and modulo. */
  function Gps2Wdt(t: Instant): (r: Result<WeekTime, TimeError>)
    ensures r.Ok? <==> Utc2Gps(t).Ok?
    ensures r.Err? ==> r.error == Utc2Gps(t).error
    ensures r.Ok? ==>
      var total := Utc2Gps(t).value - GpsEpoch;
      var w := r.value;
      && 0 <= w.secondOfWeek < MicrosPerWeek
      && 0 <= w.day <= 6
      && 0 <= w.secondOfDay < MicrosPerDay
      && w.week * MicrosPerWeek + w.secondOfWeek == total
      && w.day * MicrosPerDay + w.secondOfDay == w.secondOfWeek
  {
    var g :- Utc2Gps(t);
    var total := g - GpsEpoch;
    var sw := total % MicrosPerWeek;
    Ok(WeekTime(total / MicrosPerWeek, sw, sw / MicrosPerDay, sw % MicrosPerDay))
  }
}
