/** The deployment timestamps: `days_to_ymd` against a day-by-day Gregorian calendar. */
module Calendar {
  import opened Wrappers

  newtype u32 = x: int | 0 <= x < 0x1_0000_0000
  newtype u64 = x: int | 0 <= x < 0x1_0000_0000_0000_0000

  // ---------- the calendar of RFC 3339, Appendix C ----------

  datatype Date = Date(y: nat, mo: nat, d: nat)

  predicate IsLeap(y: nat) {
    y % 4 == 0 && (y % 100 != 0 || y % 400 == 0)
  }

  function MonthLength(y: nat, mo: nat): nat {
    if mo == 2 then (if IsLeap(y) then 29 else 28)
    else if mo == 4 || mo == 6 || mo == 9 || mo == 11 then 30
    else 31
  }

  predicate IsValid(date: Date) {
    1 <= date.mo <= 12 && 1 <= date.d <= MonthLength(date.y, date.mo)
  }

  function NextDay(date: Date): Date {
    if date.d < MonthLength(date.y, date.mo) then date.(d := date.d + 1)
    else if date.mo < 12 then Date(date.y, date.mo + 1, 1)
    else Date(date.y + 1, 1, 1)
  }

  /** The date `n` days after 1970-01-01. */
  function DateAfter(n: nat): Date {
    if n == 0 then Date(1970, 1, 1) else NextDay(DateAfter(n - 1))
  }

  predicate Before(a: Date, b: Date) {
    a.y < b.y || (a.y == b.y && (a.mo < b.mo || (a.mo == b.mo && a.d < b.d)))
  }

  // ---------- counting days directly ----------

  /** First day of the March-based year `y`, counted from 0000-03-01. */
  function YearStart(y: nat): int {
    365 * y + y / 4 - y / 100 + y / 400
  }

  /** First day of the March-based month `mp` (0 is March) within its year. */
  function MonthStart(mp: nat): nat {
    (153 * mp + 2) / 5
  }

  function MarchYear(date: Date): int {
    if date.mo <= 2 then date.y - 1 else date.y
  }

  function MarchMonth(date: Date): int {
    if date.mo <= 2 then date.mo + 9 else date.mo - 3
  }

  /** Days from 0000-03-01 to a date: the inverse of the algorithm. */
  function Ordinal(date: Date): int
    requires IsValid(date) && MarchYear(date) >= 0
  {
    YearStart(MarchYear(date)) + MonthStart(MarchMonth(date)) + date.d - 1
  }

  lemma {:induction false} YearStartStep(y: nat)
    ensures YearStart(y + 1) == YearStart(y) + (if IsLeap(y + 1) then 366 else 365)
  {
    DivStep(y, 4);
    DivStep(y, 100);
    DivStep(y, 400);
    assert (y + 1) % 400 == 0 ==> (y + 1) % 100 == 0;
    assert (y + 1) % 100 == 0 ==> (y + 1) % 4 == 0;
  }

  lemma {:induction false} DivStep(y: nat, k: nat)
    requires k == 4 || k == 100 || k == 400
    ensures (y + 1) / k == y / k + (if (y + 1) % k == 0 then 1 else 0)
  {
  }

  lemma {:induction false} YearStartMonotone(y: nat, z: nat)
    requires y <= z
    ensures YearStart(y) <= YearStart(z)
    decreases z - y
  {
    if y < z {
      YearStartStep(y);
      YearStartMonotone(y + 1, z);
    }
  }

  /** Within a year the days of one month end where the next month starts. */
  lemma {:induction false} MonthStartStep(date: Date)
    requires IsValid(date) && MarchYear(date) >= 0
    ensures var mp := MarchMonth(date);
            if mp == 11
            then YearStart(MarchYear(date)) + MonthStart(11) + MonthLength(date.y, date.mo)
                 == YearStart(MarchYear(date) + 1)
            else MonthStart(mp) + MonthLength(date.y, date.mo) == MonthStart(mp + 1)
  {
    if MarchMonth(date) == 11 {
      YearStartStep(MarchYear(date));
    }
  }

  lemma {:induction false} MonthStartMonotone(m: nat, n: nat)
    requires m <= n
    ensures MonthStart(m) <= MonthStart(n)
  {
  }

  /** A date lies inside its own March-based month and year. */
  lemma {:induction false} OrdinalInside(date: Date)
    requires IsValid(date) && MarchYear(date) >= 0
    ensures Ordinal(date) < YearStart(MarchYear(date) + 1)
    ensures MarchMonth(date) < 11 ==> Ordinal(date) < YearStart(MarchYear(date)) + MonthStart(MarchMonth(date) + 1)
  {
    MonthStartStep(date);
    if MarchMonth(date) < 11 {
      MonthStartMonotone(MarchMonth(date) + 1, 11);
      YearStartStep(MarchYear(date));
    }
  }

  /** Earlier dates have smaller ordinals. */
  lemma {:induction false} OrdinalMonotone(a: Date, b: Date)
    requires IsValid(a) && MarchYear(a) >= 0 && IsValid(b) && MarchYear(b) >= 0
    requires Before(a, b)
    ensures Ordinal(a) < Ordinal(b)
  {
    OrdinalInside(a);
    if MarchYear(a) < MarchYear(b) {
      YearStartMonotone(MarchYear(a) + 1, MarchYear(b));
    } else if MarchMonth(a) < MarchMonth(b) {
      MonthStartMonotone(MarchMonth(a) + 1, MarchMonth(b));
    }
  }

  lemma {:induction false} OrdinalInjective(a: Date, b: Date)
    requires IsValid(a) && MarchYear(a) >= 0 && IsValid(b) && MarchYear(b) >= 0
    requires Ordinal(a) == Ordinal(b)
    ensures a == b
  {
    if Before(a, b) {
      OrdinalMonotone(a, b);
    } else if Before(b, a) {
      OrdinalMonotone(b, a);
    }
  }

  lemma {:induction false} NextDayIsOneLater(date: Date)
    requires IsValid(date) && MarchYear(date) >= 0
    ensures IsValid(NextDay(date)) && MarchYear(NextDay(date)) >= 0
    ensures Ordinal(NextDay(date)) == Ordinal(date) + 1
  {
    MonthStartStep(date);
  }

  // ---------- the algorithm ----------

  const DAYS_TO_EPOCH := 719_468
  const MAX_DAYS := 0x1_0000_0000 - 1 - DAYS_TO_EPOCH

  /** Year of the 400-year era from the day of the era, as the algorithm computes it. */
  function YearOfEra(doe: nat): int {
    (doe - doe / 1460 + doe / 36524 - doe / 146_096) / 365
  }

  /** The one-line division formula finds the year that contains the day. */
  lemma {:induction false} YearOfEraCorrect(doe: nat)
    requires doe < 146_097
    ensures 0 <= YearOfEra(doe) < 400
    ensures YearStart(YearOfEra(doe)) <= doe < YearStart(YearOfEra(doe) + 1)
  {
    var c := if doe == 146_096 then 3 else doe / 36524;
    var doc := doe - 36524 * c;
    var q := doc / 1461;
    var doq := doc - 1461 * q;
    var yq := if doq == 1460 then 3 else doq / 365;
    var r := doq - 365 * yq;
    EraSplit(doe, c, q, yq, r);
  }

  lemma {:induction false} EraSplit(doe: nat, c: nat, q: nat, yq: nat, r: nat)
    requires doe == 36524 * c + 1461 * q + 365 * yq + r
    requires c <= 3 && q <= 24 && yq <= 3 && r <= 365
    requires r == 365 ==> yq == 3 && (q < 24 || c == 3)
    ensures var y := 100 * c + 4 * q + yq; YearOfEra(doe) == y && y < 400 && YearStart(y) <= doe < YearStart(y + 1)
  {
    var y := 100 * c + 4 * q + yq;
    EraNumerator(doe, c, q, yq, r);
    assert y / 4 == 25 * c + q && y / 100 == c && y / 400 == 0;
    YearStartStep(y);
  }

  lemma {:induction false} EraNumerator(doe: nat, c: nat, q: nat, yq: nat, r: nat)
    requires doe == 36524 * c + 1461 * q + 365 * yq + r
    requires c <= 3 && q <= 24 && yq <= 3 && r <= 365
    requires r == 365 ==> yq == 3 && (q < 24 || c == 3)
    ensures YearOfEra(doe) == 100 * c + 4 * q + yq
  {
    var k := 24 * c + q + 365 * yq + r;
    assert doe == 1460 * (25 * c + q) + k;
    assert doe / 1460 == 25 * c + q + (if k >= 1460 then 1 else 0);
    assert doe / 36524 == c + (if doe == 146_096 then 1 else 0);
    assert doe / 146_096 == (if doe == 146_096 then 1 else 0);
    assert doe - doe / 1460 + doe / 36524 - doe / 146_096
         == 365 * (100 * c + 4 * q + yq) + (r - (if k >= 1460 then 1 else 0));
  }

  /** Month and day from the day of the March-based year, as the algorithm computes them. */
  lemma {:induction false} MonthOfYear(doy: nat)
    requires doy <= 365
    ensures var mp := (5 * doy + 2) / 153; mp <= 11 && MonthStart(mp) <= doy < MonthStart(mp + 1)
  {
  }

  /** Year of the era and day of the March-based year. */
  function YearAndDay(doe: u32): (r: (u32, u32))
    requires doe < 146_097
    ensures r.0 < 400 && r.1 <= 365
    ensures YearStart(r.0 as int) + r.1 as int == doe as int
    ensures r.1 as int < YearStart(r.0 as int + 1) - YearStart(r.0 as int)
  {
    YearOfEraCorrect(doe as nat);
    var yoe := (doe - doe / 1460 + doe / 36524 - doe / 146_096) / 365;
    assert yoe as int == YearOfEra(doe as nat);
    YearStartStep(yoe as nat);
    (yoe, doe - (365 * yoe + yoe / 4 - yoe / 100))
  }

  /** March-based month, and day of that month. */
  function MonthAndDay(doy: u32): (r: (u32, u32))
    requires doy <= 365
    ensures r.0 <= 11 && 1 <= r.1
    ensures MonthStart(r.0 as int) + r.1 as int - 1 == doy as int
    ensures doy as int < MonthStart(r.0 as int + 1)
  {
    MonthOfYear(doy as nat);
    var mp := (5 * doy + 2) / 153;
    (mp, doy - (153 * mp + 2) / 5 + 1)
  }

  /** `days_to_ymd` in checked u32 arithmetic: apart from the first addition, whose overflow is None, no sum
      overflows and no difference goes below zero. */
  function DaysToYmd(days: u32): (r: Option<(u32, u32, u32)>)
    ensures r.Some? <==> days as int <= MAX_DAYS
  {
    if days > 0xFFFF_FFFF - 719_468 then None
    else
      var z := days + 719_468;
      var era := z / 146_097;
      var doe := z - era * 146_097;
      var (yoe, doy) := YearAndDay(doe);
      var y := yoe + era * 400;
      var (mp, d) := MonthAndDay(doy);
      var mo := if mp < 10 then mp + 3 else mp - 9;
      Some((if mo <= 2 then y + 1 else y, mo, d))
  }

  function AsDate(ymd: (u32, u32, u32)): Date {
    Date(ymd.0 as nat, ymd.1 as nat, ymd.2 as nat)
  }

  /** Adding whole eras shifts the year start by whole eras. */
  lemma {:induction false} YearStartOfEra(era: nat, yoe: nat)
    ensures YearStart(yoe + 400 * era) == YearStart(yoe) + 146_097 * era
  {
    assert (yoe + 400 * era) / 4 == yoe / 4 + 100 * era;
    assert (yoe + 400 * era) / 100 == yoe / 100 + 4 * era;
    assert (yoe + 400 * era) / 400 == yoe / 400 + era;
  }

  /** A March-based year, month and day inside their ranges are a valid date. */
  lemma {:induction false} InsideIsValid(date: Date)
    requires 1 <= date.mo <= 12 && MarchYear(date) >= 0 && 1 <= date.d
    requires MonthStart(MarchMonth(date)) + date.d - 1 < MonthStart(MarchMonth(date) + 1)
    requires MonthStart(MarchMonth(date)) + date.d - 1 < YearStart(MarchYear(date) + 1) - YearStart(MarchYear(date))
    ensures IsValid(date)
  {
    YearStartStep(MarchYear(date));
  }

  /** The result is a valid date whose ordinal is the input: the algorithm inverts `Ordinal`. */
  lemma {:induction false} DaysToYmdInvertsOrdinal(days: u32)
    requires days as int <= MAX_DAYS
    ensures var date := AsDate(DaysToYmd(days).value);
            IsValid(date) && MarchYear(date) >= 0 && Ordinal(date) == days as int + DAYS_TO_EPOCH
  {
    hide YearStart, MonthStart, YearAndDay, MonthAndDay;
    var z := days + 719_468;
    var era := z / 146_097;
    var doe := z - era * 146_097;
    var (yoe, doy) := YearAndDay(doe);
    var (mp, d) := MonthAndDay(doy);
    YearStartOfEra(era as nat, yoe as nat);
    YearStartOfEra(era as nat, yoe as nat + 1);
    var date := AsDate(DaysToYmd(days).value);
    assert MarchYear(date) == yoe as int + 400 * era as int && MarchMonth(date) == mp as int;
    InsideIsValid(date);
  }

  /** Dates reached by counting from the epoch are valid and have the expected ordinal. */
  lemma {:induction false} DateAfterOrdinal(n: nat)
    ensures var date := DateAfter(n);
            IsValid(date) && MarchYear(date) >= 0 && Ordinal(date) == n + DAYS_TO_EPOCH
  {
    if n > 0 {
      DateAfterOrdinal(n - 1);
      NextDayIsOneLater(DateAfter(n - 1));
    }
  }

  /** `days_to_ymd(n)` is the date reached by `n` next-day steps from 1970-01-01. */
  lemma {:induction false} DaysToYmdCorrect(days: u32)
    requires days as int <= MAX_DAYS
    ensures AsDate(DaysToYmd(days).value) == DateAfter(days as nat)
    ensures IsValid(DateAfter(days as nat))
  {
    DaysToYmdInvertsOrdinal(days);
    DateAfterOrdinal(days as nat);
    OrdinalInjective(AsDate(DaysToYmd(days).value), DateAfter(days as nat));
  }

  /** The other direction: every valid date the u32 count can reach is produced by its own day number. */
  lemma {:induction false} YmdToDaysRoundTrip(date: Date)
    requires IsValid(date) && MarchYear(date) >= 0
    requires DAYS_TO_EPOCH <= Ordinal(date) <= MAX_DAYS + DAYS_TO_EPOCH
    ensures AsDate(DaysToYmd((Ordinal(date) - DAYS_TO_EPOCH) as u32).value) == date
  {
    var days := (Ordinal(date) - DAYS_TO_EPOCH) as u32;
    DaysToYmdInvertsOrdinal(days);
    OrdinalInjective(AsDate(DaysToYmd(days).value), date);
  }

  lemma {:induction false} DateAfterMonotone(m: nat, n: nat)
    requires m < n
    ensures Before(DateAfter(m), DateAfter(n))
  {
    DateAfterOrdinal(m);
    DateAfterOrdinal(n);
    if Before(DateAfter(n), DateAfter(m)) {
      OrdinalMonotone(DateAfter(n), DateAfter(m));
    }
  }

  // ---------- time stamps ----------

  datatype Stamp = Stamp(date: Date, h: nat, mi: nat, s: nat)

  /** The stamp that denotes a second count: its date and the seconds into that day. */
  predicate Denotes(stamp: Stamp, secs: nat) {
    && stamp.date == DateAfter(secs / 86_400)
    && stamp.h < 24 && stamp.mi < 60 && stamp.s < 60
    && 3600 * stamp.h + 60 * stamp.mi + stamp.s == secs % 86_400
  }

  predicate Earlier(a: Stamp, b: Stamp) {
    || Before(a.date, b.date)
    || (a.date == b.date && (a.h < b.h || (a.h == b.h && (a.mi < b.mi || (a.mi == b.mi && a.s < b.s)))))
  }

  /** `unix_secs_to_ymdhms`: peel off seconds, minutes and hours, cast the day count to u32 (which drops its high
      bits) and convert it. The stamp is right exactly for second counts below (MAX_DAYS + 1) days. */
  method UnixSecsToYmdhms(unixSecs: u64) returns (r: Option<Stamp>)
    ensures r.Some? ==> r.value.date == DateAfter((unixSecs as nat / 86_400) % 0x1_0000_0000)
    ensures unixSecs as nat < (MAX_DAYS + 1) * 86_400 ==> r.Some? && Denotes(r.value, unixSecs as nat)
    ensures unixSecs as nat >= (MAX_DAYS + 1) * 86_400 ==> r.None? || !Denotes(r.value, unixSecs as nat)
  {
    hide YearStart, DateAfter, DaysToYmd;
    var secs := unixSecs;
    var s := secs % 60;
    secs := secs / 60;
    var mi := secs % 60;
    secs := secs / 60;
    var h := secs % 24;
    secs := secs / 24;
    var days := (secs % 0x1_0000_0000) as u32;
    var ymd := DaysToYmd(days);
    if ymd.None? {
      return None;
    }
    DaysToYmdCorrect(days);
    r := Some(Stamp(AsDate(ymd.value), h as nat, mi as nat, s as nat));
    PeelTime(unixSecs as nat);
    if secs as nat > MAX_DAYS {
      DateAfterMonotone(days as nat, secs as nat);
    }
  }

  lemma {:induction false} PeelTime(n: nat)
    ensures n / 60 / 60 / 24 == n / 86_400
    ensures n % 86_400 == 3600 * (n / 60 / 60 % 24) + 60 * (n / 60 % 60) + n % 60
  {
  }

  /** Stamps order as the second counts they denote: later seconds, later stamp, and no two seconds share one. */
  lemma {:induction false} StampsAreMonotone(m: nat, n: nat, a: Stamp, b: Stamp)
    requires Denotes(a, m) && Denotes(b, n)
    ensures m < n <==> Earlier(a, b)
    ensures m == n <==> a == b
  {
    var (i, j) := (m / 86_400, n / 86_400);
    if i < j {
      DateAfterMonotone(i, j);
    } else if j < i {
      DateAfterMonotone(j, i);
    }
  }
}
