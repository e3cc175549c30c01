/**
 A task for midnight of 29 February: it is started more often than it should be.
 */
module LeapDay {
  import opened Json
  import opened Numbers
  import opened Cron
  import opened CronText
  import opened Tasks

  const DAY: nat := 1440         // minutes
  const FOUR_YEARS: nat := 1461  // days

  // ---- the calendar from 1 January 2024, a Monday, until 2100 ----

  function MonthStart(month: nat, leap: bool): nat {
    var l := if leap then 1 else 0;
    if month <= 1 then 0 else if month == 2 then 31 else if month == 3 then 59 + l
    else if month == 4 then 90 + l else if month == 5 then 120 + l else if month == 6 then 151 + l
    else if month == 7 then 181 + l else if month == 8 then 212 + l else if month == 9 then 243 + l
    else if month == 10 then 273 + l else if month == 11 then 304 + l else 334 + l
  }

  /** The month of a day of the year, counting both from the given month on. */
  function MonthOf(day: nat, leap: bool, month: nat): (r: nat)
    requires 1 <= month <= 12 && MonthStart(month, leap) <= day
    ensures month <= r <= 12 && MonthStart(r, leap) <= day && (r < 12 ==> day < MonthStart(r + 1, leap))
    decreases 12 - month
  {
    if month < 12 && day >= MonthStart(month + 1, leap) then MonthOf(day, leap, month + 1) else month
  }

  function DateOf(day: nat): (int, int)
    requires day < FOUR_YEARS
  {
    var leap := day < 366;
    var d := if leap then day else (day - 366) % 365;
    var month := MonthOf(d, leap, 1);
    (d - MonthStart(month, leap) + 1, month)
  }

  function MomentOf(m: nat): Moment {
    var date := DateOf(m / DAY % FOUR_YEARS);
    Moment(m % 60, m / 60 % 24, date.0, date.1, (m / DAY + 1) % 7)
  }

  /** In four years 29 February is one day, the sixtieth. */
  lemma LeapDayOnce(day: nat)
    requires day < FOUR_YEARS
    ensures DateOf(day) == (29, 2) <==> day == 59
  {
    var leap := day < 366;
    var d := if leap then day else (day - 366) % 365;
    var month := MonthOf(d, leap, 1);
    assert month == 2 ==> 31 <= d < MonthStart(3, leap);
    assert d == 59 && leap ==> month == 2;
  }

  // ---- the schedule ----

  const MIDNIGHT_29_FEB: Expr :=
    Expr([Part(Single(0), None)], [Part(Single(0), None)], [Part(Single(29), None)], [Part(Single(2), None)], [Part(Star, None)])

  lemma IsWritten(e: Expr)
    requires e == MIDNIGHT_29_FEB
    ensures AllWritten(e) && ProperExpr(e)
  {
    assert PartText(Part(Star, None)) == "*";
  }

  /** As a user types it. */
  lemma WrittenAs(e: Expr)
    requires e == MIDNIGHT_29_FEB && AllWritten(e)
    ensures ExprText(e) == "0 0 29 2 *"
  {
    assert Decimal(0) == "0" && Decimal(2) == "2";
    assert Decimal(29) == Decimal(2) + "9";
    assert FieldText(e.week) == "*" && FieldText(e.month) == "2" && FieldText(e.day) == "29";
    assert FieldText(e.hour) == "0" && FieldText(e.minute) == "0";
  }

  lemma OneSingle(n: nat, min: int, max: int, v: int)
    requires min <= n <= max
    ensures SomeDenotes([Part(Single(n), None)], min, max, v) <==> v == n
  {
    var ps := [Part(Single(n), None)];
    assert Denotes(ps[0], min, max, v) <==> v == n;
  }

  lemma AnyWeekday(v: int)
    ensures SomeDenotes([Part(Star, None)], 0, 6, v) <==> 0 <= v <= 6
  {
    var ps := [Part(Star, None)];
    assert Denotes(ps[0], 0, 6, v) <==> 0 <= v <= 6;
  }

  /** The minutes this schedule denotes. */
  lemma DenotedMinutes(e: Expr, m: nat)
    requires e == MIDNIGHT_29_FEB && AllWritten(e)
    ensures Hits(ExprText(e), MomentOf)(m) <==> m % DAY == 0 && m / DAY % FOUR_YEARS == 59
  {
    var t := MomentOf(m);
    ExprExact(e, t);
    OneSingle(0, 0, 59, t.minute);
    OneSingle(0, 0, 23, t.hour);
    OneSingle(29, 1, 31, t.day);
    OneSingle(2, 1, 12, t.month);
    AnyWeekday(t.weekday);
    LeapDayOnce(m / DAY % FOUR_YEARS);
    MidnightOf(m);
  }

  lemma MidnightOf(m: nat)
    ensures m % DAY == 0 <==> m % 60 == 0 && m / 60 % 24 == 0
  {
  }

  function LeapMinute(n: nat): nat { (FOUR_YEARS * n + 59) * DAY }

  lemma LeapMinuteHits(n: nat)
    ensures LeapMinute(n) > 0 && LeapMinute(n) % DAY == 0 && LeapMinute(n) / DAY % FOUR_YEARS == 59
  {
  }

  lemma DayAfter(n: nat, k: nat)
    requires LeapMinute(n) < k <= LeapMinute(n) + WINDOW
    ensures !(k % DAY == 0 && k / DAY % FOUR_YEARS == 59)
  {
    var j := k / DAY - (FOUR_YEARS * n + 59);
    assert 0 <= j <= 366;
    if k % DAY == 0 {
      assert j > 0;
      assert k / DAY == FOUR_YEARS * n + (59 + j);
      assert k / DAY % FOUR_YEARS == 59 + j;
    }
  }

  lemma ArmedBefore(t: Task, m: nat, cal: Calendar)
    requires t.enabled && ValidExpr(t.cron) && m > 0 && t.nextRunAt == m * MINUTE && Hits(t.cron, cal)(m)
    ensures Armed(t, (m - 1) * MINUTE, cal) && HitsBetween(Hits(t.cron, cal), m - 1, m) == [m]
    ensures Spaced((m - 1) * MINUTE, [m * MINUTE, m * MINUTE + 30000])
  {
    var hit, b := Hits(t.cron, cal), m * MINUTE + 30000;
    assert (m - 1) * MINUTE / MINUTE == m - 1;
    assert NextMinute(t.cron, cal, m - 1) == Some(m);
    assert HitsBetween(hit, m - 1, m - 1) == [];
    assert [m * MINUTE, b][1..] == [b] && [b][1..] == [] && Spaced(b, []);
  }

  lemma NoneAhead(n: nat, e: Expr)
    requires e == MIDNIGHT_29_FEB && AllWritten(e)
    ensures !NextExists(Hits(ExprText(e), MomentOf), LeapMinute(n))
  {
    var m, hit := LeapMinute(n), Hits(ExprText(e), MomentOf);
    forall k: nat | m < k <= m + WINDOW ensures !hit(k) {
      DenotedMinutes(e, k);
      DayAfter(n, k);
    }
  }

  lemma TwoStarts(t: Task, m: nat, cal: Calendar)
    requires t.enabled && ValidExpr(t.cron) && m > 0 && t.nextRunAt == m * MINUTE
    requires !NextExists(Hits(t.cron, cal), m)
    ensures FiredMinutes(t, [m * MINUTE, m * MINUTE + 30000], cal) == [m, m]
  {
    var a, b := m * MINUTE, m * MINUTE + 30000;
    assert a / MINUTE == m && b / MINUTE == m;
    StaysDue(t, a, b, cal);
    assert [a, b][1..] == [b] && [b][1..] == [];
    assert FiredMinutes(t, [b], cal) == [m] + [];
  }

  /** From a minute before `m`, two ticks half a minute apart in minute `m` make two starts, not one. */
  ghost predicate StartedTwiceIn(t: Task, m: nat, cal: Calendar) {
    var ticks := [m * MINUTE, m * MINUTE + 30000];
    && m > 0 && Armed(t, (m - 1) * MINUTE, cal) && Spaced((m - 1) * MINUTE, ticks)
    && HitsBetween(Hits(t.cron, cal), m - 1, m) == [m]
    && FiredMinutes(t, ticks, cal) == [m, m]
  }

  lemma TwiceWithNoneAhead(t: Task, m: nat, cal: Calendar)
    requires t.enabled && ValidExpr(t.cron) && m > 0 && t.nextRunAt == m * MINUTE
    requires Hits(t.cron, cal)(m) && !NextExists(Hits(t.cron, cal), m)
    ensures StartedTwiceIn(t, m, cal)
  {
    ArmedBefore(t, m, cal);
    TwoStarts(t, m, cal);
  }

  /** On every 29 February of the calendar a task for its midnight is started too often. */
  lemma StartedTwice(n: nat, t: Task)
    requires t.enabled && t.cron == "0 0 29 2 *" && t.nextRunAt == LeapMinute(n) * MINUTE
    ensures StartedTwiceIn(t, LeapMinute(n), MomentOf)
  {
    var e, m := MIDNIGHT_29_FEB, LeapMinute(n);
    IsWritten(e);
    WrittenAs(e);
    ExprValid(e);
    LeapMinuteHits(n);
    DenotedMinutes(e, m);
    NoneAhead(n, e);
    TwiceWithNoneAhead(t, m, MomentOf);
  }

  /**
   A task for midnight of 29 February that is created in the day after one: it gets no due time
   and is never started, although the next 29 February matches.
   */
  lemma NeverStarted(n: nat, t: Task, now: nat, ticks: seq<nat>)
    requires t.cron == "0 0 29 2 *" && t.nextRunAt == 0 && now / MINUTE == LeapMinute(n) + DAY
    ensures FiredMinutes(Created(t, now, MomentOf), ticks, MomentOf) == []
    ensures Hits(t.cron, MomentOf)(LeapMinute(n + 1)) && LeapMinute(n + 1) > now / MINUTE
  {
    var e := MIDNIGHT_29_FEB;
    IsWritten(e);
    WrittenAs(e);
    ExprValid(e);
    NextLeapDay(n, e);
    NoneAfter(n, e);
    CreatedWithoutMatch(t, now, ticks, MomentOf);
  }

  lemma NextLeapDay(n: nat, e: Expr)
    requires e == MIDNIGHT_29_FEB && AllWritten(e)
    ensures Hits(ExprText(e), MomentOf)(LeapMinute(n + 1)) && LeapMinute(n + 1) > LeapMinute(n) + DAY
  {
    LeapMinuteHits(n + 1);
    DenotedMinutes(e, LeapMinute(n + 1));
  }

  lemma NoneAfter(n: nat, e: Expr)
    requires e == MIDNIGHT_29_FEB && AllWritten(e)
    ensures !NextExists(Hits(ExprText(e), MomentOf), LeapMinute(n) + DAY)
  {
    var m, hit := LeapMinute(n) + DAY, Hits(ExprText(e), MomentOf);
    forall k: nat | m < k <= m + WINDOW ensures !hit(k) {
      DenotedMinutes(e, k);
      YearAfter(n, k);
    }
  }

  lemma YearAfter(n: nat, k: nat)
    requires LeapMinute(n) + DAY < k <= LeapMinute(n) + DAY + WINDOW
    ensures k / DAY % FOUR_YEARS != 59
  {
    var j := k / DAY - (FOUR_YEARS * n + 59);
    assert 1 <= j <= 367;
    assert k / DAY == FOUR_YEARS * n + (59 + j);
    assert k / DAY % FOUR_YEARS == 59 + j;
  }

  // ---- a day that never comes ----

  const MIDNIGHT_30_FEB: Expr :=
    Expr([Part(Single(0), None)], [Part(Single(0), None)], [Part(Single(30), None)], [Part(Single(2), None)], [Part(Star, None)])

  lemma Is30Written(e: Expr)
    requires e == MIDNIGHT_30_FEB
    ensures AllWritten(e) && ProperExpr(e)
  {
    assert PartText(Part(Star, None)) == "*";
  }

  lemma Written30As(e: Expr)
    requires e == MIDNIGHT_30_FEB && AllWritten(e)
    ensures ExprText(e) == "0 0 30 2 *"
  {
    assert Decimal(0) == "0" && Decimal(2) == "2" && Decimal(3) == "3";
    assert Decimal(30) == Decimal(3) + "0";
    assert FieldText(e.week) == "*" && FieldText(e.month) == "2" && FieldText(e.day) == "30";
    assert FieldText(e.hour) == "0" && FieldText(e.minute) == "0";
  }

  lemma NoThirtieth(day: nat)
    requires day < FOUR_YEARS
    ensures DateOf(day) != (30, 2)
  {
    var leap := day < 366;
    var d := if leap then day else (day - 366) % 365;
    var month := MonthOf(d, leap, 1);
    assert month == 2 ==> 31 <= d < MonthStart(3, leap);
  }

  lemma Never30(e: Expr, k: nat)
    requires e == MIDNIGHT_30_FEB && AllWritten(e)
    ensures !Hits(ExprText(e), MomentOf)(k)
  {
    var t := MomentOf(k);
    ExprExact(e, t);
    OneSingle(30, 1, 31, t.day);
    OneSingle(2, 1, 12, t.month);
    NoThirtieth(k / DAY % FOUR_YEARS);
  }

  /** A request for 30 February that carries a due time is started at every tick from then on. */
  lemma StartedAtEveryTick(t: Task, now: nat, from: nat, ticks: seq<nat>)
    requires t.enabled && t.cron == "0 0 30 2 *" && 0 < t.nextRunAt <= from && Spaced(from, ticks)
    ensures |FiredMinutes(Created(t, now, MomentOf), ticks, MomentOf)| == |ticks|
    ensures forall k: nat :: !Hits(t.cron, MomentOf)(k)
  {
    var e := MIDNIGHT_30_FEB;
    Is30Written(e);
    Written30As(e);
    ExprValid(e);
    forall k: nat ensures !Hits(t.cron, MomentOf)(k) { Never30(e, k); }
    NextFound(t, MomentOf, now / MINUTE);
    AlwaysDue(Created(t, now, MomentOf), from, ticks, MomentOf);
  }
}
