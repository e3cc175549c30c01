/**
 The scheduled-task manager: creating tasks and the tick that starts the due ones.
 Times are in milliseconds; a minute is identified by its index.
 */
module Tasks {
  import opened Json
  import opened Cron

  const MINUTE: nat := 60000

  datatype Task = Task(
    enabled: bool, cron: string, command: string, timeoutSec: int, createdAt: nat, nextRunAt: nat)

  // ---- one task ----

  predicate Fires(t: Task, now: nat) {
    t.enabled && t.nextRunAt > 0 && now >= t.nextRunAt
  }

  /** A task after a tick: moved to its next minute if it was due and there is one. */
  ghost function Ticked(t: Task, now: nat, cal: Calendar): Task {
    var next := NextMinute(t.cron, cal, now / MINUTE);
    if Fires(t, now) && next.Some? then t.(nextRunAt := next.value * MINUTE) else t
  }

  /** A request as `Create` stores it. */
  ghost function Created(t: Task, now: nat, cal: Calendar): Task {
    var next := NextMinute(t.cron, cal, now / MINUTE);
    t.(timeoutSec := if t.timeoutSec <= 0 then 60 else t.timeoutSec, createdAt := now,
       nextRunAt := if next.Some? then next.value * MINUTE else t.nextRunAt)
  }

  // ---- the manager ----

  class Manager {
    var tasks: map<string, Task>

    constructor ()
      ensures tasks == map[]
    {
      tasks := map[];
    }

    /** `Create`; `newId` is used when the request carries no id. */
    method Create(id: string, t: Task, newId: string, now: nat, cal: Calendar) returns (ok: bool)
      modifies this
      ensures ok <==> t.cron != "" && t.command != "" && ValidExpr(t.cron)
      ensures !ok ==> tasks == old(tasks)
      ensures ok ==> tasks == old(tasks)[(if id == "" then newId else id) := Created(t, now, cal)]
      ensures ok ==> var c := tasks[if id == "" then newId else id];
                && c.enabled == t.enabled && c.cron == t.cron && c.command == t.command && c.createdAt == now
                && c.timeoutSec == (if t.timeoutSec > 0 then t.timeoutSec else 60)
    {
      if t.cron == "" || t.command == "" { return false; }
      var c := ParseCron(t.cron);
      if c.None? { return false; }
      var key := if id == "" then newId else id;
      var task := t;
      if task.timeoutSec <= 0 { task := task.(timeoutSec := 60); }
      task := task.(createdAt := now);
      var next := NextRun(t.cron, cal, now / MINUTE);
      if next.Some? { task := task.(nextRunAt := next.value * MINUTE); }
      tasks := tasks[key := task];
      ok := true;
    }

    /** `tick`: the ids it starts, after moving each of them on. */
    method Tick(now: nat, cal: Calendar) returns (due: set<string>)
      modifies this
      ensures due == set id | id in old(tasks) && Fires(old(tasks)[id], now)
      ensures tasks.Keys == old(tasks).Keys
      ensures forall id :: id in tasks ==> tasks[id] == Ticked(old(tasks)[id], now, cal)
      ensures forall id :: id in due <==>
                id in old(tasks) && old(tasks)[id].enabled && 0 < old(tasks)[id].nextRunAt <= now
      ensures forall id :: id in tasks && id !in due ==> tasks[id] == old(tasks)[id]
      ensures forall id :: id in due ==> tasks[id] == old(tasks)[id].(nextRunAt := tasks[id].nextRunAt)
    {
      due := set id | id in tasks && Fires(tasks[id], now);
      var left := due;
      while left != {}
        invariant left <= due && tasks.Keys == old(tasks).Keys
        invariant forall id :: id in tasks && (id in left || id !in due) ==> tasks[id] == old(tasks)[id]
        invariant forall id :: id in due - left ==> tasks[id] == Ticked(old(tasks)[id], now, cal)
        decreases left
      {
        var id :| id in left;
        var next := NextRun(tasks[id].cron, cal, now / MINUTE);
        if next.Some? { tasks := tasks[id := tasks[id].(nextRunAt := next.value * MINUTE)]; }
        left := left - {id};
      }
    }
  }

  // ---- whole runs of ticks ----

  /** Ticks in order, none more than a minute after the one before. */
  predicate Spaced(from: nat, ticks: seq<nat>)
    decreases |ticks|
  {
    ticks != [] ==> from <= ticks[0] <= from + MINUTE && Spaced(ticks[0], ticks[1..])
  }

  function LastTick(from: nat, ticks: seq<nat>): nat
    decreases |ticks|
  {
    if ticks == [] then from else LastTick(ticks[0], ticks[1..])
  }

  /** The minute of every tick that starts a task, in order. */
  ghost function FiredMinutes(t: Task, ticks: seq<nat>, cal: Calendar): seq<nat>
    decreases |ticks|
  {
    if ticks == [] then []
    else (if Fires(t, ticks[0]) then [ticks[0] / MINUTE] else [])
         + FiredMinutes(Ticked(t, ticks[0], cal), ticks[1..], cal)
  }

  /** A disabled task is never started and never changed, whatever its due time. */
  lemma {:induction false} DisabledNeverStarts(t: Task, ticks: seq<nat>, cal: Calendar)
    requires !t.enabled
    ensures FiredMinutes(t, ticks, cal) == []
    ensures forall i :: 0 <= i < |ticks| ==> Ticked(t, ticks[i], cal) == t
    decreases |ticks|
  {
    if ticks != [] { DisabledNeverStarts(t, ticks[1..], cal); }
  }

  lemma DisabledFromCreate(t: Task, now: nat, ticks: seq<nat>, cal: Calendar)
    requires !t.enabled
    ensures FiredMinutes(Created(t, now, cal), ticks, cal) == []
  {
    DisabledNeverStarts(Created(t, now, cal), ticks, cal);
  }

  /** Some minute of the 366 days after `m` matches. */
  ghost predicate NextExists(hit: nat -> bool, m: nat) {
    exists k: nat :: m < k <= m + WINDOW && hit(k)
  }

  /** Every tick but the last that begins a new, matching minute has another one within 366 days. */
  ghost predicate AlwaysNext(hit: nat -> bool, at: nat, ticks: seq<nat>)
    decreases |ticks|
  {
    |ticks| >= 2 ==>
      && (ticks[0] / MINUTE > at / MINUTE && hit(ticks[0] / MINUTE) ==> NextExists(hit, ticks[0] / MINUTE))
      && AlwaysNext(hit, ticks[0], ticks[1..])
  }

  /** What `Create` and every successful tick leave behind at time `at`. */
  ghost predicate Armed(t: Task, at: nat, cal: Calendar) {
    t.enabled && exists n: nat :: NextMinute(t.cron, cal, at / MINUTE) == Some(n) && t.nextRunAt == n * MINUTE
  }

  /** All hits after `a` up to and including `b`, in order. */
  ghost function HitsBetween(hit: nat -> bool, a: nat, b: nat): seq<nat>
    decreases b
  {
    if b <= a then [] else HitsBetween(hit, a, b - 1) + (if hit(b) then [b] else [])
  }

  lemma {:induction false} HitsSplit(hit: nat -> bool, a: nat, m: nat, b: nat)
    requires a <= m <= b
    ensures HitsBetween(hit, a, b) == HitsBetween(hit, a, m) + HitsBetween(hit, m, b)
    decreases b
  {
    if b > m { HitsSplit(hit, a, m, b - 1); }
  }

  lemma {:induction false} LastTickLater(from: nat, ticks: seq<nat>)
    requires Spaced(from, ticks)
    ensures from <= LastTick(from, ticks)
    decreases |ticks|
  {
    if ticks != [] { LastTickLater(ticks[0], ticks[1..]); }
  }

  /** One tick of an armed task: it starts exactly if a new, matching minute has begun. */
  lemma ArmedTick(t: Task, at: nat, now: nat, cal: Calendar)
    requires Armed(t, at, cal) && at <= now <= at + MINUTE
    ensures Fires(t, now) <==> now / MINUTE > at / MINUTE && Hits(t.cron, cal)(now / MINUTE)
    ensures Fires(t, now) ==> NextMinute(t.cron, cal, now / MINUTE).Some? ==> Armed(Ticked(t, now, cal), now, cal)
    ensures !Fires(t, now) ==> Armed(Ticked(t, now, cal), now, cal)
  {
    var n: nat :| NextMinute(t.cron, cal, at / MINUTE) == Some(n) && t.nextRunAt == n * MINUTE;
    DueExactly(Hits(t.cron, cal), at, now, n);
  }

  lemma DueExactly(hit: nat -> bool, at: nat, now: nat, n: nat)
    requires FirstHit(hit, at / MINUTE, at / MINUTE + WINDOW) == Some(n) && at <= now <= at + MINUTE
    ensures n > 0 && (now >= n * MINUTE <==> now / MINUTE > at / MINUTE && hit(now / MINUTE))
    ensures now < n * MINUTE ==> FirstHit(hit, now / MINUTE, now / MINUTE + WINDOW) == Some(n)
  {
    MinuteOf(at, now, n);
    FirstHitIsEarliest(hit, at / MINUTE, at / MINUTE + WINDOW);
    if now < n * MINUTE && now / MINUTE == at / MINUTE + 1 { NextKept(hit, at / MINUTE, n); }
  }

  lemma MinuteOf(at: nat, now: nat, n: nat)
    requires at <= now <= at + MINUTE
    ensures now / MINUTE == at / MINUTE || now / MINUTE == at / MINUTE + 1
    ensures now >= n * MINUTE <==> now / MINUTE >= n
  {
  }

  /** A minute that does not match leaves the next one as it was. */
  lemma NextKept(hit: nat -> bool, m: nat, n: nat)
    requires FirstHit(hit, m, m + WINDOW) == Some(n) && m + 1 < n
    ensures FirstHit(hit, m + 1, m + 1 + WINDOW) == Some(n)
  {
    FirstHitIsEarliest(hit, m, m + WINDOW);
    FirstHitIsEarliest(hit, m + 1, m + 1 + WINDOW);
    var r := FirstHit(hit, m + 1, m + 1 + WINDOW);
    assert hit(n) && m + 1 < n <= m + 1 + WINDOW;
    assert r.Some? && hit(r.value);
  }

  lemma NextFound(t: Task, cal: Calendar, m: nat)
    requires ValidExpr(t.cron)
    ensures NextMinute(t.cron, cal, m).Some? <==> NextExists(Hits(t.cron, cal), m)
  {
    FirstHitIsEarliest(Hits(t.cron, cal), m, m + WINDOW);
  }

  lemma {:induction false} HitsAreLater(hit: nat -> bool, a: nat, b: nat)
    ensures forall x :: x in HitsBetween(hit, a, b) ==> a < x && hit(x)
    decreases b
  {
    if b > a { HitsAreLater(hit, a, b - 1); }
  }

  /** With no match ahead a start leaves the due time as it was, and every later tick starts it again. */
  lemma StaysDue(t: Task, now: nat, later: nat, cal: Calendar)
    requires Fires(t, now) && ValidExpr(t.cron) && !NextExists(Hits(t.cron, cal), now / MINUTE) && now <= later
    ensures Ticked(t, now, cal) == t && Fires(t, later)
  {
    NextFound(t, cal, now / MINUTE);
  }

  /** Then the next tick is a start too many. */
  lemma StartTooMany(t: Task, now: nat, ticks: seq<nat>, cal: Calendar, last: nat)
    requires Fires(t, now) && ValidExpr(t.cron) && !NextExists(Hits(t.cron, cal), now / MINUTE)
    requires ticks != [] && Spaced(now, ticks)
    ensures FiredMinutes(Ticked(t, now, cal), ticks, cal) != HitsBetween(Hits(t.cron, cal), now / MINUTE, last)
  {
    var hit, m := Hits(t.cron, cal), now / MINUTE;
    StaysDue(t, now, ticks[0], cal);
    HitsAreLater(hit, m, last);
    MinuteOf(now, ticks[0], 0);
    var fired := FiredMinutes(t, ticks, cal);
    assert fired[0] == ticks[0] / MINUTE && fired[0] in fired;
    assert !(m < fired[0] && hit(fired[0]));
  }

  lemma SameTail(x: nat, a: seq<nat>, b: seq<nat>)
    ensures [x] + a == [x] + b <==> a == b
  {
    assert ([x] + a)[1..] == a && ([x] + b)[1..] == b;
  }

  /** The hits up to a tick and those after it. */
  lemma HitsAtTick(t: Task, at: nat, now: nat, last: nat, cal: Calendar)
    requires Armed(t, at, cal) && at <= now <= at + MINUTE && now / MINUTE <= last
    ensures var hit := Hits(t.cron, cal);
            HitsBetween(hit, at / MINUTE, last) ==
              (if Fires(t, now) then [now / MINUTE] else []) + HitsBetween(hit, now / MINUTE, last)
  {
    var hit, m, m' := Hits(t.cron, cal), at / MINUTE, now / MINUTE;
    ArmedTick(t, at, now, cal);
    MinuteOf(at, now, 0);
    HitsSplit(hit, m, m', last);
    assert m' == m || (m' == m + 1 && HitsBetween(hit, m, m) == []);
  }

  /**
   Exactly once, exactly when: over any run of ticks at most a minute apart, the minutes in
   which an enabled task is started are all matching minutes, once each, in order, and no
   other, if and only if every tick but the last that begins a matching minute has another
   matching minute within 366 days.
   */
  lemma {:induction false} ExactlyOnce(t: Task, at: nat, ticks: seq<nat>, cal: Calendar)
    requires Armed(t, at, cal) && Spaced(at, ticks)
    ensures FiredMinutes(t, ticks, cal)
         == HitsBetween(Hits(t.cron, cal), at / MINUTE, LastTick(at, ticks) / MINUTE)
       <==> AlwaysNext(Hits(t.cron, cal), at, ticks)
    decreases |ticks|
  {
    if ticks != [] {
      var now, rest, hit := ticks[0], ticks[1..], Hits(t.cron, cal);
      var m', last := now / MINUTE, LastTick(at, ticks) / MINUTE;
      LastTickLater(now, rest);
      ArmedTick(t, at, now, cal);
      HitsAtTick(t, at, now, last, cal);
      NextFound(t, cal, m');
      var fired, due := FiredMinutes(Ticked(t, now, cal), rest, cal), HitsBetween(hit, m', last);
      SameTail(m', fired, due);
      assert [] + fired == fired && [] + due == due;
      if Fires(t, now) && !NextExists(hit, m') {
        if rest != [] { StartTooMany(t, now, rest, cal, last); }
      } else {
        ExactlyOnce(Ticked(t, now, cal), now, rest, cal);
      }
    }
  }

  // ---- tasks created with no match ahead ----

  /**
   For a task that is due at `due` whatever its schedule says (never, if that is 0): up to the
   first tick at or after that time nothing matches but that tick's minute, and from there on
   the condition is the usual one.  If there is no such tick, nothing matches at all.
   */
  ghost predicate DueRight(hit: nat -> bool, m: nat, from: nat, due: nat, ticks: seq<nat>)
    decreases |ticks|
  {
    if ticks == [] then HitsBetween(hit, m, from / MINUTE) == []
    else if due == 0 || ticks[0] < due then DueRight(hit, m, ticks[0], due, ticks[1..])
    else
      var first := ticks[0] / MINUTE;
      && HitsBetween(hit, m, first) == [first]
      && (|ticks| >= 2 ==> NextExists(hit, first) && AlwaysNext(hit, ticks[0], ticks[1..]))
  }

  lemma HitsStart(hit: nat -> bool, m: nat, first: nat, last: nat, rest: seq<nat>)
    requires m <= first <= last
    ensures [first] + rest == HitsBetween(hit, m, last) <==>
            HitsBetween(hit, m, first) == [first] && rest == HitsBetween(hit, first, last)
  {
    var a, b := HitsBetween(hit, m, first), HitsBetween(hit, first, last);
    HitsSplit(hit, m, first, last);
    HitsAreLater(hit, first, last);
    HitsUpTo(hit, m, first);
    FirstIsLast(hit, m, first);
    assert b != [] ==> b[0] in b && b[0] > first;
    assert a == [] ==> a + b == b;
    if [first] + rest == a + b {
      assert ([first] + rest)[0] == first && ([first] + rest)[1..] == rest;
      assert (a + b)[0] == a[0] && (a + b)[1..] == a[1..] + b;
    }
  }

  lemma {:induction false} HitsUpTo(hit: nat -> bool, a: nat, b: nat)
    ensures forall x :: x in HitsBetween(hit, a, b) ==> x <= b
    decreases b
  {
    if b > a { HitsUpTo(hit, a, b - 1); }
  }

  /** If the first hit of a range is its end, it is the only one. */
  lemma FirstIsLast(hit: nat -> bool, m: nat, first: nat)
    ensures var a := HitsBetween(hit, m, first);
            a != [] && a[0] == first ==> a == [first]
  {
    var a := HitsBetween(hit, m, first);
    if first > m {
      var before := HitsBetween(hit, m, first - 1);
      HitsUpTo(hit, m, first - 1);
      if before != [] { assert a[0] == before[0] && before[0] in before; }
    }
  }

  /** Exactly once, exactly when, for a task whose due time has nothing to do with its schedule. */
  lemma {:induction false} UnarmedExactly(t: Task, m: nat, from: nat, ticks: seq<nat>, cal: Calendar)
    requires t.enabled && ValidExpr(t.cron) && Spaced(from, ticks) && m <= from / MINUTE
    ensures FiredMinutes(t, ticks, cal) == HitsBetween(Hits(t.cron, cal), m, LastTick(from, ticks) / MINUTE)
       <==> DueRight(Hits(t.cron, cal), m, from, t.nextRunAt, ticks)
    decreases |ticks|
  {
    if ticks != [] {
      var now, rest, hit := ticks[0], ticks[1..], Hits(t.cron, cal);
      LastTickLater(now, rest);
      if !Fires(t, now) {
        UnarmedExactly(t, m, now, rest, cal);
        assert [] + FiredMinutes(t, rest, cal) == FiredMinutes(t, rest, cal);
      } else {
        DueNow(t, m, now, rest, cal);
      }
    }
  }

  lemma DueNow(t: Task, m: nat, now: nat, rest: seq<nat>, cal: Calendar)
    requires ValidExpr(t.cron) && Fires(t, now) && Spaced(now, rest) && m <= now / MINUTE
    requires now / MINUTE <= LastTick(now, rest) / MINUTE
    ensures var hit, first, last := Hits(t.cron, cal), now / MINUTE, LastTick(now, rest) / MINUTE;
            [first] + FiredMinutes(Ticked(t, now, cal), rest, cal) == HitsBetween(hit, m, last) <==>
            HitsBetween(hit, m, first) == [first] && (rest != [] ==> NextExists(hit, first) && AlwaysNext(hit, now, rest))
  {
    var hit, first, last := Hits(t.cron, cal), now / MINUTE, LastTick(now, rest) / MINUTE;
    var fired := FiredMinutes(Ticked(t, now, cal), rest, cal);
    HitsStart(hit, m, first, last, fired);
    NextFound(t, cal, first);
    if rest != [] {
      if NextExists(hit, first) {
        ExactlyOnce(Ticked(t, now, cal), now, rest, cal);
      } else {
        StartTooMany(t, now, rest, cal, last);
      }
    }
  }

  /**
   The same from the moment of creation.  A request whose schedule has no match in the next 366
   days keeps the due time it came with.
   */
  lemma ExactlyOnceFromCreate(t: Task, now: nat, ticks: seq<nat>, cal: Calendar)
    requires t.enabled && ValidExpr(t.cron) && Spaced(now, ticks)
    ensures var hit := Hits(t.cron, cal);
            FiredMinutes(Created(t, now, cal), ticks, cal)
              == HitsBetween(hit, now / MINUTE, LastTick(now, ticks) / MINUTE)
            <==> if NextExists(hit, now / MINUTE) then AlwaysNext(hit, now, ticks)
                 else DueRight(hit, now / MINUTE, now, t.nextRunAt, ticks)
  {
    NextFound(t, cal, now / MINUTE);
    if NextExists(Hits(t.cron, cal), now / MINUTE) {
      ExactlyOnce(Created(t, now, cal), now, ticks, cal);
    } else {
      UnarmedExactly(Created(t, now, cal), now / MINUTE, now, ticks, cal);
    }
  }

  /** A task without a due time is never started. */
  lemma {:induction false} NeverDue(t: Task, ticks: seq<nat>, cal: Calendar)
    requires t.nextRunAt == 0
    ensures FiredMinutes(t, ticks, cal) == []
    decreases |ticks|
  {
    if ticks != [] { NeverDue(t, ticks[1..], cal); }
  }

  lemma CreatedWithoutMatch(t: Task, now: nat, ticks: seq<nat>, cal: Calendar)
    requires t.nextRunAt == 0 && ValidExpr(t.cron) && !NextExists(Hits(t.cron, cal), now / MINUTE)
    ensures FiredMinutes(Created(t, now, cal), ticks, cal) == []
  {
    NextFound(t, cal, now / MINUTE);
    NeverDue(Created(t, now, cal), ticks, cal);
  }

  /** A due task whose schedule never matches is started at every tick. */
  lemma {:induction false} AlwaysDue(t: Task, from: nat, ticks: seq<nat>, cal: Calendar)
    requires Fires(t, from) && ValidExpr(t.cron) && Spaced(from, ticks) && forall k: nat :: !Hits(t.cron, cal)(k)
    ensures |FiredMinutes(t, ticks, cal)| == |ticks|
    decreases |ticks|
  {
    if ticks != [] {
      StaysDue(t, ticks[0], ticks[0], cal);
      AlwaysDue(t, ticks[0], ticks[1..], cal);
    }
  }
}
