/**
 Five-field cron expressions: what a field denotes, and the next minute a schedule matches.
 The calendar is an arbitrary function from minute index to the five calendar fields.
 */
module Cron {
  import opened Json
  import opened Numbers

  // ---- library string functions ----

  function Split(s: string, sep: char -> bool): (parts: seq<string>)
    ensures |parts| >= 1
  {
    if s == "" then [""]
    else
      var rest := Split(s[1..], sep);
      if sep(s[0]) then [""] + rest else [[s[0]] + rest[0]] + rest[1..]
  }

  function NonEmpty(parts: seq<string>): seq<string> {
    if parts == [] then []
    else (if parts[0] == "" then [] else [parts[0]]) + NonEmpty(parts[1..])
  }

  predicate IsBlank(c: char) {
    c == ' ' || '\t' <= c <= '\r' || c == '\U{85}' || c == '\U{A0}'
  }

  /** `strings.Fields` */
  function Words(s: string): seq<string> {
    NonEmpty(Split(s, IsBlank))
  }

  /** `strings.Index` for one character; the length if there is none. */
  function Index(s: string, c: char): (i: nat)
    ensures i <= |s| && (i < |s| ==> s[i] == c)
  {
    if s == "" || s[0] == c then 0 else 1 + Index(s[1..], c)
  }

  const MAX_INT: int := 0x7fff_ffff_ffff_ffff

  /** `strconv.Atoi` on a 64-bit machine. */
  function Atoi(s: string): Option<int> {
    var signed := s != "" && (s[0] == '-' || s[0] == '+');
    var d := if signed then s[1..] else s;
    if d == "" || exists i :: 0 <= i < |d| && !IsDigit(d[i]) then None
    else
      var n: int := Number(d);
      var v := if signed && s[0] == '-' then -n else n;
      if -MAX_INT - 1 <= v <= MAX_INT then Some(v) else None
  }

  // ---- fields ----

  /** Every `step`-th value from `lo` to `hi`. */
  datatype Range = Range(lo: int, hi: int, step: int)

  function Nth(lo: int, step: int, k: nat): int { lo + k * step }

  ghost predicate InRange(r: Range, v: int) {
    v <= r.hi && exists k: nat :: Nth(r.lo, r.step, k) == v
  }

  /** One comma-separated part of a field; `None` is an error. */
  function ParsePart(part: string, min: int, max: int): (r: Option<Range>)
    ensures r.Some? ==> min <= r.value.lo <= r.value.hi <= max && r.value.step > 0
  {
    var slash := Index(part, '/');
    var step := if slash == |part| then Some(1) else Atoi(part[slash + 1..]);
    if step.None? || step.value <= 0 then None
    else
      var base := part[..slash];
      var bounds := ParseBase(base, min, max);
      if bounds.None? then None
      else
        var (lo, hi) := bounds.value;
        if lo < min || hi > max || lo > hi then None else Some(Range(lo, hi, step.value))
  }

  function ParseBase(base: string, min: int, max: int): Option<(int, int)> {
    if base == "*" || base == "" then Some((min, max))
    else
      var dash := Index(base, '-');
      if dash < |base| then
        var a, b := Atoi(base[..dash]), Atoi(base[dash + 1..]);
        if a.None? || b.None? then None else Some((a.value, b.value))
      else
        var v := Atoi(base);
        if v.None? then None else Some((v.value, v.value))
  }

  predicate IsComma(c: char) { c == ',' }

  function Parts(s: string): seq<string> {
    Split(s, IsComma)
  }

  /** A field is well formed when all its parts are. */
  predicate ValidField(s: string, min: int, max: int) {
    forall i :: 0 <= i < |Parts(s)| ==> ParsePart(Parts(s)[i], min, max).Some?
  }

  /** The union of what the parts denote. */
  ghost predicate FieldHas(s: string, min: int, max: int, v: int) {
    exists i :: 0 <= i < |Parts(s)| && ParsePart(Parts(s)[i], min, max).Some?
                && InRange(ParsePart(Parts(s)[i], min, max).value, v)
  }

  /** `parseField`: exactly the values the field denotes, or an error if a part is malformed. */
  method ParseField(s: string, min: int, max: int) returns (out: Option<seq<int>>)
    ensures out.Some? <==> ValidField(s, min, max)
    ensures out.Some? ==> forall v :: v in out.value <==> FieldHas(s, min, max, v)
    ensures out.Some? ==> forall v :: v in out.value ==> min <= v <= max
  {
    var parts := Parts(s);
    var values := [];
    for n := 0 to |parts|
      invariant forall i :: 0 <= i < n ==> ParsePart(parts[i], min, max).Some?
      invariant forall v :: v in values <==> HasBefore(parts, n, min, max, v)
      invariant forall v :: v in values ==> min <= v <= max
    {
      var r := ParsePart(parts[n], min, max);
      if r.None? { return None; }
      var before := values;
      values := AppendRange(values, r.value);
      forall v ensures v in values <==> HasBefore(parts, n + 1, min, max, v) {
        if v in before {
          var i :| 0 <= i < n && PartHas(parts[i], min, max, v);
          assert 0 <= i < n + 1;
        } else if HasBefore(parts, n + 1, min, max, v) {
          var i :| 0 <= i < n + 1 && PartHas(parts[i], min, max, v);
          assert i == n;
        } else {
          assert !PartHas(parts[n], min, max, v);
        }
      }
    }
    forall v ensures v in values <==> FieldHas(s, min, max, v) {
      if FieldHas(s, min, max, v) {
        var i :| 0 <= i < |parts| && ParsePart(parts[i], min, max).Some? && InRange(ParsePart(parts[i], min, max).value, v);
        assert PartHas(parts[i], min, max, v);
      }
    }
    out := Some(values);
  }

  ghost predicate PartHas(part: string, min: int, max: int, v: int) {
    ParsePart(part, min, max).Some? && InRange(ParsePart(part, min, max).value, v)
  }

  ghost predicate HasBefore(parts: seq<string>, n: nat, min: int, max: int, v: int)
    requires n <= |parts|
  {
    exists i :: 0 <= i < n && PartHas(parts[i], min, max, v)
  }

  /** The inner loop of `parseField`. */
  method AppendRange(values: seq<int>, r: Range) returns (out: seq<int>)
    requires r.step > 0
    ensures forall v :: v in out <==> v in values || InRange(r, v)
    ensures forall v :: v in out && v !in values ==> r.lo <= v <= r.hi
  {
    out := values;
    var i := r.lo;
    ghost var k: nat := 0;
    while i <= r.hi
      invariant i == Nth(r.lo, r.step, k) && r.lo <= i
      invariant forall v :: v in out <==> v in values || (v <= r.hi && NthBelow(r, k, v))
      invariant forall v :: v in out && v !in values ==> r.lo <= v <= r.hi
      decreases r.hi - i
    {
      ghost var seen := out;
      out := out + [i];
      i := i + r.step;
      forall v ensures v in out <==> v in values || (v <= r.hi && NthBelow(r, k + 1, v)) {
        if v in seen {
          if v !in values { var j: nat :| j < k && Nth(r.lo, r.step, j) == v; assert j < k + 1; }
        } else if NthBelow(r, k + 1, v) {
          var j: nat :| j < k + 1 && Nth(r.lo, r.step, j) == v;
          assert v <= r.hi && v !in values ==> j == k;
        }
      }
      k := k + 1;
    }
    forall v ensures v in out <==> v in values || InRange(r, v) {
      if InRange(r, v) {
        var j: nat :| Nth(r.lo, r.step, j) == v;
        if j >= k { NthMonotone(r.lo, r.step, k, j); }
      }
    }
  }

  ghost predicate NthBelow(r: Range, k: nat, v: int) {
    exists j: nat :: j < k && Nth(r.lo, r.step, j) == v
  }

  lemma NthMonotone(lo: int, step: int, k: nat, j: nat)
    requires step > 0 && k <= j
    ensures Nth(lo, step, k) <= Nth(lo, step, j)
  {
    assert (j - k) * step >= 0;
  }

  // ---- schedules ----

  datatype Moment = Moment(minute: int, hour: int, day: int, month: int, weekday: int)

  type Calendar = nat -> Moment

  /** The parsed form: the values of each field, as listed. */
  datatype Schedule = Schedule(minute: seq<int>, hour: seq<int>, day: seq<int>, month: seq<int>, week: seq<int>)

  predicate ValidExpr(expr: string) {
    var w := Words(expr);
    && |w| == 5
    && ValidField(w[0], 0, 59) && ValidField(w[1], 0, 23) && ValidField(w[2], 1, 31)
    && ValidField(w[3], 1, 12) && ValidField(w[4], 0, 6)
  }

  /** The expression denotes this moment. */
  ghost predicate Matches(expr: string, t: Moment) {
    var w := Words(expr);
    && |w| == 5
    && FieldHas(w[0], 0, 59, t.minute) && FieldHas(w[1], 0, 23, t.hour) && FieldHas(w[2], 1, 31, t.day)
    && FieldHas(w[3], 1, 12, t.month) && FieldHas(w[4], 0, 6, t.weekday)
  }

  predicate Listed(c: Schedule, t: Moment) {
    t.minute in c.minute && t.hour in c.hour && t.day in c.day && t.month in c.month && t.weekday in c.week
  }

  method ParseCron(expr: string) returns (c: Option<Schedule>)
    ensures c.Some? <==> ValidExpr(expr)
    ensures c.Some? ==> forall t :: Listed(c.value, t) <==> Matches(expr, t)
  {
    var w := Words(expr);
    if |w| != 5 { return None; }
    var minute := ParseField(w[0], 0, 59);
    if minute.None? { return None; }
    var hour := ParseField(w[1], 0, 23);
    if hour.None? { return None; }
    var day := ParseField(w[2], 1, 31);
    if day.None? { return None; }
    var month := ParseField(w[3], 1, 12);
    if month.None? { return None; }
    var week := ParseField(w[4], 0, 6);
    if week.None? { return None; }
    c := Some(Schedule(minute.value, hour.value, day.value, month.value, week.value));
  }

  const WINDOW: nat := 366 * 24 * 60

  /** The minutes of the calendar that the expression denotes. */
  ghost function Hits(expr: string, cal: Calendar): nat -> bool {
    (m: nat) => Matches(expr, cal(m))
  }

  /** The first hit after `m` and not after `end`. */
  ghost function FirstHit(hit: nat -> bool, m: nat, end: nat): Option<nat>
    decreases end - m
  {
    if m >= end then None else if hit(m + 1) then Some(m + 1) else FirstHit(hit, m + 1, end)
  }

  /** `FirstHit` is the earliest hit of the window, and fails exactly when there is none. */
  lemma {:induction false} FirstHitIsEarliest(hit: nat -> bool, m: nat, end: nat)
    ensures var r := FirstHit(hit, m, end);
            && (r.Some? ==> m < r.value <= end && hit(r.value) && forall k: nat :: m < k < r.value ==> !hit(k))
            && (r.None? <==> forall k: nat :: m < k <= end ==> !hit(k))
    decreases end - m
  {
    if m < end && !hit(m + 1) { FirstHitIsEarliest(hit, m + 1, end); }
  }

  /** The minute `NextRun` is meant to return. */
  ghost function NextMinute(expr: string, cal: Calendar, from: nat): Option<nat> {
    if ValidExpr(expr) then FirstHit(Hits(expr, cal), from, from + WINDOW) else None
  }

  /** `NextRun`, from and to minute indices. */
  method NextRun(expr: string, cal: Calendar, from: nat) returns (next: Option<nat>)
    ensures next == NextMinute(expr, cal, from)
  {
    var c := ParseCron(expr);
    if c.None? { return None; }
    ghost var hit := Hits(expr, cal);
    next := Search(c.value, cal, from, hit);
  }

  /** The search loop. */
  method Search(c: Schedule, cal: Calendar, from: nat, ghost hit: nat -> bool) returns (next: Option<nat>)
    requires forall m: nat :: Listed(c, cal(m)) <==> hit(m)
    ensures next == FirstHit(hit, from, from + WINDOW)
  {
    var t := from + 1;
    for i := 0 to WINDOW
      invariant t == from + 1 + i
      invariant FirstHit(hit, from, from + WINDOW) == FirstHit(hit, from + i, from + WINDOW)
    {
      if Listed(c, cal(t)) { return Some(t); }
      t := t + 1;
    }
    next := None;
  }
}
