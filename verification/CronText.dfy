/**
 The cron notation given independently of the parser: parts, fields and expressions as values,
 how they are written, and what they denote.  Parsing what is written gives what is denoted.
 */
module CronText {
  import opened Json
  import opened Numbers
  import opened Cron

  // ---- parts ----

  datatype Base = Star | Blank | Single(n: nat) | Span(lo: nat, hi: nat)

  /** A base with an optional step. */
  datatype Part = Part(base: Base, step: Option<nat>)

  function BaseText(b: Base): string {
    match b
    case Star => "*"
    case Blank => ""
    case Single(n) => Decimal(n)
    case Span(lo, hi) => Decimal(lo) + ['-'] + Decimal(hi)
  }

  function PartText(p: Part): string {
    if p.step.None? then BaseText(p.base) else BaseText(p.base) + ['/'] + Decimal(p.step.value)
  }

  function Low(b: Base, min: int): int {
    match b case Single(n) => n case Span(lo, _) => lo case _ => min
  }

  function High(b: Base, max: int): int {
    match b case Single(n) => n case Span(_, hi) => hi case _ => max
  }

  function StepOf(p: Part): nat { if p.step.None? then 1 else p.step.value }

  /** Within the bounds, in order, with a positive step that is a machine integer. */
  predicate Proper(p: Part, min: int, max: int) {
    0 < StepOf(p) <= MAX_INT && min <= Low(p.base, min) <= High(p.base, max) <= max
  }

  /** Every step-th value from the low end to the high end. */
  predicate Denotes(p: Part, min: int, max: int, v: int) {
    Proper(p, min, max) && Low(p.base, min) <= v <= High(p.base, max) && (v - Low(p.base, min)) % StepOf(p) == 0
  }

  // ---- reading a part ----

  lemma AtoiDecimal(n: nat)
    ensures Atoi(Decimal(n)) == if n <= MAX_INT then Some(n) else None
  {
    assert IsDigit(Decimal(n)[0]);
  }

  /** A sign may stand before the digits. */
  lemma AtoiSigned(n: nat)
    requires n <= MAX_INT
    ensures var m: int := n; Atoi("+" + Decimal(n)) == Some(m) && Atoi("-" + Decimal(n)) == Some(-m)
  {
    assert ("+" + Decimal(n))[1..] == Decimal(n) && ("-" + Decimal(n))[1..] == Decimal(n);
  }

  lemma {:induction false} IndexSkips(a: string, c: char, b: string)
    requires c !in a
    ensures Index(a + [c] + b, c) == |a|
  {
    if a == "" {
      assert a + [c] + b == [c] + b;
    } else {
      assert (a + [c] + b)[1..] == a[1..] + [c] + b;
      IndexSkips(a[1..], c, b);
    }
  }

  lemma {:induction false} IndexNone(a: string, c: char)
    requires c !in a
    ensures Index(a, c) == |a|
  {
    if a != "" { IndexNone(a[1..], c); }
  }

  lemma CutAt(a: string, sep: char, b: string)
    ensures (a + [sep] + b)[..|a|] == a && (a + [sep] + b)[|a| + 1..] == b
  {
  }

  lemma DigitsOnly(n: nat, c: char)
    requires !IsDigit(c)
    ensures c !in Decimal(n)
  {
  }

  /** The two ends, as far as they are machine integers. */
  function Ends(b: Base, min: int, max: int): Option<(int, int)> {
    match b
    case Single(n) => if n <= MAX_INT then Some((n, n)) else None
    case Span(lo, hi) => if lo <= MAX_INT && hi <= MAX_INT then Some((lo, hi)) else None
    case _ => Some((min, max))
  }

  lemma ParseBaseText(b: Base, min: int, max: int)
    ensures ParseBase(BaseText(b), min, max) == Ends(b, min, max)
  {
    match b
    case Star =>
    case Blank =>
    case Single(n) =>
      AtoiDecimal(n);
      DigitsOnly(n, '-');
      IndexNone(Decimal(n), '-');
      assert IsDigit(Decimal(n)[0]);
    case Span(lo, hi) =>
      ParseSpan(lo, hi, min, max);
  }

  lemma ParseSpan(lo: nat, hi: nat, min: int, max: int)
    ensures ParseBase(Decimal(lo) + ['-'] + Decimal(hi), min, max) == Ends(Span(lo, hi), min, max)
  {
    var a, b := Decimal(lo), Decimal(hi);
    AtoiDecimal(lo);
    AtoiDecimal(hi);
    DigitsOnly(lo, '-');
    IndexSkips(a, '-', b);
    CutAt(a, '-', b);
    assert IsDigit((a + ['-'] + b)[0]);
  }

  lemma BaseTextChars(b: Base)
    ensures forall c :: c in BaseText(b) ==> IsDigit(c) || c == '*' || c == '-'
  {
  }

  /** What `ParsePart` makes of a base's ends and a step. */
  function RangeOf(ends: Option<(int, int)>, step: Option<int>, min: int, max: int): Option<Range> {
    if step.None? || step.value <= 0 || ends.None? then None
    else if ends.value.0 < min || ends.value.1 > max || ends.value.0 > ends.value.1 then None
    else Some(Range(ends.value.0, ends.value.1, step.value))
  }

  lemma ParseStepless(base: string, min: int, max: int)
    requires '/' !in base
    ensures ParsePart(base, min, max) == RangeOf(ParseBase(base, min, max), Some(1), min, max)
  {
    IndexNone(base, '/');
    assert base[..|base|] == base;
  }

  lemma ParseStepped(base: string, step: string, min: int, max: int)
    requires '/' !in base
    ensures ParsePart(base + ['/'] + step, min, max) == RangeOf(ParseBase(base, min, max), Atoi(step), min, max)
  {
    IndexSkips(base, '/', step);
    CutAt(base, '/', step);
  }

  lemma RangeOfPart(p: Part, min: int, max: int)
    requires max <= MAX_INT
    ensures var step := if p.step.None? then Some(1) else if p.step.value <= MAX_INT then Some(p.step.value) else None;
            RangeOf(Ends(p.base, min, max), step, min, max) ==
            if Proper(p, min, max) then Some(Range(Low(p.base, min), High(p.base, max), StepOf(p))) else None
  {
  }

  /** Every part is read back from its text: refused if it is not proper, else exactly its range. */
  lemma ParsePartText(p: Part, min: int, max: int)
    requires max <= MAX_INT
    ensures ParsePart(PartText(p), min, max) ==
            if Proper(p, min, max) then Some(Range(Low(p.base, min), High(p.base, max), StepOf(p))) else None
  {
    var base := BaseText(p.base);
    BaseTextChars(p.base);
    ParseBaseText(p.base, min, max);
    RangeOfPart(p, min, max);
    if p.step.None? {
      ParseStepless(base, min, max);
    } else {
      ParseStepped(base, Decimal(p.step.value), min, max);
      AtoiDecimal(p.step.value);
    }
  }

  lemma InRangeByRemainder(lo: int, hi: int, step: int, v: int)
    requires step > 0
    ensures InRange(Range(lo, hi, step), v) <==> lo <= v <= hi && (v - lo) % step == 0
  {
    if InRange(Range(lo, hi, step), v) {
      var k: nat :| Nth(lo, step, k) == v;
      MultipleOf(k, step);
    }
    if lo <= v && (v - lo) % step == 0 {
      var k := (v - lo) / step;
      QuotientOf(v - lo, step);
      assert Nth(lo, step, k) == v;
    }
  }

  lemma MultipleOf(k: nat, step: int)
    requires step > 0
    ensures k * step >= 0 && (k * step) % step == 0
    decreases k
  {
    if k > 0 {
      MultipleOf(k - 1, step);
      assert k * step == (k - 1) * step + step;
      AddStep((k - 1) * step, step);
    }
  }

  lemma AddStep(x: int, step: int)
    requires step > 0
    ensures (x + step) % step == x % step
  {
    var q, r := x / step, x % step;
    assert x + step == (q + 1) * step + r;
    SameRemainder(x + step, step, q + 1, r);
  }

  lemma Multiples(d: int, step: int)
    requires step > 0
    ensures d >= 1 ==> d * step >= step
    ensures d <= -1 ==> d * step <= -step
  {
    if d >= 1 { assert (d - 1) * step >= 0; }
    if d <= -1 { assert (-d - 1) * step >= 0; }
  }

  lemma SameRemainder(x: int, step: int, q: int, r: int)
    requires step > 0 && x == q * step + r && 0 <= r < step
    ensures x % step == r
  {
    var q', r' := x / step, x % step;
    assert x == q' * step + r';
    assert (q - q') * step == q * step - q' * step;
    Multiples(q - q', step);
  }

  lemma QuotientOf(x: int, step: int)
    requires step > 0 && x >= 0 && x % step == 0
    ensures x / step >= 0 && (x / step) * step == x
  {
  }

  // ---- fields ----

  function FieldText(ps: seq<Part>): string
    requires ps != []
  {
    if |ps| == 1 then PartText(ps[0]) else PartText(ps[0]) + [','] + FieldText(ps[1..])
  }

  function PartTexts(ps: seq<Part>): seq<string> {
    if ps == [] then [] else [PartText(ps[0])] + PartTexts(ps[1..])
  }

  predicate AllProper(ps: seq<Part>, min: int, max: int) {
    forall i :: 0 <= i < |ps| ==> Proper(ps[i], min, max)
  }

  predicate SomeDenotes(ps: seq<Part>, min: int, max: int, v: int) {
    exists i :: 0 <= i < |ps| && Denotes(ps[i], min, max, v)
  }

  lemma {:induction false} SplitWhole(a: string, sep: char -> bool)
    requires forall i :: 0 <= i < |a| ==> !sep(a[i])
    ensures Split(a, sep) == [a]
  {
    if a != "" {
      SplitWhole(a[1..], sep);
      assert [a[0]] + a[1..] == a;
    }
  }

  lemma {:induction false} SplitAt(a: string, c: char, b: string, sep: char -> bool)
    requires (forall i :: 0 <= i < |a| ==> !sep(a[i])) && sep(c)
    ensures Split(a + [c] + b, sep) == [a] + Split(b, sep)
  {
    var s := a + [c] + b;
    if a == "" {
      assert s[1..] == b && s[0] == c;
    } else {
      assert s[1..] == a[1..] + [c] + b && s[0] == a[0];
      SplitAt(a[1..], c, b, sep);
      assert [a[0]] + a[1..] == a;
    }
  }

  lemma PartTextChars(p: Part)
    ensures forall i :: 0 <= i < |PartText(p)| ==> !IsComma(PartText(p)[i]) && !IsBlank(PartText(p)[i])
  {
    BaseTextChars(p.base);
  }

  lemma {:induction false} PartsOfField(ps: seq<Part>)
    requires ps != []
    ensures Parts(FieldText(ps)) == PartTexts(ps)
  {
    PartTextChars(ps[0]);
    if |ps| == 1 {
      SplitWhole(PartText(ps[0]), IsComma);
    } else {
      SplitAt(PartText(ps[0]), ',', FieldText(ps[1..]), IsComma);
      PartsOfField(ps[1..]);
    }
  }

  lemma {:induction false} PartTextsAt(ps: seq<Part>)
    ensures |PartTexts(ps)| == |ps| && forall i :: 0 <= i < |ps| ==> PartTexts(ps)[i] == PartText(ps[i])
  {
    if ps != [] { PartTextsAt(ps[1..]); }
  }

  lemma PartHasExactly(p: Part, min: int, max: int, v: int)
    requires max <= MAX_INT
    ensures PartHas(PartText(p), min, max, v) <==> Denotes(p, min, max, v)
  {
    ParsePartText(p, min, max);
    if Proper(p, min, max) { InRangeByRemainder(Low(p.base, min), High(p.base, max), StepOf(p), v); }
  }

  /** A written field is accepted just when all its parts are proper. */
  lemma FieldValid(ps: seq<Part>, min: int, max: int)
    requires ps != [] && max <= MAX_INT
    ensures ValidField(FieldText(ps), min, max) <==> AllProper(ps, min, max)
  {
    var parts := Parts(FieldText(ps));
    PartsOfField(ps);
    PartTextsAt(ps);
    forall i | 0 <= i < |ps|
      ensures ParsePart(parts[i], min, max).Some? <==> Proper(ps[i], min, max)
    {
      ParsePartText(ps[i], min, max);
    }
  }

  /** A written field has just the values its parts denote. */
  lemma FieldExact(ps: seq<Part>, min: int, max: int, v: int)
    requires ps != [] && max <= MAX_INT
    ensures FieldHas(FieldText(ps), min, max, v) <==> SomeDenotes(ps, min, max, v)
  {
    var parts := Parts(FieldText(ps));
    PartsOfField(ps);
    PartTextsAt(ps);
    forall i | 0 <= i < |ps|
      ensures PartHas(parts[i], min, max, v) <==> Denotes(ps[i], min, max, v)
    {
      assert parts[i] == PartText(ps[i]);
      PartHasExactly(ps[i], min, max, v);
    }
    assert FieldHas(FieldText(ps), min, max, v) <==> HasBefore(parts, |parts|, min, max, v);
  }

  /** What `parseField` returns for a written field. */
  method ParseFieldText(ps: seq<Part>, min: int, max: int) returns (out: Option<seq<int>>)
    requires ps != [] && max <= MAX_INT
    ensures out.Some? <==> AllProper(ps, min, max)
    ensures out.Some? ==> forall v :: v in out.value <==> SomeDenotes(ps, min, max, v)
  {
    out := ParseField(FieldText(ps), min, max);
    FieldValid(ps, min, max);
    forall v ensures FieldHas(FieldText(ps), min, max, v) <==> SomeDenotes(ps, min, max, v) {
      FieldExact(ps, min, max, v);
    }
  }

  // ---- expressions ----

  datatype Expr = Expr(minute: seq<Part>, hour: seq<Part>, day: seq<Part>, month: seq<Part>, week: seq<Part>)

  predicate Written(ps: seq<Part>) { ps != [] && FieldText(ps) != "" }

  /** Five fields, none of them written as nothing. */
  predicate AllWritten(e: Expr) {
    Written(e.minute) && Written(e.hour) && Written(e.day) && Written(e.month) && Written(e.week)
  }

  function Joined(a: string, b: string, c: string, d: string, e: string): string {
    a + [' '] + (b + [' '] + (c + [' '] + (d + [' '] + e)))
  }

  function ExprText(e: Expr): string
    requires AllWritten(e)
  {
    Joined(FieldText(e.minute), FieldText(e.hour), FieldText(e.day), FieldText(e.month), FieldText(e.week))
  }

  predicate Word(s: string) { s != "" && forall i :: 0 <= i < |s| ==> !IsBlank(s[i]) }

  lemma {:induction false} FieldTextChars(ps: seq<Part>)
    requires ps != []
    ensures forall i :: 0 <= i < |FieldText(ps)| ==> !IsBlank(FieldText(ps)[i])
  {
    PartTextChars(ps[0]);
    if |ps| > 1 { FieldTextChars(ps[1..]); }
  }

  /** Blanks before a word do not matter. */
  lemma BlankFirst(c: char, s: string)
    requires IsBlank(c)
    ensures Words([c] + s) == Words(s)
  {
    var parts := Split(s, IsBlank);
    assert ([c] + s)[1..] == s && ([""] + parts)[1..] == parts;
    assert Split([c] + s, IsBlank) == [""] + parts;
    assert NonEmpty([""] + parts) == [] + NonEmpty(parts);
  }

  /** Any blank ends a word. */
  lemma WordThen(a: string, c: char, b: string)
    requires Word(a) && IsBlank(c)
    ensures Words(a + [c] + b) == [a] + Words(b)
  {
    SplitAt(a, c, b, IsBlank);
    assert ([a] + Split(b, IsBlank))[1..] == Split(b, IsBlank);
  }

  lemma OneWord(a: string)
    requires Word(a)
    ensures Words(a) == [a]
  {
    SplitWhole(a, IsBlank);
    assert [a][1..] == [] && [a] + [] == [a];
    assert NonEmpty([a]) == [a] + NonEmpty([]);
  }

  lemma FiveWords(a: string, b: string, c: string, d: string, e: string)
    requires Word(a) && Word(b) && Word(c) && Word(d) && Word(e)
    ensures Words(Joined(a, b, c, d, e)) == [a, b, c, d, e]
  {
    var de := d + [' '] + e;
    var cde := c + [' '] + de;
    var bcde := b + [' '] + cde;
    OneWord(e);
    WordThen(d, ' ', e);
    WordThen(c, ' ', de);
    WordThen(b, ' ', cde);
    WordThen(a, ' ', bcde);
  }

  predicate ProperExpr(e: Expr) {
    AllProper(e.minute, 0, 59) && AllProper(e.hour, 0, 23) && AllProper(e.day, 1, 31)
    && AllProper(e.month, 1, 12) && AllProper(e.week, 0, 6)
  }

  predicate ExprDenotes(e: Expr, t: Moment) {
    SomeDenotes(e.minute, 0, 59, t.minute) && SomeDenotes(e.hour, 0, 23, t.hour)
    && SomeDenotes(e.day, 1, 31, t.day) && SomeDenotes(e.month, 1, 12, t.month) && SomeDenotes(e.week, 0, 6, t.weekday)
  }

  lemma WordsOfExpr(e: Expr)
    requires AllWritten(e)
    ensures Words(ExprText(e)) == [FieldText(e.minute), FieldText(e.hour), FieldText(e.day),
                                   FieldText(e.month), FieldText(e.week)]
  {
    FieldTextChars(e.minute);
    FieldTextChars(e.hour);
    FieldTextChars(e.day);
    FieldTextChars(e.month);
    FieldTextChars(e.week);
    FiveWords(FieldText(e.minute), FieldText(e.hour), FieldText(e.day), FieldText(e.month), FieldText(e.week));
  }

  /** A written expression is accepted just when it is proper. */
  lemma ExprValid(e: Expr)
    requires AllWritten(e)
    ensures ValidExpr(ExprText(e)) <==> ProperExpr(e)
  {
    WordsOfExpr(e);
    FieldValid(e.minute, 0, 59);
    FieldValid(e.hour, 0, 23);
    FieldValid(e.day, 1, 31);
    FieldValid(e.month, 1, 12);
    FieldValid(e.week, 0, 6);
  }

  lemma MatchesWords(expr: string, a: string, b: string, c: string, d: string, e: string, t: Moment)
    requires Words(expr) == [a, b, c, d, e]
    ensures Matches(expr, t) <==>
            && FieldHas(a, 0, 59, t.minute) && FieldHas(b, 0, 23, t.hour) && FieldHas(c, 1, 31, t.day)
            && FieldHas(d, 1, 12, t.month) && FieldHas(e, 0, 6, t.weekday)
  {
  }

  lemma MatchesFields(e: Expr, t: Moment)
    requires AllWritten(e)
    ensures Matches(ExprText(e), t) <==>
            && FieldHas(FieldText(e.minute), 0, 59, t.minute) && FieldHas(FieldText(e.hour), 0, 23, t.hour)
            && FieldHas(FieldText(e.day), 1, 31, t.day) && FieldHas(FieldText(e.month), 1, 12, t.month)
            && FieldHas(FieldText(e.week), 0, 6, t.weekday)
  {
    WordsOfExpr(e);
    MatchesWords(ExprText(e), FieldText(e.minute), FieldText(e.hour), FieldText(e.day), FieldText(e.month),
                 FieldText(e.week), t);
  }

  /** A written expression matches just the moments it denotes. */
  lemma ExprExact(e: Expr, t: Moment)
    requires AllWritten(e)
    ensures Matches(ExprText(e), t) <==> ExprDenotes(e, t)
  {
    MatchesFields(e, t);
    FieldExact(e.minute, 0, 59, t.minute);
    FieldExact(e.hour, 0, 23, t.hour);
    FieldExact(e.day, 1, 31, t.day);
    FieldExact(e.month, 1, 12, t.month);
    FieldExact(e.week, 0, 6, t.weekday);
  }
}
