/**
 Searching JSON text for a quoted word with `strstr`, blind to the structure of the text.

 `Strstr` is the library function: the first place where the pattern stands.  `Next` is the
 automaton for the two patterns the agent uses, `"word"` and `"word":`; it is proved to find
 the same place, and then run over the text of whole JSON values to say exactly which values
 the search can stumble on.
 */
module KeySearch {
  import opened Json

  // ---- strstr ----

  predicate StandsAt(s: string, pat: string, i: nat) {
    i + |pat| <= |s| && forall j :: 0 <= j < |pat| ==> s[i + j] == pat[j]
  }

  function Strstr(s: string, pat: string): Place {
    if StandsAt(s, pat, 0) then At(0)
    else if s == "" then Nowhere
    else Shift(Strstr(s[1..], pat), 1)
  }

  lemma StandsShift(s: string, pat: string, i: nat)
    requires 0 < i && s != ""
    ensures StandsAt(s, pat, i) <==> StandsAt(s[1..], pat, i - 1)
  {
    if i + |pat| <= |s| {
      assert forall j :: 0 <= j < |pat| ==> (s[i + j] == pat[j] <==> s[1..][i - 1 + j] == pat[j]);
    }
  }

  /** `Strstr` finds the first place where the pattern stands, if there is one. */
  lemma {:induction false} StrstrIsFirst(s: string, pat: string, i: nat)
    ensures Strstr(s, pat) == At(i) <==> StandsAt(s, pat, i) && forall j: nat :: j < i ==> !StandsAt(s, pat, j)
    ensures Strstr(s, pat).Nowhere? ==> !StandsAt(s, pat, i)
  {
    if s != "" && i > 0 {
      StrstrIsFirst(s[1..], pat, i - 1);
      forall j: nat | 0 < j <= i ensures StandsAt(s, pat, j) <==> StandsAt(s[1..], pat, j - 1) {
        StandsShift(s, pat, j);
      }
      if forall j: nat :: j < i ==> !StandsAt(s, pat, j) {
        forall j: nat | j < i - 1 ensures !StandsAt(s[1..], pat, j) { assert !StandsAt(s, pat, j + 1); }
      } else {
        var j: nat :| j < i && StandsAt(s, pat, j);
        assert j == 0 || StandsAt(s[1..], pat, j - 1);
      }
    }
  }

  // ---- the automaton ----

  datatype Pattern = Pattern(word: string, colon: bool)

  predicate Lower(c: char) { 'a' <= c <= 'z' }

  predicate PlainPattern(p: Pattern) {
    p.word != "" && forall i :: 0 <= i < |p.word| ==> Lower(p.word[i])
  }

  function PatternText(p: Pattern): string {
    "\"" + p.word + "\"" + if p.colon then ":" else ""
  }

  /** The number of pattern characters matched after reading `c` with `q` matched before. */
  function Next(p: Pattern, q: nat, c: char): (q': nat)
    requires PlainPattern(p) && q < |PatternText(p)|
    ensures q' <= |PatternText(p)|
  {
    if c == PatternText(p)[q] then q + 1
    else if c == '"' then 1
    else if q == |p.word| + 2 && c == p.word[0] then 2
    else 0
  }

  /** How many characters are read when the pattern is complete. */
  function Hit(p: Pattern, q: nat, s: string): (n: Place)
    requires PlainPattern(p) && q < |PatternText(p)|
    ensures n.At? ==> 0 < n.pos <= |s|
    decreases |s|
  {
    if s == "" then Nowhere
    else
      var q' := Next(p, q, s[0]);
      if q' == |PatternText(p)| then At(1) else Shift(Hit(p, q', s[1..]), 1)
  }

  /** The automaton's state after all of `s`, if the pattern is not completed inside it. */
  function Run(p: Pattern, q: nat, s: string): (r: Option<nat>)
    requires PlainPattern(p) && q < |PatternText(p)|
    ensures r.Some? ==> r.value < |PatternText(p)|
    decreases |s|
  {
    if s == "" then Some(q)
    else
      var q' := Next(p, q, s[0]);
      if q' == |PatternText(p)| then None else Run(p, q', s[1..])
  }

  lemma {:induction false} RunConcat(p: Pattern, q: nat, a: string, b: string)
    requires PlainPattern(p) && q < |PatternText(p)| && Run(p, q, a).Some?
    ensures Run(p, q, a + b) == Run(p, Run(p, q, a).value, b)
    ensures Hit(p, q, a + b) == Shift(Hit(p, Run(p, q, a).value, b), |a|)
    decreases |a|
  {
    if a == "" {
      assert a + b == b;
    } else {
      assert (a + b)[1..] == a[1..] + b;
      RunConcat(p, Next(p, q, a[0]), a[1..], b);
    }
  }

  lemma {:induction false} HitPrefix(p: Pattern, q: nat, a: string, b: string)
    requires PlainPattern(p) && q < |PatternText(p)| && Hit(p, q, a).At?
    ensures Hit(p, q, a + b) == Hit(p, q, a)
    decreases |a|
  {
    assert (a + b)[1..] == a[1..] + b;
    if Next(p, q, a[0]) != |PatternText(p)| { HitPrefix(p, Next(p, q, a[0]), a[1..], b); }
  }

  lemma {:induction false} StrstrSkip(s: string, pat: string, k: nat)
    requires k <= |s| && forall j: nat :: j < k ==> !StandsAt(s, pat, j)
    ensures Strstr(s, pat) == Shift(Strstr(s[k..], pat), k)
  {
    if k > 0 {
      forall j: nat | j < k - 1 ensures !StandsAt(s[1..], pat, j) {
        assert !StandsAt(s, pat, j + 1);
        StandsShift(s, pat, j + 1);
      }
      assert !StandsAt(s, pat, 0);
      StrstrSkip(s[1..], pat, k - 1);
      assert s[1..][k - 1..] == s[k..];
    }
  }

  /** After a mismatch, no occurrence starts in the part of the text the automaton forgets. */
  lemma MismatchSkips(p: Pattern, q: nat, c: char, rest: string, j: nat)
    requires PlainPattern(p) && q < |PatternText(p)| && c != PatternText(p)[q]
    requires j < q + 1 - Next(p, q, c)
    ensures !StandsAt(PatternText(p)[..q] + [c] + rest, PatternText(p), j)
  {
    var pat := PatternText(p);
    var s := pat[..q] + [c] + rest;
    assert s[q] == c && forall i :: 0 <= i < q ==> s[i] == pat[i];
    assert pat[0] == '"' && pat[1] == p.word[0];
    assert forall i :: 1 <= i <= |p.word| ==> pat[i] == p.word[i - 1] && Lower(pat[i]);
  }

  /** The automaton completes the pattern exactly where `strstr` finds it. */
  lemma {:induction false} HitIsStrstr(p: Pattern, q: nat, s: string)
    requires PlainPattern(p) && q < |PatternText(p)|
    ensures var pat := PatternText(p);
            var at := Strstr(pat[..q] + s, pat);
            && (Hit(p, q, s).Nowhere? <==> at.Nowhere?)
            && (at.At? ==> at.pos + |pat| == q + Hit(p, q, s).pos)
    decreases |s|
  {
    var pat := PatternText(p);
    var t := pat[..q] + s;
    if s == "" {
      if Strstr(t, pat).At? { StrstrIsFirst(t, pat, Strstr(t, pat).pos); }
    } else {
      var c, q' := s[0], Next(p, q, s[0]);
      assert t == pat[..q] + [c] + s[1..];
      if c == pat[q] {
        assert t == pat[..q + 1] + s[1..];
        if q' == |pat| {
          assert StandsAt(t, pat, 0);
        } else {
          HitIsStrstr(p, q', s[1..]);
        }
      } else {
        var k := q + 1 - q';
        forall j: nat | j < k ensures !StandsAt(t, pat, j) { MismatchSkips(p, q, c, s[1..], j); }
        StrstrSkip(t, pat, k);
        assert t[k..] == pat[..q'] + s[1..];
        HitIsStrstr(p, q', s[1..]);
      }
    }
  }

  lemma StrstrByHit(p: Pattern, s: string)
    requires PlainPattern(p)
    ensures var at := Strstr(s, PatternText(p));
            && (Hit(p, 0, s).Nowhere? <==> at.Nowhere?)
            && (at.At? ==> at.pos + |PatternText(p)| == Hit(p, 0, s).pos)
  {
    HitIsStrstr(p, 0, s);
    assert PatternText(p)[..0] + s == s;
  }

  // ---- running it over JSON text ----

  /** The last `n` units spell the start of the word, right after a quote character. */
  predicate SpellsTail(word: string, b: seq<Unit>, n: nat)
    requires n <= |word|
  {
    && n <= |b|
    && (forall i :: 0 <= i < n ==> b[|b| - n + i] == Plain(word[i]))
    && (|b| == n || b[|b| - n - 1] == Esc('"'))
  }

  /**
   A body that puts `"word"` into the text once it is quoted: the word itself, or anything
   that ends in an escaped quote followed by the word.
   */
  predicate Spells(word: string, b: seq<Unit>) {
    SpellsTail(word, b, |word|)
  }

  /** A key without escapes spells the word only if it is the word. */
  lemma PlainSpells(word: string, key: string)
    ensures Spells(word, PlainBody(key)) <==> key == word
  {
    var b := PlainBody(key);
    if Spells(word, b) {
      forall i | 0 <= i < |word| ensures key[i] == word[i] { assert b[|b| - |word| + i] == Plain(word[i]); }
      assert key == word;
    }
  }

  function UnitState(p: Pattern, q: nat, u: Unit): (q': nat)
    requires PlainPattern(p) && q <= |p.word| + 1
    ensures q' <= |p.word| + 1
  {
    match u
    case Esc(c) => if c == '"' then 1 else 0
    case Plain(c) => if 1 <= q <= |p.word| && c == p.word[q - 1] then q + 1 else 0
  }

  function BodyState(p: Pattern, b: seq<Unit>): (q: nat)
    requires PlainPattern(p)
    ensures q <= |p.word| + 1
  {
    if b == [] then 1 else UnitState(p, BodyState(p, b[..|b| - 1]), b[|b| - 1])
  }

  lemma SpellsSnoc(word: string, a: seq<Unit>, b: seq<Unit>, u: Unit, n: nat)
    requires b == a + [u] && 0 < n <= |word|
    ensures SpellsTail(word, b, n) <==> SpellsTail(word, a, n - 1) && u == Plain(word[n - 1])
  {
    assert |b| - n == |a| - (n - 1);
    assert b[|b| - 1] == u && forall i :: 0 <= i < |a| ==> b[i] == a[i];
    assert n <= |b| ==> forall i {:trigger word[i]} :: 0 <= i < n ==> b[|b| - n + i] == if i < n - 1 then a[|a| - (n - 1) + i] else u;
  }

  lemma {:induction false} BodyStateSpells(p: Pattern, b: seq<Unit>, n: nat)
    requires PlainPattern(p) && n <= |p.word|
    ensures BodyState(p, b) == n + 1 <==> SpellsTail(p.word, b, n)
    decreases |b|
  {
    if b != [] && n > 0 {
      var a, u := b[..|b| - 1], b[|b| - 1];
      BodyStateSpells(p, a, n - 1);
      SpellsSnoc(p.word, a, b, u, n);
    }
  }

  lemma {:induction false} RunBody(p: Pattern, b: seq<Unit>)
    requires PlainPattern(p) && ValidBody(b)
    ensures Run(p, 1, BodyText(b)) == Some(BodyState(p, b))
    decreases |b|
  {
    if b != [] {
      var a, u := b[..|b| - 1], b[|b| - 1];
      RunBody(p, a);
      assert b == a + [u];
      BodyTextSnoc(a, u);
      RunConcat(p, 1, BodyText(a), UnitText(u));
      RunUnit(p, BodyState(p, a), u);
    }
  }

  lemma RunUnit(p: Pattern, q: nat, u: Unit)
    requires PlainPattern(p) && ValidUnit(u) && q <= |p.word| + 1
    ensures Run(p, q, UnitText(u)) == Some(UnitState(p, q, u))
  {
    var pat := PatternText(p);
    assert pat[0] == '"' && pat[|p.word| + 1] == '"';
    assert forall i :: 1 <= i <= |p.word| ==> pat[i] == p.word[i - 1] && Lower(pat[i]);
    match u
    case Plain(c) =>
      assert Next(p, q, c) == UnitState(p, q, u);
      assert Run(p, UnitState(p, q, u), "") == Some(UnitState(p, q, u));
    case Esc(c) =>
      assert Next(p, q, '\\') == 0;
      assert UnitText(u)[1..] == [c];
      assert Next(p, 0, c) == UnitState(p, q, u);
      assert Run(p, 0, [c]) == Run(p, UnitState(p, q, u), "");
  }

  /** One character that does not complete the pattern. */
  lemma RunChar(p: Pattern, q: nat, c: char, rest: string)
    requires PlainPattern(p) && q < |PatternText(p)| && Next(p, q, c) < |PatternText(p)|
    ensures Run(p, q, [c] + rest) == Run(p, Next(p, q, c), rest)
    ensures Hit(p, q, [c] + rest) == Shift(Hit(p, Next(p, q, c), rest), 1)
  {
    assert ([c] + rest)[1..] == rest;
  }

  /** A quoted string seen from outside: what the automaton makes of it. */
  lemma RunQuoted(p: Pattern, b: seq<Unit>)
    requires PlainPattern(p) && ValidBody(b)
    ensures !Spells(p.word, b) ==> Run(p, 0, Quoted(b)) == Some(1)
    ensures Spells(p.word, b) && p.colon ==> Run(p, 0, Quoted(b)) == Some(|p.word| + 2)
    ensures Spells(p.word, b) && !p.colon ==> Hit(p, 0, Quoted(b)) == At(|Quoted(b)|)
  {
    RunBody(p, b);
    BodyStateSpells(p, b, |p.word|);
    RunConcat(p, 1, BodyText(b), "\"");
    RunClosingQuote(p, BodyState(p, b));
    RunChar(p, 0, '"', BodyText(b) + "\"");
    assert Quoted(b) == ['"'] + (BodyText(b) + "\"");
  }

  lemma RunClosingQuote(p: Pattern, q: nat)
    requires PlainPattern(p) && q <= |p.word| + 1
    ensures q <= |p.word| ==> Run(p, q, "\"") == Some(1)
    ensures q == |p.word| + 1 && p.colon ==> Run(p, q, "\"") == Some(q + 1)
    ensures q == |p.word| + 1 && !p.colon ==> Hit(p, q, "\"") == At(1)
  {
    var pat := PatternText(p);
    assert pat[0] == '"' && pat[|p.word| + 1] == '"';
    assert forall i :: 1 <= i <= |p.word| ==> pat[i] == p.word[i - 1] && Lower(pat[i]);
    assert "\""[1..] == "";
  }

  /** Some quoted text inside `v` completes the pattern. */
  predicate Mentions(p: Pattern, v: Value) {
    match v
    case Scalar(_) => false
    case Str(b) => !p.colon && Spells(p.word, b)
    case Arr(xs) => MentionsItems(p, xs)
    case Obj(ms) => MentionsMembers(p, ms)
  }

  predicate MentionsItems(p: Pattern, xs: Items) {
    xs.Item? && (Mentions(p, xs.head) || MentionsItems(p, xs.tail))
  }

  predicate MentionsMembers(p: Pattern, ms: Members) {
    ms.Member? && (Spells(p.word, ms.key) || Mentions(p, ms.value) || MentionsMembers(p, ms.rest))
  }

  lemma {:induction false} RunScalar(p: Pattern, t: string)
    requires PlainPattern(p) && forall i :: 0 <= i < |t| ==> ScalarChar(t[i])
    ensures Run(p, 0, t) == Some(0)
  {
    if t != "" {
      assert ScalarChar(t[0]);
      assert PatternText(p)[0] == '"';
      RunScalar(p, t[1..]);
    }
  }

  /** A separator puts the automaton back to its start. */
  lemma RunSeparator(p: Pattern, q: nat, c: char)
    requires PlainPattern(p) && q < |PatternText(p)|
    requires c in "{}[]," || (c == ':' && q != |p.word| + 2)
    ensures Next(p, q, c) == 0 && Run(p, q, [c]) == Some(0)
  {
    assert forall i :: 1 <= i <= |p.word| ==> PatternText(p)[i] == p.word[i - 1] && Lower(PatternText(p)[i]);
    assert Lower(p.word[0]);
    assert Run(p, 0, "") == Some(0);
  }

  lemma RunWrapped(p: Pattern, open: char, inner: string, close: char)
    requires PlainPattern(p) && open in "{[" && close in "}]" && Run(p, 0, inner).Some?
    ensures Run(p, 0, [open] + (inner + [close])) == Some(0)
  {
    RunSeparator(p, 0, open);
    RunSeparator(p, Run(p, 0, inner).value, close);
    RunConcat(p, 0, inner, [close]);
    RunChar(p, 0, open, inner + [close]);
  }

  /** Values that do not mention the word are passed over. */
  lemma {:induction false} RunValue(p: Pattern, v: Value)
    requires PlainPattern(p) && Valid(v) && !Mentions(p, v)
    ensures Run(p, 0, Text(v)).Some?
    decreases v
  {
    match v
    case Scalar(t) => RunScalar(p, t);
    case Str(b) => RunQuoted(p, b);
    case Arr(xs) => RunItems(p, xs); RunWrapped(p, '[', ItemsText(xs), ']');
    case Obj(ms) => RunMembers(p, ms); RunWrapped(p, '{', MembersText(ms), '}');
  }

  lemma {:induction false} RunItems(p: Pattern, xs: Items)
    requires PlainPattern(p) && ValidItems(xs) && !MentionsItems(p, xs)
    ensures Run(p, 0, ItemsText(xs)).Some?
    decreases xs
  {
    if xs.Item? {
      RunValue(p, xs.head);
      RunItems(p, xs.tail);
      RunThenComma(p, Text(xs.head), ItemsText(xs.tail));
      assert Text(xs.head) + "" == Text(xs.head);
    }
  }

  lemma {:induction false} RunMembers(p: Pattern, ms: Members)
    requires PlainPattern(p) && ValidMembers(ms) && !MentionsMembers(p, ms)
    ensures Run(p, 0, MembersText(ms)).Some?
    decreases ms
  {
    if ms.Member? {
      RunKey(p, ms.key);
      RunValue(p, ms.value);
      RunMembers(p, ms.rest);
      RunThenComma(p, Text(ms.value), MembersText(ms.rest));
      assert Text(ms.value) + "" == Text(ms.value);
      RunConcat(p, 0, KeyText(ms.key), Text(ms.value) + MoreMembers(ms.rest));
    }
  }

  lemma RunKey(p: Pattern, key: seq<Unit>)
    requires PlainPattern(p) && ValidBody(key) && !Spells(p.word, key)
    ensures Run(p, 0, KeyText(key)) == Some(0)
  {
    RunQuoted(p, key);
    RunConcat(p, 0, Quoted(key), ":");
    RunSeparator(p, 1, ':');
  }

  lemma RunComma(p: Pattern, a: string)
    requires PlainPattern(p) && Run(p, 0, a).Some?
    ensures Run(p, 0, a + ",") == Some(0)
  {
    RunSeparator(p, Run(p, 0, a).value, ',');
    RunConcat(p, 0, a, ",");
  }

  lemma RunThenComma(p: Pattern, a: string, b: string)
    requires PlainPattern(p) && Run(p, 0, a).Some?
    ensures Run(p, 0, a + ("," + b)) == Run(p, 0, b)
  {
    RunComma(p, a);
    RunConcat(p, 0, a + ",", b);
    Assoc(a, ",", b);
  }

  // ---- where the search first completes ----

  /** The search first completes after `pre`, leaving `post`. */
  predicate StopsAfter(p: Pattern, s: string, pre: string, post: string)
    requires PlainPattern(p)
  {
    s == pre + post && Hit(p, 0, s) == At(|pre|)
  }

  lemma StopsAppend(p: Pattern, s: string, pre: string, post: string, rest: string)
    requires PlainPattern(p) && StopsAfter(p, s, pre, post)
    ensures StopsAfter(p, s + rest, pre, post + rest)
  {
    HitPrefix(p, 0, s, rest);
    assert s + rest == pre + (post + rest);
  }

  lemma StopsPrepend(p: Pattern, a: string, s: string, pre: string, post: string)
    requires PlainPattern(p) && StopsAfter(p, s, pre, post) && Run(p, 0, a) == Some(0)
    ensures StopsAfter(p, a + s, a + pre, post)
  {
    RunConcat(p, 0, a, s);
    assert a + s == a + pre + post;
  }

  lemma StopsAfterComma(p: Pattern, a: string, s: string, pre: string, post: string)
    requires PlainPattern(p) && StopsAfter(p, s, pre, post) && Run(p, 0, a).Some?
    ensures StopsAfter(p, a + ("," + s), a + ("," + pre), post)
  {
    RunComma(p, a);
    StopsPrepend(p, a + ",", s, pre, post);
    assert a + ("," + s) == a + "," + s && a + ("," + pre) == a + "," + pre;
  }

  lemma StopsInside(p: Pattern, open: char, s: string, close: char, pre: string, post: string)
    requires PlainPattern(p) && StopsAfter(p, s, pre, post) && open in "{["
    ensures StopsAfter(p, [open] + (s + [close]), [open] + pre, post + [close])
  {
    StopsAppend(p, s, pre, post, [close]);
    RunSeparator(p, 0, open);
    StopsPrepend(p, [open], s + [close], pre, post + [close]);
  }

  predicate FollowsMember(s: string) {
    s == "" || s[0] == ',' || s[0] == '}'
  }

  /** The search first completes right before the text of `x`. */
  predicate FoundBefore(p: Pattern, s: string, pre: string, x: Value, post: string)
    requires PlainPattern(p)
  {
    Valid(x) && FollowsMember(post) && StopsAfter(p, s, pre, Text(x) + post)
  }

  lemma FoundAppend(p: Pattern, s: string, pre: string, x: Value, post: string, rest: string)
    requires PlainPattern(p) && FoundBefore(p, s, pre, x, post)
    requires post != "" || FollowsMember(rest)
    ensures FoundBefore(p, s + rest, pre, x, post + rest)
  {
    StopsAppend(p, s, pre, Text(x) + post, rest);
    assert Text(x) + post + rest == Text(x) + (post + rest);
  }

  lemma FoundInside(p: Pattern, open: char, s: string, close: char, pre: string, x: Value, post: string)
    requires PlainPattern(p) && FoundBefore(p, s, pre, x, post) && open in "{["
    requires post != "" || close == '}'
    ensures FoundBefore(p, [open] + (s + [close]), [open] + pre, x, post + [close])
  {
    StopsInside(p, open, s, close, pre, Text(x) + post);
    assert Text(x) + post + [close] == Text(x) + (post + [close]);
  }

  /** The search completes at the colon after a key that spells the word. */
  lemma FoundAtKey(p: Pattern, key: seq<Unit>, v: Value, rest: string)
    requires PlainPattern(p) && p.colon && ValidBody(key) && Spells(p.word, key)
    requires Valid(v) && FollowsMember(rest)
    ensures FoundBefore(p, KeyText(key) + (Text(v) + rest), KeyText(key), v, rest)
  {
    var t := Text(v) + rest;
    RunQuoted(p, key);
    assert PatternText(p)[|p.word| + 2] == ':';
    assert (":" + t)[0] == ':';
    RunConcat(p, 0, Quoted(key), ":" + t);
    assert KeyText(key) + t == Quoted(key) + (":" + t);
  }

  lemma {:induction false} FirstMention(p: Pattern, v: Value) returns (pre: string, x: Value, post: string)
    requires PlainPattern(p) && p.colon && Valid(v) && Mentions(p, v)
    ensures FoundBefore(p, Text(v), pre, x, post) && post != ""
    decreases v
  {
    match v
    case Arr(xs) =>
      pre, x, post := FirstMentionItems(p, xs);
      FoundInside(p, '[', ItemsText(xs), ']', pre, x, post);
      pre, post := "[" + pre, post + "]";
    case Obj(ms) =>
      pre, x, post := FirstMentionMembers(p, ms);
      FoundInside(p, '{', MembersText(ms), '}', pre, x, post);
      pre, post := "{" + pre, post + "}";
  }

  lemma {:induction false} FirstMentionItems(p: Pattern, xs: Items) returns (pre: string, x: Value, post: string)
    requires PlainPattern(p) && p.colon && ValidItems(xs) && MentionsItems(p, xs)
    ensures FoundBefore(p, ItemsText(xs), pre, x, post) && post != ""
    decreases xs
  {
    if Mentions(p, xs.head) {
      pre, x, post := FirstMention(p, xs.head);
      FoundAppend(p, Text(xs.head), pre, x, post, MoreItems(xs.tail));
      post := post + MoreItems(xs.tail);
    } else {
      pre, x, post := FirstMentionItems(p, xs.tail);
      RunValue(p, xs.head);
      StopsAfterComma(p, Text(xs.head), ItemsText(xs.tail), pre, Text(x) + post);
      pre := Text(xs.head) + ("," + pre);
    }
  }

  lemma {:induction false} FirstMentionMembers(p: Pattern, ms: Members) returns (pre: string, x: Value, post: string)
    requires PlainPattern(p) && p.colon && ValidMembers(ms) && MentionsMembers(p, ms)
    ensures FoundBefore(p, MembersText(ms), pre, x, post)
    decreases ms
  {
    var val, more := Text(ms.value), MoreMembers(ms.rest);
    if Spells(p.word, ms.key) {
      FoundAtKey(p, ms.key, ms.value, more);
      pre, x, post := KeyText(ms.key), ms.value, more;
    } else if Mentions(p, ms.value) {
      pre, x, post := FirstMention(p, ms.value);
      FoundAppend(p, val, pre, x, post, more);
      RunKey(p, ms.key);
      StopsPrepend(p, KeyText(ms.key), val + more, pre, Text(x) + (post + more));
      pre, post := KeyText(ms.key) + pre, post + more;
    } else {
      pre, x, post := FirstMentionMembers(p, ms.rest);
      RunValue(p, ms.value);
      RunKey(p, ms.key);
      StopsAfterComma(p, val, MembersText(ms.rest), pre, Text(x) + post);
      StopsPrepend(p, KeyText(ms.key), val + more, val + ("," + pre), Text(x) + post);
      pre := KeyText(ms.key) + (val + ("," + pre));
    }
  }
}
