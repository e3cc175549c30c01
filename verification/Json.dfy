/**
 JSON values, their compact text (sections 4, 5 and 7 of RFC 8259), and what a left-to-right
 scan of that text does.

 A C string is the sequence of its characters without the terminating NUL, so reading a NUL
 is reaching the end of the sequence.  A string body is kept as the units it is written
 with, so one theorem covers every choice of escapes a printer may make.
 */
module Json {

  datatype Option<+T> = None | Some(value: T)

  /** A position in a text, if there is one. */
  datatype Place = Nowhere | At(pos: nat)

  function Shift(n: Place, k: nat): Place {
    if n.Nowhere? then n else At(k + n.pos)
  }

  // ---- values ----

  /** One character as written inside quotes: itself, or a backslash and a letter. */
  datatype Unit = Plain(c: char) | Esc(c: char)

  datatype Value =
    | Scalar(text: string)  // number, true, false or null
    | Str(body: seq<Unit>)
    | Arr(items: Items)
    | Obj(members: Members)

  datatype Items = NoItems | Item(head: Value, tail: Items)

  datatype Members = NoMembers | Member(key: seq<Unit>, value: Value, rest: Members)

  predicate ValidUnit(u: Unit) {
    match u
    case Plain(c) => c >= ' ' && c != '"' && c != '\\'
    case Esc(c) => c in "\"\\/bfnrtu"
  }

  predicate ValidBody(b: seq<Unit>) {
    forall i :: 0 <= i < |b| ==> ValidUnit(b[i])
  }

  predicate ScalarChar(c: char) {
    'a' <= c <= 'z' || 'A' <= c <= 'Z' || '0' <= c <= '9' || c == '+' || c == '-' || c == '.'
  }

  predicate Valid(v: Value) {
    match v
    case Scalar(t) => t != "" && forall i :: 0 <= i < |t| ==> ScalarChar(t[i])
    case Str(b) => ValidBody(b)
    case Arr(xs) => ValidItems(xs)
    case Obj(ms) => ValidMembers(ms)
  }

  predicate ValidItems(xs: Items) {
    xs.Item? ==> Valid(xs.head) && ValidItems(xs.tail)
  }

  predicate ValidMembers(ms: Members) {
    ms.Member? ==> ValidBody(ms.key) && Valid(ms.value) && ValidMembers(ms.rest)
  }

  /** A body written without any escape. */
  function PlainBody(s: string): (b: seq<Unit>)
    ensures |b| == |s| && forall i :: 0 <= i < |s| ==> b[i] == Plain(s[i])
  {
    seq(|s|, i requires 0 <= i < |s| => Plain(s[i]))
  }

  // ---- text ----

  function UnitText(u: Unit): string {
    match u
    case Plain(c) => [c]
    case Esc(c) => ['\\', c]
  }

  function BodyText(b: seq<Unit>): string {
    if b == [] then "" else UnitText(b[0]) + BodyText(b[1..])
  }

  function Quoted(b: seq<Unit>): string {
    "\"" + BodyText(b) + "\""
  }

  function Text(v: Value): string
    decreases v, 0
  {
    match v
    case Scalar(t) => t
    case Str(b) => Quoted(b)
    case Arr(xs) => "[" + (ItemsText(xs) + "]")
    case Obj(ms) => "{" + (MembersText(ms) + "}")
  }

  function ItemsText(xs: Items): string
    decreases xs, 0
  {
    if xs.NoItems? then "" else Text(xs.head) + MoreItems(xs.tail)
  }

  function MoreItems(xs: Items): string
    decreases xs, 1
  {
    if xs.NoItems? then "" else "," + ItemsText(xs)
  }

  function KeyText(key: seq<Unit>): string {
    Quoted(key) + ":"
  }

  function MembersText(ms: Members): string
    decreases ms, 0
  {
    if ms.NoMembers? then "" else KeyText(ms.key) + (Text(ms.value) + MoreMembers(ms.rest))
  }

  function MoreMembers(ms: Members): string
    decreases ms, 1
  {
    if ms.NoMembers? then "" else "," + MembersText(ms)
  }

  function Append(ms: Members, ns: Members): Members {
    if ms.NoMembers? then ns else ms.(rest := Append(ms.rest, ns))
  }

  lemma Assoc(a: string, b: string, c: string)
    ensures a + (b + c) == a + b + c
  {
  }

  lemma {:induction false} AppendMore(ms: Members, ns: Members)
    ensures MoreMembers(Append(ms, ns)) == MoreMembers(ms) + MoreMembers(ns)
    decreases ms, 1
  {
    if ms.Member? {
      AppendText(ms, ns);
      Assoc(",", MembersText(ms), MoreMembers(ns));
    } else {
      assert "" + MoreMembers(ns) == MoreMembers(ns);
    }
  }

  lemma {:induction false} AppendText(ms: Members, ns: Members)
    requires ms.Member?
    ensures MembersText(Append(ms, ns)) == MembersText(ms) + MoreMembers(ns)
    decreases ms, 0
  {
    AppendMore(ms.rest, ns);
    Assoc(Text(ms.value), MoreMembers(ms.rest), MoreMembers(ns));
    Assoc(KeyText(ms.key), Text(ms.value) + MoreMembers(ms.rest), MoreMembers(ns));
  }

  lemma {:induction false} AppendValid(ms: Members, ns: Members)
    requires ValidMembers(ms) && ValidMembers(ns)
    ensures ValidMembers(Append(ms, ns))
  {
    if ms.Member? { AppendValid(ms.rest, ns); }
  }

  lemma {:induction false} BodyTextSnoc(b: seq<Unit>, u: Unit)
    ensures BodyText(b + [u]) == BodyText(b) + UnitText(u)
  {
    if b != [] {
      assert (b + [u])[1..] == b[1..] + [u];
      BodyTextSnoc(b[1..], u);
    }
  }

  lemma TextStart(v: Value)
    requires Valid(v)
    ensures Text(v) != ""
    ensures Text(v)[0] == '{' <==> v.Obj?
    ensures Text(v)[0] == '[' <==> v.Arr?
    ensures Text(v)[0] == '"' <==> v.Str?
    ensures Text(v)[0] !in " :\t"
  {
    if v.Scalar? { assert ScalarChar(v.text[0]); }
  }

  // ---- scanning for the closing bracket ----

  /** Which bracket kinds are counted, and whether a backslash escapes outside quotes too. */
  datatype Rules = Rules(curly: bool, square: bool, escapeAnywhere: bool)

  datatype Cursor = Cursor(depth: int, inStr: bool, esc: bool)

  predicate Opens(r: Rules, c: char) {
    (c == '{' && r.curly) || (c == '[' && r.square)
  }

  predicate Closes(r: Rules, c: char) {
    (c == '}' && r.curly) || (c == ']' && r.square)
  }

  function Move(r: Rules, k: Cursor, c: char): Cursor {
    if k.esc then k.(esc := false)
    else if c == '\\' && (k.inStr || r.escapeAnywhere) then k.(esc := true)
    else if c == '"' then k.(inStr := !k.inStr)
    else if k.inStr then k
    else if Opens(r, c) then k.(depth := k.depth + 1)
    else if Closes(r, c) then k.(depth := k.depth - 1)
    else k
  }

  predicate Stops(r: Rules, k: Cursor, c: char) {
    !k.esc && !k.inStr && Closes(r, c) && k.depth == 1
  }

  /** How many characters up to and including the one that brings the depth back to zero. */
  function ClosingLength(r: Rules, k: Cursor, s: string): (n: Place)
    ensures n.At? ==> 0 < n.pos <= |s|
    decreases |s|
  {
    if s == "" then Nowhere
    else if Stops(r, k, s[0]) then At(1)
    else Shift(ClosingLength(r, Move(r, k, s[0]), s[1..]), 1)
  }

  /** One round of a loop that looks for the closing bracket from `start` on. */
  lemma ScanOn(r: Rules, k: Cursor, text: string, start: nat, p: nat, whole: Place)
    requires start <= p < |text| && whole == Shift(ClosingLength(r, k, text[p..]), p - start)
    ensures Stops(r, k, text[p]) ==> whole == At(p + 1 - start)
    ensures !Stops(r, k, text[p]) ==>
              whole == Shift(ClosingLength(r, Move(r, k, text[p]), text[p + 1..]), p + 1 - start)
  {
    assert text[p..][1..] == text[p + 1..];
  }

  /** Where the cursor is after all of `s`, if the scan does not stop inside it. */
  function Pass(r: Rules, k: Cursor, s: string): Option<Cursor>
    decreases |s|
  {
    if s == "" then Some(k)
    else if Stops(r, k, s[0]) then None
    else Pass(r, Move(r, k, s[0]), s[1..])
  }

  lemma {:induction false} PassConcat(r: Rules, k: Cursor, a: string, b: string)
    requires Pass(r, k, a).Some?
    ensures Pass(r, k, a + b) == Pass(r, Pass(r, k, a).value, b)
    ensures ClosingLength(r, k, a + b) == Shift(ClosingLength(r, Pass(r, k, a).value, b), |a|)
    decreases |a|
  {
    if a == "" {
      assert a + b == b;
    } else {
      assert (a + b)[1..] == a[1..] + b;
      PassConcat(r, Move(r, k, a[0]), a[1..], b);
    }
  }

  lemma {:induction false} PassBody(r: Rules, d: int, b: seq<Unit>)
    requires ValidBody(b)
    ensures Pass(r, Cursor(d, true, false), BodyText(b)) == Some(Cursor(d, true, false))
  {
    if b != [] {
      var k := Cursor(d, true, false);
      assert ValidUnit(b[0]);
      if b[0].Esc? {
        assert Pass(r, k, UnitText(b[0])) == Pass(r, k.(esc := true), [b[0].c]);
      }
      assert Pass(r, k, UnitText(b[0])) == Some(k);
      PassConcat(r, k, UnitText(b[0]), BodyText(b[1..]));
      PassBody(r, d, b[1..]);
    }
  }

  lemma PassQuoted(r: Rules, d: int, b: seq<Unit>)
    requires ValidBody(b)
    ensures Pass(r, Cursor(d, false, false), Quoted(b)) == Some(Cursor(d, false, false))
  {
    var k := Cursor(d, false, false);
    PassBody(r, d, b);
    PassConcat(r, k, "\"", BodyText(b));
    PassConcat(r, k, "\"" + BodyText(b), "\"");
  }

  lemma {:induction false} PassScalar(r: Rules, d: int, t: string)
    requires forall i :: 0 <= i < |t| ==> ScalarChar(t[i])
    ensures Pass(r, Cursor(d, false, false), t) == Some(Cursor(d, false, false))
  {
    if t != "" {
      assert ScalarChar(t[0]);
      PassScalar(r, d, t[1..]);
    }
  }

  lemma PassWrapped(r: Rules, d: int, open: char, inner: string, close: char)
    requires d >= 1 && ((open == '{' && close == '}') || (open == '[' && close == ']'))
    requires var k := Cursor(if Opens(r, open) then d + 1 else d, false, false);
             Pass(r, k, inner) == Some(k)
    ensures Pass(r, Cursor(d, false, false), [open] + (inner + [close])) == Some(Cursor(d, false, false))
  {
    var k := Cursor(if Opens(r, open) then d + 1 else d, false, false);
    PassConcat(r, k, inner, [close]);
    PassConcat(r, Cursor(d, false, false), [open], inner + [close]);
  }

  /** A whole value leaves the cursor where it was, whichever bracket kinds are counted. */
  lemma {:induction false} PassValue(r: Rules, d: int, v: Value)
    requires Valid(v) && d >= 1
    ensures Pass(r, Cursor(d, false, false), Text(v)) == Some(Cursor(d, false, false))
    decreases v, 0
  {
    match v
    case Scalar(t) => PassScalar(r, d, t);
    case Str(b) => PassQuoted(r, d, b);
    case Arr(xs) =>
      PassItems(r, if r.square then d + 1 else d, xs);
      PassWrapped(r, d, '[', ItemsText(xs), ']');
    case Obj(ms) =>
      PassMembers(r, if r.curly then d + 1 else d, ms);
      PassWrapped(r, d, '{', MembersText(ms), '}');
  }

  lemma {:induction false} PassItems(r: Rules, d: int, xs: Items)
    requires ValidItems(xs) && d >= 1
    ensures Pass(r, Cursor(d, false, false), ItemsText(xs)) == Some(Cursor(d, false, false))
    ensures Pass(r, Cursor(d, false, false), MoreItems(xs)) == Some(Cursor(d, false, false))
    decreases xs
  {
    var k := Cursor(d, false, false);
    if xs.Item? {
      PassValue(r, d, xs.head);
      PassItems(r, d, xs.tail);
      PassConcat(r, k, Text(xs.head), MoreItems(xs.tail));
      PassConcat(r, k, ",", ItemsText(xs));
    }
  }

  lemma {:induction false} PassMembers(r: Rules, d: int, ms: Members)
    requires ValidMembers(ms) && d >= 1
    ensures Pass(r, Cursor(d, false, false), MembersText(ms)) == Some(Cursor(d, false, false))
    ensures Pass(r, Cursor(d, false, false), MoreMembers(ms)) == Some(Cursor(d, false, false))
    decreases ms
  {
    var k := Cursor(d, false, false);
    if ms.Member? {
      PassQuoted(r, d, ms.key);
      PassConcat(r, k, Quoted(ms.key), ":");
      PassValue(r, d, ms.value);
      PassMembers(r, d, ms.rest);
      PassConcat(r, k, Text(ms.value), MoreMembers(ms.rest));
      PassConcat(r, k, KeyText(ms.key), Text(ms.value) + MoreMembers(ms.rest));
      PassConcat(r, k, ",", MembersText(ms));
    }
  }

  /** From its opening bracket, an object or array closes exactly at its own end. */
  lemma ClosesAtEnd(r: Rules, v: Value, rest: string)
    requires Valid(v) && ((v.Obj? && r.curly) || (v.Arr? && r.square))
    ensures ClosingLength(r, Cursor(0, false, false), Text(v) + rest) == At(|Text(v)|)
  {
    if v.Obj? {
      PassMembers(r, 1, v.members);
      ClosesWrapped(r, '{', MembersText(v.members), '}', rest);
    } else {
      PassItems(r, 1, v.items);
      ClosesWrapped(r, '[', ItemsText(v.items), ']', rest);
    }
  }

  lemma ClosesWrapped(r: Rules, open: char, inner: string, close: char, rest: string)
    requires Opens(r, open) && close == if open == '{' then '}' else ']'
    requires Pass(r, Cursor(1, false, false), inner) == Some(Cursor(1, false, false))
    ensures ClosingLength(r, Cursor(0, false, false), [open] + (inner + [close]) + rest) == At(|inner| + 2)
  {
    var k := Cursor(1, false, false);
    PassConcat(r, k, inner, [close] + rest);
    assert ClosingLength(r, k, [close] + rest) == At(1);
    PassConcat(r, Cursor(0, false, false), [open], inner + ([close] + rest));
    assert [open] + (inner + [close]) + rest == [open] + (inner + ([close] + rest));
  }

  /** The compact text of a small value. */
  lemma TextExample()
    ensures Text(Obj(Member([Plain('a')], Arr(Item(Scalar("1"), Item(Str([Esc('n')]), NoItems))), NoMembers)))
         == "{\"a\":[1,\"\\n\"]}"
  {
    assert BodyText([Plain('a')]) == "a" && BodyText([Esc('n')]) == "\\n";
    var xs := Item(Str([Esc('n')]), NoItems);
    assert MoreItems(NoItems) == "" && ItemsText(xs) == "\"\\n\"";
    assert ItemsText(Item(Scalar("1"), xs)) == "1,\"\\n\"";
    assert MoreMembers(NoMembers) == "";
    assert KeyText([Plain('a')]) == "\"a\":";
  }
}
