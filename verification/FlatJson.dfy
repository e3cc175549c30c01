/**
 The agent's minimal JSON reader: find a key in a flat object and unescape its string value.
 The partner is the escaper that prints such values; together they are a round trip.
 */
module FlatJson {
  import opened Json

  // ---- printing: json_escape ----

  function HexDigit(n: nat): char
    requires n < 16
  {
    if n < 10 then '0' + n as char else 'a' + (n - 10) as char
  }

  function EscapeChar(c: char): seq<Unit> {
    if c == '"' then [Esc('"')]
    else if c == '\\' then [Esc('\\')]
    else if c == '\n' then [Esc('n')]
    else if c == '\r' then [Esc('r')]
    else if c == '\t' then [Esc('t')]
    else if c < ' ' then
      [Esc('u'), Plain('0'), Plain('0'), Plain(HexDigit(c as nat / 16)), Plain(HexDigit(c as nat % 16))]
    else [Plain(c)]
  }

  function EscapeBody(s: string): seq<Unit> {
    if s == "" then [] else EscapeChar(s[0]) + EscapeBody(s[1..])
  }

  lemma {:induction false} BodyTextConcat(a: seq<Unit>, b: seq<Unit>)
    ensures BodyText(a + b) == BodyText(a) + BodyText(b)
  {
    if a == [] {
      assert a + b == b;
    } else {
      assert (a + b)[1..] == a[1..] + b;
      BodyTextConcat(a[1..], b);
    }
  }

  lemma {:induction false} EscapeValid(s: string)
    ensures ValidBody(EscapeBody(s))
  {
    if s != "" { EscapeValid(s[1..]); }
  }

  lemma {:induction false} EscapeSnoc(s: string, c: char)
    ensures EscapeBody(s + [c]) == EscapeBody(s) + EscapeChar(c)
  {
    if s == "" {
      assert (s + [c])[1..] == "";
    } else {
      assert (s + [c])[1..] == s[1..] + [c];
      EscapeSnoc(s[1..], c);
    }
  }

  /** `json_escape`, its output buffer as the text written so far. */
  method JsonEscape(s: string) returns (out: string)
    ensures out == BodyText(EscapeBody(s))
  {
    out := "";
    for i := 0 to |s|
      invariant out == BodyText(EscapeBody(s[..i]))
    {
      var t := EscapeOne(s[i]);
      EscapeRound(s, i);
      out := out + t;
    }
    assert s[..|s|] == s;
  }

  lemma EscapeRound(s: string, i: nat)
    requires i < |s|
    ensures BodyText(EscapeBody(s[..i + 1])) == BodyText(EscapeBody(s[..i])) + BodyText(EscapeChar(s[i]))
  {
    assert s[..i + 1] == s[..i] + [s[i]];
    EscapeSnoc(s[..i], s[i]);
    BodyTextConcat(EscapeBody(s[..i]), EscapeChar(s[i]));
  }

  /** What one character is written as. */
  method EscapeOne(c: char) returns (t: string)
    ensures t == BodyText(EscapeChar(c))
  {
    if c == '"' {
      t := "\\\"";
    } else if c == '\\' {
      t := "\\\\";
    } else if c == '\n' {
      t := "\\n";
    } else if c == '\r' {
      t := "\\r";
    } else if c == '\t' {
      t := "\\t";
    } else if c < ' ' {
      ControlText(c);
      return "\\u00" + [HexDigit(c as nat / 16), HexDigit(c as nat % 16)];
    } else {
      t := [c];
    }
    OneUnitText(EscapeChar(c)[0]);
  }

  lemma OneUnitText(u: Unit)
    ensures BodyText([u]) == UnitText(u)
  {
    assert [u][1..] == [];
    assert UnitText(u) + "" == UnitText(u);
  }

  lemma ControlText(c: char)
    requires c < ' ' && c !in "\n\r\t"
    ensures BodyText(EscapeChar(c)) == "\\u00" + [HexDigit(c as nat / 16), HexDigit(c as nat % 16)]
  {
    var a, b := HexDigit(c as nat / 16), HexDigit(c as nat % 16);
    assert EscapeChar(c)[1..] == [Plain('0'), Plain('0'), Plain(a), Plain(b)];
    assert EscapeChar(c)[1..][1..] == [Plain('0'), Plain(a), Plain(b)];
    assert EscapeChar(c)[1..][1..][1..] == [Plain(a), Plain(b)];
    assert EscapeChar(c)[1..][1..][1..][1..] == [Plain(b)];
    assert BodyText([Plain(b)]) == [b];
    assert BodyText([Plain(a), Plain(b)]) == [a, b];
    assert BodyText([Plain('0'), Plain(a), Plain(b)]) == ['0', a, b];
    assert BodyText([Plain('0'), Plain('0'), Plain(a), Plain(b)]) == ['0', '0', a, b];
  }

  // ---- reading: find_key ----

  predicate IsSpace(c: char) {
    c == ' ' || '\t' <= c <= '\r'
  }

  function SkipSpace(s: string): (r: string)
    ensures |r| <= |s|
  {
    if s != "" && IsSpace(s[0]) then SkipSpace(s[1..]) else s
  }

  /** What follows the string whose inside starts here. */
  function SkipString(s: string): (r: string)
    ensures |r| <= |s|
  {
    if s == "" then ""
    else if s[0] == '\\' && |s| > 1 then SkipString(s[2..])
    else if s[0] == '"' then s[1..]
    else SkipString(s[1..])
  }

  predicate StartsWithKey(s: string, key: string) {
    |key| < |s| && s[..|key|] == key && s[|key|] == '"'
  }

  /** The string whose inside starts here is the key and a colon follows: what comes after it. */
  function KeyHere(s: string, key: string): (r: Option<string>)
    ensures r.Some? ==> |r.value| < |s|
  {
    if StartsWithKey(s, key) then
      var q := SkipSpace(s[|key| + 1..]);
      if q != "" && q[0] == ':' then Some(q[1..]) else None
    else None
  }

  function FindKey(s: string, key: string): (r: Option<string>)
    ensures r.Some? ==> |r.value| < |s|
    decreases |s|
  {
    if s == "" then None
    else if s[0] != '"' then FindKey(s[1..], key)
    else if KeyHere(s[1..], key).Some? then KeyHere(s[1..], key)
    else FindKey(SkipString(s[1..]), key)
  }

  lemma FindKeyAtQuote(json: string, p: nat, key: string)
    requires p < |json| && json[p] == '"'
    ensures var here := KeyHere(json[p + 1..], key);
            FindKey(json[p..], key) == if here.Some? then here else FindKey(SkipString(json[p + 1..]), key)
  {
    assert json[p..][1..] == json[p + 1..];
  }

  /** `find_key`: the index after the colon, or -1. */
  method FindKeyIndex(json: string, key: string) returns (at: int)
    ensures -1 <= at <= |json|
    ensures FindKey(json, key) == if at >= 0 then Some(json[at..]) else None
  {
    var p := 0;
    while true
      invariant 0 <= p <= |json| && FindKey(json[p..], key) == FindKey(json, key)
      decreases |json| - p
    {
      p := QuoteIndex(json, p, key);
      if p == |json| {
        assert json[p..] == "";
        return -1;
      }
      FindKeyAtQuote(json, p, key);
      at := KeyHereIndex(json, p + 1, key);
      if at >= 0 { return; }
      p := StringEndIndex(json, p + 1);
    }
  }

  /** The test on one string: its text, its closing quote and the colon. */
  method KeyHereIndex(json: string, p: nat, key: string) returns (at: int)
    requires p <= |json|
    ensures -1 <= at <= |json|
    ensures KeyHere(json[p..], key) == if at >= 0 then Some(json[at..]) else None
  {
    assert p + |key| < |json| ==> json[p..][..|key|] == json[p..p + |key|];
    if p + |key| < |json| && json[p..p + |key|] == key && json[p + |key|] == '"' {
      assert json[p..][|key| + 1..] == json[p + |key| + 1..];
      var q := SpaceEnd(json, p + |key| + 1);
      if q < |json| && json[q] == ':' {
        assert json[q..][1..] == json[q + 1..];
        return q + 1;
      }
    }
    at := -1;
  }

  /** `strchr` for a quote. */
  method QuoteIndex(json: string, start: nat, ghost key: string) returns (p: nat)
    requires start <= |json|
    ensures start <= p <= |json| && (p < |json| ==> json[p] == '"')
    ensures FindKey(json[p..], key) == FindKey(json[start..], key)
  {
    p := start;
    while p < |json| && json[p] != '"'
      invariant start <= p <= |json| && FindKey(json[p..], key) == FindKey(json[start..], key)
    {
      assert json[p..][1..] == json[p + 1..];
      p := p + 1;
    }
  }

  method SpaceEnd(json: string, start: nat) returns (q: nat)
    requires start <= |json|
    ensures start <= q <= |json| && json[q..] == SkipSpace(json[start..])
  {
    q := start;
    while q < |json| && IsSpace(json[q])
      invariant start <= q <= |json| && SkipSpace(json[q..]) == SkipSpace(json[start..])
    {
      assert json[q..][1..] == json[q + 1..];
      q := q + 1;
    }
  }

  method StringEndIndex(json: string, start: nat) returns (p: nat)
    requires start <= |json|
    ensures start <= p <= |json| && json[p..] == SkipString(json[start..])
  {
    p := start;
    while p < |json|
      invariant start <= p <= |json| && SkipString(json[p..]) == SkipString(json[start..])
    {
      assert json[p..][1..] == json[p + 1..];
      if json[p] == '\\' && p + 1 < |json| {
        assert json[p..][2..] == json[p + 2..];
        p := p + 2;
      } else if json[p] == '"' {
        p := p + 1;
        return;
      } else {
        p := p + 1;
      }
    }
  }

  // ---- reading: ctc_json_get_string ----

  function HexValue(c: char): int {
    if '0' <= c <= '9' then c as int - '0' as int
    else if 'a' <= c <= 'f' then c as int - 'a' as int + 10
    else if 'A' <= c <= 'F' then c as int - 'A' as int + 10
    else -1
  }

  function HexRun(s: string, acc: nat): nat {
    if s != "" && HexValue(s[0]) >= 0 then HexRun(s[1..], acc * 16 + HexValue(s[0])) else acc
  }

  /**
   The low byte of what `sscanf("%4x")` reads: blanks, then within four characters a sign, a
   0x and digits.
   */
  function ScanHex4(s: string): (r: Option<nat>)
    ensures r.Some? ==> r.value < 256
  {
    var t := SkipSpace(s);
    var w := if |t| > 4 then t[..4] else t;
    var signed := w != "" && (w[0] == '+' || w[0] == '-');
    var u := if signed then w[1..] else w;
    var d := if |u| >= 2 && u[0] == '0' && (u[1] == 'x' || u[1] == 'X') then u[2..] else u;
    if d == "" || HexValue(d[0]) < 0 then None
    else
      var n: int := HexRun(d, 0);
      Some((if signed && w[0] == '-' then -n else n) % 256)
  }

  function Unescaped(c: char): char {
    match c
    case 'n' => '\n'
    case 't' => '\t'
    case 'r' => '\r'
    case _ => c
  }

  datatype Copied = Copied(text: string) | Overrun

  /**
   The characters written to a buffer with `room` left.  `Overrun` stands for the one input the
   C code does not define: a \u escape that runs past the end of the text.
   */
  function Decode(v: string, room: nat): Copied
    decreases |v|
  {
    if v == "" || v[0] == '"' || room == 0 then Copied("")
    else if v[0] == '\\' && |v| > 1 then
      if v[1] != 'u' then Cons([Unescaped(v[1])], Decode(v[2..], room - 1))
      else
        match ScanHex4(v[2..])
        case None => Cons("?", Decode(v[2..], room - 1))
        case Some(code) => if |v| < 6 then Overrun else Cons([code as char], Decode(v[6..], room - 1))
    else Cons([v[0]], Decode(v[1..], room - 1))
  }

  function Cons(s: string, r: Copied): Copied {
    if r.Overrun? then r else Copied(s + r.text)
  }

  lemma ConsCons(a: string, b: string, r: Copied)
    ensures Cons(a, Cons(b, r)) == Cons(a + b, r)
  {
    if r.Copied? { assert a + (b + r.text) == a + b + r.text; }
  }

  datatype Lookup = Absent | Found(text: string) | Undefined

  function GetString(json: string, key: string, buflen: nat): Lookup
    requires buflen > 0
  {
    match FindKey(json, key)
    case None => Absent
    case Some(rest) =>
      var v := SkipSpace(rest);
      if v == "" || v[0] != '"' then Absent
      else
        AsLookup(Decode(v[1..], buflen - 1))
  }

  /** `ctc_json_get_string` on a buffer of `buflen` characters. */
  method JsonGetString(json: string, key: string, buflen: nat) returns (r: Lookup)
    requires buflen > 0
    ensures r == GetString(json, key, buflen)
    ensures r.Found? ==> |r.text| < buflen
  {
    var at := FindKeyIndex(json, key);
    if at < 0 { return Absent; }
    var v := SpaceEnd(json, at);
    if v == |json| || json[v] != '"' { return Absent; }
    assert json[v..][1..] == json[v + 1..];
    r := DecodeAt(json, v + 1, buflen);
  }

  function AsLookup(c: Copied): Lookup {
    if c.Overrun? then Undefined else Found(c.text)
  }

  lemma CopyRound(want: Copied, buf: string, piece: string, a: Copied, b: Copied)
    requires want == Cons(buf, a) && a == Cons(piece, b)
    ensures want == Cons(buf + piece, b)
  {
    ConsCons(buf, piece, b);
  }

  /** The copying loop. */
  method DecodeAt(json: string, start: nat, buflen: nat) returns (r: Lookup)
    requires start <= |json| && buflen > 0
    ensures r == AsLookup(Decode(json[start..], buflen - 1))
    ensures r.Found? ==> |r.text| < buflen
  {
    var buf, v := "", start;
    ghost var want, room: nat := Decode(json[start..], buflen - 1), buflen - 1;
    while v < |json| && json[v] != '"' && |buf| + 1 < buflen
      invariant start <= v <= |json| && |buf| + 1 + room == buflen
      invariant want == Cons(buf, Decode(json[v..], room))
    {
      var piece, next := DecodeOne(json, v, room);
      if next > |json| { return Undefined; }
      CopyRound(want, buf, piece, Decode(json[v..], room), Decode(json[next..], room - 1));
      buf, v, room := buf + piece, next, room - 1;
    }
    assert buf + "" == buf;
    r := Found(buf);
  }

  /** One round of the copying loop; `next` past the end is the undefined escape. */
  method DecodeOne(json: string, v: nat, ghost room: nat) returns (piece: string, next: nat)
    requires v < |json| && json[v] != '"' && room > 0
    ensures |piece| == 1 && v < next
    ensures Decode(json[v..], room) == if next > |json| then Overrun else Cons(piece, Decode(json[next..], room - 1))
  {
    ghost var rest := json[v..];
    assert rest[1..] == json[v + 1..];
    if json[v] != '\\' || v + 1 == |json| { return [json[v]], v + 1; }
    assert rest[2..] == json[v + 2..];
    if json[v + 1] != 'u' { return [Unescaped(json[v + 1])], v + 2; }
    var code := ScanHex4(json[v + 2..]);
    if code.None? { return "?", v + 2; }
    if v + 6 <= |json| { assert rest[6..] == json[v + 6..]; }
    return [code.value as char], v + 6;
  }

  // ---- the round trip ----

  /** A member of a flat object: a string printed through `json_escape`, or a bare scalar. */
  datatype Field = Text_(key: string, value: string) | Bare(key: string, scalar: string)

  predicate PlainKey(key: string) {
    forall i :: 0 <= i < |key| ==> ValidUnit(Plain(key[i]))
  }

  predicate ValidField(f: Field) {
    PlainKey(f.key) && (f.Bare? ==> Valid(Scalar(f.scalar)))
  }

  predicate ValidFields(fs: seq<Field>) {
    forall i :: 0 <= i < |fs| ==> ValidField(fs[i])
  }

  function FieldValue(f: Field): Value {
    if f.Bare? then Scalar(f.scalar) else Str(EscapeBody(f.value))
  }

  function FieldMembers(fs: seq<Field>): Members {
    if fs == [] then NoMembers
    else Member(PlainBody(fs[0].key), FieldValue(fs[0]), FieldMembers(fs[1..]))
  }

  function ObjectText(fs: seq<Field>): string {
    Text(Obj(FieldMembers(fs)))
  }

  function FirstWith(fs: seq<Field>, key: string): Option<Field> {
    if fs == [] then None else if fs[0].key == key then Some(fs[0]) else FirstWith(fs[1..], key)
  }

  lemma {:induction false} PlainBodyText(s: string)
    ensures BodyText(PlainBody(s)) == s
  {
    if s != "" {
      assert PlainBody(s)[1..] == PlainBody(s[1..]);
      PlainBodyText(s[1..]);
    }
  }

  lemma SkipUnit(u: Unit, t: string)
    requires ValidUnit(u)
    ensures SkipString(UnitText(u) + t) == SkipString(t)
  {
    assert (UnitText(u) + t)[|UnitText(u)|..] == t;
  }

  lemma {:induction false} SkipStringBody(b: seq<Unit>, rest: string)
    requires ValidBody(b)
    ensures SkipString(BodyText(b) + ("\"" + rest)) == rest
  {
    if b == [] {
      assert "" + ("\"" + rest) == "\"" + rest;
      assert ("\"" + rest)[1..] == rest;
    } else {
      Assoc(UnitText(b[0]), BodyText(b[1..]), "\"" + rest);
      SkipUnit(b[0], BodyText(b[1..]) + ("\"" + rest));
      SkipStringBody(b[1..], rest);
    }
  }

  lemma KeyStart(key: string, s: string)
    requires PlainKey(key) && StartsWithKey(s, key)
    ensures if key == "" then s[0] == '"' else s[0] == key[0] && ValidUnit(Plain(s[0]))
  {
    if key != "" { assert s[..|key|][0] == key[0]; }
  }

  /** A plain key at the start of a string body matches it unit by unit. */
  lemma FirstUnit(key: string, u: Unit, t: string)
    requires PlainKey(key) && ValidUnit(u) && StartsWithKey(UnitText(u) + t, key)
    ensures key != "" && u == Plain(key[0]) && StartsWithKey(t, key[1..])
  {
    var s := UnitText(u) + t;
    KeyStart(key, s);
    assert s[0] == UnitText(u)[0];
    assert s[1..] == t && s[..|key|][1..] == t[..|key| - 1];
  }

  /** A key without escapes followed by a quote starts a string only if it is all of it. */
  lemma {:induction false} WholeBody(key: string, b: seq<Unit>, rest: string)
    requires PlainKey(key) && ValidBody(b) && StartsWithKey(BodyText(b) + ("\"" + rest), key)
    ensures BodyText(b) == key
    decreases |b|
  {
    if b == [] {
      assert "" + ("\"" + rest) == "\"" + rest;
      KeyStart(key, "\"" + rest);
    } else {
      var t := BodyText(b[1..]) + ("\"" + rest);
      Assoc(UnitText(b[0]), BodyText(b[1..]), "\"" + rest);
      FirstUnit(key, b[0], t);
      WholeBody(key[1..], b[1..], rest);
    }
  }

  lemma {:induction false} FindKeyScalar(t: string, rest: string, key: string)
    requires forall i :: 0 <= i < |t| ==> ScalarChar(t[i])
    ensures FindKey(t + rest, key) == FindKey(rest, key)
  {
    if t == "" {
      assert t + rest == rest;
    } else {
      assert ScalarChar(t[0]);
      assert (t + rest)[1..] == t[1..] + rest;
      FindKeyScalar(t[1..], rest, key);
    }
  }

  lemma KeyThen(key: string, rest: string)
    requires rest != "" && !IsSpace(rest[0])
    ensures KeyHere(key + ("\"" + rest), key) == if rest[0] == ':' then Some(rest[1..]) else None
  {
    var s := key + ("\"" + rest);
    assert s[..|key|] == key && s[|key| + 1..] == rest;
  }

  predicate MemberEnd(s: string) { s != "" && (s[0] == ',' || s[0] == '}') }

  /** A value is never taken for a key, even if it spells one. */
  lemma FindKeyValue(f: Field, rest: string, key: string)
    requires ValidField(f) && PlainKey(key) && MemberEnd(rest)
    ensures FindKey(Text(FieldValue(f)) + rest, key) == FindKey(rest, key)
  {
    match f
    case Bare(_, t) => FindKeyScalar(t, rest, key);
    case Text_(_, value) =>
      var b := EscapeBody(value);
      EscapeValid(value);
      var s := BodyText(b) + ("\"" + rest);
      QuotedThen(b, rest);
      SkipStringBody(b, rest);
      if StartsWithKey(s, key) {
        WholeBody(key, b, rest);
        KeyThen(key, rest);
      }
  }

  /** The key of a member is found if and only if it is the one looked for. */
  lemma FindKeyKey(k: string, rest: string, key: string)
    requires PlainKey(k) && PlainKey(key)
    ensures FindKey(KeyText(PlainBody(k)) + rest, key) == if k == key then Some(rest) else FindKey(rest, key)
  {
    var s := k + ("\"" + (":" + rest));
    PlainBodyText(k);
    assert KeyText(PlainBody(k)) + rest == "\"" + s;
    assert ("\"" + s)[1..] == s;
    assert ValidBody(PlainBody(k));
    SkipStringBody(PlainBody(k), ":" + rest);
    assert (":" + rest)[1..] == rest;
    if k == key {
      KeyThen(key, ":" + rest);
    } else if StartsWithKey(s, key) {
      WholeBody(key, PlainBody(k), ":" + rest);
      assert false;
    }
  }

  ghost predicate ValueThen(f: Field, s: string) {
    exists rest :: MemberEnd(rest) && s == Text(FieldValue(f)) + rest
  }

  lemma {:induction false} FindKeyFields(fs: seq<Field>, key: string)
    requires ValidFields(fs) && PlainKey(key)
    ensures var r := FindKey(MembersText(FieldMembers(fs)) + "}", key);
            var f := FirstWith(fs, key);
            if f.None? then r.None? else ValidField(f.value) && r.Some? && ValueThen(f.value, r.value)
  {
    if fs == [] {
      assert "" + "}" == "}" && "}"[1..] == "";
    } else {
      var f := fs[0];
      var more := MoreMembers(FieldMembers(fs[1..])) + "}";
      var val := Text(FieldValue(f));
      assert MembersText(FieldMembers(fs)) + "}" == KeyText(PlainBody(f.key)) + (val + more);
      FindKeyKey(f.key, val + more, key);
      if f.key != key {
        FindKeyValue(f, more, key);
        FindKeyFields(fs[1..], key);
        if fs[1..] == [] {
          assert more == "}" && "}"[1..] == "";
        } else {
          var next := MembersText(FieldMembers(fs[1..])) + "}";
          assert more == "," + next && more[1..] == next;
        }
      }
    }
  }

  /** What fits into `room` characters. */
  function Cut(s: string, room: nat): string {
    if |s| <= room then s else s[..room]
  }

  lemma CutCons(s: string, room: nat)
    requires s != "" && room > 0
    ensures Cons([s[0]], Copied(Cut(s[1..], room - 1))) == Copied(Cut(s, room))
  {
    if |s| > room { assert s[..room] == [s[0]] + s[1..][..room - 1]; }
  }

  lemma EscapeSplit(s: string, rest: string)
    requires s != ""
    ensures BodyText(EscapeBody(s)) + rest == BodyText(EscapeChar(s[0])) + (BodyText(EscapeBody(s[1..])) + rest)
  {
    BodyTextConcat(EscapeChar(s[0]), EscapeBody(s[1..]));
    Assoc(BodyText(EscapeChar(s[0])), BodyText(EscapeBody(s[1..])), rest);
  }

  /** The reader undoes the escaper, as far as the buffer goes. */
  lemma {:induction false} DecodeEscape(s: string, rest: string, room: nat)
    ensures Decode(BodyText(EscapeBody(s)) + ("\"" + rest), room) == Copied(Cut(s, room))
    decreases |s|
  {
    if s == "" {
      assert "" + ("\"" + rest) == "\"" + rest;
    } else if room == 0 {
      DecodeNoRoom(BodyText(EscapeBody(s)) + ("\"" + rest));
    } else {
      EscapeSplit(s, "\"" + rest);
      DecodeChar(s[0], BodyText(EscapeBody(s[1..])) + ("\"" + rest), room);
      DecodeEscape(s[1..], rest, room - 1);
      CutCons(s, room);
    }
  }

  lemma DecodeNoRoom(v: string)
    ensures Decode(v, 0) == Copied("")
  {
  }

  lemma DecodeChar(c: char, t: string, room: nat)
    requires room > 0
    ensures Decode(BodyText(EscapeChar(c)) + t, room) == Cons([c], Decode(t, room - 1))
  {
    var v := BodyText(EscapeChar(c)) + t;
    if c < ' ' && c !in "\n\r\t" {
      ControlText(c);
      ScanControl(c, t);
      assert v[2..] == "00" + [HexDigit(c as nat / 16), HexDigit(c as nat % 16)] + t;
      assert v[6..] == t;
    } else if EscapeChar(c)[0].Esc? {
      assert BodyText(EscapeChar(c)) == UnitText(EscapeChar(c)[0]) + "";
      assert v[2..] == t;
    } else {
      assert BodyText(EscapeChar(c)) == [c] + "";
      assert v[1..] == t;
    }
  }

  lemma ScanControl(c: char, t: string)
    requires c < ' '
    ensures ScanHex4("00" + [HexDigit(c as nat / 16), HexDigit(c as nat % 16)] + t) == Some(c as nat)
  {
    var a, b := HexDigit(c as nat / 16), HexDigit(c as nat % 16);
    var s := "00" + [a, b] + t;
    var w := ['0', '0', a, b];
    assert SkipSpace(s) == s;
    assert (if |s| > 4 then s[..4] else s) == w;
    assert HexValue(a) == c as nat / 16 && HexValue(b) == c as nat % 16;
    assert w[1..] == ['0', a, b] && w[1..][1..] == [a, b] && w[1..][1..][1..] == [b];
    assert HexRun([b], c as nat / 16) == c as nat by { assert [b][1..] == ""; }
    assert HexRun([a, b], 0) == c as nat;
    assert HexRun(w, 0) == c as nat;
  }

  /**
   For every flat object, a key present with a string value gives that value, cut to what the
   buffer holds; an absent key, or one with a bare value, gives nothing.
   */
  lemma GetStringExact(fs: seq<Field>, key: string, buflen: nat)
    requires ValidFields(fs) && PlainKey(key) && buflen > 0
    ensures GetString(ObjectText(fs), key, buflen) ==
            match FirstWith(fs, key)
            case Some(Text_(_, value)) => Found(Cut(value, buflen - 1))
            case _ => Absent
  {
    var inner := MembersText(FieldMembers(fs)) + "}";
    assert ObjectText(fs) == "{" + inner && ("{" + inner)[1..] == inner;
    assert FindKey(ObjectText(fs), key) == FindKey(inner, key);
    FindKeyFields(fs, key);
    var f := FirstWith(fs, key);
    if f.Some? {
      var rest :| MemberEnd(rest) && FindKey(inner, key) == Some(Text(FieldValue(f.value)) + rest);
      GetFound(f.value, rest, buflen);
    }
  }

  lemma GetFound(f: Field, rest: string, buflen: nat)
    requires ValidField(f) && buflen > 0
    ensures var v := Text(FieldValue(f)) + rest;
            && SkipSpace(v) == v && v != "" && (v[0] == '"' <==> f.Text_?)
            && (f.Text_? ==> Decode(v[1..], buflen - 1) == Copied(Cut(f.value, buflen - 1)))
  {
    TextStartsPlain(f);
    NoSpaceFirst(Text(FieldValue(f)), rest);
    if f.Text_? { QuotedDecodes(f.value, rest, buflen - 1); }
  }

  lemma NoSpaceFirst(t: string, rest: string)
    requires t != "" && !IsSpace(t[0])
    ensures (t + rest)[0] == t[0] && SkipSpace(t + rest) == t + rest
  {
  }

  lemma QuotedDecodes(value: string, rest: string, room: nat)
    ensures Decode((Quoted(EscapeBody(value)) + rest)[1..], room) == Copied(Cut(value, room))
  {
    QuotedThen(EscapeBody(value), rest);
    DecodeEscape(value, rest, room);
  }

  lemma QuotedThen(b: seq<Unit>, rest: string)
    ensures Quoted(b) + rest == "\"" + (BodyText(b) + ("\"" + rest))
    ensures (Quoted(b) + rest)[1..] == BodyText(b) + ("\"" + rest)
  {
  }

  lemma TextStartsPlain(f: Field)
    requires ValidField(f)
    ensures Text(FieldValue(f)) != "" && !IsSpace(Text(FieldValue(f))[0])
    ensures Text(FieldValue(f))[0] == '"' <==> f.Text_?
  {
    if f.Bare? { assert ScalarChar(f.scalar[0]); }
  }

  /** The escapes of section 7 of RFC 8259. */
  lemma EscapeExamples()
    ensures EscapeBody("\"\\\n\r\ta") == [Esc('"'), Esc('\\'), Esc('n'), Esc('r'), Esc('t'), Plain('a')]
    ensures BodyText(EscapeChar(0x1f as char)) == "\\u001f"
  {
    assert "\"\\\n\r\ta"[1..] == "\\\n\r\ta" && "\\\n\r\ta"[1..] == "\n\r\ta" && "\n\r\ta"[1..] == "\r\ta";
    assert "\r\ta"[1..] == "\ta" && "\ta"[1..] == "a" && "a"[1..] == "";
    assert EscapeBody("a") == [Plain('a')];
    assert EscapeBody("\ta") == [Esc('t'), Plain('a')];
    assert EscapeBody("\r\ta") == [Esc('r'), Esc('t'), Plain('a')];
    assert EscapeBody("\n\r\ta") == [Esc('n'), Esc('r'), Esc('t'), Plain('a')];
    ControlText(0x1f as char);
  }

  // ---- texts other than the printer's ----

  predicate Blank(s: string) { forall i :: 0 <= i < |s| ==> IsSpace(s[i]) }

  lemma {:induction false} SkipBlanks(b: string, v: string)
    requires Blank(b) && (v != "" ==> !IsSpace(v[0]))
    ensures SkipSpace(b + v) == v
  {
    if b == "" {
      assert b + v == v;
    } else {
      assert (b + v)[1..] == b[1..] + v;
      SkipBlanks(b[1..], v);
    }
  }

  lemma SkipAll(b: string)
    requires Blank(b)
    ensures SkipSpace(b) == ""
  {
    SkipBlanks(b, "");
    assert b + "" == b;
  }

  /** Blanks may stand before the colon. */
  lemma BlanksBeforeColon(key: string, b: string, rest: string)
    requires Blank(b)
    ensures KeyHere(key + ("\"" + (b + (":" + rest))), key) == Some(rest)
  {
    var q := ":" + rest;
    var s := key + ("\"" + (b + q));
    assert s[..|key|] == key && s[|key| + 1..] == b + q && q[1..] == rest;
    SkipBlanks(b, q);
  }

  /** An escape other than those for newline, tab, return and code gives the character itself. */
  lemma DecodeOther(c: char, t: string, room: nat)
    requires room > 0 && c !in "ntru"
    ensures Decode("\\" + ([c] + t), room) == Cons([c], Decode(t, room - 1))
  {
    var v := "\\" + ([c] + t);
    assert v[0] == '\\' && v[1] == c && v[2..] == t;
  }

  predicate IsHex(c: char) { HexValue(c) >= 0 }

  /** A code of four digits gives its low byte. */
  lemma DecodeCode(a: char, b: char, c: char, d: char, t: string, room: nat)
    requires room > 0 && IsHex(a) && IsHex(b) && IsHex(c) && IsHex(d)
    ensures Decode("\\u" + ([a, b, c, d] + t), room) ==
            Cons([(HexValue(c) * 16 + HexValue(d)) as char], Decode(t, room - 1))
  {
    var v := "\\u" + ([a, b, c, d] + t);
    assert v[2..] == [a, b, c, d] + t && v[6..] == t;
    ScanFour(a, b, c, d, t);
  }

  lemma ScanFour(a: char, b: char, c: char, d: char, t: string)
    requires IsHex(a) && IsHex(b) && IsHex(c) && IsHex(d)
    ensures ScanHex4([a, b, c, d] + t) == Some(HexValue(c) * 16 + HexValue(d))
  {
    var s, w := [a, b, c, d] + t, [a, b, c, d];
    assert SkipSpace(s) == s;
    assert (if |s| > 4 then s[..4] else s) == w;
    assert w[1] != 'x' && w[1] != 'X';
    FourHex(a, b, c, d);
  }

  lemma HexStep(c: char, s: string, acc: nat)
    requires IsHex(c)
    ensures HexRun([c] + s, acc) == HexRun(s, acc * 16 + HexValue(c))
  {
    assert ([c] + s)[1..] == s;
  }

  lemma LowByte(y: nat, r: nat)
    requires r < 256
    ensures (y * 256 + r) % 256 == r
  {
  }

  lemma FourHex(a: char, b: char, c: char, d: char)
    requires IsHex(a) && IsHex(b) && IsHex(c) && IsHex(d)
    ensures HexRun([a, b, c, d], 0) % 256 == HexValue(c) * 16 + HexValue(d)
  {
    var y := HexValue(a) * 16 + HexValue(b);
    HexStep(a, [b] + ([c] + ([d] + "")), 0);
    HexStep(b, [c] + ([d] + ""), HexValue(a));
    HexStep(c, [d] + "", y);
    HexStep(d, "", y * 16 + HexValue(c));
    assert [a, b, c, d] == [a] + ([b] + ([c] + ([d] + "")));
    LowByte(y, HexValue(c) * 16 + HexValue(d));
  }

  /** A code that does not start with a digit gives a question mark, and its text is read on. */
  lemma DecodeNoCode(t: string, room: nat)
    requires room > 0 && (t != "" ==> !IsSpace(t[0]) && t[0] != '+' && t[0] != '-' && !IsHex(t[0]))
    ensures Decode("\\u" + t, room) == Cons("?", Decode(t, room - 1))
  {
    var v := "\\u" + t;
    assert v[2..] == t;
  }
}
