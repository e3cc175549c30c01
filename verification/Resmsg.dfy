/**
 Cutting the `resmsg` value out of the daemon's response without parsing it.

 `Extract` says what the agent's scanner returns for any text; `ExtractResmsg` is the scanner
 itself.  The rest says for which responses that is the text of the value sent.
 */
module Resmsg {
  import opened Json
  import opened KeySearch

  const RESMSG: Pattern := Pattern("resmsg", true)

  // ---- what the scanner returns ----

  function SkipBlanks(s: string): (r: string)
    ensures |r| <= |s|
  {
    if s != "" && (s[0] == ' ' || s[0] == '\t') then SkipBlanks(s[1..]) else s
  }

  /** Characters up to and including the closing quote, or all of them. */
  function StringLength(s: string, escaped: bool): (n: nat)
    ensures n <= |s|
    decreases |s|
  {
    if s == "" then 0
    else if !escaped && s[0] == '"' then 1
    else 1 + StringLength(s[1..], !escaped && s[0] == '\\')
  }

  function ScalarLength(s: string): (n: nat)
    ensures n <= |s|
  {
    if s == "" || s[0] in ",} \t\n" then 0 else 1 + ScalarLength(s[1..])
  }

  function BracketRules(open: char): Rules {
    Rules(open == '{', open == '[', false)
  }

  function ValueLength(s: string): (n: nat)
    requires s != ""
    ensures n <= |s|
  {
    if s[0] == '{' || s[0] == '[' then
      match ClosingLength(BracketRules(s[0]), Cursor(0, false, false), s)
      case Nowhere => |s|
      case At(n) => n
    else if s[0] == '"' then 1 + StringLength(s[1..], false)
    else ScalarLength(s)
  }

  function Extract(resp: string): string {
    match Strstr(resp, PatternText(RESMSG))
    case Nowhere => resp
    case At(i) =>
      StrstrIsFirst(resp, PatternText(RESMSG), i);
      var p := SkipBlanks(resp[i + |PatternText(RESMSG)|..]);
      if p == "" || ValueLength(p) == 0 then resp else p[..ValueLength(p)]
  }

  // ---- the scanner ----

  /** `ctforge_extract_resmsg`; a null response stays null. */
  method ExtractResmsg(resp: Option<string>) returns (out: Option<string>)
    ensures out == if resp.None? then None else Some(Extract(resp.value))
  {
    if resp.None? { return None; }
    var text := resp.value;
    var found := Strstr(text, PatternText(RESMSG));
    if found.Nowhere? { return Some(text); }
    StrstrIsFirst(text, PatternText(RESMSG), found.pos);
    var p := BlanksEnd(text, found.pos + |PatternText(RESMSG)|);
    if p == |text| { return Some(text); }
    var end := ValueEnd(text, p);
    if end == p { return Some(text); }
    assert text[p..][..end - p] == text[p..end];
    return Some(text[p..end]);
  }

  method BlanksEnd(text: string, start: nat) returns (p: nat)
    requires start <= |text|
    ensures start <= p <= |text| && text[p..] == SkipBlanks(text[start..])
  {
    p := start;
    while p < |text| && (text[p] == ' ' || text[p] == '\t')
      invariant start <= p <= |text|
      invariant SkipBlanks(text[p..]) == SkipBlanks(text[start..])
    {
      assert text[p..][1..] == text[p + 1..];
      p := p + 1;
    }
  }

  method ValueEnd(text: string, p: nat) returns (end: nat)
    requires p < |text|
    ensures p <= end <= |text| && end - p == ValueLength(text[p..])
  {
    if text[p] == '{' || text[p] == '[' {
      end := BracketEnd(text, p);
    } else if text[p] == '"' {
      end := StringEnd(text, p);
    } else {
      end := ScalarEnd(text, p);
    }
  }

  /** The loop over an object or array. */
  method BracketEnd(text: string, p: nat) returns (s: nat)
    requires p < |text| && (text[p] == '{' || text[p] == '[')
    ensures p <= s <= |text| && s - p == ValueLength(text[p..])
  {
    var open := text[p];
    var close := if open == '{' then '}' else ']';
    var depth, inStr, escaped := 0, false, false;
    ghost var r := BracketRules(open);
    ghost var whole := ClosingLength(r, Cursor(0, false, false), text[p..]);
    s := p;
    while s < |text|
      invariant p <= s <= |text|
      invariant whole == Shift(ClosingLength(r, Cursor(depth, inStr, escaped), text[s..]), s - p)
    {
      ScanOn(r, Cursor(depth, inStr, escaped), text, p, s, whole);
      var closed;
      depth, inStr, escaped, closed := BracketStep(open, close, text[s], depth, inStr, escaped);
      s := s + 1;
      if closed { return; }
    }
  }

  /** One round of that loop; `closed` when the depth is back to zero. */
  method BracketStep(open: char, close: char, c: char, depth: int, inStr: bool, escaped: bool)
    returns (depth': int, inStr': bool, escaped': bool, closed: bool)
    requires (open == '{' && close == '}') || (open == '[' && close == ']')
    ensures closed <==> Stops(BracketRules(open), Cursor(depth, inStr, escaped), c)
    ensures Cursor(depth', inStr', escaped') == Move(BracketRules(open), Cursor(depth, inStr, escaped), c)
  {
    depth', inStr', escaped', closed := depth, inStr, escaped, false;
    if escaped {
      escaped' := false;
    } else if c == '\\' && inStr {
      escaped' := true;
    } else if c == '"' {
      inStr' := !inStr;
    } else if !inStr {
      if c == open {
        depth' := depth + 1;
      } else if c == close {
        depth' := depth - 1;
        closed := depth' == 0;
      }
    }
  }

  /** The loop over a string. */
  method StringEnd(text: string, p: nat) returns (s: nat)
    requires p < |text| && text[p] == '"'
    ensures p <= s <= |text| && s - p == ValueLength(text[p..])
  {
    assert text[p..][1..] == text[p + 1..];
    s := p + 1;
    var escaped := false;
    while s < |text|
      invariant p < s <= |text|
      invariant s - p + StringLength(text[s..], escaped) == ValueLength(text[p..])
    {
      assert text[s..][1..] == text[s + 1..];
      if escaped {
        escaped := false;
      } else if text[s] == '\\' {
        escaped := true;
      } else if text[s] == '"' {
        s := s + 1;
        return;
      }
      s := s + 1;
    }
  }

  /** The loop over a number or a literal name. */
  method ScalarEnd(text: string, p: nat) returns (s: nat)
    requires p < |text| && text[p] !in "{[\""
    ensures p <= s <= |text| && s - p == ValueLength(text[p..])
  {
    s := p;
    while s < |text| && text[s] != ',' && text[s] != '}' && text[s] != ' '
          && text[s] != '\t' && text[s] != '\n'
      invariant p <= s <= |text|
      invariant s - p + ScalarLength(text[s..]) == ValueLength(text[p..])
    {
      assert text[s..][1..] == text[s + 1..];
      s := s + 1;
    }
  }

  // ---- cutting out one value ----

  lemma StringLengthUnit(u: Unit, t: string)
    requires ValidUnit(u)
    ensures StringLength(UnitText(u) + t, false) == |UnitText(u)| + StringLength(t, false)
  {
    var s := UnitText(u) + t;
    if u.Esc? { assert s[1..] == [u.c] + t && s[1..][1..] == t; } else { assert s[1..] == t; }
  }

  lemma {:induction false} StringLengthBody(b: seq<Unit>, rest: string)
    requires ValidBody(b)
    ensures StringLength(BodyText(b) + ("\"" + rest), false) == |BodyText(b)| + 1
  {
    if b == [] {
      assert "" + ("\"" + rest) == "\"" + rest;
    } else {
      StringLengthBody(b[1..], rest);
      Assoc(UnitText(b[0]), BodyText(b[1..]), "\"" + rest);
      StringLengthUnit(b[0], BodyText(b[1..]) + ("\"" + rest));
    }
  }

  lemma {:induction false} ScalarLengthText(t: string, rest: string)
    requires forall i :: 0 <= i < |t| ==> ScalarChar(t[i])
    requires rest != "" && rest[0] in ",}"
    ensures ScalarLength(t + rest) == |t|
  {
    if t != "" {
      assert ScalarChar(t[0]);
      assert (t + rest)[1..] == t[1..] + rest;
      ScalarLengthText(t[1..], rest);
    }
  }

  /** Followed by what follows a member, a value is cut out whole, counting one bracket kind. */
  lemma ValueLengthText(v: Value, rest: string)
    requires Valid(v) && rest != "" && rest[0] in ",}"
    ensures ValueLength(Text(v) + rest) == |Text(v)|
  {
    TextStart(v);
    var s := Text(v) + rest;
    match v
    case Scalar(t) => ScalarLengthText(t, rest);
    case Str(b) =>
      StringLengthBody(b, rest);
      assert s[1..] == BodyText(b) + ("\"" + rest);
    case Arr(_) => ClosesAtEnd(BracketRules('['), v, rest);
    case Obj(_) => ClosesAtEnd(BracketRules('{'), v, rest);
  }

  /** Once the search ends right before a value, that value's text is what is returned. */
  lemma ExtractFound(text: string, pre: string, x: Value, post: string)
    requires FoundBefore(RESMSG, text, pre, x, post) && post != ""
    ensures Extract(text) == Text(x)
  {
    StrstrByHit(RESMSG, text);
    assert text[|pre|..] == Text(x) + post;
    AtValue(x, post);
  }

  lemma AtValue(x: Value, post: string)
    requires Valid(x) && post != "" && post[0] in ",}"
    ensures var s := Text(x) + post;
            s != "" && SkipBlanks(s) == s && ValueLength(s) == |Text(x)| && s[..|Text(x)|] == Text(x) != ""
  {
    TextStart(x);
    ValueLengthText(x, post);
    assert (Text(x) + post)[0] == Text(x)[0];
  }

  /** Blanks between the key and the value do not matter. */
  lemma {:induction false} BlanksSkipped(b: string, v: string)
    requires (forall i :: 0 <= i < |b| ==> b[i] == ' ' || b[i] == '\t') && (v != "" ==> v[0] != ' ' && v[0] != '\t')
    ensures SkipBlanks(b + v) == v
  {
    if b == "" {
      assert b + v == v;
    } else {
      assert (b + v)[1..] == b[1..] + v;
      BlanksSkipped(b[1..], v);
    }
  }

  /** A response without the key is returned as it is. */
  lemma NoKeyUnchanged(resp: string)
    requires forall i: nat :: !StandsAt(resp, "\"resmsg\":", i)
    ensures Extract(resp) == resp
  {
    assert PatternText(RESMSG) == "\"resmsg\":";
    if Strstr(resp, PatternText(RESMSG)).At? { StrstrIsFirst(resp, PatternText(RESMSG), Strstr(resp, PatternText(RESMSG)).pos); }
  }

  // ---- responses ----

  /** Any object whose last member is `resmsg`. */
  function Response(earlier: Members, v: Value): Value {
    Obj(Append(earlier, Last(v)))
  }

  function Last(v: Value): Members {
    Member(PlainBody("resmsg"), v, NoMembers)
  }

  lemma FoundLast(v: Value)
    requires Valid(v)
    ensures StopsAfter(RESMSG, MembersText(Last(v)), KeyText(PlainBody("resmsg")), Text(v) + "")
  {
    PlainSpells("resmsg", "resmsg");
    FoundAtKey(RESMSG, PlainBody("resmsg"), v, "");
    assert MoreMembers(NoMembers) == "";
  }

  /** If no earlier key is in the way, the response gives up the value that was sent. */
  lemma ExtractUnmentioned(earlier: Members, v: Value)
    requires earlier.Member? && ValidMembers(earlier) && Valid(v)
    requires !MentionsMembers(RESMSG, earlier)
    ensures Extract(Text(Response(earlier, v))) == Text(v)
  {
    var key, es, last := KeyText(PlainBody("resmsg")), MembersText(earlier), Last(v);
    FoundLast(v);
    RunMembers(RESMSG, earlier);
    StopsAfterComma(RESMSG, es, MembersText(last), key, Text(v) + "");
    assert MembersText(Append(earlier, last)) == es + ("," + MembersText(last)) by { AppendText(earlier, last); }
    ExtractFoundMember(Append(earlier, last), es + ("," + key), v, "");
  }

  lemma ExtractFoundMember(ms: Members, pre: string, x: Value, post: string)
    requires FoundBefore(RESMSG, MembersText(ms), pre, x, post)
    ensures Extract(Text(Obj(ms))) == Text(x)
  {
    FoundInside(RESMSG, '{', MembersText(ms), '}', pre, x, post);
    ExtractFound(Text(Obj(ms)), "{" + pre, x, post + "}");
  }

  /** An earlier key in the way makes the scanner return the same text whatever was sent. */
  lemma ExtractMentioned(earlier: Members) returns (x: Value)
    requires ValidMembers(earlier) && MentionsMembers(RESMSG, earlier)
    ensures Valid(x)
    ensures forall v :: Valid(v) ==> Extract(Text(Response(earlier, v))) == Text(x)
  {
    var pre, post;
    pre, x, post := FirstMentionMembers(RESMSG, earlier);
    forall v | Valid(v) ensures Extract(Text(Response(earlier, v))) == Text(x) {
      ExtractMentionedAt(earlier, v, pre, x, post);
    }
  }

  lemma ExtractMentionedAt(earlier: Members, v: Value, pre: string, x: Value, post: string)
    requires earlier.Member? && Valid(v) && FoundBefore(RESMSG, MembersText(earlier), pre, x, post)
    ensures Extract(Text(Response(earlier, v))) == Text(x)
  {
    FoundAppend(RESMSG, MembersText(earlier), pre, x, post, MoreMembers(Last(v)));
    AppendText(earlier, Last(v));
    ExtractFoundMember(Append(earlier, Last(v)), pre, x, post + MoreMembers(Last(v)));
  }

  // ---- the daemon's responses ----

  /** The members the daemon prints first; `type` and `taskid` are echoed from the request. */
  function DaemonFields(typ: Option<Value>, taskid: Option<Value>, method_: seq<Unit>): Members {
    Member(PlainBody("jsonrpc"), Str(PlainBody("2.0")),
      EchoField("type", typ,
        EchoField("taskid", taskid,
          Member(PlainBody("method"), Str(method_), NoMembers))))
  }

  function EchoField(key: string, v: Option<Value>, rest: Members): Members {
    if v.None? then rest else Member(PlainBody(key), v.value, rest)
  }

  predicate ValidEcho(v: Option<Value>) { v.Some? ==> Valid(v.value) }

  predicate MentionsEcho(v: Option<Value>) { v.Some? && Mentions(RESMSG, v.value) }

  lemma DaemonMentions(typ: Option<Value>, taskid: Option<Value>, method_: seq<Unit>)
    ensures MentionsMembers(RESMSG, DaemonFields(typ, taskid, method_)) <==> MentionsEcho(typ) || MentionsEcho(taskid)
    ensures ValidEcho(typ) && ValidEcho(taskid) && ValidBody(method_) ==> ValidMembers(DaemonFields(typ, taskid, method_))
  {
    var t := DaemonTail(taskid, method_);
    EchoMember("type", typ, t);
    JsonrpcMember(EchoField("type", typ, t));
  }

  lemma DaemonTail(taskid: Option<Value>, method_: seq<Unit>) returns (t: Members)
    ensures t == EchoField("taskid", taskid, Member(PlainBody("method"), Str(method_), NoMembers))
    ensures MentionsMembers(RESMSG, t) <==> MentionsEcho(taskid)
    ensures ValidEcho(taskid) && ValidBody(method_) ==> ValidMembers(t)
  {
    var m := Member(PlainBody("method"), Str(method_), NoMembers);
    PlainMember("method", Str(method_), NoMembers);
    EchoMember("taskid", taskid, m);
    t := EchoField("taskid", taskid, m);
  }

  lemma JsonrpcMember(rest: Members)
    ensures var ms := Member(PlainBody("jsonrpc"), Str(PlainBody("2.0")), rest);
            && (MentionsMembers(RESMSG, ms) <==> MentionsMembers(RESMSG, rest))
            && (ValidMembers(ms) <==> ValidMembers(rest))
  {
    PlainMember("jsonrpc", Str(PlainBody("2.0")), rest);
    assert ValidBody(PlainBody("2.0"));
  }

  lemma EchoMember(key: string, v: Option<Value>, rest: Members)
    requires key != RESMSG.word && forall i :: 0 <= i < |key| ==> Lower(key[i])
    ensures MentionsMembers(RESMSG, EchoField(key, v, rest)) <==> MentionsEcho(v) || MentionsMembers(RESMSG, rest)
    ensures ValidMembers(EchoField(key, v, rest)) <==> ValidEcho(v) && ValidMembers(rest)
  {
    if v.Some? { PlainMember(key, v.value, rest); }
  }

  lemma PlainMember(key: string, v: Value, rest: Members)
    requires key != RESMSG.word && forall i :: 0 <= i < |key| ==> Lower(key[i])
    ensures MentionsMembers(RESMSG, Member(PlainBody(key), v, rest)) <==> Mentions(RESMSG, v) || MentionsMembers(RESMSG, rest)
    ensures ValidMembers(Member(PlainBody(key), v, rest)) <==> Valid(v) && ValidMembers(rest)
  {
    PlainSpells(RESMSG.word, key);
    assert ValidBody(PlainBody(key));
  }

  /**
   The scanner returns exactly the value the daemon sent, for every value, if and only if
   neither echoed field holds an object key, at any depth, that is `resmsg` or ends in an
   escaped quote followed by `resmsg`.
   */
  lemma ExtractExact(typ: Option<Value>, taskid: Option<Value>, method_: seq<Unit>)
    requires ValidEcho(typ) && ValidEcho(taskid) && ValidBody(method_)
    ensures (forall v :: Valid(v) ==> Extract(Text(Response(DaemonFields(typ, taskid, method_), v))) == Text(v))
       <==> !MentionsEcho(typ) && !MentionsEcho(taskid)
  {
    var es := DaemonFields(typ, taskid, method_);
    DaemonMentions(typ, taskid, method_);
    if MentionsMembers(RESMSG, es) {
      var x := ExtractMentioned(es);
      var v := Arr(Item(x, NoItems));
      assert MoreItems(NoItems) == "" && ValidItems(NoItems);
      assert ItemsText(v.items) == Text(x) + "";
      assert Text(v) == "[" + (ItemsText(v.items) + "]");
      assert Valid(v) && |Text(v)| == |Text(x)| + 2;
    } else {
      forall v | Valid(v) ensures Extract(Text(Response(es, v))) == Text(v) { ExtractUnmentioned(es, v); }
    }
  }

  /** A request whose `type` is the object {"resmsg":0} makes some answer unreadable. */
  lemma EchoedKeyHidesAnswer()
    ensures var echoed := Obj(Member(PlainBody("resmsg"), Scalar("0"), NoMembers));
            exists v :: Valid(v) && Extract(Text(Response(DaemonFields(Some(echoed), None, PlainBody("lsmod")), v))) != Text(v)
  {
    var echoed := Obj(Member(PlainBody("resmsg"), Scalar("0"), NoMembers));
    assert ValidMembers(NoMembers) && ValidMembers(echoed.members);
    PlainSpells("resmsg", "resmsg");
    assert MentionsMembers(RESMSG, echoed.members);
    ExtractExact(Some(echoed), None, PlainBody("lsmod"));
  }
}
