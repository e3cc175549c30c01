/**
 The agent's side of the server's messages: the payload is cut out of the body by finding
 `"payload"` and counting brackets of both kinds.
 */
module Payload {
  import opened Json
  import opened KeySearch

  const PAYLOAD: Pattern := Pattern("payload", false)
  const BOTH: Rules := Rules(true, true, true)

  // ---- dup_payload_raw ----

  function SkipColons(s: string): (r: string)
    ensures |r| <= |s|
  {
    if s != "" && (s[0] == ' ' || s[0] == ':') then SkipColons(s[1..]) else s
  }

  function CutFrom(rest: string): Option<string> {
    var p := SkipColons(rest);
    if p == "" || (p[0] != '{' && p[0] != '[') then None
    else
      match ClosingLength(BOTH, Cursor(0, false, false), p)
      case Nowhere => None
      case At(n) => Some(p[..n])
  }

  function CutPayload(body: string): Option<string> {
    match Strstr(body, PatternText(PAYLOAD))
    case Nowhere => None
    case At(i) =>
      StrstrIsFirst(body, PatternText(PAYLOAD), i);
      CutFrom(body[i + |PatternText(PAYLOAD)|..])
  }

  method DupPayloadRaw(body: string) returns (out: Option<string>)
    ensures out == CutPayload(body)
  {
    var found := Strstr(body, PatternText(PAYLOAD));
    if found.Nowhere? { return None; }
    StrstrIsFirst(body, PatternText(PAYLOAD), found.pos);
    var start := ColonsEnd(body, found.pos + |PatternText(PAYLOAD)|);
    if start == |body| || (body[start] != '{' && body[start] != '[') { return None; }
    var end := BothEnd(body, start);
    if end < 0 { return None; }
    assert body[start..][..end - start] == body[start..end];
    return Some(body[start..end]);
  }

  method ColonsEnd(text: string, start: nat) returns (p: nat)
    requires start <= |text|
    ensures start <= p <= |text| && text[p..] == SkipColons(text[start..])
  {
    p := start;
    while p < |text| && (text[p] == ' ' || text[p] == ':')
      invariant start <= p <= |text|
      invariant SkipColons(text[p..]) == SkipColons(text[start..])
    {
      assert text[p..][1..] == text[p + 1..];
      p := p + 1;
    }
  }

  /** The counting loop; -1 if the brackets never balance. */
  method BothEnd(text: string, start: nat) returns (end: int)
    requires start < |text| && (text[start] == '{' || text[start] == '[')
    ensures var n := ClosingLength(BOTH, Cursor(0, false, false), text[start..]);
            if n.Nowhere? then end == -1 else start < end <= |text| && n.pos == end - start
  {
    var depth, inStr, esc := 0, false, false;
    ghost var whole := ClosingLength(BOTH, Cursor(0, false, false), text[start..]);
    var p := start;
    while p < |text|
      invariant start <= p <= |text|
      invariant whole == Shift(ClosingLength(BOTH, Cursor(depth, inStr, esc), text[p..]), p - start)
    {
      ScanOn(BOTH, Cursor(depth, inStr, esc), text, start, p, whole);
      if esc {
        esc := false;
      } else if text[p] == '\\' {
        esc := true;
      } else if text[p] == '"' {
        inStr := !inStr;
      } else if !inStr {
        if text[p] == '{' || text[p] == '[' {
          depth := depth + 1;
        } else if text[p] == '}' || text[p] == ']' {
          depth := depth - 1;
          if depth == 0 { return p + 1; }
        }
      }
      p := p + 1;
    }
    end := -1;
  }

  /** Blanks and colons between the key and the payload do not matter. */
  lemma {:induction false} ColonsSkipped(b: string, v: string)
    requires (forall i :: 0 <= i < |b| ==> b[i] == ' ' || b[i] == ':') && (v != "" ==> v[0] != ' ' && v[0] != ':')
    ensures SkipColons(b + v) == v
  {
    if b == "" {
      assert b + v == v;
    } else {
      assert (b + v)[1..] == b[1..] + v;
      ColonsSkipped(b[1..], v);
    }
  }

  // ---- messages ----

  /**
   The server's envelope in the order its fields are printed; an empty string field is left
   out, except `type`, and so is a missing payload.  String fields are kept as the units the
   printer writes them with.
   */
  datatype Message = Message(
    id: seq<Unit>, typ: seq<Unit>, version: string, agentId: seq<Unit>,
    token: seq<Unit>, sessionId: seq<Unit>, payload: Option<Value>)

  predicate ValidMessage(m: Message) {
    && ValidBody(m.id) && ValidBody(m.typ) && ValidBody(m.agentId) && ValidBody(m.token)
    && ValidBody(m.sessionId) && Valid(Scalar(m.version)) && (m.payload.Some? ==> Valid(m.payload.value))
  }

  function StringField(name: string, b: seq<Unit>, rest: Members): Members {
    if b == [] then rest else Member(PlainBody(name), Str(b), rest)
  }

  /** Every member before the payload. */
  function Envelope(m: Message): Members {
    StringField("id", m.id,
      Member(PlainBody("type"), Str(m.typ),
        Member(PlainBody("version"), Scalar(m.version),
          StringField("agent_id", m.agentId,
            StringField("token", m.token,
              StringField("session_id", m.sessionId, NoMembers))))))
  }

  function PayloadMember(v: Option<Value>): Members {
    if v.None? then NoMembers else Member(PlainBody("payload"), v.value, NoMembers)
  }

  function BodyOf(m: Message): string {
    Text(Obj(Append(Envelope(m), PayloadMember(m.payload))))
  }

  /** Some string field is, or ends in an escaped quote and, the bare text payload. */
  predicate FieldSpells(m: Message) {
    || Spells("payload", m.id) || Spells("payload", m.typ) || Spells("payload", m.agentId)
    || Spells("payload", m.token) || Spells("payload", m.sessionId)
  }

  /** Only strings and scalars, under keys that are not the word: what an envelope is made of. */
  predicate Flat(ms: Members) {
    ms.Member? ==>
      && ValidBody(ms.key) && Valid(ms.value) && !Spells("payload", ms.key)
      && (ms.value.Str? || ms.value.Scalar?) && Flat(ms.rest)
  }

  lemma FlatField(name: string, b: seq<Unit>, rest: Members)
    requires name != "payload" && (forall i :: 0 <= i < |name| ==> Lower(name[i]) || name[i] == '_')
    requires Flat(rest) && ValidBody(b)
    ensures Flat(StringField(name, b, rest))
    ensures MentionsMembers(PAYLOAD, StringField(name, b, rest)) <==> Spells("payload", b) || MentionsMembers(PAYLOAD, rest)
  {
    PlainSpells("payload", name);
    assert ValidBody(PlainBody(name));
  }

  lemma FlatMember(name: string, v: Value, rest: Members)
    requires name != "payload" && (forall i :: 0 <= i < |name| ==> Lower(name[i]))
    requires Flat(rest) && Valid(v) && (v.Str? || v.Scalar?)
    ensures Flat(Member(PlainBody(name), v, rest))
    ensures MentionsMembers(PAYLOAD, Member(PlainBody(name), v, rest)) <==>
            (v.Str? && Spells("payload", v.body)) || MentionsMembers(PAYLOAD, rest)
  {
    PlainSpells("payload", name);
    assert ValidBody(PlainBody(name));
  }

  lemma EnvelopeFlat(m: Message)
    requires ValidMessage(m)
    ensures Flat(Envelope(m)) && Envelope(m).Member?
    ensures MentionsMembers(PAYLOAD, Envelope(m)) <==> FieldSpells(m)
  {
    var a := EnvelopeEnd(m);
    var b := Member(PlainBody("version"), Scalar(m.version), a);
    FlatMember("version", Scalar(m.version), a);
    FlatMember("type", Str(m.typ), b);
    FlatField("id", m.id, Member(PlainBody("type"), Str(m.typ), b));
  }

  lemma EnvelopeEnd(m: Message) returns (ms: Members)
    requires ValidMessage(m)
    ensures ms == StringField("agent_id", m.agentId,
                    StringField("token", m.token, StringField("session_id", m.sessionId, NoMembers)))
    ensures Flat(ms)
    ensures MentionsMembers(PAYLOAD, ms) <==>
            Spells("payload", m.agentId) || Spells("payload", m.token) || Spells("payload", m.sessionId)
  {
    var a := StringField("session_id", m.sessionId, NoMembers);
    FlatField("session_id", m.sessionId, NoMembers);
    var b := StringField("token", m.token, a);
    FlatField("token", m.token, a);
    FlatField("agent_id", m.agentId, b);
    ms := StringField("agent_id", m.agentId, b);
  }

  // ---- what the agent gets ----

  lemma CutStopped(body: string, pre: string, post: string)
    requires StopsAfter(PAYLOAD, body, pre, post)
    ensures CutPayload(body) == CutFrom(post)
  {
    StrstrByHit(PAYLOAD, body);
    assert body[|pre|..] == post;
  }

  /** A string field that spells the word stops the search at the end of that field. */
  lemma {:induction false} StopsInEnvelope(p: Pattern, ms: Members) returns (pre: string, post: string)
    requires p == PAYLOAD && Flat(ms) && MentionsMembers(p, ms)
    ensures StopsAfter(p, MembersText(ms), pre, post) && (post != "" ==> post[0] == ',')
    decreases ms
  {
    var key, val, more := KeyText(ms.key), Text(ms.value), MoreMembers(ms.rest);
    RunKey(p, ms.key);
    if Mentions(p, ms.value) {
      RunQuoted(p, ms.value.body);
      StopsAtValue(p, key, val, more);
      MoreStartsWithComma(ms.rest);
      pre, post := key + val, more;
    } else {
      RunValue(p, ms.value);
      pre, post := StopsInEnvelope(p, ms.rest);
      assert more == "," + MembersText(ms.rest);
      StopsPast(p, key, val, MembersText(ms.rest), pre, post);
      pre := key + (val + ("," + pre));
    }
  }

  lemma StopsAtValue(p: Pattern, key: string, val: string, more: string)
    requires p == PAYLOAD && Run(p, 0, key) == Some(0) && Hit(p, 0, val) == At(|val|)
    ensures StopsAfter(p, key + (val + more), key + val, more)
  {
    StopsAtEnd(p, val);
    StopsAppend(p, val, val, "", more);
    assert "" + more == more;
    StopsPrepend(p, key, val + more, val, more);
  }

  lemma StopsPast(p: Pattern, key: string, val: string, s: string, pre: string, post: string)
    requires p == PAYLOAD && Run(p, 0, key) == Some(0) && Run(p, 0, val).Some? && StopsAfter(p, s, pre, post)
    ensures StopsAfter(p, key + (val + ("," + s)), key + (val + ("," + pre)), post)
  {
    StopsAfterComma(p, val, s, pre, post);
    StopsPrepend(p, key, val + ("," + s), val + ("," + pre), post);
  }

  lemma StopsAtEnd(p: Pattern, s: string)
    requires p == PAYLOAD && Hit(p, 0, s) == At(|s|)
    ensures StopsAfter(p, s, s, "")
  {
    assert s == s + "";
  }

  /** Where the search stops in the members decides what is cut out of the object. */
  lemma CutInObject(p: Pattern, ms: Members, inner: string, pre: string, post: string)
    requires p == PAYLOAD && inner == MembersText(ms) && StopsAfter(p, inner, pre, post)
    ensures CutPayload(Text(Obj(ms))) == CutFrom(post + "}")
  {
    StopsInside(p, '{', inner, '}', pre, post);
    CutStopped("{" + (inner + "}"), "{" + pre, post + "}");
  }

  lemma CutSpelled(p: Pattern, es: Members, v: Option<Value>)
    requires p == PAYLOAD && es.Member? && Flat(es) && MentionsMembers(p, es)
    ensures CutPayload(Text(Obj(Append(es, PayloadMember(v))))) == None
  {
    var pre, post := StopsInEnvelope(p, es);
    CutInEnvelope(p, es, PayloadMember(v), pre, post);
  }

  lemma CutInEnvelope(p: Pattern, es: Members, last: Members, pre: string, post: string)
    requires p == PAYLOAD && es.Member? && StopsAfter(p, MembersText(es), pre, post) && (post != "" ==> post[0] == ',')
    ensures CutPayload(Text(Obj(Append(es, last)))) == None
  {
    AppendText(es, last);
    StopsAppend(p, MembersText(es), pre, post, MoreMembers(last));
    CutInObject(p, Append(es, last), MembersText(es) + MoreMembers(last), pre, post + MoreMembers(last));
    MoreStartsWithComma(last);
    CutEnd(post, MoreMembers(last));
  }

  lemma MoreStartsWithComma(ms: Members)
    ensures MoreMembers(ms) != "" ==> MoreMembers(ms)[0] == ','
  {
  }

  lemma CutEnd(post: string, more: string)
    requires (post != "" ==> post[0] == ',') && (more != "" ==> more[0] == ',')
    ensures CutFrom(post + more + "}") == None
  {
    var s := post + more + "}";
    assert s[0] == ',' || s[0] == '}';
    assert SkipColons(s) == s;
  }

  lemma CutUnspelled(p: Pattern, es: Members, v: Value)
    requires p == PAYLOAD && es.Member? && ValidMembers(es) && !MentionsMembers(p, es) && Valid(v)
    ensures CutPayload(Text(Obj(Append(es, PayloadMember(Some(v)))))) == if v.Obj? || v.Arr? then Some(Text(v)) else None
  {
    var last, word := PayloadMember(Some(v)), Quoted(PlainBody("payload"));
    var inner, tail := MembersText(es) + ("," + MembersText(last)), ":" + Text(v);
    StopsAtPayload(p, v);
    RunMembers(p, es);
    StopsAfterComma(p, MembersText(es), MembersText(last), word, tail);
    assert MembersText(Append(es, last)) == inner by { AppendText(es, last); }
    CutInObject(p, Append(es, last), inner, MembersText(es) + ("," + word), tail);
    CutColon(v, "}");
    Assoc(":", Text(v), "}");
  }

  lemma StopsAtPayload(p: Pattern, v: Value)
    requires p == PAYLOAD
    ensures StopsAfter(p, MembersText(PayloadMember(Some(v))), Quoted(PlainBody("payload")), ":" + Text(v))
  {
    var b := PlainBody("payload");
    PlainSpells("payload", "payload");
    RunQuoted(p, b);
    StopsAtEnd(p, Quoted(b));
    StopsAppend(p, Quoted(b), Quoted(b), "", ":" + Text(v));
    LastMemberText(b, v);
    assert "" + (":" + Text(v)) == ":" + Text(v);
  }

  lemma LastMemberText(b: seq<Unit>, v: Value)
    ensures MembersText(Member(b, v, NoMembers)) == Quoted(b) + (":" + Text(v))
  {
    assert MoreMembers(NoMembers) == "" && Text(v) + "" == Text(v);
    Assoc(Quoted(b), ":", Text(v));
  }

  lemma CutColon(v: Value, rest: string)
    requires Valid(v)
    ensures CutFrom(":" + (Text(v) + rest)) == if v.Obj? || v.Arr? then Some(Text(v)) else None
  {
    TextStart(v);
    var t := Text(v) + rest;
    assert t[0] == Text(v)[0];
    assert SkipColons(t) == t;
    assert (":" + t)[1..] == t;
    assert SkipColons(":" + t) == t;
    if v.Obj? || v.Arr? {
      ClosesAtEnd(BOTH, v, rest);
      assert t[..|Text(v)|] == Text(v);
    }
  }

  lemma CutAbsent(p: Pattern, es: Members)
    requires p == PAYLOAD && ValidMembers(es) && !MentionsMembers(p, es)
    ensures CutPayload(Text(Obj(es))) == None
  {
    var s := Text(Obj(es));
    RunValue(p, Obj(es));
    RunConcat(p, 0, s, "");
    assert s + "" == s;
    StrstrByHit(p, s);
  }

  lemma {:induction false} FlatValid(ms: Members)
    requires Flat(ms)
    ensures ValidMembers(ms) && Append(ms, NoMembers) == ms
  {
    if ms.Member? { FlatValid(ms.rest); }
  }

  /** What the agent is meant to get: objects and arrays, as printed. */
  function Carried(m: Message): Option<string> {
    if m.payload.Some? && (m.payload.value.Obj? || m.payload.value.Arr?) then Some(Text(m.payload.value)) else None
  }

  /**
   An object or array payload comes out as exactly its text if and only if no string field of
   the envelope spells the word; otherwise the agent sees no payload at all.
   */
  lemma PayloadExact(m: Message)
    requires ValidMessage(m)
    ensures CutPayload(BodyOf(m)) == if FieldSpells(m) then None else Carried(m)
  {
    EnvelopeFlat(m);
    FlatValid(Envelope(m));
    if FieldSpells(m) {
      CutSpelled(PAYLOAD, Envelope(m), m.payload);
    } else if m.payload.Some? {
      CutUnspelled(PAYLOAD, Envelope(m), m.payload.value);
    } else {
      CutAbsent(PAYLOAD, Envelope(m));
    }
  }

  /** A register message whose token is the word: its empty object payload does not come out. */
  lemma SpelledTokenHidesPayload()
    ensures var m := Message([], PlainBody("register"), "1", [], PlainBody("payload"), [], Some(Obj(NoMembers)));
            Carried(m) == Some("{}") && CutPayload(BodyOf(m)) == None
  {
    var m := Message([], PlainBody("register"), "1", [], PlainBody("payload"), [], Some(Obj(NoMembers)));
    assert ValidBody(PlainBody("register")) && ValidBody(PlainBody("payload")) && ValidBody([]);
    assert Valid(Scalar("1")) && Valid(Obj(NoMembers));
    assert MembersText(NoMembers) == "" && Text(Obj(NoMembers)) == "{" + ("" + "}") == "{}";
    PlainSpells("payload", "payload");
    PayloadExact(m);
  }
}
