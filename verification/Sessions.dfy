/**
 The server's live connections: which connection an agent id stands for, and how replies on
 one connection find the request that waits for them.
 */
module Sessions {
  import opened Json

  // ---- the session table ----

  /** A registered connection; its number is never used again. */
  type Conn = nat

  /** `Open` is a successful register; `Close` is the deferred cleanup of that connection. */
  datatype Event = Open(agent: string, conn: Conn) | Close(agent: string, conn: Conn)

  class Table {
    var sessions: map<string, Conn>

    constructor ()
      ensures sessions == map[]
    {
      sessions := map[];
    }

    /** The new connection takes over; the one it replaces, if any, is returned to be closed. */
    method Register(agent: string, conn: Conn) returns (old_: Option<Conn>)
      modifies this
      ensures sessions == After(old(sessions), Open(agent, conn))
      ensures old_ == if agent in old(sessions) && old(sessions)[agent] != conn then Some(old(sessions)[agent]) else None
    {
      old_ := None;
      if agent in sessions && sessions[agent] != conn { old_ := Some(sessions[agent]); }
      sessions := sessions[agent := conn];
    }

    /** Only the connection that is still listed takes the entry away. */
    method Cleanup(agent: string, conn: Conn)
      modifies this
      ensures sessions == After(old(sessions), Close(agent, conn))
    {
      if agent in sessions && sessions[agent] == conn { sessions := sessions - {agent}; }
    }
  }

  function After(t: map<string, Conn>, e: Event): map<string, Conn> {
    match e
    case Open(a, c) => t[a := c]
    case Close(a, c) => if a in t && t[a] == c then t - {a} else t
  }

  function AfterAll(h: seq<Event>): map<string, Conn> {
    if h == [] then map[] else After(AfterAll(h[..|h| - 1]), h[|h| - 1])
  }

  /** Every connection opens once, for one agent, and closes at most once, after it opened. */
  ghost predicate History(h: seq<Event>) {
    && (forall i, j :: 0 <= i < j < |h| && h[i].Open? && h[j].Open? ==> h[i].conn != h[j].conn)
    && (forall i :: 0 <= i < |h| && h[i].Close? ==> Open(h[i].agent, h[i].conn) in h[..i])
  }

  /** The connection this agent registered last. */
  function Latest(h: seq<Event>, agent: string): Option<Conn> {
    if h == [] then None
    else if h[|h| - 1].Open? && h[|h| - 1].agent == agent then Some(h[|h| - 1].conn)
    else Latest(h[..|h| - 1], agent)
  }

  /** The table has this agent's last connection, exactly while that one is not cleaned up. */
  ghost predicate HasLatest(t: map<string, Conn>, h: seq<Event>, agent: string) {
    var last := Latest(h, agent);
    && (agent in t <==> last.Some? && Close(agent, last.value) !in h)
    && (agent in t ==> t[agent] == last.value)
  }

  lemma HistoryBefore(g: seq<Event>, e: Event)
    requires History(g + [e])
    ensures History(g)
  {
    var h := g + [e];
    assert forall i :: 0 <= i < |g| ==> h[i] == g[i] && h[..i] == g[..i];
  }

  lemma OpenStep(g: seq<Event>, e: Event, agent: string)
    requires History(g + [e]) && e.Open? && HasLatest(AfterAll(g), g, agent)
    ensures HasLatest(After(AfterAll(g), e), g + [e], agent)
  {
    var h := g + [e];
    assert h[..|h| - 1] == g;
    if e.agent == agent { FreshNotClosed(g, e, agent); }
  }

  lemma CloseStep(g: seq<Event>, e: Event, agent: string)
    requires e.Close? && HasLatest(AfterAll(g), g, agent)
    ensures HasLatest(After(AfterAll(g), e), g + [e], agent)
  {
    var h := g + [e];
    assert h[..|h| - 1] == g && h[|g|] == e;
  }

  /**
   Over all interleavings of connects, replacements and cleanups, the table maps an id to its
   last registered connection exactly while that one is not cleaned up.
   */
  lemma {:induction false} TableIsLatest(h: seq<Event>, agent: string)
    requires History(h)
    ensures var t, last := AfterAll(h), Latest(h, agent);
            && (agent in t <==> last.Some? && Close(agent, last.value) !in h)
            && (agent in t ==> t[agent] == last.value)
    decreases |h|
  {
    if h != [] {
      var g, e := h[..|h| - 1], h[|h| - 1];
      assert h == g + [e];
      HistoryBefore(g, e);
      TableIsLatest(g, agent);
      if e.Open? { OpenStep(g, e, agent); } else { CloseStep(g, e, agent); }
    }
  }

  /** A connection that opens now cannot have been closed before. */
  lemma FreshNotClosed(g: seq<Event>, e: Event, agent: string)
    requires History(g + [e]) && e == Open(agent, e.conn)
    ensures Close(agent, e.conn) !in g
  {
    var h := g + [e];
    assert h[|g|] == e && forall i :: 0 <= i < |g| ==> h[i] == g[i];
  }

  // ---- requests and replies on one connection ----

  /** A reply as it arrives: the request id it names and its place in the stream. */
  datatype Reply = Reply(id: nat, serial: nat)

  datatype Waiter = Waiting | Answered(reply: Reply) | TimedOut

  /**
   `pending` and the one-slot channels are shared by the requests' goroutines and the reader;
   `hand` is the reply the reader has taken off `pending` but not yet put into its channel.
   */
  datatype Conversation = Conversation(
    pending: set<nat>,
    slots: map<nat, seq<Reply>>,
    waiters: map<nat, Waiter>,
    hand: Option<Reply>,
    arrived: nat)

  /**
   `Start` is `Request` up to its select; `Load` is the reader's `LoadAndDelete`; `Put` its
   send on the channel; `Take` and `Expire` are the two arms of the select; `Leave` is the
   deferred delete.
   */
  datatype Action = Start(id: nat) | Load(id: nat) | Put | Take(id: nat) | Expire(id: nat) | Leave(id: nat)

  predicate Enabled(s: Conversation, a: Action) {
    match a
    case Start(id) => id !in s.waiters
    case Load(_) => s.hand.None?
    case Put => s.hand.Some? && s.hand.value.id in s.slots && |s.slots[s.hand.value.id]| < 1
    case Take(id) => id in s.waiters && s.waiters[id].Waiting? && id in s.slots && s.slots[id] != []
    case Expire(id) => id in s.waiters && s.waiters[id].Waiting?
    case Leave(id) => id in s.waiters && (s.waiters[id].Answered? || s.waiters[id].TimedOut?)
  }

  function Step(s: Conversation, a: Action): Conversation
    requires Enabled(s, a)
  {
    match a
    case Start(id) =>
      s.(pending := s.pending + {id}, slots := s.slots[id := []], waiters := s.waiters[id := Waiting])
    case Load(id) =>
      if id in s.pending then
        s.(pending := s.pending - {id}, hand := Some(Reply(id, s.arrived)), arrived := s.arrived + 1)
      else s.(arrived := s.arrived + 1)
    case Put => s.(slots := s.slots[s.hand.value.id := s.slots[s.hand.value.id] + [s.hand.value]], hand := None)
    case Take(id) => s.(slots := s.slots[id := s.slots[id][1..]], waiters := s.waiters[id := Answered(s.slots[id][0])])
    case Expire(id) => s.(waiters := s.waiters[id := TimedOut])
    case Leave(id) => s.(pending := s.pending - {id})
  }

  const IDLE: Conversation := Conversation({}, map[], map[], None, 0)

  predicate IsRun(s: Conversation, run: seq<Action>)
    decreases |run|
  {
    run == [] || (Enabled(s, run[0]) && IsRun(Step(s, run[0]), run[1..]))
  }

  function AfterRun(s: Conversation, run: seq<Action>): Conversation
    requires IsRun(s, run)
    decreases |run|
  {
    if run == [] then s else AfterRun(Step(s, run[0]), run[1..])
  }

  /** At most one token per request: its table entry, the reply in hand, in its slot or received. */
  ghost predicate OneToken(s: Conversation) {
    && s.slots.Keys == s.waiters.Keys
    && s.pending <= s.waiters.Keys
    && (s.hand.Some? ==> s.hand.value.id in s.slots && s.hand.value.id !in s.pending
                         && s.slots[s.hand.value.id] == [] && !s.waiters[s.hand.value.id].Answered?)
    && (forall id :: id in s.slots ==> |s.slots[id]| <= 1)
    && (forall id :: id in s.slots && s.slots[id] != [] ==>
          id !in s.pending && s.slots[id][0].id == id && !s.waiters[id].Answered?)
    && (forall id :: id in s.waiters && s.waiters[id].Answered? ==>
          id !in s.pending && s.slots[id] == [] && s.waiters[id].reply.id == id)
  }

  lemma ReaderKeepsToken(s: Conversation, a: Action)
    requires OneToken(s) && Enabled(s, a) && (a.Load? || a.Put?)
    ensures OneToken(Step(s, a))
  {
  }

  lemma WaiterKeepsToken(s: Conversation, a: Action)
    requires OneToken(s) && Enabled(s, a) && !a.Load? && !a.Put?
    ensures OneToken(Step(s, a))
  {
  }

  lemma StepKeepsToken(s: Conversation, a: Action)
    requires OneToken(s) && Enabled(s, a)
    ensures OneToken(Step(s, a))
  {
    if a.Load? || a.Put? { ReaderKeepsToken(s, a); } else { WaiterKeepsToken(s, a); }
  }

  lemma {:induction false} RunKeepsToken(s: Conversation, run: seq<Action>)
    requires OneToken(s) && IsRun(s, run)
    ensures OneToken(AfterRun(s, run))
    decreases |run|
  {
    if run != [] {
      StepKeepsToken(s, run[0]);
      RunKeepsToken(Step(s, run[0]), run[1..]);
    }
  }

  /** The reader never blocks on a channel, even when it races a timeout. */
  lemma ReaderNeverBlocks(run: seq<Action>)
    requires IsRun(IDLE, run)
    ensures AfterRun(IDLE, run).hand.Some? ==> Enabled(AfterRun(IDLE, run), Put)
    ensures AfterRun(IDLE, run).hand.None? ==> forall id :: Enabled(AfterRun(IDLE, run), Load(id))
  {
    RunKeepsToken(IDLE, run);
  }

  /** Whoever got an answer got one to its own request. */
  lemma OwnReplyOnly(run: seq<Action>, id: nat)
    requires IsRun(IDLE, run)
    ensures var s := AfterRun(IDLE, run);
            id in s.waiters && s.waiters[id].Answered? ==> s.waiters[id].reply.id == id
  {
    RunKeepsToken(IDLE, run);
  }

  /** A request is answered at most once: its answer and its failure are final. */
  lemma {:induction false} OutcomeIsFinal(s: Conversation, run: seq<Action>, id: nat)
    requires IsRun(s, run) && id in s.waiters && !s.waiters[id].Waiting?
    ensures id in AfterRun(s, run).waiters && AfterRun(s, run).waiters[id] == s.waiters[id]
    decreases |run|
  {
    if run != [] { OutcomeIsFinal(Step(s, run[0]), run[1..], id); }
  }

  // ---- what the events of a run decide ----

  /** How many replies have arrived. */
  function Loads(run: seq<Action>): nat {
    if run == [] then 0 else Loads(run[..|run| - 1]) + (if run[|run| - 1].Load? then 1 else 0)
  }

  /** The serial of the first reply that names this request after it was started. */
  function FirstReply(run: seq<Action>, id: nat): Option<nat> {
    if run == [] then None
    else
      var before := run[..|run| - 1];
      var r := FirstReply(before, id);
      if r.None? && run[|run| - 1] == Load(id) && Start(id) in before then Some(Loads(before)) else r
  }

  /** That reply, by its place in the run. */
  ghost predicate FirstReplyAt(run: seq<Action>, id: nat, i: nat) {
    && i < |run| && run[i] == Load(id) && Start(id) in run[..i]
    && forall j :: 0 <= j < i && run[j] == Load(id) ==> Start(id) !in run[..j]
  }

  lemma {:induction false} NoFirstReply(run: seq<Action>, id: nat)
    ensures FirstReply(run, id).None? <==> forall i :: 0 <= i < |run| && run[i] == Load(id) ==> Start(id) !in run[..i]
    decreases |run|
  {
    if run != [] {
      var n := |run| - 1;
      NoFirstReply(run[..n], id);
      assert forall j :: 0 <= j <= n ==> run[..n][..j] == run[..j];
    }
  }

  lemma {:induction false} FirstReplyFound(run: seq<Action>, id: nat) returns (i: nat)
    requires FirstReply(run, id).Some?
    ensures FirstReplyAt(run, id, i) && FirstReply(run, id).value == Loads(run[..i])
    decreases |run|
  {
    var n := |run| - 1;
    assert forall j :: 0 <= j <= n ==> run[..n][..j] == run[..j];
    if FirstReply(run[..n], id).Some? {
      i := FirstReplyFound(run[..n], id);
    } else {
      NoFirstReply(run[..n], id);
      i := n;
    }
  }

  lemma {:induction false} RunSnoc(s: Conversation, run: seq<Action>)
    requires IsRun(s, run) && run != []
    ensures var n := |run| - 1;
            && IsRun(s, run[..n]) && Enabled(AfterRun(s, run[..n]), run[n])
            && AfterRun(s, run) == Step(AfterRun(s, run[..n]), run[n])
    decreases |run|
  {
    var n := |run| - 1;
    if n > 0 {
      RunSnoc(Step(s, run[0]), run[1..]);
      assert run[..n][1..] == run[1..][..n - 1] && run[..n][0] == run[0];
    } else {
      assert run == [run[0]] && run[1..] == [] && run[..0] == [];
    }
  }

  /** One request's part of the conversation, as the events so far decide it. */
  ghost predicate AsDecided(s: Conversation, run: seq<Action>, id: nat) {
    var first := FirstReply(run, id);
    && (id in s.waiters <==> Start(id) in run)
    && (id in s.pending <==> Start(id) in run && Leave(id) !in run && first.None?)
    && (id in s.waiters ==> WaiterDecided(s, run, id, s.waiters[id], first))
    && (id !in s.waiters ==> Expire(id) !in run && Take(id) !in run && Leave(id) !in run && first.None?)
  }

  ghost predicate WaiterDecided(s: Conversation, run: seq<Action>, id: nat, w: Waiter, first: Option<nat>) {
    && (w.TimedOut? <==> Expire(id) in run)
    && (w.Answered? <==> Take(id) in run)
    && (w.Answered? ==> first.Some? && w.reply == Reply(id, first.value))
    && (w.Waiting? ==> Leave(id) !in run)
    && (w.Waiting? && first.Some? ==> InHand(s, Reply(id, first.value)) || InSlot(s, Reply(id, first.value)))
  }

  predicate InHand(s: Conversation, r: Reply) { s.hand == Some(r) }

  predicate InSlot(s: Conversation, r: Reply) { r.id in s.slots && s.slots[r.id] == [r] }

  /** Replies under way are first replies. */
  ghost predicate RepliesDecided(s: Conversation, run: seq<Action>) {
    && s.arrived == Loads(run)
    && (s.hand.Some? ==> FirstReply(run, s.hand.value.id) == Some(s.hand.value.serial))
    && (forall id :: id in s.slots && s.slots[id] != [] ==> FirstReply(run, id) == Some(s.slots[id][0].serial))
  }

  lemma SnocMember(run: seq<Action>, a: Action, x: Action)
    ensures x in run + [a] <==> x in run || x == a
  {
  }

  lemma SnocDecides(run: seq<Action>, a: Action, id: nat)
    ensures Loads(run + [a]) == Loads(run) + (if a.Load? then 1 else 0)
    ensures FirstReply(run + [a], id) ==
            if FirstReply(run, id).None? && a == Load(id) && Start(id) in run then Some(Loads(run)) else FirstReply(run, id)
  {
    assert (run + [a])[..|run|] == run;
  }

  lemma StepDecided(s: Conversation, run: seq<Action>, a: Action, id: nat)
    requires OneToken(s) && Enabled(s, a) && RepliesDecided(s, run) && AsDecided(s, run, id)
    ensures AsDecided(Step(s, a), run + [a], id)
  {
    SnocDecides(run, a, id);
    SnocMember(run, a, Start(id));
    SnocMember(run, a, Leave(id));
    SnocMember(run, a, Expire(id));
    SnocMember(run, a, Take(id));
  }

  lemma StepReplies(s: Conversation, run: seq<Action>, a: Action)
    requires OneToken(s) && Enabled(s, a) && RepliesDecided(s, run)
    requires a.Load? ==> AsDecided(s, run, a.id)
    ensures RepliesDecided(Step(s, a), run + [a])
  {
    forall id ensures FirstReply(run, id).Some? ==> FirstReply(run + [a], id) == FirstReply(run, id) {
      SnocDecides(run, a, id);
    }
    if a.Load? { SnocDecides(run, a, a.id); } else { SnocDecides(run, a, 0); }
  }

  /**
   The conversation, exactly: over all interleavings a request is known, pending, answered or
   timed out just as its own events say; its answer is the first reply that names it, and while
   it waits that reply is in the reader's hand or in its channel, never lost.
   */
  lemma {:induction false} ConversationExactly(run: seq<Action>, id: nat)
    requires IsRun(IDLE, run)
    ensures AsDecided(AfterRun(IDLE, run), run, id) && RepliesDecided(AfterRun(IDLE, run), run)
    decreases |run|
  {
    if run != [] {
      var n := |run| - 1;
      var before, a := run[..n], run[n];
      RunSnoc(IDLE, run);
      RunKeepsToken(IDLE, before);
      ConversationExactly(before, id);
      if a.Load? { ConversationExactly(before, a.id); }
      assert run == before + [a];
      StepDecided(AfterRun(IDLE, before), before, a, id);
      StepReplies(AfterRun(IDLE, before), before, a);
    }
  }

  lemma ThreeSteps(s: Conversation, a: Action, b: Action, c: Action)
    requires Enabled(s, a) && Enabled(Step(s, a), b) && Enabled(Step(Step(s, a), b), c)
    ensures IsRun(s, [a, b, c]) && AfterRun(s, [a, b, c]) == Step(Step(Step(s, a), b), c)
  {
    var s1 := Step(s, a);
    var s2 := Step(s1, b);
    assert [a, b, c][1..] == [b, c] && [b, c][1..] == [c] && [c][1..] == [];
    assert IsRun(Step(s2, c), []) && AfterRun(Step(s2, c), []) == Step(s2, c);
    assert IsRun(s2, [c]) && AfterRun(s2, [c]) == Step(s2, c);
    assert IsRun(s1, [b, c]) && AfterRun(s1, [b, c]) == Step(s2, c);
  }

  /** A reply that comes while its request waits is what the request returns. */
  lemma ReplyIsDelivered(run: seq<Action>, id: nat)
    requires IsRun(IDLE, run)
    ensures var s, deliver := AfterRun(IDLE, run), [Load(id), Put, Take(id)];
            s.hand.None? && id in s.pending && id in s.waiters && s.waiters[id].Waiting? ==>
              IsRun(s, deliver) && AfterRun(s, deliver).waiters == s.waiters[id := Answered(Reply(id, Loads(run)))]
  {
    var s := AfterRun(IDLE, run);
    RunKeepsToken(IDLE, run);
    ConversationExactly(run, id);
    if s.hand.None? && id in s.pending && id in s.waiters && s.waiters[id].Waiting? {
      ThreeSteps(s, Load(id), Put, Take(id));
    }
  }
}
