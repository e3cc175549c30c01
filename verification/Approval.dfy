/**
 The approval protocol end to end: any number of servers and agents, administrators, lost
 messages, and crashes on both sides.

 Messages are facts once sent: they may be received late, more than once, or never.
 */
module Approval {
  import opened Json
  import A = Agent
  import ConfigFile
  import S = Server

  datatype System = System(servers: map<string, S.Server>, agents: map<string, A.State>, sent: set<S.Msg>)

  datatype Event =
    | ServerActs(server: string, action: S.Event)
    | AgentActs(agent: string, event: A.Event)

  /** An approving answer an agent acts on was sent to it by the server it names. */
  predicate Backed(sys: System, agent: string, ack: A.Ack) {
    ack.Ack? && ack.approved && ack.serverId != "" ==> S.HandshakeAck(ack.serverId, agent, true) in sys.sent
  }

  predicate AllBacked(sys: System, agent: string, cands: seq<A.Candidate>) {
    forall i :: 0 <= i < |cands| ==> Backed(sys, agent, cands[i].ack)
  }

  predicate Enabled(sys: System, e: Event) {
    match e
    case ServerActs(s, action) => s in sys.servers && S.Enabled(sys.servers[s], action)
    case AgentActs(a, ev) =>
      && a in sys.agents && A.Enabled(sys.agents[a], ev)
      && (ev.Scanned? ==> Backed(sys, a, ev.bound) && AllBacked(sys, a, ev.lan) && AllBacked(sys, a, ev.hosts))
      && (ev.Registered? ==> exists s :: s in sys.servers && S.RegisterAck(s, a) in sys.sent)
  }

  function Step(sys: System, e: Event): System
    requires Enabled(sys, e)
  {
    match e
    case ServerActs(s, action) =>
      sys.(servers := sys.servers[s := S.Step(sys.servers[s], s, action)],
           sent := sys.sent + S.Sends(sys.servers[s], s, action))
    case AgentActs(a, ev) => sys.(agents := sys.agents[a := A.Step(sys.agents[a], ev)])
  }

  predicate IsRun(sys: System, run: seq<Event>)
    decreases |run|
  {
    run == [] || (Enabled(sys, run[0]) && IsRun(Step(sys, run[0]), run[1..]))
  }

  function After(sys: System, run: seq<Event>): System
    requires IsRun(sys, run)
    decreases |run|
  {
    if run == [] then sys else After(Step(sys, run[0]), run[1..])
  }

  /** Nothing approved, nothing bound, nothing sent. */
  predicate Initial(sys: System) {
    && sys.sent == {}
    && (forall s :: s in sys.servers ==> sys.servers[s] == S.Server(map[], {}, {}, map[], map[], {}))
    && (forall a :: a in sys.agents ==>
          var st := sys.agents[a];
          st.cfg == st.disk && st.cfg.boundId == "" && !st.cfg.approved)
  }

  // ---- the invariant ----

  predicate ApprovedAt(sys: System, server: string, agent: string) {
    server in sys.servers && agent in sys.servers[server].approvals
  }

  ghost predicate MsgSound(sys: System, m: S.Msg) {
    match m
    case HandshakeAck(s, a, approved) => approved ==> ApprovedAt(sys, s, a)
    case RegisterAck(s, a) => ApprovedAt(sys, s, a)
  }

  /** Wherever a server or a message says approved, an administrator of that server did. */
  ghost predicate Sound(sys: System) {
    && (forall s :: s in sys.servers ==> S.Sound(sys.servers[s]))
    && (forall m :: m in sys.sent ==> MsgSound(sys, m))
  }

  /** Approvals are never taken back, so what was justified stays justified. */
  lemma SoundLater(sys: System, sys': System)
    requires Sound(sys) && sys'.servers.Keys == sys.servers.Keys
    requires forall s :: s in sys.servers ==> sys.servers[s].approvals <= sys'.servers[s].approvals
    ensures forall m :: m in sys.sent ==> MsgSound(sys', m)
  {
  }

  lemma ServerStepSound(sys: System, s: string, action: S.Event)
    requires Sound(sys) && Enabled(sys, ServerActs(s, action))
    ensures Sound(Step(sys, ServerActs(s, action)))
  {
    var sys' := Step(sys, ServerActs(s, action));
    S.StepSound(sys.servers[s], s, action);
    SoundLater(sys, sys');
    forall m | m in S.Sends(sys.servers[s], s, action) ensures MsgSound(sys', m) {
      assert S.TaskSound(sys.servers[s].tasks[action.task], sys.servers[s].approvals);
    }
  }

  lemma ScanIsBacked(sys: System, a: string, ev: A.Event, id: string)
    requires Sound(sys) && ev.Scanned? && id != "" && A.ApprovedBy(id, ev.bound, ev.lan, ev.hosts)
    requires Backed(sys, a, ev.bound) && AllBacked(sys, a, ev.lan) && AllBacked(sys, a, ev.hosts)
    ensures ApprovedAt(sys, id, a)
  {
    assert MsgSound(sys, S.HandshakeAck(id, a, true));
  }

  lemma StepSound(sys: System, e: Event)
    requires Sound(sys) && Enabled(sys, e)
    ensures Sound(Step(sys, e))
    ensures forall s, a :: ApprovedAt(sys, s, a) ==> ApprovedAt(Step(sys, e), s, a)
  {
    match e
    case ServerActs(s, action) =>
      ServerStepSound(sys, s, action);
      S.StepSound(sys.servers[s], s, action);
    case AgentActs(a, ev) => SoundLater(sys, Step(sys, e));
  }

  lemma {:induction false} RunSound(sys: System, run: seq<Event>)
    requires Sound(sys) && IsRun(sys, run)
    ensures Sound(After(sys, run))
    decreases |run|
  {
    if run != [] {
      StepSound(sys, run[0]);
      RunSound(Step(sys, run[0]), run[1..]);
    }
  }

  lemma InitialSound(sys: System)
    requires Initial(sys)
    ensures Sound(sys)
  {
  }

  // ---- what the protocol is for ----

  /** An agent that takes itself to be approved is bound to a server where an administrator approved it. */
  predicate Earned(sys: System, a: string) {
    a in sys.agents && sys.agents[a].cfg.approved ==>
      sys.agents[a].cfg.boundId != "" && ApprovedAt(sys, sys.agents[a].cfg.boundId, a)
  }

  predicate AlwaysEarned(sys: System, run: seq<Event>, a: string)
    requires IsRun(sys, run)
    decreases |run|
  {
    Earned(sys, a) && (run == [] || AlwaysEarned(Step(sys, run[0]), run[1..], a))
  }

  predicate Restarts(e: Event, a: string) { e.AgentActs? && e.agent == a && e.event.Restarted? }

  /** If the saved file says approved, the id it reads back to was approved. */
  predicate FileEarned(sys: System, a: string)
    requires a in sys.agents
  {
    var disk := sys.agents[a].disk;
    disk.approved ==> ConfigFile.ReadBackId(disk) != "" && ApprovedAt(sys, ConfigFile.ReadBackId(disk), a)
  }

  predicate RestartsEarned(sys: System, run: seq<Event>, a: string)
    requires IsRun(sys, run)
    decreases |run|
  {
    run == [] || ((Restarts(run[0], a) ==> FileEarned(sys, a)) && RestartsEarned(Step(sys, run[0]), run[1..], a))
  }

  lemma AgentStepEarned(sys: System, a: string, ev: A.Event)
    requires Sound(sys) && Earned(sys, a) && Enabled(sys, AgentActs(a, ev))
    ensures Earned(Step(sys, AgentActs(a, ev)), a) <==> (ev.Restarted? ==> FileEarned(sys, a))
  {
    A.StepApproval(sys.agents[a], ev);
    var id := Step(sys, AgentActs(a, ev)).agents[a].cfg.boundId;
    if ev.Scanned? && Step(sys, AgentActs(a, ev)).agents[a].cfg.approved { ScanIsBacked(sys, a, ev, id); }
  }

  lemma StepEarned(sys: System, e: Event, a: string)
    requires Sound(sys) && Earned(sys, a) && Enabled(sys, e)
    ensures Earned(Step(sys, e), a) <==> (Restarts(e, a) ==> FileEarned(sys, a))
  {
    StepSound(sys, e);
    if e.AgentActs? && e.agent == a { AgentStepEarned(sys, a, e.event); }
  }

  /**
   Approval provenance, exactly: over any run of servers, administrators, lost messages and
   crashes, an agent that takes itself to be approved is at every point bound to a server where
   an administrator approved it earlier, if and only if at each of its restarts the id that the
   saved file reads back to, if the file says approved, is such an id.
   */
  lemma {:induction false} ProvenanceExactly(sys: System, run: seq<Event>, a: string)
    requires Sound(sys) && Earned(sys, a) && IsRun(sys, run)
    ensures AlwaysEarned(sys, run, a) <==> RestartsEarned(sys, run, a)
    decreases |run|
  {
    if run != [] {
      StepSound(sys, run[0]);
      StepEarned(sys, run[0], a);
      if Earned(Step(sys, run[0]), a) { ProvenanceExactly(Step(sys, run[0]), run[1..], a); }
    }
  }

  // ---- runs with ids and addresses of one line ----

  predicate TidyRun(run: seq<Event>, a: string) {
    forall i :: 0 <= i < |run| && run[i].AgentActs? && run[i].agent == a ==> A.TidyEvent(run[i].event)
  }

  /** Memory and file agree, are in order, and name a server that approved the agent. */
  predicate TidyAgent(sys: System, a: string) {
    a in sys.agents ==>
      var st := sys.agents[a];
      A.Tidy(st) && A.Consistent(st) && (st.cfg.boundId != "" ==> ApprovedAt(sys, st.cfg.boundId, a))
  }

  lemma TidyAgentStep(sys: System, a: string, ev: A.Event)
    requires Sound(sys) && TidyAgent(sys, a) && Enabled(sys, AgentActs(a, ev)) && A.TidyEvent(ev)
    ensures TidyAgent(Step(sys, AgentActs(a, ev)), a)
  {
    var st := sys.agents[a];
    A.TidyKeeps(st.disk);
    A.StepTidy(st, ev);
    A.StepBinding(st, ev);
    var id := A.Step(st, ev).cfg.boundId;
    if id != st.cfg.boundId && id != "" { ScanIsBacked(sys, a, ev, id); }
  }

  lemma TidyStep(sys: System, e: Event, a: string)
    requires Sound(sys) && TidyAgent(sys, a) && Enabled(sys, e) && TidyRun([e], a)
    ensures TidyAgent(Step(sys, e), a)
  {
    StepSound(sys, e);
    if e.AgentActs? && e.agent == a {
      assert [e][0] == e;
      TidyAgentStep(sys, a, e.event);
    }
  }

  lemma {:induction false} TidyAlwaysEarned(sys: System, run: seq<Event>, a: string)
    requires Sound(sys) && TidyAgent(sys, a) && IsRun(sys, run) && TidyRun(run, a)
    ensures AlwaysEarned(sys, run, a)
    decreases |run|
  {
    if run != [] {
      assert TidyRun([run[0]], a) && TidyRun(run[1..], a);
      StepSound(sys, run[0]);
      TidyStep(sys, run[0], a);
      TidyAlwaysEarned(Step(sys, run[0]), run[1..], a);
    }
  }

  /**
   Approval provenance: from the initial state, with ids and addresses of one line, an agent
   that takes itself to be approved is at every point of every run bound to a server where an
   administrator approved that agent earlier.
   */
  lemma ApprovalProvenance(sys: System, run: seq<Event>, a: string)
    requires Initial(sys) && IsRun(sys, run)
    requires a in sys.agents ==> A.Tidy(sys.agents[a])
    requires TidyRun(run, a)
    ensures AlwaysEarned(sys, run, a) && RestartsEarned(sys, run, a)
  {
    InitialSound(sys);
    TidyAlwaysEarned(sys, run, a);
    ProvenanceExactly(sys, run, a);
  }

  /** Every approving answer that was ever sent went to an agent approved at that server. */
  lemma SentIsEarned(sys: System, run: seq<Event>, m: S.Msg)
    requires Initial(sys) && IsRun(sys, run) && m in After(sys, run).sent && S.Approving(m, m.agent)
    ensures ApprovedAt(After(sys, run), m.server, m.agent)
  {
    InitialSound(sys);
    RunSound(sys, run);
    assert MsgSound(After(sys, run), m);
  }

  // ---- one server's part of a run ----

  function Actions(run: seq<Event>, s: string): seq<S.Event> {
    if run == [] then []
    else if run[0].ServerActs? && run[0].server == s then [run[0].action] + Actions(run[1..], s)
    else Actions(run[1..], s)
  }

  /** What a server does in a run of the system is a run of that server. */
  lemma {:induction false} ServerRun(sys: System, run: seq<Event>, s: string)
    requires IsRun(sys, run) && s in sys.servers
    ensures S.IsRun(sys.servers[s], s, Actions(run, s)) && s in After(sys, run).servers
    ensures After(sys, run).servers[s] == S.After(sys.servers[s], s, Actions(run, s))
    decreases |run|
  {
    if run != [] {
      ServerRun(Step(sys, run[0]), run[1..], s);
      if run[0].ServerActs? && run[0].server == s {
        S.RunMore(sys.servers[s], s, run[0].action, Actions(run[1..], s));
      }
    }
  }

  /**
   Every approving answer, to a handshake or a register, is earned.  An administrator of that
   server approved the agent earlier; the handler that answers read the agent's stored state as
   approved, at action `i` of that server; and the state is approved when the answer goes out
   unless, and only unless, the last turn it took since then is a demotion.
   */
  lemma AcksAreEarned(sys: System, run: seq<Event>, e: Event, m: S.Msg, a: string) returns (i: nat)
    requires Initial(sys) && IsRun(sys, run) && Enabled(After(sys, run), e) && e.ServerActs?
    requires m in S.Sends(After(sys, run).servers[e.server], e.server, e.action) && S.Approving(m, a)
    ensures ApprovedAt(After(sys, run), e.server, a)
    ensures e.server in sys.servers && S.IsRun(sys.servers[e.server], e.server, Actions(run, e.server))
    ensures i < |Actions(run, e.server)| && e.action.Advance?
    ensures var begun := Actions(run, e.server)[i];
            begun == S.BeginRegister(e.action.task, a) || begun == S.BeginHandshake(e.action.task, a)
    ensures var acts := Actions(run, e.server);
            && S.IsRun(sys.servers[e.server], e.server, acts[..i])
            && var read := S.After(sys.servers[e.server], e.server, acts[..i]);
            && S.IsApproved(read, a) && S.IsRun(read, e.server, acts[i..])
            && (S.IsApproved(After(sys, run).servers[e.server], a) <==>
                  S.LastTurn(read, e.server, acts[i..], a) != S.Demotes)
  {
    var s, now := e.server, After(sys, run);
    InitialSound(sys);
    RunSound(sys, run);
    assert S.TaskSound(now.servers[s].tasks[e.action.task], now.servers[s].approvals);
    ServersKept(sys, run);
    ServerRun(sys, run, s);
    i := S.AnswerExactly(sys.servers[s], s, Actions(run, s), e.action, m, a);
  }

  lemma {:induction false} ServersKept(sys: System, run: seq<Event>)
    requires IsRun(sys, run)
    ensures After(sys, run).servers.Keys == sys.servers.Keys
    decreases |run|
  {
    if run != [] { ServersKept(Step(sys, run[0]), run[1..]); }
  }

  // ---- one agent's part of a run ----

  function Events(run: seq<Event>, a: string): seq<A.Event> {
    if run == [] then []
    else if run[0].AgentActs? && run[0].agent == a then [run[0].event] + Events(run[1..], a)
    else Events(run[1..], a)
  }

  /** The agent holds this id at every point. */
  predicate HoldsIn(sys: System, run: seq<Event>, a: string, id: string)
    requires IsRun(sys, run)
    decreases |run|
  {
    && a in sys.agents && sys.agents[a].cfg.boundId == id
    && (run == [] || HoldsIn(Step(sys, run[0]), run[1..], a, id))
  }

  lemma {:induction false} AgentRun(sys: System, run: seq<Event>, a: string, id: string)
    requires IsRun(sys, run) && a in sys.agents
    ensures A.IsRun(sys.agents[a], Events(run, a))
    ensures HoldsIn(sys, run, a, id) <==> A.Holds(sys.agents[a], Events(run, a), id)
    decreases |run|
  {
    if run != [] {
      AgentRun(Step(sys, run[0]), run[1..], a, id);
      if run[0].AgentActs? && run[0].agent == a {
        assert ([run[0].event] + Events(run[1..], a))[1..] == Events(run[1..], a);
      } else {
        NoStepHolds(sys.agents[a], Events(run[1..], a), id);
      }
    }
  }

  lemma NoStepHolds(st: A.State, run: seq<A.Event>, id: string)
    requires A.IsRun(st, run)
    ensures A.Holds(st, run, id) ==> st.cfg.boundId == id
  {
  }

  /**
   Over any run of the system an agent that is bound stays bound to the same server throughout,
   if and only if at each of its restarts the last id line of its saved file is the held id.
   */
  lemma BoundForGood(sys: System, run: seq<Event>, a: string)
    requires IsRun(sys, run) && a in sys.agents && A.Consistent(sys.agents[a]) && sys.agents[a].cfg.boundId != ""
    ensures A.IsRun(sys.agents[a], Events(run, a))
    ensures HoldsIn(sys, run, a, sys.agents[a].cfg.boundId) <==> A.RestartsKeep(sys.agents[a], Events(run, a))
  {
    AgentRun(sys, run, a, sys.agents[a].cfg.boundId);
    A.BindingIsWriteOnce(sys.agents[a], Events(run, a));
  }

  // ---- approval is reached ----

  /** What one server does, as events of the system. */
  function Lifted(server: string, acts: seq<S.Event>): seq<Event> {
    if acts == [] then [] else [ServerActs(server, acts[0])] + Lifted(server, acts[1..])
  }

  lemma {:induction false} LiftedRun(sys: System, server: string, acts: seq<S.Event>)
    requires server in sys.servers && S.IsRun(sys.servers[server], server, acts)
    ensures var run := Lifted(server, acts);
            && IsRun(sys, run) && After(sys, run).agents == sys.agents && server in After(sys, run).servers
            && After(sys, run).sent == sys.sent + S.Sent(sys.servers[server], server, acts)
    decreases |acts|
  {
    if acts == [] {
      assert sys.sent + {} == sys.sent;
    } else {
      var e := ServerActs(server, acts[0]);
      LiftedRun(Step(sys, e), server, acts[1..]);
      assert ([e] + Lifted(server, acts[1..]))[1..] == Lifted(server, acts[1..]);
    }
  }

  lemma {:induction false} RunAnd(sys: System, run: seq<Event>, e: Event)
    requires IsRun(sys, run) && Enabled(After(sys, run), e)
    ensures IsRun(sys, run + [e]) && After(sys, run + [e]) == Step(After(sys, run), e)
    decreases |run|
  {
    if run == [] {
      assert run + [e] == [e] && [e][1..] == [];
    } else {
      RunAnd(Step(sys, run[0]), run[1..], e);
      assert (run + [e])[1..] == run[1..] + [e];
    }
  }

  /**
   An agent approved at a server gets there: from any state in which the server's stored state is
   approved and not bound to another server, and the agent is looking for a server and not bound
   to another one, an uninterrupted handshake and one scan leave it approved and bound to that
   server.
   */
  lemma ApprovalIsReached(sys: System, server: string, a: string, k: nat, host: string, port: int, ip: string)
    requires server != "" && server in sys.servers && k !in sys.servers[server].tasks
    requires S.IsApproved(sys.servers[server], a)
    requires sys.servers[server].agents[a].bound == "" || sys.servers[server].agents[a].bound == server
    requires a in sys.agents && !sys.agents[a].cfg.approved
    requires sys.agents[a].cfg.boundId == "" || sys.agents[a].cfg.boundId == server
    ensures var acts := S.Whole(sys.servers[server], server, S.BeginHandshake(k, a), k, 0);
            var c := A.Candidate(host, port, A.Ack(true, server, ip));
            var run := Lifted(server, acts) + [AgentActs(a, A.Scanned(A.NoAck, [c], []))];
            && IsRun(sys, run)
            && a in After(sys, run).agents
            && After(sys, run).agents[a].cfg.approved && After(sys, run).agents[a].cfg.boundId == server
  {
    var sv := sys.servers[server];
    var acts := S.Whole(sv, server, S.BeginHandshake(k, a), k, 0);
    var c := A.Candidate(host, port, A.Ack(true, server, ip));
    var e := AgentActs(a, A.Scanned(A.NoAck, [c], []));
    S.HandshakeExact(sv, server, k, a, 0);
    LiftedRun(sys, server, acts);
    A.WelcomeBinds(sys.agents[a], c);
    RunAnd(sys, Lifted(server, acts), e);
  }
}
