/**
 One server process at the granularity of its locks.  Every handler is a task that does one
 locked section per step, so that anything else can happen between two of its sections.
 Files are replaced in one step.
 */
module Server {
  import opened Json
  import opened Store

  /** How far a handler is: about to check the blacklist, past the check, done with the table. */
  datatype Stage = Clear | Passed | Stored

  datatype Task =
    | Greeting(agent: string, state: Approval)  // a handshake that has read the state
    | Handshaking(agent: string, state: Approval, stage: Stage)
    | Registering(agent: string, stage: Stage)
    | Discovering(agent: string)                // past the blacklist check
    | Deleting(agent: string)                   // taken out of the table, not yet on the blacklist
    | Burying                                   // on the blacklist, which is still to be saved
    | WritingTombstones(ids: set<string>)
    | Saving(file: map<string, Saved>)

  datatype Msg =
    | HandshakeAck(server: string, agent: string, approved: bool)
    | RegisterAck(server: string, agent: string)

  /** `approvals` are the agents an administrator has ever approved here; nothing reads it. */
  datatype Server = Server(
    agents: Agents, tombstones: set<string>, tombFile: set<string>, file: map<string, Saved>,
    tasks: map<nat, Task>, approvals: set<string>)

  datatype Event =
    | BeginHandshake(task: nat, agent: string)
    | BeginRegister(task: nat, agent: string)
    | BeginDiscover(task: nat, agent: string)
    | BeginDelete(task: nat, agent: string)
    | BeginSave(task: nat)
    | Advance(task: nat, now: nat)
    | Presence(agent: string, online: bool, now: nat)
    | Prune(cutoff: nat)
    | Approve(agent: string, now: nat)
    | Reject(agent: string, now: nat)
    | Restart

  function NewRecord(state: Approval, me: string): Record {
    match state
    case Approved => Record(Approved, me, 0, false, false, 0)
    case Rejected => Record(Rejected, "", 0, false, false, 0)
    case _ => Record(Pending, "", 0, false, false, 0)
  }

  predicate BoundElsewhere(m: Agents, id: string, me: string) {
    id in m && m[id].bound != "" && m[id].bound != me
  }

  /** A task after its next locked section; `None` when it is over. */
  function NextTask(s: Server, me: string, t: Task): Option<Task> {
    match t
    case Greeting(a, state) =>
      if BoundElsewhere(s.agents, a, me) then None else Some(Handshaking(a, state, Clear))
    case Handshaking(a, state, Clear) => Some(Handshaking(a, state, if a in s.tombstones then Stored else Passed))
    case Handshaking(a, state, Passed) => Some(Handshaking(a, state, Stored))
    case Registering(a, Clear) => Some(Registering(a, if a in s.tombstones then Stored else Passed))
    case Registering(a, Passed) => Some(Registering(a, Stored))
    case Deleting(_) => Some(Burying)
    case Burying => Some(WritingTombstones(s.tombstones))
    case _ => None
  }

  /** The table after a task's next section. */
  function NextAgents(s: Server, me: string, t: Task, now: nat): Agents {
    match t
    case Handshaking(a, state, Passed) => Inserted(s.agents, a, NewRecord(state, me), now)
    case Handshaking(a, state, Stored) =>
      if state == Approved || state == Rejected then s.agents else WithApproval(s.agents, a, Pending, "", now)
    case Registering(a, Passed) => Inserted(s.agents, a, Record(Unset, "", 0, false, false, 0), now)
    case Discovering(a) => Sighted(s.agents, a, now)
    case _ => s.agents
  }

  /** What a task's next section sends. */
  function Replies(s: Server, me: string, t: Task): set<Msg> {
    match t
    case Greeting(a, _) => if BoundElsewhere(s.agents, a, me) then {HandshakeAck(me, a, false)} else {}
    case Handshaking(a, state, Stored) => {HandshakeAck(me, a, state == Approved)}
    case Registering(a, Stored) => {RegisterAck(me, a)}
    case _ => {}
  }

  predicate Enabled(s: Server, e: Event) {
    match e
    case BeginHandshake(k, _) => k !in s.tasks
    case BeginRegister(k, _) => k !in s.tasks
    case BeginDiscover(k, _) => k !in s.tasks
    case BeginDelete(k, _) => k !in s.tasks
    case BeginSave(k) => k !in s.tasks
    case Advance(k, _) => k in s.tasks
    case _ => true
  }

  function Advanced(s: Server, me: string, k: nat, now: nat): Server
    requires k in s.tasks
  {
    var t := s.tasks[k];
    var next := NextTask(s, me, t);
    Server(NextAgents(s, me, t, now),
           if t.Deleting? then s.tombstones + {t.agent} else s.tombstones,
           if t.WritingTombstones? then t.ids else s.tombFile,
           if t.Saving? then t.file else s.file,
           if next.Some? then s.tasks[k := next.value] else s.tasks - {k},
           s.approvals)
  }

  function Step(s: Server, me: string, e: Event): Server
    requires Enabled(s, e)
  {
    match e
    case BeginHandshake(k, a) => s.(tasks := s.tasks[k := Greeting(a, ApprovalOf(s.agents, a))])
    case BeginRegister(k, a) =>
      if ApprovalOf(s.agents, a) == Approved then s.(tasks := s.tasks[k := Registering(a, Clear)]) else s
    case BeginDiscover(k, a) => if a in s.tombstones then s else s.(tasks := s.tasks[k := Discovering(a)])
    case BeginDelete(k, a) => s.(agents := s.agents - {a}, tasks := s.tasks[k := Deleting(a)])
    case BeginSave(k) => s.(tasks := s.tasks[k := Saving(Snapshot(s.agents))])
    case Advance(k, now) => Advanced(s, me, k, now)
    case Presence(a, online, now) => s.(agents := SeenOnline(s.agents, a, online, now))
    case Prune(cutoff) => s.(agents := Pruned(s.agents, cutoff))
    case Approve(a, now) =>
      if a in s.agents
      then s.(agents := WithApproval(s.agents, a, Approved, me, now), approvals := s.approvals + {a})
      else s
    case Reject(a, now) => s.(agents := WithApproval(s.agents, a, Rejected, "", now))
    case Restart => s.(agents := Loaded(s.file, s.tombFile), tombstones := s.tombFile, tasks := map[])
  }

  function Sends(s: Server, me: string, e: Event): set<Msg>
    requires Enabled(s, e)
  {
    if e.Advance? then Replies(s, me, s.tasks[e.task]) else {}
  }

  predicate IsRun(s: Server, me: string, run: seq<Event>)
    decreases |run|
  {
    run == [] || (Enabled(s, run[0]) && IsRun(Step(s, me, run[0]), me, run[1..]))
  }

  function After(s: Server, me: string, run: seq<Event>): Server
    requires IsRun(s, me, run)
    decreases |run|
  {
    if run == [] then s else After(Step(s, me, run[0]), me, run[1..])
  }

  /** Everything sent during a run. */
  function Sent(s: Server, me: string, run: seq<Event>): set<Msg>
    requires IsRun(s, me, run)
    decreases |run|
  {
    if run == [] then {} else Sends(s, me, run[0]) + Sent(Step(s, me, run[0]), me, run[1..])
  }

  lemma RunOne(s: Server, me: string, e: Event)
    requires Enabled(s, e)
    ensures IsRun(s, me, [e]) && After(s, me, [e]) == Step(s, me, e) && Sent(s, me, [e]) == Sends(s, me, e)
  {
    assert [e][1..] == [];
  }

  lemma RunMore(s: Server, me: string, e: Event, run: seq<Event>)
    requires Enabled(s, e) && IsRun(Step(s, me, e), me, run)
    ensures IsRun(s, me, [e] + run) && After(s, me, [e] + run) == After(Step(s, me, e), me, run)
    ensures Sent(s, me, [e] + run) == Sends(s, me, e) + Sent(Step(s, me, e), me, run)
  {
    assert ([e] + run)[1..] == run;
  }

  // ---- provenance of approvals ----

  ghost predicate TableSound(m: Agents, approvals: set<string>) {
    forall a :: a in m && m[a].approval == Approved ==> a in approvals
  }

  ghost predicate FileSound(f: map<string, Saved>, approvals: set<string>) {
    forall a :: a in f && f[a].approval == Approved ==> a in approvals
  }

  ghost predicate TaskSound(t: Task, approvals: set<string>) {
    match t
    case Greeting(a, state) => state == Approved ==> a in approvals
    case Handshaking(a, state, _) => state == Approved ==> a in approvals
    case Registering(a, _) => a in approvals
    case Saving(f) => FileSound(f, approvals)
    case _ => true
  }

  /** Wherever the server keeps an approval, an administrator gave it. */
  ghost predicate Sound(s: Server) {
    && TableSound(s.agents, s.approvals)
    && FileSound(s.file, s.approvals)
    && (forall k :: k in s.tasks ==> TaskSound(s.tasks[k], s.approvals))
  }

  lemma NextAgentsSound(s: Server, me: string, t: Task, now: nat)
    requires TableSound(s.agents, s.approvals) && TaskSound(t, s.approvals)
    ensures TableSound(NextAgents(s, me, t, now), s.approvals)
  {
  }

  lemma AdvanceSound(s: Server, me: string, k: nat, now: nat)
    requires Sound(s) && k in s.tasks
    ensures Sound(Advanced(s, me, k, now))
  {
    NextAgentsSound(s, me, s.tasks[k], now);
  }

  lemma BeginSound(s: Server, me: string, e: Event)
    requires Sound(s) && Enabled(s, e)
    requires e.BeginHandshake? || e.BeginRegister? || e.BeginDiscover? || e.BeginDelete? || e.BeginSave?
    ensures Sound(Step(s, me, e))
  {
  }

  lemma StepSound(s: Server, me: string, e: Event)
    requires Sound(s) && Enabled(s, e)
    ensures Sound(Step(s, me, e)) && s.approvals <= Step(s, me, e).approvals
  {
    match e
    case Advance(k, now) => AdvanceSound(s, me, k, now);
    case Presence(_, _, _) =>
    case Prune(_) =>
    case Approve(_, _) =>
    case Reject(_, _) =>
    case Restart =>
    case _ => BeginSound(s, me, e);
  }

  // ---- when an agent's stored state is approved ----

  /** What a step does to the question whether an agent's stored state is approved. */
  datatype Turn = Promotes | Demotes | Keeps

  predicate IsApproved(s: Server, a: string) {
    ApprovalOf(s.agents, a) == Approved
  }

  /**
   An administrator's approval promotes, and so does storing an approved handshake of an agent
   that is no longer listed.  A rejection, a deletion, pruning the agent and the end of a
   handshake that read neither decision demote.  A restart does what the file says.
   */
  function TurnOf(s: Server, e: Event, a: string): Turn
    requires Enabled(s, e)
  {
    match e
    case Approve(b, _) => if b == a && a in s.agents then Promotes else Keeps
    case Reject(b, _) => if b == a then Demotes else Keeps
    case BeginDelete(_, b) => if b == a then Demotes else Keeps
    case Prune(cutoff) =>
      if a in s.agents && s.agents[a].discovered && s.agents[a].lastSeen < cutoff then Demotes else Keeps
    case Restart =>
      if a in s.file && a !in s.tombFile && s.file[a].approval == Approved then Promotes else Demotes
    case Advance(k, _) => TaskTurn(s, s.tasks[k], a)
    case _ => Keeps
  }

  function TaskTurn(s: Server, t: Task, a: string): Turn {
    if !t.Handshaking? || t.agent != a then Keeps
    else if t.stage == Passed && t.state == Approved && a !in s.agents then Promotes
    else if t.stage == Stored && t.state != Approved && t.state != Rejected then Demotes
    else Keeps
  }

  /** The state after a step that turns it one way or the other, or leaves it. */
  predicate Turned(turn: Turn, before: bool) {
    turn == Promotes || (turn == Keeps && before)
  }

  lemma TaskTurnDecides(s: Server, me: string, t: Task, now: nat, a: string)
    ensures ApprovalOf(NextAgents(s, me, t, now), a) == Approved <==> Turned(TaskTurn(s, t, a), IsApproved(s, a))
  {
  }

  lemma TurnDecides(s: Server, me: string, e: Event, a: string)
    requires Enabled(s, e)
    ensures IsApproved(Step(s, me, e), a) <==> Turned(TurnOf(s, e, a), IsApproved(s, a))
  {
    if e.Advance? { TaskTurnDecides(s, me, s.tasks[e.task], e.now, a); }
  }

  /** The last step of a run that turns it, if there is one. */
  function LastTurn(s: Server, me: string, run: seq<Event>, a: string): Turn
    requires IsRun(s, me, run)
    decreases |run|
  {
    if run == [] then Keeps
    else
      var later := LastTurn(Step(s, me, run[0]), me, run[1..], a);
      if later == Keeps then TurnOf(s, run[0], a) else later
  }

  /**
   Over every run, with interleaved handlers, saves and restarts, an agent's stored state is
   approved just when the last step that turned it promoted, or none did and it was before.
   */
  lemma {:induction false} ApprovedExactly(s: Server, me: string, run: seq<Event>, a: string)
    requires IsRun(s, me, run)
    ensures IsApproved(After(s, me, run), a) <==> Turned(LastTurn(s, me, run, a), IsApproved(s, a))
    decreases |run|
  {
    if run != [] {
      TurnDecides(s, me, run[0], a);
      ApprovedExactly(Step(s, me, run[0]), me, run[1..], a);
    }
  }

  /** An approval given to a listed agent is in force later just when the last turn since is no demotion. */
  lemma ApprovalSurvivesExactly(s: Server, me: string, a: string, now: nat, run: seq<Event>)
    requires a in s.agents && IsRun(Step(s, me, Approve(a, now)), me, run)
    ensures var s' := Step(s, me, Approve(a, now));
            IsApproved(After(s', me, run), a) <==> LastTurn(s', me, run, a) != Demotes
  {
    ApprovedExactly(Step(s, me, Approve(a, now)), me, run, a);
  }

  const EMPTY: Server := Server(map[], {}, {}, map[], map[], {})

  lemma {:induction false} RunConcat(s: Server, me: string, a: seq<Event>, b: seq<Event>)
    requires IsRun(s, me, a) && IsRun(After(s, me, a), me, b)
    ensures IsRun(s, me, a + b) && After(s, me, a + b) == After(After(s, me, a), me, b)
    ensures forall m :: m in Sent(After(s, me, a), me, b) ==> m in Sent(s, me, a + b)
    decreases |a|
  {
    if a == [] {
      assert a + b == b;
    } else {
      RunConcat(Step(s, me, a[0]), me, a[1..], b);
      assert a + b == [a[0]] + (a[1..] + b);
      RunMore(s, me, a[0], a[1..] + b);
    }
  }

  /** An agent seen for the first time. */
  function Seen(a: string): seq<Event> { [BeginDiscover(0, a)] + [Advance(0, 0)] }

  lemma SeenAgent(me: string, a: string)
    ensures IsRun(EMPTY, me, Seen(a))
    ensures After(EMPTY, me, Seen(a)) == EMPTY.(agents := map[a := Record(Pending, "", 0, false, true, 0)])
  {
    var s1 := Step(EMPTY, me, BeginDiscover(0, a));
    RunOne(s1, me, Advance(0, 0));
    RunMore(EMPTY, me, BeginDiscover(0, a), [Advance(0, 0)]);
    assert Step(s1, me, Advance(0, 0)).tasks == map[];
  }

  /** A handshake up to its last section. */
  function AlmostGreeted(a: string): seq<Event> {
    [BeginHandshake(0, a)] + ([Advance(0, 0)] + ([Advance(0, 0)] + [Advance(0, 0)]))
  }

  lemma PendingHandshake(s: Server, me: string, a: string)
    requires s.tasks == map[] && a in s.agents && a !in s.tombstones
    requires s.agents[a].approval == Pending && s.agents[a].bound == ""
    ensures IsRun(s, me, AlmostGreeted(a))
    ensures var t := After(s, me, AlmostGreeted(a));
            a in t.agents && 0 in t.tasks && t.tasks[0] == Handshaking(a, Pending, Stored)
  {
    var e := Advance(0, 0);
    var s1 := Step(s, me, BeginHandshake(0, a));
    var s2 := Step(s1, me, e);
    var s3 := Step(s2, me, e);
    RunOne(s3, me, e);
    RunMore(s2, me, e, [e]);
    RunMore(s1, me, e, [e] + [e]);
    RunMore(s, me, BeginHandshake(0, a), [e] + ([e] + [e]));
  }

  lemma OverwrittenLast(s: Server, me: string, a: string)
    requires a in s.agents && 0 in s.tasks && s.tasks[0] == Handshaking(a, Pending, Stored)
    ensures var run := [Approve(a, 0)] + [Advance(0, 0)];
            && IsRun(s, me, run) && a in After(s, me, run).approvals
            && ApprovalOf(After(s, me, run).agents, a) == Pending
  {
    RunOne(Step(s, me, Approve(a, 0)), me, Advance(0, 0));
    RunMore(s, me, Approve(a, 0), [Advance(0, 0)]);
  }

  /** A handshake that read the state before the approval puts it back to pending afterwards. */
  lemma ApprovalOverwritten(me: string, a: string)
    ensures var run := Seen(a) + (AlmostGreeted(a) + ([Approve(a, 0)] + [Advance(0, 0)]));
            && IsRun(EMPTY, me, run) && a in After(EMPTY, me, run).approvals
            && ApprovalOf(After(EMPTY, me, run).agents, a) == Pending
  {
    var last := [Approve(a, 0)] + [Advance(0, 0)];
    SeenAgent(me, a);
    var s1 := After(EMPTY, me, Seen(a));
    PendingHandshake(s1, me, a);
    OverwrittenLast(After(s1, me, AlmostGreeted(a)), me, a);
    RunConcat(s1, me, AlmostGreeted(a), last);
    RunConcat(EMPTY, me, Seen(a), AlmostGreeted(a) + last);
  }

  // ---- what an approving answer says about the stored state ----

  /** A task that will still tell the agent it is approved. */
  predicate Answers(t: Task, a: string) {
    || ((t.Greeting? || t.Handshaking?) && t.agent == a && t.state == Approved)
    || (t.Registering? && t.agent == a)
  }

  predicate Unanswered(s: Server, a: string) {
    forall k :: k in s.tasks ==> !Answers(s.tasks[k], a)
  }

  predicate Approving(m: Msg, a: string) {
    m.agent == a && (m.RegisterAck? || m.approved)
  }

  lemma {:induction false} RunSplit(s: Server, me: string, run: seq<Event>, i: nat)
    requires IsRun(s, me, run) && i <= |run|
    ensures IsRun(s, me, run[..i]) && IsRun(After(s, me, run[..i]), me, run[i..])
    ensures After(After(s, me, run[..i]), me, run[i..]) == After(s, me, run)
    decreases |run|
  {
    if i == 0 {
      assert run[..0] == [] && run[0..] == run;
    } else {
      RunSplit(Step(s, me, run[0]), me, run[1..], i - 1);
      RunMore(s, me, run[0], run[1..][..i - 1]);
      assert run[..i] == [run[0]] + run[1..][..i - 1] && run[i..] == run[1..][i - 1..];
    }
  }

  predicate Answering(s: Server, k: nat, a: string) {
    k in s.tasks && Answers(s.tasks[k], a)
  }

  /** A handler comes to hold an approval only by reading it. */
  lemma AnswerBegins(s: Server, me: string, e: Event, k: nat, a: string)
    requires Enabled(s, e) && !Answering(s, k, a) && Answering(Step(s, me, e), k, a)
    ensures (e == BeginRegister(k, a) || e == BeginHandshake(k, a)) && IsApproved(s, a)
  {
  }

  /** Where in a run the handler that answers read the state. */
  lemma {:induction false} ReadAt(s: Server, me: string, run: seq<Event>, k: nat, a: string) returns (i: nat)
    requires IsRun(s, me, run) && !Answering(s, k, a) && Answering(After(s, me, run), k, a)
    ensures i < |run| && (run[i] == BeginRegister(k, a) || run[i] == BeginHandshake(k, a))
    ensures IsRun(s, me, run[..i]) && IsApproved(After(s, me, run[..i]), a)
    decreases |run|
  {
    assert run != [];
    var n := |run| - 1;
    RunSplit(s, me, run, n);
    var before := After(s, me, run[..n]);
    assert run[n..] == [run[n]];
    RunOne(before, me, run[n]);
    if Answering(before, k, a) {
      i := ReadAt(s, me, run[..n], k, a);
      assert run[..n][..i] == run[..i];
    } else {
      AnswerBegins(before, me, run[n], k, a);
      i := n;
    }
  }

  /**
   An approving answer, to a handshake or a register, goes out just when the agent's stored
   state is approved, except exactly if a step since the handler read it demoted the agent and
   none promoted it again.
   */
  lemma AnswerExactly(s: Server, me: string, run: seq<Event>, e: Event, m: Msg, a: string) returns (i: nat)
    requires Unanswered(s, a) && IsRun(s, me, run) && Enabled(After(s, me, run), e)
    requires m in Sends(After(s, me, run), me, e) && Approving(m, a)
    ensures i < |run| && e.Advance? && (run[i] == BeginRegister(e.task, a) || run[i] == BeginHandshake(e.task, a))
    ensures IsRun(s, me, run[..i]) && IsApproved(After(s, me, run[..i]), a)
    ensures IsRun(After(s, me, run[..i]), me, run[i..])
    ensures IsApproved(After(s, me, run), a) <==> LastTurn(After(s, me, run[..i]), me, run[i..], a) != Demotes
  {
    assert Answering(After(s, me, run), e.task, a);
    i := ReadAt(s, me, run, e.task, a);
    RunSplit(s, me, run, i);
    ApprovedExactly(After(s, me, run[..i]), me, run[i..], a);
  }

  /** A register under way for a listed agent is acknowledged whatever its stored state has become. */
  lemma RegisterGoesThrough(s: Server, me: string, k: nat, a: string)
    requires k in s.tasks && s.tasks[k] == Registering(a, Clear) && a in s.agents && a !in s.tombstones
    ensures var run := [Advance(k, 0)] + ([Advance(k, 0)] + [Advance(k, 0)]);
            && IsRun(s, me, run) && RegisterAck(me, a) in Sent(s, me, run)
            && ApprovalOf(After(s, me, run).agents, a) == ApprovalOf(s.agents, a)
  {
    var e := Advance(k, 0);
    var s1 := Step(s, me, e);
    var s2 := Step(s1, me, e);
    RunOne(s2, me, e);
    RunMore(s1, me, e, [e]);
    RunMore(s, me, e, [e] + [e]);
  }

  /** Read as approved, then rejected. */
  lemma RejectedAfterRead(s: Server, me: string, a: string)
    requires s.tasks == map[] && IsApproved(s, a) && a !in s.tombstones
    ensures var run := [BeginRegister(0, a)] + ([Reject(a, 0)] + ([Advance(0, 0)] + ([Advance(0, 0)] + [Advance(0, 0)])));
            && IsRun(s, me, run) && RegisterAck(me, a) in Sent(s, me, run)
            && ApprovalOf(After(s, me, run).agents, a) == Rejected
  {
    var s1 := Step(s, me, BeginRegister(0, a));
    var s2 := Step(s1, me, Reject(a, 0));
    var last := [Advance(0, 0)] + ([Advance(0, 0)] + [Advance(0, 0)]);
    RegisterGoesThrough(s2, me, 0, a);
    RunMore(s1, me, Reject(a, 0), last);
    RunMore(s, me, BeginRegister(0, a), [Reject(a, 0)] + last);
  }

  /** An agent rejected between the read and the answer is acknowledged all the same. */
  lemma RejectedMeanwhile(me: string, a: string)
    ensures var rejected := [BeginRegister(0, a)] + ([Reject(a, 0)] + ([Advance(0, 0)] + ([Advance(0, 0)] + [Advance(0, 0)])));
            var run := Seen(a) + ([Approve(a, 0)] + rejected);
            && IsRun(EMPTY, me, run) && RegisterAck(me, a) in Sent(EMPTY, me, run)
            && ApprovalOf(After(EMPTY, me, run).agents, a) == Rejected
  {
    var rejected := [BeginRegister(0, a)] + ([Reject(a, 0)] + ([Advance(0, 0)] + ([Advance(0, 0)] + [Advance(0, 0)])));
    SeenAgent(me, a);
    var s1 := After(EMPTY, me, Seen(a));
    var s2 := Step(s1, me, Approve(a, 0));
    RejectedAfterRead(s2, me, a);
    RunMore(s1, me, Approve(a, 0), rejected);
    RunConcat(EMPTY, me, Seen(a), [Approve(a, 0)] + rejected);
  }

  // ---- handlers that nothing interrupts ----

  /** Locked sections a handler still has ahead of it. */
  function SectionsLeft(t: Task): nat {
    match t
    case Greeting(_, _) => 4
    case Handshaking(_, _, stage) => StageLeft(stage)
    case Registering(_, stage) => StageLeft(stage)
    case Deleting(_) => 3
    case Burying => 2
    case _ => 1
  }

  function StageLeft(stage: Stage): nat {
    match stage case Clear => 3 case Passed => 2 case Stored => 1
  }

  /** The steps of a handler up to its end. */
  function ToEnd(s: Server, me: string, k: nat, now: nat): seq<Event>
    decreases if k in s.tasks then SectionsLeft(s.tasks[k]) else 0
  {
    if k !in s.tasks then [] else [Advance(k, now)] + ToEnd(Advanced(s, me, k, now), me, k, now)
  }

  /** A handler from its first section to its last. */
  function Whole(s: Server, me: string, e: Event, k: nat, now: nat): seq<Event>
    requires Enabled(s, e)
  {
    [e] + ToEnd(Step(s, me, e), me, k, now)
  }

  /** Running a handler to its end leaves the other handlers alone. */
  lemma {:induction false} ToEndRuns(s: Server, me: string, k: nat, now: nat)
    ensures IsRun(s, me, ToEnd(s, me, k, now))
    ensures After(s, me, ToEnd(s, me, k, now)).tasks == s.tasks - {k}
    decreases if k in s.tasks then SectionsLeft(s.tasks[k]) else 0
  {
    if k in s.tasks {
      var s' := Advanced(s, me, k, now);
      ToEndRuns(s', me, k, now);
      RunMore(s, me, Advance(k, now), ToEnd(s', me, k, now));
    }
  }

  /** The last section of a handler. */
  lemma LastSection(s: Server, me: string, k: nat, now: nat)
    requires k in s.tasks && NextTask(s, me, s.tasks[k]).None?
    ensures var run := ToEnd(s, me, k, now);
            IsRun(s, me, run) && After(s, me, run) == Advanced(s, me, k, now) && Sent(s, me, run) == Replies(s, me, s.tasks[k])
  {
    var s' := Advanced(s, me, k, now);
    assert ToEnd(s', me, k, now) == [];
    RunMore(s, me, Advance(k, now), []);
  }

  /** A section that sends nothing, and the rest. */
  lemma SilentSection(s: Server, me: string, k: nat, now: nat)
    requires k in s.tasks && Replies(s, me, s.tasks[k]) == {}
    ensures var s' := Advanced(s, me, k, now);
            var run, rest := ToEnd(s, me, k, now), ToEnd(s', me, k, now);
            && IsRun(s, me, run) && IsRun(s', me, rest)
            && After(s, me, run) == After(s', me, rest) && Sent(s, me, run) == Sent(s', me, rest)
  {
    var s' := Advanced(s, me, k, now);
    ToEndRuns(s', me, k, now);
    RunMore(s, me, Advance(k, now), ToEnd(s', me, k, now));
    assert {} + Sent(s', me, ToEnd(s', me, k, now)) == Sent(s', me, ToEnd(s', me, k, now));
  }

  lemma BeginsWhole(s: Server, me: string, e: Event, k: nat, now: nat)
    requires Enabled(s, e) && !e.Advance?
    ensures var s', run := Step(s, me, e), Whole(s, me, e, k, now);
            var rest := ToEnd(s', me, k, now);
            && IsRun(s, me, run) && IsRun(s', me, rest)
            && After(s, me, run) == After(s', me, rest) && Sent(s, me, run) == Sent(s', me, rest)
  {
    var s' := Step(s, me, e);
    ToEndRuns(s', me, k, now);
    RunMore(s, me, e, ToEnd(s', me, k, now));
    assert {} + Sent(s', me, ToEnd(s', me, k, now)) == Sent(s', me, ToEnd(s', me, k, now));
  }

  function StoreOf(s: Server): State { State(s.agents, s.tombstones, s.tombFile) }

  /** What the store goes through in a whole handshake that is not refused. */
  function Greeted(st: State, me: string, a: string, now: nat): Agents {
    var state := ApprovalOf(st.agents, a);
    var t := Store.Register(st, a, NewRecord(state, me), now);
    if state == Approved || state == Rejected then t.agents else WithApproval(t.agents, a, Pending, "", now)
  }

  /** From the check of the blacklist on. */
  lemma HandshakeEnd(s: Server, me: string, k: nat, a: string, now: nat)
    requires k in s.tasks && s.tasks[k] == Handshaking(a, ApprovalOf(s.agents, a), Clear)
    ensures var run := ToEnd(s, me, k, now);
            && IsRun(s, me, run)
            && Sent(s, me, run) == {HandshakeAck(me, a, ApprovalOf(s.agents, a) == Approved)}
            && After(s, me, run) == s.(agents := Greeted(StoreOf(s), me, a, now), tasks := s.tasks - {k})
  {
    var s1 := Advanced(s, me, k, now);
    SilentSection(s, me, k, now);
    if a in s.tombstones {
      LastSection(s1, me, k, now);
      assert s1.tasks - {k} == s.tasks - {k};
    } else {
      var s2 := Advanced(s1, me, k, now);
      SilentSection(s1, me, k, now);
      LastSection(s2, me, k, now);
      assert s2.tasks - {k} == s.tasks - {k};
    }
  }

  /**
   A whole handshake is answered once, with an approval just when the stored state is approved
   and the stored binding is this server's or none.
   */
  lemma HandshakeExact(s: Server, me: string, k: nat, a: string, now: nat)
    requires k !in s.tasks
    ensures var run := Whole(s, me, BeginHandshake(k, a), k, now);
            var here := a in s.agents ==> s.agents[a].bound == "" || s.agents[a].bound == me;
            && IsRun(s, me, run)
            && Sent(s, me, run) == {HandshakeAck(me, a, a in s.agents && s.agents[a].approval == Approved && here)}
            && After(s, me, run) == if here then s.(agents := Greeted(StoreOf(s), me, a, now)) else s
  {
    var e := BeginHandshake(k, a);
    var s1 := Step(s, me, e);
    BeginsWhole(s, me, e, k, now);
    assert s1.tasks - {k} == s.tasks;
    if BoundElsewhere(s.agents, a, me) {
      LastSection(s1, me, k, now);
    } else {
      var s2 := Advanced(s1, me, k, now);
      SilentSection(s1, me, k, now);
      HandshakeEnd(s2, me, k, a, now);
      assert s2.tasks - {k} == s.tasks;
    }
  }

  /** Right after an administrator's approval a handshake is answered with an approval. */
  lemma ApprovedThenGreeted(s: Server, me: string, k: nat, a: string, now: nat)
    requires k !in s.tasks && a in s.agents
    ensures var s' := Step(s, me, Approve(a, now));
            var run := Whole(s', me, BeginHandshake(k, a), k, now);
            IsRun(s', me, run) && Sent(s', me, run) == {HandshakeAck(me, a, true)}
  {
    HandshakeExact(Step(s, me, Approve(a, now)), me, k, a, now);
  }

  /** What a whole handshake leaves in the table: decisions stay, anything else becomes pending. */
  lemma GreetedTable(st: State, me: string, a: string, now: nat, x: string)
    ensures var m, m' := st.agents, Greeted(st, me, a, now);
            && (x != a ==> (x in m' <==> x in m) && (x in m ==> m'[x] == m[x]))
            && (a in m' <==> a in m || a !in st.tombstones)
            && (a in m' ==>
                  && m'[a].approval == (if a in m && (m[a].approval == Approved || m[a].approval == Rejected)
                                        then m[a].approval else Pending)
                  && m'[a].bound == (if a in m then m[a].bound else ""))
            && (a in m' && a !in st.tombstones ==> m'[a].online && !m'[a].discovered && m'[a].lastSeen == now)
  {
  }

  /** A whole register is acknowledged just when the stored state is approved; then the store registers it. */
  lemma RegisterExact(s: Server, me: string, k: nat, a: string, now: nat)
    requires k !in s.tasks
    ensures var run := Whole(s, me, BeginRegister(k, a), k, now);
            var approved := a in s.agents && s.agents[a].approval == Approved;
            && IsRun(s, me, run)
            && Sent(s, me, run) == (if approved then {RegisterAck(me, a)} else {})
            && After(s, me, run) ==
                 if approved then s.(agents := Store.Register(StoreOf(s), a, Record(Unset, "", 0, false, false, 0), now).agents)
                 else s
  {
    var e := BeginRegister(k, a);
    var s1 := Step(s, me, e);
    BeginsWhole(s, me, e, k, now);
    if ApprovalOf(s.agents, a) == Approved {
      assert s1.tasks - {k} == s.tasks;
      RegisterEnd(s1, me, k, a, now);
    }
  }

  lemma RegisterEnd(s: Server, me: string, k: nat, a: string, now: nat)
    requires k in s.tasks && s.tasks[k] == Registering(a, Clear)
    ensures var run := ToEnd(s, me, k, now);
            && IsRun(s, me, run) && Sent(s, me, run) == {RegisterAck(me, a)}
            && After(s, me, run) ==
                 s.(agents := Store.Register(StoreOf(s), a, Record(Unset, "", 0, false, false, 0), now).agents,
                    tasks := s.tasks - {k})
  {
    var s1 := Advanced(s, me, k, now);
    SilentSection(s, me, k, now);
    if a in s.tombstones {
      LastSection(s1, me, k, now);
      assert s1.tasks - {k} == s.tasks - {k};
    } else {
      var s2 := Advanced(s1, me, k, now);
      SilentSection(s1, me, k, now);
      LastSection(s2, me, k, now);
      assert s2.tasks - {k} == s.tasks - {k};
    }
  }

  /** A whole discovery is the store's. */
  lemma DiscoverExact(s: Server, me: string, k: nat, a: string, now: nat)
    requires k !in s.tasks
    ensures var run := Whole(s, me, BeginDiscover(k, a), k, now);
            && IsRun(s, me, run) && Sent(s, me, run) == {}
            && After(s, me, run) == s.(agents := Store.Discover(StoreOf(s), a, now).agents)
  {
    var s1 := Step(s, me, BeginDiscover(k, a));
    BeginsWhole(s, me, BeginDiscover(k, a), k, now);
    if a !in s.tombstones {
      LastSection(s1, me, k, now);
      assert s1.tasks - {k} == s.tasks;
    }
  }

  lemma SaveExact(s: Server, me: string, k: nat, now: nat)
    requires k !in s.tasks
    ensures var run := Whole(s, me, BeginSave(k), k, now);
            && IsRun(s, me, run) && After(s, me, run) == s.(file := Snapshot(s.agents))
  {
    var s1 := Step(s, me, BeginSave(k));
    BeginsWhole(s, me, BeginSave(k), k, now);
    LastSection(s1, me, k, now);
    assert s1.tasks - {k} == s.tasks;
  }

  /** After a save, a restart keeps every agent's approval and binding, except of blacklisted ones. */
  lemma SavedSurvivesRestart(s: Server, me: string, k: nat, now: nat, a: string)
    requires k !in s.tasks
    ensures var run := Whole(s, me, BeginSave(k), k, now);
            IsRun(s, me, run) &&
            var m := Step(After(s, me, run), me, Restart).agents;
            && ApprovalOf(m, a) == (if a in s.tombFile then Unset else ApprovalOf(s.agents, a))
            && (a in m ==> a in s.agents && m[a].bound == s.agents[a].bound)
  {
    SaveExact(s, me, k, now);
    LoadAfterSave(s.agents, s.tombFile, a);
  }

  /** The store's call behind a step that is one locked section. */
  function CallOf(s: Server, me: string, e: Event): Option<Call> {
    match e
    case Presence(a, online, now) => Some(OnlineCall(a, online, now))
    case Prune(cutoff) => Some(PruneCall(cutoff))
    case Approve(a, now) => Some(ApprovalCall(a, Approved, me, now))
    case Reject(a, now) => Some(ApprovalCall(a, Rejected, "", now))
    case Restart => Some(Reload(s.file))
    case _ => None
  }

  /** Such a step is exactly that call, and an approval is noted just when the agent is listed. */
  lemma StepIsCall(s: Server, me: string, e: Event)
    requires CallOf(s, me, e).Some?
    ensures StoreOf(Step(s, me, e)) == Called(StoreOf(s), CallOf(s, me, e).value)
    ensures Step(s, me, e).file == s.file
    ensures Step(s, me, e).approvals == s.approvals + (if e.Approve? && e.agent in s.agents then {e.agent} else {})
    ensures Step(s, me, e).tasks == if e.Restart? then map[] else s.tasks
  {
  }

  // ---- bindings ----

  ghost predicate TableHere(m: Agents, me: string) {
    forall a :: a in m ==> (m[a].bound == "" || m[a].bound == me) && (m[a].approval == Approved ==> m[a].bound == me)
  }

  ghost predicate FileHere(f: map<string, Saved>, me: string) {
    forall a :: a in f ==> (f[a].bound == "" || f[a].bound == me) && (f[a].approval == Approved ==> f[a].bound == me)
  }

  /** Every record is bound to this server or to none, and an approved one to this server. */
  ghost predicate Here(s: Server, me: string) {
    && TableHere(s.agents, me) && FileHere(s.file, me)
    && forall k :: k in s.tasks && s.tasks[k].Saving? ==> FileHere(s.tasks[k].file, me)
  }

  lemma NextAgentsHere(s: Server, me: string, t: Task, now: nat)
    requires TableHere(s.agents, me)
    ensures TableHere(NextAgents(s, me, t, now), me)
  {
  }

  lemma StepHere(s: Server, me: string, e: Event)
    requires Here(s, me) && Enabled(s, e)
    ensures Here(Step(s, me, e), me)
  {
    if e.Advance? { NextAgentsHere(s, me, s.tasks[e.task], e.now); }
  }

  lemma {:induction false} RunHere(s: Server, me: string, run: seq<Event>)
    requires Here(s, me) && IsRun(s, me, run)
    ensures Here(After(s, me, run), me)
    decreases |run|
  {
    if run != [] {
      StepHere(s, me, run[0]);
      RunHere(Step(s, me, run[0]), me, run[1..]);
    }
  }

  /**
   In every state a server reaches from nothing, an approved record is bound to that server, no
   record to another one, and a whole handshake is approved just when the stored state is.
   */
  lemma BoundHere(me: string, run: seq<Event>, k: nat, a: string, now: nat)
    requires IsRun(EMPTY, me, run) && k !in After(EMPTY, me, run).tasks
    ensures var s := After(EMPTY, me, run);
            var greet := Whole(s, me, BeginHandshake(k, a), k, now);
            && (a in s.agents ==> s.agents[a].bound == "" || s.agents[a].bound == me)
            && (IsApproved(s, a) ==> s.agents[a].bound == me)
            && IsRun(s, me, greet) && Sent(s, me, greet) == {HandshakeAck(me, a, IsApproved(s, a))}
  {
    RunHere(EMPTY, me, run);
    HandshakeExact(After(EMPTY, me, run), me, k, a, now);
  }
}
