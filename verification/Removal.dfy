/**
 Removal of an agent: exactly when it is permanent.

 The store promises that a removed agent does not come back.  Its code checks the blacklist and
 inserts in separate locked sections, and saves the blacklist without a lock, so the promise
 depends on what is under way at the moment of removal.
 */
module Removal {
  import opened Json
  import opened Store
  import opened Server

  /** A task that will put the agent in the table whatever the blacklist says by then. */
  predicate Inserts(t: Task, a: string) {
    || (t.Handshaking? && t.agent == a && t.stage == Passed)
    || (t.Registering? && t.agent == a && t.stage == Passed)
    || (t.Discovering? && t.agent == a)
  }

  /** A task that will write a blacklist without the agent. */
  predicate Forgets(t: Task, a: string) {
    t.WritingTombstones? && a !in t.ids
  }

  predicate Undisturbed(s: Server, a: string) {
    forall k :: k in s.tasks ==> !Inserts(s.tasks[k], a) && !Forgets(s.tasks[k], a)
  }

  predicate Gone(s: Server, a: string) {
    a !in s.agents && a in s.tombstones && a in s.tombFile && Undisturbed(s, a)
  }

  /** The agent is in the table at no point of any run from here. */
  ghost predicate NeverBack(s: Server, me: string, a: string) {
    forall run :: IsRun(s, me, run) ==> a !in After(s, me, run).agents
  }

  // ---- gone stays gone ----

  lemma AdvanceKeepsGone(s: Server, me: string, k: nat, now: nat, a: string)
    requires Gone(s, a) && k in s.tasks
    ensures Gone(Advanced(s, me, k, now), a)
  {
  }

  lemma StepKeepsGone(s: Server, me: string, e: Event, a: string)
    requires Gone(s, a) && Enabled(s, e)
    ensures Gone(Step(s, me, e), a)
  {
    if e.Advance? { AdvanceKeepsGone(s, me, e.task, e.now, a); }
  }

  lemma {:induction false} RunKeepsGone(s: Server, me: string, run: seq<Event>, a: string)
    requires Gone(s, a) && IsRun(s, me, run)
    ensures Gone(After(s, me, run), a)
    decreases |run|
  {
    if run != [] {
      StepKeepsGone(s, me, run[0], a);
      RunKeepsGone(Step(s, me, run[0]), me, run[1..], a);
    }
  }

  // ---- whatever is missing brings the agent back ----

  /** Some task number is free. */
  lemma {:induction false} FreeTask(used: set<nat>) returns (k: nat)
    ensures forall x :: x in used ==> x < k
    decreases used
  {
    k := 0;
    if used != {} {
      var x :| x in used;
      var k' := FreeTask(used - {x});
      k := if x < k' then k' else x + 1;
      assert forall y :: y in used ==> y == x || y in used - {x};
    }
  }

  /** One step after which the agent can come back is enough for it to be able to before. */
  lemma BackLater(s: Server, me: string, e: Event, a: string)
    requires Enabled(s, e) && !NeverBack(Step(s, me, e), me, a)
    ensures !NeverBack(s, me, a)
  {
    var run :| IsRun(Step(s, me, e), me, run) && a in After(Step(s, me, e), me, run).agents;
    RunMore(s, me, e, run);
  }

  lemma BackNow(s: Server, me: string, a: string)
    requires a in s.agents
    ensures !NeverBack(s, me, a)
  {
    assert IsRun(s, me, []);
    assert After(s, me, []) == s;
  }

  lemma InsertBringsBack(s: Server, me: string, k: nat, a: string)
    requires k in s.tasks && Inserts(s.tasks[k], a)
    ensures !NeverBack(s, me, a)
  {
    BackNow(Step(s, me, Advance(k, 0)), me, a);
    BackLater(s, me, Advance(k, 0), a);
  }

  /** An agent off the blacklist is back at its next broadcast. */
  lemma UnlistedComesBack(s: Server, me: string, a: string)
    requires a !in s.tombstones
    ensures !NeverBack(s, me, a)
  {
    var k := FreeTask(s.tasks.Keys);
    InsertBringsBack(Step(s, me, BeginDiscover(k, a)), me, k, a);
    BackLater(s, me, BeginDiscover(k, a), a);
  }

  /** A blacklist file without the agent is in force after the next restart. */
  lemma UnsavedComesBack(s: Server, me: string, a: string)
    requires a !in s.tombFile
    ensures !NeverBack(s, me, a)
  {
    UnlistedComesBack(Step(s, me, Restart), me, a);
    BackLater(s, me, Restart, a);
  }

  lemma ForgettingBringsBack(s: Server, me: string, k: nat, a: string)
    requires k in s.tasks && Forgets(s.tasks[k], a)
    ensures !NeverBack(s, me, a)
  {
    UnsavedComesBack(Step(s, me, Advance(k, 0)), me, a);
    BackLater(s, me, Advance(k, 0), a);
  }

  /**
   Permanent removal, exactly: the agent stays out of the table in every future (handshakes,
   registrations, broadcasts, heartbeats, pruning, approvals, saves and restarts with any
   approvals file) just when it is out of the table, on the blacklist in memory and on disk, and
   no task is under way that passed the blacklist check for it or holds an older blacklist.
   */
  lemma PermanentExactly(s: Server, me: string, a: string)
    ensures NeverBack(s, me, a) <==> Gone(s, a)
  {
    if Gone(s, a) {
      forall run | IsRun(s, me, run) ensures a !in After(s, me, run).agents { RunKeepsGone(s, me, run, a); }
    } else if a in s.agents {
      BackNow(s, me, a);
    } else if a !in s.tombstones {
      UnlistedComesBack(s, me, a);
    } else if a !in s.tombFile {
      UnsavedComesBack(s, me, a);
    } else {
      var k :| k in s.tasks && (Inserts(s.tasks[k], a) || Forgets(s.tasks[k], a));
      if Inserts(s.tasks[k], a) { InsertBringsBack(s, me, k, a); } else { ForgettingBringsBack(s, me, k, a); }
    }
  }

  // ---- RemoveAgent ----

  /** `RemoveAgent` from start to end with nothing in between. */
  function RemovalRun(k: nat, a: string): seq<Event> {
    [BeginDelete(k, a), Advance(k, 0), Advance(k, 0), Advance(k, 0)]
  }

  lemma RemovalEffect(s: Server, me: string, k: nat, a: string)
    requires k !in s.tasks
    ensures IsRun(s, me, RemovalRun(k, a))
    ensures var removed := Remove(State(s.agents, s.tombstones, s.tombFile), a);
            After(s, me, RemovalRun(k, a)) ==
              s.(agents := removed.agents, tombstones := removed.tombstones, tombFile := removed.tombFile)
  {
    var s1 := Step(s, me, BeginDelete(k, a));
    var s2 := Step(s1, me, Advance(k, 0));
    var s3 := Step(s2, me, Advance(k, 0));
    var s4 := Step(s3, me, Advance(k, 0));
    RunOne(s3, me, Advance(k, 0));
    RunMore(s2, me, Advance(k, 0), [Advance(k, 0)]);
    RunMore(s1, me, Advance(k, 0), [Advance(k, 0)] + [Advance(k, 0)]);
    RunMore(s, me, BeginDelete(k, a), [Advance(k, 0)] + ([Advance(k, 0)] + [Advance(k, 0)]));
    assert RemovalRun(k, a) == [BeginDelete(k, a)] + ([Advance(k, 0)] + ([Advance(k, 0)] + [Advance(k, 0)]));
    assert s4.tasks == s.tasks;
  }

  /** `RemoveAgent` alone is permanent just when nothing under way disturbs it. */
  lemma RemovalPermanent(s: Server, me: string, k: nat, a: string)
    requires k !in s.tasks
    ensures IsRun(s, me, RemovalRun(k, a))
    ensures NeverBack(After(s, me, RemovalRun(k, a)), me, a) <==> Undisturbed(s, a)
  {
    RemovalEffect(s, me, k, a);
    PermanentExactly(After(s, me, RemovalRun(k, a)), me, a);
  }

  /** An agent whose broadcast was checked just before it was removed is back. */
  lemma RemovedAndBack(me: string, a: string)
    ensures var run := [BeginDiscover(0, a)] + RemovalRun(1, a);
            IsRun(EMPTY, me, run) && !NeverBack(After(EMPTY, me, run), me, a)
  {
    var s := Step(EMPTY, me, BeginDiscover(0, a));
    RemovalPermanent(s, me, 1, a);
    RunMore(EMPTY, me, BeginDiscover(0, a), RemovalRun(1, a));
    assert Inserts(s.tasks[0], a);
  }

  // ---- answers after removal ----

  ghost predicate NeverApproved(s: Server, me: string, a: string) {
    forall run, m :: IsRun(s, me, run) && m in Sent(s, me, run) ==> !Approving(m, a)
  }

  lemma StepKeepsUnanswered(s: Server, me: string, e: Event, a: string)
    requires Gone(s, a) && Unanswered(s, a) && Enabled(s, e)
    ensures Unanswered(Step(s, me, e), a)
    ensures forall m :: m in Sends(s, me, e) ==> !Approving(m, a)
  {
  }

  lemma {:induction false} RunKeepsUnanswered(s: Server, me: string, run: seq<Event>, a: string)
    requires Gone(s, a) && Unanswered(s, a) && IsRun(s, me, run)
    ensures forall m :: m in Sent(s, me, run) ==> !Approving(m, a)
    decreases |run|
  {
    if run != [] {
      StepKeepsGone(s, me, run[0], a);
      StepKeepsUnanswered(s, me, run[0], a);
      RunKeepsUnanswered(Step(s, me, run[0]), me, run[1..], a);
    }
  }

  lemma AnswerNow(s: Server, me: string, e: Event, m: Msg, a: string)
    requires Enabled(s, e) && m in Sends(s, me, e) && Approving(m, a)
    ensures !NeverApproved(s, me, a)
  {
    RunOne(s, me, e);
    assert [e][1..] == [];
    assert m in Sent(s, me, [e]);
  }

  lemma AnswerLater(s: Server, me: string, e: Event, a: string)
    requires Enabled(s, e) && !NeverApproved(Step(s, me, e), me, a)
    ensures !NeverApproved(s, me, a)
  {
    var run, m :| IsRun(Step(s, me, e), me, run) && m in Sent(Step(s, me, e), me, run) && Approving(m, a);
    RunMore(s, me, e, run);
    assert ([e] + run)[1..] == run;
    assert m in Sent(s, me, [e] + run);
  }

  function StepsLeft(t: Task): nat {
    if t.Greeting? then 3
    else if !t.Handshaking? && !t.Registering? then 0
    else match t.stage case Clear => 2 case Passed => 1 case Stored => 0
  }

  /** A handler that read the approval before the removal answers it. */
  lemma {:induction false} AnswerComes(s: Server, me: string, k: nat, a: string)
    requires Gone(s, a) && k in s.tasks && Answers(s.tasks[k], a)
    ensures !NeverApproved(s, me, a)
    decreases StepsLeft(s.tasks[k])
  {
    var e := Advance(k, 0);
    if StepsLeft(s.tasks[k]) == 0 {
      var m := if s.tasks[k].Registering? then RegisterAck(me, a) else HandshakeAck(me, a, true);
      AnswerNow(s, me, e, m, a);
    } else {
      StepKeepsGone(s, me, e, a);
      AnswerComes(Step(s, me, e), me, k, a);
      AnswerLater(s, me, e, a);
    }
  }

  /** A removed agent is never again told it is approved just when no handler already holds its approval. */
  lemma SilentExactly(s: Server, me: string, a: string)
    requires Gone(s, a)
    ensures NeverApproved(s, me, a) <==> Unanswered(s, a)
  {
    if Unanswered(s, a) {
      forall run, m | IsRun(s, me, run) && m in Sent(s, me, run) ensures !Approving(m, a) {
        RunKeepsUnanswered(s, me, run, a);
      }
    } else {
      var k :| k in s.tasks && Answers(s.tasks[k], a);
      AnswerComes(s, me, k, a);
    }
  }
}
