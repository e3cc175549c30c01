/**
 The server's agent store: approval states, tombstones, and what is saved and loaded.
 Only the fields that approval, binding and removal depend on are kept.
 */
module Store {
  import opened Json

  datatype Approval = Unset | Pending | Approved | Rejected

  datatype Record = Record(
    approval: Approval, bound: string, approvedAt: nat, online: bool, discovered: bool, lastSeen: nat)

  /** What the approvals file keeps of a record. */
  datatype Saved = Saved(approval: Approval, bound: string, approvedAt: nat)

  type Agents = map<string, Record>

  /** `tombFile` is the blacklist on disk. */
  datatype State = State(agents: Agents, tombstones: set<string>, tombFile: set<string>)

  // ---- the operations on values ----

  function ApprovalOf(m: Agents, id: string): Approval {
    if id in m then m[id].approval else Unset
  }

  /** The locked part of `Register`: approval and binding of a known agent are kept. */
  function Inserted(m: Agents, id: string, r: Record, now: nat): Agents {
    var kept := if id in m then r.(approval := m[id].approval, bound := m[id].bound, approvedAt := m[id].approvedAt)
                else r;
    m[id := kept.(online := true, discovered := false, lastSeen := now)]
  }

  /** The locked part of `Discover`. */
  function Sighted(m: Agents, id: string, now: nat): Agents {
    if id !in m then m[id := Record(Pending, "", 0, false, true, now)]
    else if m[id].online then m
    else
      var r := m[id].(lastSeen := now);
      m[id := if r.approval == Approved then r
              else r.(discovered := true, approval := if r.approval == Unset then Pending else r.approval)]
  }

  function Pruned(m: Agents, cutoff: nat): Agents {
    map id | id in m && !(m[id].discovered && m[id].lastSeen < cutoff) :: m[id]
  }

  function WithApproval(m: Agents, id: string, a: Approval, serverId: string, now: nat): Agents {
    if id !in m then m
    else m[id := if a == Approved then m[id].(approval := a, bound := serverId, approvedAt := now)
                 else m[id].(approval := a)]
  }

  function SeenOnline(m: Agents, id: string, online: bool, now: nat): Agents {
    if id in m then m[id := m[id].(online := online, lastSeen := now)] else m
  }

  function Register(s: State, id: string, r: Record, now: nat): State {
    if id in s.tombstones then s else s.(agents := Inserted(s.agents, id, r, now))
  }

  function Discover(s: State, id: string, now: nat): State {
    if id in s.tombstones then s else s.(agents := Sighted(s.agents, id, now))
  }

  function Remove(s: State, id: string): State {
    State(s.agents - {id}, s.tombstones + {id}, s.tombstones + {id})
  }

  /** `Save`: records whose approval was never set are left out. */
  function Snapshot(m: Agents): map<string, Saved> {
    map id | id in m && m[id].approval != Unset :: Saved(m[id].approval, m[id].bound, m[id].approvedAt)
  }

  /** A record with its saved fields; a new one if there was none. */
  function Overwritten(m: Agents, id: string, f: Saved): Record {
    (if id in m then m[id] else Record(Unset, "", 0, false, false, 0))
      .(approval := f.approval, bound := f.bound, approvedAt := f.approvedAt)
  }

  /** `Load` into an empty table: tombstoned agents are skipped. */
  function Loaded(file: map<string, Saved>, tombstones: set<string>): Agents {
    map id | id in file && id !in tombstones ::
      Record(file[id].approval, file[id].bound, file[id].approvedAt, false, false, 0)
  }

  // ---- whole calls, one after the other ----

  /** Gone from the table and kept out by the blacklist, now and after a restart. */
  predicate Away(s: State, id: string) {
    id !in s.agents && id in s.tombstones && id in s.tombFile
  }

  /** One call on the store; `Reload` is a restart that loads any approvals file, however old. */
  datatype Call =
    | RegisterCall(id: string, record: Record, now: nat)
    | DiscoverCall(id: string, now: nat)
    | PruneCall(cutoff: nat)
    | ApprovalCall(id: string, approval: Approval, server: string, now: nat)
    | OnlineCall(id: string, online: bool, now: nat)
    | RemoveCall(id: string)
    | Reload(file: map<string, Saved>)

  function Called(s: State, c: Call): State {
    match c
    case RegisterCall(id, r, now) => Register(s, id, r, now)
    case DiscoverCall(id, now) => Discover(s, id, now)
    case PruneCall(cutoff) => s.(agents := Pruned(s.agents, cutoff))
    case ApprovalCall(id, a, server, now) => s.(agents := WithApproval(s.agents, id, a, server, now))
    case OnlineCall(id, online, now) => s.(agents := SeenOnline(s.agents, id, online, now))
    case RemoveCall(id) => Remove(s, id)
    case Reload(file) => State(Loaded(file, s.tombFile), s.tombFile, s.tombFile)
  }

  function CalledAll(s: State, calls: seq<Call>): State
    decreases |calls|
  {
    if calls == [] then s else CalledAll(Called(s, calls[0]), calls[1..])
  }

  lemma {:induction false} StaysAway(s: State, id: string, calls: seq<Call>)
    requires Away(s, id)
    ensures Away(CalledAll(s, calls), id)
    decreases |calls|
  {
    if calls != [] { StaysAway(Called(s, calls[0]), id, calls[1..]); }
  }

  /**
   Calls that do not overlap: whatever is called after `RemoveAgent`, and however old a file a
   restart loads, the agent is not in the store and its approval reads as unset.
   */
  lemma RemovedForGood(s: State, id: string, calls: seq<Call>)
    ensures var later := CalledAll(Remove(s, id), calls);
            id !in later.agents && ApprovalOf(later.agents, id) == Unset && id in later.tombstones
  {
    StaysAway(Remove(s, id), id, calls);
  }

  // ---- what an operation leaves alone ----

  ghost predicate OthersKept(was: Agents, now: Agents, id: string) {
    forall x :: x != id ==> (x in now <==> x in was) && (x in was ==> now[x] == was[x])
  }

  /** A discovery changes no approval but an unset one, and no binding. */
  lemma DiscoveryKeepsDecisions(m: Agents, id: string, now: nat, x: string)
    ensures var m' := Sighted(m, id, now);
            && (ApprovalOf(m, x) != Unset ==> ApprovalOf(m', x) == ApprovalOf(m, x))
            && (ApprovalOf(m, x) == Unset ==> ApprovalOf(m', x) == Unset || ApprovalOf(m', x) == Pending)
            && (x in m ==> x in m' && m'[x].bound == m[x].bound && m'[x].approvedAt == m[x].approvedAt
                           && m'[x].online == m[x].online)
            && (x !in m && x != id ==> x !in m')
  {
  }

  // ---- the store object ----

  class AgentStore {
    var agents: Agents
    var tombstones: set<string>
    var tombFile: set<string>

    constructor (tombFile: set<string>)
      ensures Abs() == State(map[], tombFile, tombFile)
    {
      agents, tombstones, this.tombFile := map[], tombFile, tombFile;
    }

    ghost function Abs(): State
      reads this
    {
      State(agents, tombstones, tombFile)
    }

    method RegisterAgent(id: string, r: Record, now: nat)
      modifies this
      ensures Abs() == Register(old(Abs()), id, r, now)
      ensures id in tombstones ==> agents == old(agents)
      ensures id !in tombstones ==>
                id in agents && agents[id].online && !agents[id].discovered && agents[id].lastSeen == now
      ensures id !in tombstones ==>
                var was := if id in old(agents) then old(agents)[id] else r;
                agents[id].approval == was.approval && agents[id].bound == was.bound && agents[id].approvedAt == was.approvedAt
      ensures OthersKept(old(agents), agents, id)
    {
      if id in tombstones { return; }
      var a := r;
      if id in agents {
        a := a.(approval := agents[id].approval, bound := agents[id].bound, approvedAt := agents[id].approvedAt);
      }
      a := a.(online := true, discovered := false, lastSeen := now);
      agents := agents[id := a];
    }

    method DiscoverAgent(id: string, now: nat)
      modifies this
      ensures Abs() == Discover(old(Abs()), id, now)
      ensures id in tombstones ==> agents == old(agents)
      ensures id !in tombstones && id !in old(agents) ==>
                id in agents && agents[id] == Record(Pending, "", 0, false, true, now)
      ensures id !in tombstones && id in old(agents) ==>
                var was := old(agents)[id];
                id in agents && agents[id] ==
                  if was.online then was
                  else if was.approval == Unset then was.(approval := Pending, discovered := true, lastSeen := now)
                  else was.(discovered := was.discovered || was.approval != Approved, lastSeen := now)
      ensures OthersKept(old(agents), agents, id)
    {
      if id in tombstones { return; }
      if id in agents {
        var a := agents[id];
        if a.online { return; }
        if a.approval != Approved {
          a := a.(discovered := true);
          if a.approval == Unset { a := a.(approval := Pending); }
        }
        agents := agents[id := a.(lastSeen := now)];
        return;
      }
      agents := agents[id := Record(Pending, "", 0, false, true, now)];
    }

    method PruneDiscovered(cutoff: nat)
      modifies this
      ensures Abs() == old(Abs()).(agents := Pruned(old(agents), cutoff))
      ensures forall id :: id in agents <==>
                id in old(agents) && (!old(agents)[id].discovered || cutoff <= old(agents)[id].lastSeen)
      ensures forall id :: id in agents ==> agents[id] == old(agents)[id]
    {
      var left := agents.Keys;
      while left != {}
        invariant left <= old(agents).Keys
        invariant tombstones == old(tombstones) && tombFile == old(tombFile)
        invariant agents == map id | id in old(agents) && (id in left || id in Pruned(old(agents), cutoff)) :: old(agents)[id]
        decreases left
      {
        var id :| id in left;
        if agents[id].discovered && agents[id].lastSeen < cutoff { agents := agents - {id}; }
        left := left - {id};
      }
    }

    method SetApproval(id: string, a: Approval, serverId: string, now: nat)
      modifies this
      ensures Abs() == old(Abs()).(agents := WithApproval(old(agents), id, a, serverId, now))
      ensures agents.Keys == old(agents).Keys && OthersKept(old(agents), agents, id)
      ensures id in agents ==> agents[id].approval == a && agents[id].online == old(agents)[id].online
      ensures id in agents && a == Approved ==> agents[id].bound == serverId && agents[id].approvedAt == now
      ensures id in agents && a != Approved ==> agents[id] == old(agents)[id].(approval := a)
    {
      if id !in agents { return; }
      var r := agents[id].(approval := a);
      if a == Approved { r := r.(bound := serverId, approvedAt := now); }
      agents := agents[id := r];
    }

    method SetOnline(id: string, online: bool, now: nat)
      modifies this
      ensures Abs() == old(Abs()).(agents := SeenOnline(old(agents), id, online, now))
      ensures agents.Keys == old(agents).Keys && OthersKept(old(agents), agents, id)
      ensures id in agents ==> agents[id] == old(agents)[id].(online := online, lastSeen := now)
    {
      if id in agents { agents := agents[id := agents[id].(online := online, lastSeen := now)]; }
    }

    /** The agent is out of the table and on the blacklist, in memory and on disk; no other record changes. */
    method RemoveAgent(id: string)
      modifies this
      ensures Abs() == Remove(old(Abs()), id)
      ensures Away(Abs(), id)
      ensures forall x :: x != id ==> (x in agents <==> x in old(agents)) && (x in agents ==> agents[x] == old(agents)[x])
      ensures forall x :: x != id ==> (x in tombstones <==> x in old(tombstones))
    {
      agents := agents - {id};
      tombstones := tombstones + {id};
      tombFile := tombstones;
    }

    /** `Load`, on top of whatever the table holds. */
    method LoadApprovals(file: map<string, Saved>)
      modifies this
      ensures tombstones == old(tombstones) && tombFile == old(tombFile)
      ensures agents.Keys == old(agents).Keys + (file.Keys - tombstones)
      ensures forall id :: id in agents ==>
                if id in file && id !in tombstones then
                  Saved(agents[id].approval, agents[id].bound, agents[id].approvedAt) == file[id]
                else agents[id] == old(agents)[id]
      ensures old(agents) == map[] ==> agents == Loaded(file, tombstones)
    {
      var left := file.Keys;
      while left != {}
        invariant left <= file.Keys && tombstones == old(tombstones) && tombFile == old(tombFile)
        invariant agents.Keys == old(agents).Keys + (file.Keys - left - tombstones)
        invariant forall id :: id in agents ==>
                    if id in file && id !in left && id !in tombstones then
                      agents[id] == Overwritten(old(agents), id, file[id])
                    else id in old(agents) && agents[id] == old(agents)[id]
        decreases left
      {
        var id :| id in left;
        left := left - {id};
        if id !in tombstones {
          assert id in agents ==> agents[id] == old(agents)[id];
          var a := if id in agents then agents[id] else Record(file[id].approval, "", 0, false, false, 0);
          a := a.(approval := file[id].approval, bound := file[id].bound, approvedAt := file[id].approvedAt);
          assert a == Overwritten(old(agents), id, file[id]);
          agents := agents[id := a];
        }
      }
    }

    /** `Save`. */
    method SaveApprovals() returns (file: map<string, Saved>)
      ensures file == Snapshot(agents)
    {
      file := map[];
      var left := agents.Keys;
      while left != {}
        invariant left <= agents.Keys
        invariant file == map id | id in agents && id !in left && agents[id].approval != Unset ::
                    Saved(agents[id].approval, agents[id].bound, agents[id].approvedAt)
        decreases left
      {
        var id :| id in left;
        left := left - {id};
        if agents[id].approval != Unset {
          file := file[id := Saved(agents[id].approval, agents[id].bound, agents[id].approvedAt)];
        }
      }
    }
  }

  /** Saving and loading keep approval and binding of every agent that is not removed. */
  lemma LoadAfterSave(m: Agents, tombstones: set<string>, id: string)
    ensures var r := Loaded(Snapshot(m), tombstones);
            && ApprovalOf(r, id) == (if id in tombstones then Unset else ApprovalOf(m, id))
            && (id in r ==> r[id].bound == m[id].bound && r[id].approvedAt == m[id].approvedAt)
            && (id in r ==> !r[id].online && !r[id].discovered)
  {
  }
}
