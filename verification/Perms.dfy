/**
 Access grants: the direct check, the precomputed set of visible hosts, and deleting a group.
 */
module Perms {
  import opened Json

  const ALL_PERMISSIONS: string := "system.all"

  datatype Scope = Scope(all: bool, groups: seq<string>, agents: seq<string>)

  datatype Grant = Grant(permissions: seq<string>, scope: Scope, expiresAt: int)

  /** Groups by id, each with its hosts, and grants by user. */
  datatype State = State(groups: map<string, seq<string>>, grants: map<string, Grant>)

  predicate InForce(g: Grant, now: int) {
    g.expiresAt == 0 || now < g.expiresAt
  }

  predicate Has(g: Grant, perm: string) {
    exists i :: 0 <= i < |g.permissions| && (g.permissions[i] == ALL_PERMISSIONS || g.permissions[i] == perm)
  }

  /** The groups a host is in. */
  function GroupsOf(s: State, agent: string): set<string> {
    set id | id in s.groups && agent in s.groups[id]
  }

  predicate CanAccess(g: Grant, agent: string, agentGroups: set<string>) {
    || g.scope.all
    || agent in g.scope.agents
    || exists id :: id in agentGroups && id in g.scope.groups
  }

  /** `Check`: permission, validity and, for a named host, scope. */
  predicate Check(s: State, user: string, perm: string, agent: string, now: int) {
    && user in s.grants
    && InForce(s.grants[user], now)
    && Has(s.grants[user], perm)
    && (agent == "" || CanAccess(s.grants[user], agent, GroupsOf(s, agent)))
  }

  /** The direct check, by what is stored: an expired grant passes nothing, `system.all` covers every permission. */
  lemma CheckExact(s: State, user: string, perm: string, agent: string, now: int)
    ensures Check(s, user, perm, agent, now) <==>
            && user in s.grants
            && var g := s.grants[user];
            && (g.expiresAt == 0 || now < g.expiresAt)
            && ("system.all" in g.permissions || perm in g.permissions)
            && (agent == "" || g.scope.all || agent in g.scope.agents || InScopeGroup(s, g.scope.groups, agent))
  {
    if user in s.grants {
      var g := s.grants[user];
      HasExact(g, perm);
      if InScopeGroup(s, g.scope.groups, agent) {
        var i :| 0 <= i < |g.scope.groups| && g.scope.groups[i] in s.groups && agent in s.groups[g.scope.groups[i]];
        assert g.scope.groups[i] in GroupsOf(s, agent);
      }
    }
  }

  /** One of the listed groups exists and has the host. */
  ghost predicate InScopeGroup(s: State, groups: seq<string>, agent: string) {
    exists i :: 0 <= i < |groups| && groups[i] in s.groups && agent in s.groups[groups[i]]
  }

  lemma HasExact(g: Grant, perm: string)
    ensures Has(g, perm) <==> "system.all" in g.permissions || perm in g.permissions
  {
    if "system.all" in g.permissions {
      var i :| 0 <= i < |g.permissions| && g.permissions[i] == "system.all";
      assert g.permissions[i] == ALL_PERMISSIONS;
    }
  }

  // ---- the precomputed set ----

  /** `GroupsOfAgent`: the same groups, listed once each. */
  method GroupsOfAgent(s: State, agent: string) returns (out: seq<string>)
    ensures forall id :: id in out <==> id in GroupsOf(s, agent)
    ensures forall i, j :: 0 <= i < j < |out| ==> out[i] != out[j]
  {
    out := [];
    var left := s.groups.Keys;
    while left != {}
      invariant left <= s.groups.Keys
      invariant forall id :: id in out <==> id in GroupsOf(s, agent) && id !in left
      invariant forall i, j :: 0 <= i < j < |out| ==> out[i] != out[j]
      decreases left
    {
      var id :| id in left;
      if agent in s.groups[id] { out := out + [id]; }
      left := left - {id};
    }
  }

  /** `AllowedAgents`; `None` stands for all hosts. */
  method AllowedAgents(s: State, user: string, allAgents: seq<string>, now: int) returns (allowed: Option<set<string>>)
    ensures user !in s.grants || !InForce(s.grants[user], now) ==> allowed == Some({})
    ensures user in s.grants && InForce(s.grants[user], now) && s.grants[user].scope.all ==> allowed == None
    ensures user in s.grants && InForce(s.grants[user], now) && !s.grants[user].scope.all ==>
              allowed.Some? && forall a :: a in allowed.value <==>
                a in s.grants[user].scope.agents
                || (a in allAgents && CanAccess(s.grants[user], a, GroupsOf(s, a)))
  {
    if user !in s.grants { return Some({}); }
    var g := s.grants[user];
    if !InForce(g, now) { return Some({}); }
    if g.scope.all { return None; }
    var visible := set a | a in g.scope.agents;
    for i := 0 to |allAgents|
      invariant forall a :: a in visible <==>
                  a in g.scope.agents || (a in allAgents[..i] && CanAccess(g, a, GroupsOf(s, a)))
    {
      var agent := allAgents[i];
      var groups := GroupsOfAgent(s, agent);
      assert allAgents[..i + 1] == allAgents[..i] + [agent];
      if exists k :: 0 <= k < |groups| && groups[k] in g.scope.groups {
        var k :| 0 <= k < |groups| && groups[k] in g.scope.groups;
        assert groups[k] in GroupsOf(s, agent);
        visible := visible + {agent};
      } else {
        assert agent !in g.scope.agents ==> !CanAccess(g, agent, GroupsOf(s, agent)) by {
          forall id | id in GroupsOf(s, agent) ensures id !in g.scope.groups { assert id in groups; }
        }
      }
    }
    assert allAgents[..|allAgents|] == allAgents;
    allowed := Some(visible);
  }

  /** The set and the check agree on every listed host. */
  method VisibleAgrees(s: State, user: string, perm: string, allAgents: seq<string>, agent: string, now: int)
    returns (visible: bool)
    requires agent in allAgents && agent != ""
    ensures Check(s, user, perm, agent, now) <==> visible && user in s.grants && Has(s.grants[user], perm)
  {
    var allowed := AllowedAgents(s, user, allAgents, now);
    visible := allowed.None? || agent in allowed.value;
  }

  // ---- deleting a group ----

  function Without(s: seq<string>, id: string): (r: seq<string>)
    ensures |r| <= |s| && id !in r
    ensures forall x :: x in r <==> x in s && x != id
  {
    if s == [] then []
    else
      var r := Without(s[..|s| - 1], id);
      assert s == s[..|s| - 1] + [s[|s| - 1]];
      if s[|s| - 1] == id then r else r + [s[|s| - 1]]
  }

  /** The compaction of one grant's group list, in its own array; the new length. */
  method Compact(a: array<string>, n: nat, id: string) returns (k: nat)
    requires n <= a.Length
    modifies a
    ensures k <= n && a[..k] == Without(old(a[..n]), id)
  {
    k := 0;
    for i := 0 to n
      invariant k <= i && a[..k] == Without(old(a[..i]), id)
      invariant a[i..n] == old(a[i..n])
    {
      var g := a[i];
      assert g == old(a[i]) by { assert a[i..n][0] == old(a[i..n])[0]; }
      assert old(a[..i + 1]) == old(a[..i]) + [g];
      assert old(a[..i + 1])[..i] == old(a[..i]);
      if g != id {
        ghost var before := a[..k];
        a[k] := g;
        assert a[..k + 1] == before + [g];
        k := k + 1;
      }
      assert a[i + 1..n] == old(a[i + 1..n]) by {
        assert forall j :: i + 1 <= j < n ==> a[j] == old(a[i..n])[j - i];
      }
    }
  }

  function Ungrouped(g: Grant, id: string): Grant {
    g.(scope := g.scope.(groups := Without(g.scope.groups, id)))
  }

  function UngroupedAll(grants: map<string, Grant>, id: string): map<string, Grant> {
    map u | u in grants :: Ungrouped(grants[u], id)
  }

  function AfterDelete(s: State, id: string): State {
    State(s.groups - {id}, UngroupedAll(s.grants, id))
  }

  /** A grant as it is stored: its group list is the first `count` cells of an array. */
  class StoredGrant {
    const permissions: seq<string>
    const all: bool
    const agents: seq<string>
    const expiresAt: int
    const groups: array<string>
    var count: nat

    constructor (g: Grant)
      ensures count == groups.Length && fresh(groups) && Value() == g
    {
      permissions, all, agents, expiresAt := g.permissions, g.scope.all, g.scope.agents, g.expiresAt;
      var cells := new string[|g.scope.groups|](i requires 0 <= i < |g.scope.groups| => g.scope.groups[i]);
      groups, count := cells, |g.scope.groups|;
      new;
      assert groups[..count] == g.scope.groups;
    }

    function Value(): Grant
      reads this, groups
      requires count <= groups.Length
    {
      Grant(permissions, Scope(all, groups[..count], agents), expiresAt)
    }

    /** The list is compacted in its own array. */
    method RemoveGroup(id: string)
      requires count <= groups.Length
      modifies this, groups
      ensures count <= groups.Length && Value() == Ungrouped(old(Value()), id)
    {
      count := Compact(groups, count, id);
    }
  }

  /** Separate objects that do not share their arrays. */
  ghost predicate Separate(gs: seq<StoredGrant>)
    reads gs
  {
    && (forall i :: 0 <= i < |gs| ==> gs[i].count <= gs[i].groups.Length)
    && (forall i, j :: 0 <= i < j < |gs| ==> gs[i] != gs[j] && gs[i].groups != gs[j].groups)
  }

  /** The loop of `DeleteGroup` over all grants. */
  method RemoveFromAll(gs: seq<StoredGrant>, id: string)
    requires Separate(gs)
    modifies gs, set g | g in gs :: g.groups
    ensures Separate(gs)
    ensures forall i :: 0 <= i < |gs| ==> gs[i].Value() == Ungrouped(old(gs[i].Value()), id)
  {
    for n := 0 to |gs|
      invariant Separate(gs)
      invariant forall i :: 0 <= i < n ==> gs[i].Value() == Ungrouped(old(gs[i].Value()), id)
      invariant forall i :: n <= i < |gs| ==> gs[i].Value() == old(gs[i].Value())
    {
      assert forall i :: 0 <= i < |gs| && i != n ==> gs[i] != gs[n] && gs[i].groups != gs[n].groups;
      gs[n].RemoveGroup(id);
    }
  }

  class Manager {
    var groups: map<string, seq<string>>
    var grants: map<string, StoredGrant>

    constructor ()
      ensures Valid() && Abs() == State(map[], map[])
    {
      groups, grants := map[], map[];
    }

    ghost predicate Valid()
      reads this`grants, grants.Values
    {
      && (forall u :: u in grants ==> grants[u].count <= grants[u].groups.Length)
      && (forall u, v :: u in grants && v in grants && u != v ==>
            grants[u] != grants[v] && grants[u].groups != grants[v].groups)
    }

    ghost function Grants(): map<string, Grant>
      reads this`grants, grants.Values, set g | g in grants.Values :: g.groups
      requires Valid()
    {
      map u | u in grants :: grants[u].Value()
    }

    ghost function Abs(): State
      reads this, grants.Values, set g | g in grants.Values :: g.groups
      requires Valid()
    {
      State(groups, Grants())
    }

    method PutGrant(user: string, stored: StoredGrant)
      requires Valid() && stored.count <= stored.groups.Length
      requires forall u :: u in grants ==> grants[u] != stored && grants[u].groups != stored.groups
      modifies this`grants
      ensures grants == old(grants)[user := stored]
      ensures Valid() && Grants() == old(Grants())[user := stored.Value()]
    {
      grants := grants[user := stored];
    }

    /** `UpsertGrant`: the user's grant is the given one, in an object and an array of its own. */
    method UpsertGrant(user: string, g: Grant)
      requires Valid()
      modifies this`grants
      ensures Valid() && Grants() == old(Grants())[user := g]
    {
      var stored := new StoredGrant(g);
      PutGrant(user, stored);
    }

    /** The grants in some order. */
    method Listed() returns (users: seq<string>, gs: seq<StoredGrant>)
      ensures |users| == |gs| && forall i :: 0 <= i < |gs| ==> users[i] in grants && gs[i] == grants[users[i]]
      ensures forall i, j :: 0 <= i < j < |users| ==> users[i] != users[j]
      ensures forall u :: u in grants ==> u in users
    {
      users, gs := [], [];
      var left := grants.Keys;
      while left != {}
        invariant left <= grants.Keys && |users| == |gs|
        invariant forall i :: 0 <= i < |gs| ==> users[i] in grants && users[i] !in left && gs[i] == grants[users[i]]
        invariant forall i, j :: 0 <= i < j < |users| ==> users[i] != users[j]
        invariant forall u :: u in grants ==> u in left || u in users
        decreases left
      {
        var u :| u in left;
        users, gs := users + [u], gs + [grants[u]];
        left := left - {u};
      }
    }

    /** Every grant loses its references to the group. */
    method UngroupAll(id: string)
      requires Valid()
      modifies grants.Values, set g | g in grants.Values :: g.groups
      ensures Valid() && Grants() == UngroupedAll(old(Grants()), id)
    {
      UngroupEach(id);
    }

    method UngroupEach(id: string)
      requires Valid()
      modifies grants.Values, set g | g in grants.Values :: g.groups
      ensures Valid() && forall u :: u in grants ==> grants[u].Value() == Ungrouped(old(grants[u].Value()), id)
    {
      var users, gs := Listed();
      assert forall i :: 0 <= i < |gs| ==> gs[i] in grants.Values;
      RemoveFromAll(gs, id);
      forall u | u in grants
        ensures grants[u].count <= grants[u].groups.Length
        ensures grants[u].Value() == Ungrouped(old(grants[u].Value()), id)
      {
        var i :| 0 <= i < |users| && users[i] == u;
        assert gs[i] == grants[u];
      }
    }

    method DropGroup(id: string)
      requires Valid()
      modifies this`groups
      ensures Valid() && groups == old(groups) - {id} && Grants() == old(Grants())
    {
      groups := groups - {id};
      assert forall u :: u in grants ==> grants[u].Value() == old(grants[u].Value());
    }

    /** `DeleteGroup` on the stored grants, in place, is `AfterDelete`. */
    method DeleteGroup(id: string)
      requires Valid()
      modifies this`groups, grants.Values, set g | g in grants.Values :: g.groups
      ensures Valid() && Abs() == AfterDelete(old(Abs()), id)
    {
      DropGroup(id);
      UngroupAll(id);
    }
  }

  /** Access to a host that nothing but this group gives. */
  ghost predicate OnlyThrough(s: State, user: string, agent: string, id: string)
    requires user in s.grants
  {
    var scope := s.grants[user].scope;
    && agent != "" && !scope.all && agent !in scope.agents
    && forall other :: other in GroupsOf(s, agent) && other in scope.groups ==> other == id
  }

  /**
   Deleting a group removes every reference to it, and a check that passed still passes
   exactly when the group was not its only source; none that failed passes afterwards.
   */
  lemma DeleteGroupExact(s: State, id: string, user: string, perm: string, agent: string, now: int)
    ensures var s' := AfterDelete(s, id);
            && id !in s'.groups
            && (user in s'.grants ==> id !in s'.grants[user].scope.groups)
            && (Check(s', user, perm, agent, now) <==>
                  Check(s, user, perm, agent, now) && !OnlyThrough(s, user, agent, id))
  {
    var s' := AfterDelete(s, id);
    if user in s.grants {
      var g, g' := s.grants[user], s'.grants[user];
      assert g'.permissions == g.permissions && g'.expiresAt == g.expiresAt;
      assert Has(g', perm) <==> Has(g, perm);
      assert GroupsOf(s', agent) == GroupsOf(s, agent) - {id};
      if other :| other in GroupsOf(s, agent) && other in g.scope.groups && other != id {
        assert other in GroupsOf(s', agent) && other in g'.scope.groups;
      }
    }
  }
}
