/** Namespace member lists, edited concurrently under the per-namespace lock. */
module Members {
  import opened Base
  import opened KeyedLock

  type AgentId = string

  datatype Member = Member(agentId: AgentId, scopes: seq<string>, addedBy: string, addedAt: int)

  datatype MemberOp =
    | Upsert(agentId: AgentId, scopes: seq<string>, addedBy: string, now: int)
    | Remove(agentId: AgentId)

  function Find(members: seq<Member>, agent: AgentId): Option<Member> {
    if members == [] then None
    else if members[0].agentId == agent then Some(members[0])
    else Find(members[1..], agent)
  }

  function Replace(members: seq<Member>, member: Member): seq<Member> {
    if members == [] then []
    else [if members[0].agentId == member.agentId then member else members[0]] + Replace(members[1..], member)
  }

  function Filter(members: seq<Member>, agent: AgentId): (r: seq<Member>)
    ensures |r| <= |members|
  {
    if members == [] then []
    else if members[0].agentId == agent then Filter(members[1..], agent)
    else [members[0]] + Filter(members[1..], agent)
  }

  function ListOf(file: Option<seq<Member>>): seq<Member> {
    if file.Some? then file.value else []
  }

  /** The bodies of `upsertMember` and `removeMember`: what they write back, if anything. */
  function MemberBody(op: MemberOp, file: Option<seq<Member>>): Option<seq<Member>> {
    var members := ListOf(file);
    match op
    case Upsert(agent, scopes, addedBy, now) =>
      var existing := Find(members, agent);
      var member := Member(agent, scopes,
                           if existing.Some? then existing.value.addedBy else addedBy,
                           if existing.Some? then existing.value.addedAt else now);
      Some(if existing.Some? then Replace(members, member) else members + [member])
    case Remove(agent) =>
      var next := Filter(members, agent);
      if |next| != |members| then Some(next) else None
  }

  /** The member files, edited by one body at a time. */
  class MemberStore {
    var files: map<Key, seq<Member>>

    constructor (onDisk: map<Key, seq<Member>>)
      ensures files == onDisk
    {
      files := onDisk;
    }

    function Of(ns: Key): Option<seq<Member>>
      reads this
    {
      if ns in files then Some(files[ns]) else None
    }

    /** The body of `upsertMember`: the answer is the member as it now stands on the list. */
    method UpsertMember(ns: Key, agent: AgentId, scopes: seq<string>, addedBy: string, now: int) returns (member: Member)
      modifies this
      ensures Of(ns) == After(MemberBody, Upsert(agent, scopes, addedBy, now), old(Of(ns)))
      ensures Find(ListOf(Of(ns)), agent) == Some(member)
      ensures files - {ns} == old(files) - {ns}
    {
      var members := ListOf(Of(ns));
      var existing := Find(members, agent);
      FindIs(members, agent);
      var addedBy' := if existing.Some? then existing.value.addedBy else addedBy;
      var addedAt := if existing.Some? then existing.value.addedAt else now;
      member := Member(agent, scopes, addedBy', addedAt);
      if existing.Some? {
        ReplaceIs(members, member, agent);
        files := files[ns := Replace(members, member)];
      } else {
        FindAppended(members, member, agent);
        files := files[ns := members + [member]];
      }
    }

    /** The body of `removeMember`: the answer is how many entries went, and an unchanged list is not saved. */
    method RemoveMember(ns: Key, agent: AgentId) returns (removed: nat)
      modifies this
      ensures Of(ns) == After(MemberBody, Remove(agent), old(Of(ns)))
      ensures removed == |ListOf(old(Of(ns)))| - |ListOf(Of(ns))|
      ensures removed == 0 ==> files == old(files)
      ensures files - {ns} == old(files) - {ns}
    {
      var members := ListOf(Of(ns));
      var next := Filter(members, agent);
      if |next| != |members| {
        files := files[ns := next];
      }
      return |members| - |next|;
    }
  }

  predicate UniqueAgents(members: seq<Member>) {
    forall i, j | 0 <= i < j < |members| :: members[i].agentId != members[j].agentId
  }

  /** What one operation means for one agent, whoever else is on the list. */
  function AgentAfter(op: MemberOp, agent: AgentId, before: Option<Member>): Option<Member> {
    if op.agentId != agent then before
    else
      match op
      case Remove(_) => None
      case Upsert(_, scopes, addedBy, now) =>
        if before.Some? then Some(before.value.(scopes := scopes)) else Some(Member(agent, scopes, addedBy, now))
  }

  lemma {:induction false} FindIs(members: seq<Member>, agent: AgentId)
    ensures Find(members, agent).None? <==> forall i | 0 <= i < |members| :: members[i].agentId != agent
    ensures Find(members, agent).Some? ==> Find(members, agent).value.agentId == agent
  {
    if members != [] {
      FindIs(members[1..], agent);
      assert forall i | 0 < i < |members| :: members[i] == members[1..][i - 1];
    }
  }

  lemma {:induction false} ReplaceIs(members: seq<Member>, member: Member, agent: AgentId)
    ensures |Replace(members, member)| == |members|
    ensures forall i | 0 <= i < |members| :: Replace(members, member)[i].agentId == members[i].agentId
    ensures Find(Replace(members, member), agent)
         == if agent == member.agentId && Find(members, agent).Some? then Some(member) else Find(members, agent)
  {
    if members != [] {
      ReplaceIs(members[1..], member, agent);
      assert Replace(members, member)[1..] == Replace(members[1..], member);
    }
  }

  lemma {:induction false} FilterIs(members: seq<Member>, gone: AgentId, agent: AgentId)
    requires UniqueAgents(members)
    ensures UniqueAgents(Filter(members, gone))
    ensures forall m | m in Filter(members, gone) :: m in members
    ensures Find(Filter(members, gone), agent) == if agent == gone then None else Find(members, agent)
    ensures |Filter(members, gone)| == |members| - (if Find(members, gone).Some? then 1 else 0)
  {
    if members != [] {
      FilterIs(members[1..], gone, agent);
      FindIs(members[1..], gone);
      var rest := Filter(members[1..], gone);
      if members[0].agentId != gone {
        assert Filter(members, gone)[1..] == rest;
        forall j | 0 <= j < |rest| ensures rest[j].agentId != members[0].agentId {
          assert rest[j] in members[1..];
          var k :| 0 <= k < |members[1..]| && members[1..][k] == rest[j];
          assert members[k + 1] == rest[j];
        }
      } else {
        FindIs(members[1..], members[0].agentId);
        assert forall i | 0 <= i < |members[1..]| :: members[1..][i] == members[i + 1];
      }
    }
  }

  lemma {:induction false} FindAppended(members: seq<Member>, member: Member, agent: AgentId)
    requires Find(members, member.agentId).None?
    ensures Find(members + [member], agent) == if agent == member.agentId then Some(member) else Find(members, agent)
  {
    if members != [] {
      assert (members + [member])[1..] == members[1..] + [member];
      FindAppended(members[1..], member, agent);
    }
  }

  /** One body keeps agents unique and does to each agent what the operation means for it. */
  lemma BodyIsPerAgent(op: MemberOp, file: Option<seq<Member>>, agent: AgentId)
    requires UniqueAgents(ListOf(file))
    ensures UniqueAgents(ListOf(After(MemberBody, op, file)))
    ensures Find(ListOf(After(MemberBody, op, file)), agent) == AgentAfter(op, agent, Find(ListOf(file), agent))
  {
    var members := ListOf(file);
    FindIs(members, op.agentId);
    match op {
      case Upsert(a, scopes, addedBy, now) =>
        var existing := Find(members, a);
        if existing.Some? {
          ReplaceIs(members, existing.value.(scopes := scopes), agent);
        } else {
          FindAppended(members, Member(a, scopes, addedBy, now), agent);
        }
      case Remove(a) =>
        FilterIs(members, a, agent);
    }
  }

  function Agents(members: seq<Member>): seq<AgentId> {
    if members == [] then [] else [members[0].agentId] + Agents(members[1..])
  }

  function Dropped(agents: seq<AgentId>, gone: AgentId): seq<AgentId> {
    if agents == [] then []
    else if agents[0] == gone then Dropped(agents[1..], gone)
    else [agents[0]] + Dropped(agents[1..], gone)
  }

  lemma {:induction false} AgentsAppend(members: seq<Member>, member: Member)
    ensures Agents(members + [member]) == Agents(members) + [member.agentId]
  {
    if members != [] {
      assert (members + [member])[1..] == members[1..] + [member];
      AgentsAppend(members[1..], member);
    } else {
      assert [member][1..] == [];
    }
  }

  lemma {:induction false} ReplaceKeepsAgents(members: seq<Member>, member: Member)
    ensures Agents(Replace(members, member)) == Agents(members)
  {
    if members != [] {
      ReplaceKeepsAgents(members[1..], member);
      assert Replace(members, member)[1..] == Replace(members[1..], member);
    }
  }

  lemma {:induction false} FilterDrops(members: seq<Member>, gone: AgentId)
    ensures Agents(Filter(members, gone)) == Dropped(Agents(members), gone)
  {
    if members != [] {
      FilterDrops(members[1..], gone);
      assert Agents(members)[1..] == Agents(members[1..]);
      if members[0].agentId != gone {
        assert Filter(members, gone)[1..] == Filter(members[1..], gone);
      }
    }
  }

  lemma {:induction false} NothingDropped(members: seq<Member>, gone: AgentId)
    ensures |Filter(members, gone)| == |members| ==> Filter(members, gone) == members
  {
    if members != [] {
      NothingDropped(members[1..], gone);
    }
  }

  /** The list keeps its order: an update stays in place, a new member comes last, a removal closes the gap. */
  lemma BodyKeepsOrder(op: MemberOp, file: Option<seq<Member>>)
    ensures Agents(ListOf(After(MemberBody, op, file)))
         == match op
            case Remove(agent) => Dropped(Agents(ListOf(file)), agent)
            case Upsert(agent, _, _, _) =>
              Agents(ListOf(file)) + if Find(ListOf(file), agent).Some? then [] else [agent]
  {
    var members := ListOf(file);
    match op {
      case Upsert(agent, scopes, addedBy, now) =>
        var existing := Find(members, agent);
        FindIs(members, agent);
        if existing.Some? {
          ReplaceKeepsAgents(members, Member(agent, scopes, existing.value.addedBy, existing.value.addedAt));
          assert Agents(members) + [] == Agents(members);
        } else {
          AgentsAppend(members, Member(agent, scopes, addedBy, now));
        }
      case Remove(agent) =>
        FilterDrops(members, agent);
        NothingDropped(members, agent);
    }
  }

  /** The fate of one agent under the calls that took effect, in arrival order. */
  function AgentSequential<F>(tasks: seq<Task<MemberOp, F>>, n: nat, key: Key, agent: AgentId, before: Option<Member>): Option<Member>
    requires n <= |tasks|
  {
    if n == 0 then before
    else
      var m := AgentSequential(tasks, n - 1, key, agent, before);
      if tasks[n - 1].key == key && tasks[n - 1].applied then AgentAfter(tasks[n - 1].op, agent, m) else m
  }

  lemma {:induction false} SequentialPerAgent(tasks: seq<Task<MemberOp, seq<Member>>>, n: nat, key: Key, file: Option<seq<Member>>, agent: AgentId)
    requires n <= |tasks| && UniqueAgents(ListOf(file))
    ensures UniqueAgents(ListOf(Sequential(tasks, n, key, file, MemberBody)))
    ensures Find(ListOf(Sequential(tasks, n, key, file, MemberBody)), agent)
         == AgentSequential(tasks, n, key, agent, Find(ListOf(file), agent))
  {
    if n > 0 {
      SequentialPerAgent(tasks, n - 1, key, file, agent);
      var before := Sequential(tasks, n - 1, key, file, MemberBody);
      BodyIsPerAgent(tasks[n - 1].op, before, agent);
      var takesPart := tasks[n - 1].key == key && tasks[n - 1].applied;
      assert Sequential(tasks, n, key, file, MemberBody) == if takesPart then After(MemberBody, tasks[n - 1].op, before) else before;
    }
  }

  /**
   * Concurrent upserts and removes, interleaved in any way and failing anywhere: at every moment agent
   * ids are unique and each agent stands as a one-by-one replay in arrival order leaves it.
   */
  lemma ConcurrentMembers(files: map<Key, seq<Member>>, steps: seq<Step<MemberOp>>, key: Key, agent: AgentId)
    requires forall k | k in files :: UniqueAgents(files[k])
    requires IsRun(Start<MemberOp, seq<Member>>(files), steps, MemberBody, true)
    ensures var s := Final(Start<MemberOp, seq<Member>>(files), steps, MemberBody, true);
      && UniqueAgents(ListOf(FileOf(s, key)))
      && Find(ListOf(FileOf(s, key)), agent)
         == AgentSequential(s.tasks, |s.tasks|, key, agent, Find(if key in files then files[key] else [], agent))
  {
    StartIsFine<MemberOp, seq<Member>>(files, MemberBody, true);
    EveryRun(Start<MemberOp, seq<Member>>(files), steps, files, MemberBody, true);
    var s := Final(Start<MemberOp, seq<Member>>(files), steps, MemberBody, true);
    var file := if key in files then Some(files[key]) else None;
    assert FileOf(s, key) == Sequential(s.tasks, |s.tasks|, key, file, MemberBody);
    SequentialPerAgent(s.tasks, |s.tasks|, key, file, agent);
  }
}
