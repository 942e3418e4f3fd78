/**
 * Enforcement of the DNS API's mutation policy: role-based privileges, proposals that
 * collect approvals, timelocks, and execution. The value-level functions state each
 * operation on the proposal map; the `PolicyEnforcer` class performs them in place and is
 * proved to act as those functions. The clock and the proposal identifier generator are
 * parameters.
 */
module PolicyEnforcement {
  import opened Wrappers
  import opened Bytes

  datatype MutationPolicy = MutationPolicy(name: string, description: string, approvals: u32, timelockHours: u32)

  datatype Role = Role(name: string, members: seq<string>, privileges: seq<string>)

  datatype Constraints = Constraints(requireMtls: bool, logAllMutations: bool, maxRateRpm: u32)

  /** The parts of a loaded policy that enforcement reads. */
  datatype Policy = Policy(version: string, mutations: seq<MutationPolicy>, roles: seq<Role>, constraints: Constraints)

  datatype ProposalStatus = Pending | TimelockActive | Approved | Rejected | Executed

  /** A proposal; `payload` is the JSON payload, carried unread. */
  datatype MutationProposal = MutationProposal(
    id: string,
    mutationName: string,
    proposer: string,
    proposedAt: u64,
    timelockUntil: nat,
    approvals: seq<string>,
    requiredApprovals: u32,
    status: ProposalStatus,
    payload: string)

  datatype PolicyError =
    | LacksPrivilege(identity: string, mutation: string)
    | UnknownMutation(name: string)
    | ProposalNotFound(id: string)
    | AlreadyApproved(approver: string)
    | NotExecutable

  type Proposals = map<string, MutationProposal>

  predicate Distinct(s: seq<string>)
  {
    forall i, j :: 0 <= i < j < |s| ==> s[i] != s[j]
  }

  // ----- Privileges and policies -----

  /** Some role lists `identity` among its members and `privilege` among its privileges. */
  predicate Privileged(policy: Policy, identity: string, privilege: string)
  {
    exists i :: 0 <= i < |policy.roles| && identity in policy.roles[i].members && privilege in policy.roles[i].privileges
  }

  /** `get_mutation_policy`: the first mutation policy with this name. */
  function FindMutation(mutations: seq<MutationPolicy>, name: string): (r: Option<MutationPolicy>)
    ensures r.None? <==> forall i :: 0 <= i < |mutations| ==> mutations[i].name != name
    ensures r.Some? ==> exists i :: 0 <= i < |mutations| && mutations[i] == r.value && r.value.name == name &&
                                    forall j :: 0 <= j < i ==> mutations[j].name != name
  {
    if mutations == [] then None
    else if mutations[0].name == name then Some(mutations[0])
    else
      var r := FindMutation(mutations[1..], name);
      assert forall i :: 1 <= i < |mutations| ==> mutations[i] == mutations[1..][i - 1];
      if r.Some? then
        var i :| 0 <= i < |mutations[1..]| && mutations[1..][i] == r.value && r.value.name == name &&
                 forall j :: 0 <= j < i ==> mutations[1..][j].name != name;
        assert mutations[i + 1] == r.value;
        assert forall j :: 1 <= j < i + 1 ==> mutations[j].name != name by {
          forall j | 1 <= j < i + 1 ensures mutations[j].name != name {
            assert mutations[j] == mutations[1..][j - 1];
          }
        }
        r
      else
        r
  }

  /** `check_rate_limit`: allowed while the window count does not exceed the policy's rate. */
  function CheckRateLimit(policy: Policy, identity: string, requestsInWindow: u32): (ok: bool)
    ensures ok <==> requestsInWindow <= policy.constraints.maxRateRpm
  {
    requestsInWindow <= policy.constraints.maxRateRpm
  }

  // ----- Proposals -----

  /** A new proposal's status: timelocked if it has a timelock, else approved when one approval suffices. */
  function InitialStatus(mp: MutationPolicy): (s: ProposalStatus)
    ensures s == TimelockActive <==> mp.timelockHours > 0
    ensures s == Approved <==> mp.timelockHours == 0 && mp.approvals <= 1
    ensures s == Pending <==> mp.timelockHours == 0 && mp.approvals > 1
  {
    if mp.timelockHours > 0 then TimelockActive
    else if mp.approvals <= 1 then Approved
    else Pending
  }

  /** `propose_mutation` on the proposal map, with the clock reading `now` and the fresh identifier `id`. */
  function Propose(policy: Policy, proposals: Proposals, name: string, proposer: string, payload: string,
                   now: u64, id: string): (res: (Result<MutationProposal, PolicyError>, Proposals))
    ensures res.0.Err? <==> !Privileged(policy, proposer, name) || FindMutation(policy.mutations, name).None?
    ensures !Privileged(policy, proposer, name) ==> res.0 == Err(LacksPrivilege(proposer, name))
    ensures Privileged(policy, proposer, name) && FindMutation(policy.mutations, name).None? ==>
      res.0 == Err(UnknownMutation(name))
    ensures res.0.Err? ==> res.1 == proposals
    ensures res.0.Ok? ==>
      var mp := FindMutation(policy.mutations, name).value;
      var p := res.0.value;
      && res.1 == proposals[id := p]
      && p.id == id && p.mutationName == name && p.proposer == proposer && p.payload == payload
      && p.proposedAt == now && p.timelockUntil == now + 3600 * mp.timelockHours
      && p.approvals == [proposer] && p.requiredApprovals == mp.approvals
      && p.status == InitialStatus(mp)
  {
    if !Privileged(policy, proposer, name) then (Err(LacksPrivilege(proposer, name)), proposals)
    else
      match FindMutation(policy.mutations, name)
      case None => (Err(UnknownMutation(name)), proposals)
      case Some(mp) =>
        var p := MutationProposal(id, name, proposer, now, now + mp.timelockHours * 3600,
                                  [proposer], mp.approvals, InitialStatus(mp), payload);
        (Ok(p), proposals[id := p])
  }

  /** The status after an approval: a pending proposal with enough approvals becomes approved. */
  function StatusAfterApproval(status: ProposalStatus, approvals: nat, required: u32): (s: ProposalStatus)
    ensures status != Pending ==> s == status
    ensures status == Pending ==> (s == Approved <==> approvals >= required)
    ensures s == Approved || s == status
  {
    if approvals >= required && status == Pending then Approved else status
  }

  /** `approve_proposal` on the proposal map. */
  function Approve(policy: Policy, proposals: Proposals, id: string, approver: string)
    : (res: (Result<MutationProposal, PolicyError>, Proposals))
    ensures id !in proposals ==> res == (Err(ProposalNotFound(id)), proposals)
    ensures id in proposals && !Privileged(policy, approver, proposals[id].mutationName) ==>
      res == (Err(LacksPrivilege(approver, proposals[id].mutationName)), proposals)
    ensures id in proposals && Privileged(policy, approver, proposals[id].mutationName) &&
            approver in proposals[id].approvals ==>
      res == (Err(AlreadyApproved(approver)), proposals)
    ensures res.0.Ok? <==>
      id in proposals && Privileged(policy, approver, proposals[id].mutationName) &&
      approver !in proposals[id].approvals
    ensures res.0.Ok? ==>
      var p := proposals[id];
      var p' := res.0.value;
      && res.1 == proposals[id := p']
      && p'.approvals == p.approvals + [approver]
      && p'.status == StatusAfterApproval(p.status, |p'.approvals|, p.requiredApprovals)
      && p' == p.(approvals := p'.approvals, status := p'.status)
  {
    if id !in proposals then (Err(ProposalNotFound(id)), proposals)
    else
      var p := proposals[id];
      if !Privileged(policy, approver, p.mutationName) then
        (Err(LacksPrivilege(approver, p.mutationName)), proposals)
      else if approver in p.approvals then (Err(AlreadyApproved(approver)), proposals)
      else
        var approvals := p.approvals + [approver];
        var p' := p.(approvals := approvals,
                     status := StatusAfterApproval(p.status, |approvals|, p.requiredApprovals));
        (Ok(p'), proposals[id := p'])
  }

  /** What `can_execute_proposal` checks of a proposal at time `now`. */
  predicate Executable(p: MutationProposal, now: u64)
  {
    (p.status == Approved || p.status == TimelockActive) && |p.approvals| >= p.requiredApprovals &&
    now >= p.timelockUntil
  }

  /** `can_execute_proposal`: an unknown identifier is an error. */
  function CanExecute(proposals: Proposals, id: string, now: u64): (r: Result<bool, PolicyError>)
    ensures r.Err? <==> id !in proposals
    ensures r.Err? ==> r.error == ProposalNotFound(id)
    ensures r.Ok? ==> (r.value <==> Executable(proposals[id], now))
  {
    if id !in proposals then Err(ProposalNotFound(id))
    else
      var p := proposals[id];
      if p.status != Approved && p.status != TimelockActive then Ok(false)
      else if |p.approvals| < p.requiredApprovals then Ok(false)
      else if now < p.timelockUntil then Ok(false)
      else Ok(true)
  }

  /** `execute_proposal`: only an executable proposal is marked executed, and nothing else changes. */
  function Execute(proposals: Proposals, id: string, now: u64)
    : (res: (Result<MutationProposal, PolicyError>, Proposals))
    ensures res.0.Ok? <==> CanExecute(proposals, id, now) == Ok(true)
    ensures res.0.Ok? ==>
      res.0.value == proposals[id].(status := Executed) && res.1 == proposals[id := res.0.value]
    ensures res.0.Err? ==> res.1 == proposals
    ensures id !in proposals ==> res.0 == Err(ProposalNotFound(id))
    ensures id in proposals && !Executable(proposals[id], now) ==> res.0 == Err(NotExecutable)
  {
    match CanExecute(proposals, id, now)
    case Err(e) => (Err(e), proposals)
    case Ok(ok) =>
      if !ok then (Err(NotExecutable), proposals)
      else
        var p := proposals[id].(status := Executed);
        (Ok(p), proposals[id := p])
  }

  // ----- Invariants and consequences -----

  /** Every proposal is filed under its own identifier, starts with its proposer, and has no repeated approver. */
  predicate WellFormed(proposals: Proposals)
  {
    forall id :: id in proposals ==>
      && proposals[id].id == id
      && |proposals[id].approvals| >= 1 && proposals[id].approvals[0] == proposals[id].proposer
      && Distinct(proposals[id].approvals)
  }

  lemma ProposeKeepsWellFormed(policy: Policy, proposals: Proposals, name: string, proposer: string,
                               payload: string, now: u64, id: string)
    requires WellFormed(proposals)
    ensures WellFormed(Propose(policy, proposals, name, proposer, payload, now, id).1)
  {
  }

  /** Appending a name that is not yet listed keeps a list free of repeats. */
  lemma AppendKeepsDistinct(s: seq<string>, x: string)
    requires Distinct(s) && x !in s
    ensures Distinct(s + [x])
  {
    var t := s + [x];
    forall i, j | 0 <= i < j < |t| ensures t[i] != t[j] {
      if j < |s| {
        assert t[i] == s[i] && t[j] == s[j];
      } else {
        assert t[i] == s[i];
      }
    }
  }

  /** No approver is ever counted twice. */
  lemma ApproveKeepsWellFormed(policy: Policy, proposals: Proposals, id: string, approver: string)
    requires WellFormed(proposals)
    ensures WellFormed(Approve(policy, proposals, id, approver).1)
  {
    var res := Approve(policy, proposals, id, approver);
    if res.0.Ok? {
      AppendKeepsDistinct(proposals[id].approvals, approver);
      assert (proposals[id].approvals + [approver])[0] == proposals[id].approvals[0];
    }
  }

  lemma ExecuteKeepsWellFormed(proposals: Proposals, id: string, now: u64)
    requires WellFormed(proposals)
    ensures WellFormed(Execute(proposals, id, now).1)
  {
  }

  /** An executed proposal can never be executed again, at any later time. */
  lemma NoSecondExecution(proposals: Proposals, id: string, now: u64, later: u64)
    requires Execute(proposals, id, now).0.Ok?
    ensures Execute(Execute(proposals, id, now).1, id, later).0 == Err(NotExecutable)
  {
  }

  /** A proposal under a timelock cannot be executed before the timelock expires. */
  lemma TimelockHolds(policy: Policy, proposals: Proposals, name: string, proposer: string,
                      payload: string, now: u64, id: string, t: u64)
    requires Propose(policy, proposals, name, proposer, payload, now, id).0.Ok?
    requires t < now + 3600 * FindMutation(policy.mutations, name).value.timelockHours
    ensures CanExecute(Propose(policy, proposals, name, proposer, payload, now, id).1, id, t) == Ok(false)
  {
  }

  /** A mutation needing at most one approval and no timelock can be executed as soon as it is proposed. */
  lemma ImmediateWhenUnguarded(policy: Policy, proposals: Proposals, name: string, proposer: string,
                               payload: string, now: u64, id: string)
    requires Propose(policy, proposals, name, proposer, payload, now, id).0.Ok?
    requires FindMutation(policy.mutations, name).value.timelockHours == 0
    requires FindMutation(policy.mutations, name).value.approvals <= 1
    ensures CanExecute(Propose(policy, proposals, name, proposer, payload, now, id).1, id, now) == Ok(true)
  {
  }

  /** A pending proposal that a second privileged identity approves becomes approved when two approvals suffice. */
  lemma SecondApprovalApproves(policy: Policy, proposals: Proposals, id: string, approver: string)
    requires id in proposals && proposals[id].status == Pending
    requires |proposals[id].approvals| == 1 && proposals[id].requiredApprovals == 2
    requires Privileged(policy, approver, proposals[id].mutationName)
    requires approver !in proposals[id].approvals
    ensures Approve(policy, proposals, id, approver).0.Ok?
    ensures Approve(policy, proposals, id, approver).0.value.status == Approved
  {
  }

  // ----- The enforcer -----

  /** `PolicyEnforcer`: a fixed policy and the proposals made so far. */
  class PolicyEnforcer {
    const policy: Policy
    var proposals: Proposals

    /** An enforcer for a loaded policy, with no proposals yet. */
    constructor(policy: Policy)
      ensures this.policy == policy && proposals == map[]
    {
      this.policy := policy;
      proposals := map[];
    }

    /** `has_privilege`: the roles scanned in order, stopping at the first that grants it. */
    method HasPrivilege(identity: string, privilege: string) returns (b: bool)
      ensures b == Privileged(policy, identity, privilege)
    {
      var roles := policy.roles;
      var i := 0;
      while i < |roles|
        invariant 0 <= i <= |roles|
        invariant forall k :: 0 <= k < i ==> !(identity in roles[k].members && privilege in roles[k].privileges)
      {
        if identity in roles[i].members && privilege in roles[i].privileges {
          return true;
        }
        i := i + 1;
      }
      return false;
    }

    /** `propose_mutation`, at time `now`, filing the proposal under the fresh identifier `id`. */
    method ProposeMutation(name: string, proposer: string, payload: string, now: u64, id: string)
      returns (r: Result<MutationProposal, PolicyError>)
      modifies this
      ensures (r, proposals) == Propose(policy, old(proposals), name, proposer, payload, now, id)
    {
      var ok := HasPrivilege(proposer, name);
      if !ok {
        return Err(LacksPrivilege(proposer, name));
      }
      var found := FindMutation(policy.mutations, name);
      if found.None? {
        return Err(UnknownMutation(name));
      }
      var mp := found.value;
      var p := MutationProposal(id, name, proposer, now, now + mp.timelockHours * 3600,
                                [proposer], mp.approvals, InitialStatus(mp), payload);
      proposals := proposals[id := p];
      r := Ok(p);
    }

    /** `approve_proposal`. */
    method ApproveProposal(id: string, approver: string) returns (r: Result<MutationProposal, PolicyError>)
      modifies this
      ensures (r, proposals) == Approve(policy, old(proposals), id, approver)
    {
      if id !in proposals {
        return Err(ProposalNotFound(id));
      }
      var p := proposals[id];
      var ok := HasPrivilege(approver, p.mutationName);
      if !ok {
        return Err(LacksPrivilege(approver, p.mutationName));
      }
      if approver in p.approvals {
        return Err(AlreadyApproved(approver));
      }
      var approvals := p.approvals + [approver];
      var status := p.status;
      if |approvals| >= p.requiredApprovals {
        if status == Pending {
          status := Approved;
        }
      }
      p := p.(approvals := approvals, status := status);
      proposals := proposals[id := p];
      r := Ok(p);
    }

    /** `can_execute_proposal`, at time `now`. */
    method CanExecuteProposal(id: string, now: u64) returns (r: Result<bool, PolicyError>)
      ensures r == CanExecute(proposals, id, now)
    {
      if id !in proposals {
        return Err(ProposalNotFound(id));
      }
      var p := proposals[id];
      if p.status != Approved && p.status != TimelockActive {
        return Ok(false);
      }
      if |p.approvals| < p.requiredApprovals {
        return Ok(false);
      }
      if now < p.timelockUntil {
        return Ok(false);
      }
      return Ok(true);
    }

    /** `execute_proposal`, at time `now`. */
    method ExecuteProposal(id: string, now: u64) returns (r: Result<MutationProposal, PolicyError>)
      modifies this
      ensures (r, proposals) == Execute(old(proposals), id, now)
    {
      var can := CanExecuteProposal(id, now);
      if can.Err? {
        return Err(can.error);
      }
      if !can.value {
        return Err(NotExecutable);
      }
      var p := proposals[id].(status := Executed);
      proposals := proposals[id := p];
      r := Ok(p);
    }
  }

  /** The privilege check of the enforcer's unit test: the maintainer may mutate DNS, an outsider may not. */
  method PrivilegeScenario() returns (alice: bool, bob: bool)
    ensures alice && !bob
  {
    var maintainer := Role("maintainer", ["identity:alice"], ["mutate_dns"]);
    var policy := Policy("0.1.0", [], [maintainer], Constraints(true, true, 120));
    var enforcer := new PolicyEnforcer(policy);
    alice := enforcer.HasPrivilege("identity:alice", "mutate_dns");
    bob := enforcer.HasPrivilege("identity:bob", "mutate_dns");
    assert policy.roles[0] == maintainer;
    assert "identity:bob" != "identity:alice";
  }
}
