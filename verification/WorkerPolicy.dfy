/** Worker groups, their members and the flat per-member view the runtime works on: worker_groups.py. */
module WorkerPolicy {
  import opened Wrappers
  import opened WeeklyMask

  datatype Resource = Cpu | Gpu

  /** One device of a group; `node` is None for this app. */
  datatype Member = Member(id: string, resource: Resource, device: Option<string>, count: int, jobTypes: seq<string>, node: Option<string>)

  datatype Group = Group(id: string, name: string, hours: Hours, members: seq<Member>)

  /** One member with its group's name and hours. */
  datatype Policy = Policy(
    id: string, groupId: string, memberId: string, name: string, hours: Hours,
    resource: Resource, device: Option<string>, count: int, jobTypes: seq<string>, node: Option<string>)

  function PolicyOf(g: Group, m: Member): Policy {
    Policy(g.id + ":" + m.id, g.id, m.id, g.name, g.hours, m.resource, m.device, m.count, m.jobTypes, m.node)
  }

  function GroupPolicies(g: Group, members: seq<Member>): seq<Policy> {
    if members == [] then [] else GroupPolicies(g, members[..|members| - 1]) + [PolicyOf(g, members[|members| - 1])]
  }

  /** One flat policy per member, in order. */
  function MemberPolicies(groups: seq<Group>): seq<Policy> {
    if groups == [] then []
    else
      var g := groups[|groups| - 1];
      MemberPolicies(groups[..|groups| - 1]) + GroupPolicies(g, g.members)
  }

  /** The workers of these policies that are on at minute `m` of the week. */
  function Load(policies: seq<Policy>, m: int): int {
    if policies == [] then 0
    else
      var p := policies[|policies| - 1];
      Load(policies[..|policies| - 1], m) + if OpenAt(p.hours, m) then p.count else 0
  }
}
