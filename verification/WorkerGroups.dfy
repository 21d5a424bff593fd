/** Validation and capacity of worker groups: worker_groups.py. */
module WorkerGroups {
  import opened Wrappers
  import opened Json
  import opened Clock
  import opened WeeklyMask
  import opened WorkerPolicy
  import opened Peak

  const MAX_WORKERS := 64
  const MAX_GROUPS := 64
  const MAX_MEMBERS := 8
  const MAX_WINDOWS := 32
  const LEGACY_MEMBER_ID := "m1"
  const LOUDNESS := "loudness"
  const JOB_KINDS := ["previews", "intro_credits", LOUDNESS]

  // Fields ----------------------------------------------------------------------------------------------------------

  predicate IdChar(c: char) {
    'A' <= c <= 'Z' || 'a' <= c <= 'z' || '0' <= c <= '9'
  }

  /** A letter or digit and up to 79 letters, digits, `_` or `-`. */
  predicate IsId(s: string) {
    && 1 <= |s| <= 80
    && IdChar(s[0])
    && forall c <- s :: IdChar(c) || c == '_' || c == '-'
  }

  /** The capacity budget one device's workers share. */
  function ResourceKey(resource: Resource, device: Option<string>, node: Option<string>): string {
    var local := if resource == Cpu then "cpu" else "gpu:" + device.GetOr("");
    if node.Some? then "node:" + node.value + ":" + local else local
  }

  function KeyOf(m: Member): string {
    ResourceKey(m.resource, m.device, m.node)
  }

  function CleanNode(raw: map<string, Json>, nodes: Option<set<string>>): Result<Option<string>> {
    match Get(raw, "node")
    case Null => Ok(None)
    case Str(s) =>
      if s == "" then Ok(None)
      else if |s| > 128 || Strip(s) != s then Rejected
      else if nodes.Some? && s !in nodes.value then Rejected
      else Ok(Some(s))
    case _ => Rejected
  }

  function CleanResource(raw: map<string, Json>): Result<Resource> {
    match Get(raw, "resource")
    case Str(s) => if s == "cpu" then Ok(Cpu) else if s == "gpu" then Ok(Gpu) else Rejected
    case _ => Rejected
  }

  predicate DeviceName(s: string) {
    Strip(s) == s && s != "" && |s| <= 256
  }

  function CleanDevice(raw: map<string, Json>, resource: Resource): Result<Option<string>> {
    match (resource, Get(raw, "device"))
    case (Gpu, Str(s)) => if DeviceName(s) then Ok(Some(s)) else Rejected
    case (Gpu, _) => Rejected
    case (Cpu, Null) => Ok(None)
    case (Cpu, Str(s)) => if s == "" then Ok(None) else Rejected
    case (Cpu, _) => Rejected
  }

  function KindsOf(kinds: seq<string>, picked: seq<Json>): seq<string> {
    if kinds == [] then []
    else (if Str(kinds[0]) in picked then [kinds[0]] else []) + KindsOf(kinds[1..], picked)
  }

  function CleanKinds(raw: map<string, Json>, resource: Resource): Result<seq<string>> {
    match Get(raw, "job_types")
    case List(kinds) =>
      if kinds == [] || (exists k <- kinds :: !(k.Str? && k.s in JOB_KINDS)) then Rejected
      else if resource == Gpu && Str(LOUDNESS) in kinds then Rejected
      else Ok(KindsOf(JOB_KINDS, kinds))
    case _ => Rejected
  }

  function CleanMember(raw: Json, others: seq<Member>, legacy: bool, nodes: Option<set<string>>): Result<Member> {
    if !raw.Obj? then Rejected
    else
      var id := if legacy then Str(LEGACY_MEMBER_ID) else Get(raw.fields, "id");
      var resource := CleanResource(raw.fields);
      if !id.Str? || !IsId(id.s) || (exists m <- others :: m.id == id.s) || resource.Rejected? then Rejected
      else
        var device := CleanDevice(raw.fields, resource.value);
        var node := CleanNode(raw.fields, nodes);
        var kinds := CleanKinds(raw.fields, resource.value);
        var count := Get(raw.fields, "count");
        if device.Rejected? || node.Rejected? || kinds.Rejected? then Rejected
        else if exists m <- others :: KeyOf(m) == ResourceKey(resource.value, device.value, node.value) then Rejected
        else if !count.Int? || !(1 <= count.n <= MAX_WORKERS) then Rejected
        else Ok(Member(id.s, resource.value, device.value, count.n, kinds.value, node.value))
  }

  function CleanMemberList(raws: seq<Json>, nodes: Option<set<string>>): Result<seq<Member>> {
    if raws == [] then Ok([])
    else
      var others := CleanMemberList(raws[..|raws| - 1], nodes);
      if others.Rejected? then Rejected
      else
        var last := CleanMember(raws[|raws| - 1], others.value, false, nodes);
        if last.Rejected? then Rejected else Ok(others.value + [last.value])
  }

  function NullIfFalsy(j: Json): Json {
    if Truthy(j) then j else Null
  }

  /** A top-level echo of the only member that disagrees with it. */
  predicate FlatConflict(raw: map<string, Json>, members: seq<Json>) {
    && |members| == 1 && members[0].Obj?
    && var own := members[0].fields;
    && (|| ("resource" in raw && !PyEqual(raw["resource"], Get(own, "resource")))
        || ("device" in raw && !PyEqual(NullIfFalsy(raw["device"]), NullIfFalsy(Get(own, "device"))))
        || ("count" in raw && !PyEqual(raw["count"], Get(own, "count")))
        || ("job_types" in raw && !PyEqual(raw["job_types"], Get(own, "job_types"))))
  }

  /** A group's members; a legacy flat group is its own single member. */
  function CleanMembers(raw: map<string, Json>, nodes: Option<set<string>>): Result<seq<Member>> {
    if "members" !in raw then
      if "resource" !in raw then Rejected
      else
        var m := CleanMember(Obj(raw), [], true, nodes);
        if m.Rejected? then Rejected else Ok([m.value])
    else
      match raw["members"]
      case List(members) =>
        if members == [] || FlatConflict(raw, members) || |members| > MAX_MEMBERS then Rejected
        else CleanMemberList(members, nodes)
      case _ => Rejected
  }

  /** `sorted(set(days))` of days 0 to 6. */
  function SortedDays(from: int, days: seq<Json>): seq<Day>
    requires 0 <= from <= 7
    decreases 7 - from
  {
    if from == 7 then [] else (if Int(from) in days then [from] else []) + SortedDays(from + 1, days)
  }

  function CleanWindow(raw: Json): Result<Window> {
    if !raw.Obj? then Rejected
    else
      var days, start, end := Get(raw.fields, "days"), Get(raw.fields, "start"), Get(raw.fields, "end");
      if !days.List? || days.items == [] || (exists d <- days.items :: !(d.Int? && 0 <= d.n <= 6)) then Rejected
      else if !start.Str? || !end.Str? || !IsTime(start.s) || !IsTime(end.s) || start == end then Rejected
      else Ok(Window(SortedDays(0, days.items), start.s, end.s))
  }

  function CleanWindows(raws: seq<Json>): Result<seq<Window>> {
    if raws == [] then Ok([])
    else
      var others := CleanWindows(raws[..|raws| - 1]);
      var last := CleanWindow(raws[|raws| - 1]);
      if others.Rejected? || last.Rejected? then Rejected else Ok(others.value + [last.value])
  }

  function CleanHours(raw: map<string, Json>, enabled: bool): Result<Hours> {
    if "availability" !in raw then Ok(Hours(enabled, true, []))
    else if !raw["availability"].Obj? then Rejected
    else
      var availability := raw["availability"].fields;
      var mode := Get(availability, "mode");
      var windows := if "windows" in availability then availability["windows"] else List([]);
      if mode != Str("always") && mode != Str("scheduled") then Rejected
      else if !windows.List? || |windows.items| > MAX_WINDOWS then Rejected
      else if mode == Str("scheduled") && windows.items == [] then Rejected
      else
        var clean := CleanWindows(windows.items);
        if clean.Rejected? then Rejected else Ok(Hours(enabled, mode == Str("always"), clean.value))
  }

  function CleanGroup(raw: Json, others: seq<Group>, nodes: Option<set<string>>): Result<Group> {
    if !raw.Obj? then Rejected
    else
      var id, name := Get(raw.fields, "id"), Get(raw.fields, "name");
      var enabled := if "enabled" in raw.fields then raw.fields["enabled"] else Bool(true);
      if !id.Str? || !IsId(id.s) || (exists g <- others :: g.id == id.s) then Rejected
      else if !name.Str? || Strip(name.s) == "" || |Strip(name.s)| > 80 || !enabled.Bool? then Rejected
      else
        var members := CleanMembers(raw.fields, nodes);
        var hours := CleanHours(raw.fields, enabled.b);
        if members.Rejected? || hours.Rejected? then Rejected
        else Ok(Group(id.s, Strip(name.s), hours.value, members.value))
  }

  function CleanGroups(raws: seq<Json>, nodes: Option<set<string>>): Result<seq<Group>> {
    if raws == [] then Ok([])
    else
      var others := CleanGroups(raws[..|raws| - 1], nodes);
      if others.Rejected? then Rejected
      else
        var last := CleanGroup(raws[|raws| - 1], others.value, nodes);
        if last.Rejected? then Rejected else Ok(others.value + [last.value])
  }

  // Capacity --------------------------------------------------------------------------------------------------------

  /** The policies of one resource on one machine: this app (None) or a node. */
  function On(policies: seq<Policy>, machine: Option<string>, resource: Resource): seq<Policy> {
    if policies == [] then []
    else
      var p := policies[|policies| - 1];
      var rest := On(policies[..|policies| - 1], machine, resource);
      if p.node == machine && p.resource == resource then rest + [p] else rest
  }

  /** The workers of one resource a machine may run at minute `m`: the counts of the members whose group is open. */
  function MembersOpen(g: Group, members: seq<Member>, machine: Option<string>, resource: Resource, m: int): int {
    if members == [] then 0
    else
      var last := members[|members| - 1];
      MembersOpen(g, members[..|members| - 1], machine, resource, m)
      + if OpenAt(g.hours, m) && last.node == machine && last.resource == resource then last.count else 0
  }

  function WorkersOpen(groups: seq<Group>, machine: Option<string>, resource: Resource, m: int): int {
    if groups == [] then 0
    else
      var g := groups[|groups| - 1];
      WorkersOpen(groups[..|groups| - 1], machine, resource, m) + MembersOpen(g, g.members, machine, resource, m)
  }

  /** No machine, resource and minute of the week has more than 64 workers open. */
  ghost predicate WithinCapacity(groups: seq<Group>) {
    forall machine: Option<string> :: MachineFits(groups, machine)
  }

  /** No minute of the week has more than 64 workers of either resource open on this machine. */
  ghost predicate MachineFits(groups: seq<Group>, machine: Option<string>) {
    forall resource: Resource, m: int | 0 <= m < WEEK_MINUTES :: WorkersOpen(groups, machine, resource, m) <= MAX_WORKERS
  }

  /** The accepted groups, normalized, or a rejection. */
  ghost function Validated(value: Json, nodes: Option<set<string>>): Result<seq<Group>> {
    if !value.List? || |value.items| > MAX_GROUPS then Rejected
    else
      var groups := CleanGroups(value.items, nodes);
      if groups.Rejected? || !WithinCapacity(groups.value) then Rejected else groups
  }

  lemma {:induction false} OnConcat(a: seq<Policy>, b: seq<Policy>, machine: Option<string>, resource: Resource)
    ensures On(a + b, machine, resource) == On(a, machine, resource) + On(b, machine, resource)
  {
    if b == [] {
      assert a + b == a;
    } else {
      assert (a + b)[..|a + b| - 1] == a + b[..|b| - 1];
      OnConcat(a, b[..|b| - 1], machine, resource);
    }
  }

  lemma {:induction false} LoadConcat(a: seq<Policy>, b: seq<Policy>, m: int)
    ensures Load(a + b, m) == Load(a, m) + Load(b, m)
  {
    if b == [] {
      assert a + b == a;
    } else {
      assert (a + b)[..|a + b| - 1] == a + b[..|b| - 1];
      LoadConcat(a, b[..|b| - 1], m);
    }
  }

  lemma {:induction false} GroupLoad(g: Group, members: seq<Member>, machine: Option<string>, resource: Resource, m: int)
    ensures Load(On(GroupPolicies(g, members), machine, resource), m) == MembersOpen(g, members, machine, resource, m)
  {
    if members != [] {
      GroupLoad(g, members[..|members| - 1], machine, resource, m);
    }
  }

  /** The flat view the peaks are taken from carries the same load as the groups themselves. */
  lemma {:induction false} FlatLoad(groups: seq<Group>, machine: Option<string>, resource: Resource, m: int)
    ensures Load(On(MemberPolicies(groups), machine, resource), m) == WorkersOpen(groups, machine, resource, m)
  {
    if groups != [] {
      var g := groups[|groups| - 1];
      var init := MemberPolicies(groups[..|groups| - 1]);
      FlatLoad(groups[..|groups| - 1], machine, resource, m);
      GroupLoad(g, g.members, machine, resource, m);
      OnConcat(init, GroupPolicies(g, g.members), machine, resource);
      LoadConcat(On(init, machine, resource), On(GroupPolicies(g, g.members), machine, resource), m);
    }
  }

  /** Whether a machine's peak of one resource is within the limit. */
  method PeakFits(groups: seq<Group>, machine: Option<string>, resource: Resource) returns (fits: bool)
    ensures fits <==> forall m | 0 <= m < WEEK_MINUTES :: WorkersOpen(groups, machine, resource, m) <= MAX_WORKERS
  {
    var policies := On(MemberPolicies(groups), machine, resource);
    var peak := PeakOf(policies);
    fits := peak <= MAX_WORKERS;
    forall m ensures Load(policies, m) == WorkersOpen(groups, machine, resource, m) {
      FlatLoad(groups, machine, resource, m);
    }
    if !fits {
      var m :| 0 <= m < WEEK_MINUTES && Load(policies, m) == peak;
      assert WorkersOpen(groups, machine, resource, m) > MAX_WORKERS;
    }
  }

  method CheckMachine(groups: seq<Group>, machine: Option<string>) returns (fits: bool)
    ensures fits <==> MachineFits(groups, machine)
  {
    var gpu := PeakFits(groups, machine, Gpu);
    var cpu := PeakFits(groups, machine, Cpu);
    fits := cpu && gpu;
    if fits {
      forall resource: Resource, m: int | 0 <= m < WEEK_MINUTES ensures WorkersOpen(groups, machine, resource, m) <= MAX_WORKERS {
        match resource
        case Cpu =>
        case Gpu =>
      }
    }
  }
}
