/** groups_from_legacy: worker counts from before groups existed, as groups that never exceed the GPU limit. */
module LegacyGroups {
  import opened Wrappers
  import opened Json
  import opened WeeklyMask
  import opened WorkerPolicy
  import opened WorkerGroups
  import opened GroupValidation

  /** One GPU of the old settings or of the detection, its name and worker count already defaulted; "" has no device. */
  datatype OldGpu = OldGpu(device: string, name: string, workers: int, enabled: bool)

  const GPU_KINDS := ["previews", "intro_credits"]

  function Max(a: int, b: int): int {
    if a > b then a else b
  }

  function Min(a: int, b: int): int {
    if a < b then a else b
  }

  function LegacyGroup(id: string, name: string, resource: Resource, count: int, device: Option<string>, enabled: bool): Group {
    Group(id, name, Hours(enabled && count > 0, true, []),
          [Member(LEGACY_MEMBER_ID, resource, device, Max(1, count), if resource == Cpu then JOB_KINDS else GPU_KINDS, None)])
  }

  /** What the loop over the GPUs has made so far. */
  datatype Progress = Progress(groups: seq<Group>, budget: int, seen: set<string>)

  function CutName(name: string): string {
    if |name| <= 80 then name else name[..80]
  }

  /** One GPU: a later one gets what is left of the budget; one with nothing left is kept but switched off. */
  function WithGpu(p: Progress, gpu: OldGpu, digest: string -> string): Progress {
    if gpu.device == "" || gpu.device in p.seen then p
    else
      var wanted := Max(1, Min(gpu.workers, MAX_WORKERS));
      var on := gpu.enabled && gpu.workers > 0 && p.budget > 0;
      var count := if on then Min(wanted, p.budget) else wanted;
      var group := LegacyGroup("legacy-gpu-" + digest(gpu.device), CutName(gpu.name), Gpu, count, Some(gpu.device), on);
      Progress(p.groups + [group], if on then p.budget - count else p.budget, p.seen + {gpu.device})
  }

  function WithGpus(start: Progress, gpus: seq<OldGpu>, digest: string -> string): Progress {
    if gpus == [] then start
    else WithGpu(WithGpus(start, gpus[..|gpus| - 1], digest), gpus[|gpus| - 1], digest)
  }

  function CpuGroups(cpu: int): seq<Group> {
    if cpu > 0 then [LegacyGroup("legacy-cpu", "CPU workers", Cpu, cpu, None, true)] else []
  }

  /** The groups handed to validation. */
  function Legacy(cpu: int, gpus: seq<OldGpu>, digest: string -> string): Progress {
    WithGpus(Progress(CpuGroups(cpu), MAX_WORKERS, {}), gpus, digest)
  }

  lemma {:induction false} WithGpusConcat(start: Progress, a: seq<OldGpu>, b: seq<OldGpu>, digest: string -> string)
    ensures WithGpus(start, a + b, digest) == WithGpus(WithGpus(start, a, digest), b, digest)
  {
    if b == [] {
      assert a + b == a;
    } else {
      assert (a + b)[..|a + b| - 1] == a + b[..|b| - 1];
      WithGpusConcat(start, a, b[..|b| - 1], digest);
    }
  }

  /** `append_gpu`: one loop over the configured or the detected GPUs. */
  method AppendGpus(start: Progress, gpus: seq<OldGpu>, digest: string -> string) returns (p: Progress)
    ensures p == WithGpus(start, gpus, digest)
  {
    var groups, budget, seen := start.groups, start.budget, start.seen;
    var i := 0;
    while i < |gpus|
      invariant 0 <= i <= |gpus|
      invariant Progress(groups, budget, seen) == WithGpus(start, gpus[..i], digest)
    {
      var gpu := gpus[i];
      assert gpus[..i + 1][..i] == gpus[..i];
      i := i + 1;
      if gpu.device == "" || gpu.device in seen {
        continue;
      }
      seen := seen + {gpu.device};
      var count := Max(1, Min(gpu.workers, MAX_WORKERS));
      var enabled := gpu.enabled && gpu.workers > 0;
      if enabled {
        if budget <= 0 {
          enabled := false;
        } else {
          count := Min(count, budget);
          budget := budget - count;
        }
      }
      groups := groups + [LegacyGroup("legacy-gpu-" + digest(gpu.device), CutName(gpu.name), Gpu, count, Some(gpu.device), enabled)];
    }
    assert gpus[..i] == gpus;
    p := Progress(groups, budget, seen);
  }

  /** Both loops and the validation: the groups of one CPU count and two lists of GPUs. */
  method GroupsFrom(cpu: int, configured: seq<OldGpu>, detected: seq<OldGpu>, digest: string -> string)
    returns (r: Result<seq<Group>>)
    ensures r == Validated(GroupsJson(Legacy(cpu, configured + detected, digest).groups), None)
  {
    var p := AppendGpus(Progress(CpuGroups(cpu), MAX_WORKERS, {}), configured, digest);
    p := AppendGpus(p, detected, digest);
    WithGpusConcat(Progress(CpuGroups(cpu), MAX_WORKERS, {}), configured, detected, digest);
    r := ValidateWorkerGroups(GroupsJson(p.groups), None);
  }

  // The GPU budget --------------------------------------------------------------------------------------------------

  /** The workers of the GPUs the old release used: the first entry of each device, when on, up to 64 each. */
  function Used(gpus: seq<OldGpu>): nat {
    if gpus == [] then 0
    else
      var init, gpu := gpus[..|gpus| - 1], gpus[|gpus| - 1];
      Used(init) + if NewTo(init, gpu.device) then Share(gpu) else 0
  }

  predicate NewTo(gpus: seq<OldGpu>, device: string) {
    forall g <- gpus :: g.device != device
  }

  function Share(gpu: OldGpu): nat {
    if gpu.device != "" && gpu.enabled && gpu.workers > 0 then Min(gpu.workers, MAX_WORKERS) else 0
  }

  /** The counts of the switched-on groups of one resource. */
  function OnCount(groups: seq<Group>, resource: Resource): int {
    if groups == [] then 0
    else
      var g := groups[|groups| - 1];
      OnCount(groups[..|groups| - 1], resource)
      + if g.hours.enabled && g.members != [] && g.members[0].resource == resource then g.members[0].count else 0
  }

  lemma OnCountSnoc(groups: seq<Group>, g: Group, resource: Resource)
    ensures OnCount(groups + [g], resource)
         == OnCount(groups, resource)
            + if g.hours.enabled && g.members != [] && g.members[0].resource == resource then g.members[0].count else 0
  {
    assert (groups + [g])[..|groups|] == groups;
  }

  /** What one more GPU takes from the budget. */
  lemma StepBudget(p: Progress, gpu: OldGpu, digest: string -> string)
    ensures var next := WithGpu(p, gpu, digest);
            var used := if gpu.device !in p.seen then Share(gpu) else 0;
            && OnCount(next.groups, Cpu) == OnCount(p.groups, Cpu)
            && (p.budget >= 0 ==>
                  next.budget == Max(0, p.budget - used)
                  && OnCount(next.groups, Gpu) == OnCount(p.groups, Gpu) + p.budget - next.budget)
  {
    var next := WithGpu(p, gpu, digest);
    if gpu.device != "" && gpu.device !in p.seen {
      var g := next.groups[|p.groups|];
      assert next.groups == p.groups + [g];
      OnCountSnoc(p.groups, g, Cpu);
      OnCountSnoc(p.groups, g, Gpu);
    }
  }

  lemma {:induction false} SeenDevices(start: Progress, gpus: seq<OldGpu>, digest: string -> string)
    requires start.seen == {}
    ensures forall d :: d in WithGpus(start, gpus, digest).seen <==> d != "" && exists g <- gpus :: g.device == d
  {
    if gpus != [] {
      SeenDevices(start, gpus[..|gpus| - 1], digest);
      assert gpus == gpus[..|gpus| - 1] + [gpus[|gpus| - 1]];
    }
  }

  lemma SeenDevice(start: Progress, gpus: seq<OldGpu>, digest: string -> string, d: string)
    requires start.seen == {}
    ensures d in WithGpus(start, gpus, digest).seen <==> d != "" && !NewTo(gpus, d)
  {
    SeenDevices(start, gpus, digest);
  }

  /** After GPUs that used so many workers, what the budget lost is what the GPU groups gained. */
  predicate BudgetKept(start: Progress, p: Progress, used: nat) {
    && p.budget == Max(0, start.budget - used)
    && OnCount(p.groups, Gpu) == OnCount(start.groups, Gpu) + start.budget - p.budget
    && OnCount(p.groups, Cpu) == OnCount(start.groups, Cpu)
  }

  lemma StepKeepsBudget(start: Progress, p: Progress, gpu: OldGpu, digest: string -> string, used: nat)
    requires start.budget >= 0 && BudgetKept(start, p, used)
    ensures BudgetKept(start, WithGpu(p, gpu, digest), used + if gpu.device !in p.seen then Share(gpu) else 0)
  {
    StepBudget(p, gpu, digest);
  }

  lemma {:induction false} BudgetFrom(start: Progress, gpus: seq<OldGpu>, digest: string -> string)
    requires start.seen == {} && start.budget >= 0
    ensures BudgetKept(start, WithGpus(start, gpus, digest), Used(gpus))
  {
    if gpus != [] {
      var init, last := gpus[..|gpus| - 1], gpus[|gpus| - 1];
      var p := WithGpus(start, init, digest);
      BudgetFrom(start, init, digest);
      SeenDevice(start, init, digest, last.device);
      StepKeepsBudget(start, p, last, digest, Used(init));
      assert WithGpus(start, gpus, digest) == WithGpu(p, last, digest);
      assert Used(gpus) == Used(init) + if last.device !in p.seen then Share(last) else 0;
    }
  }

  /**
   * The switched-on GPU counts add up to exactly what the old release used, cut off at 64: no worker is lost below
   * the limit, and none is handed out above it.
   */
  lemma GpuBudgetSpent(cpu: int, gpus: seq<OldGpu>, digest: string -> string)
    ensures var p := Legacy(cpu, gpus, digest);
            && p.budget == Max(0, MAX_WORKERS - Used(gpus))
            && OnCount(p.groups, Gpu) == Min(MAX_WORKERS, Used(gpus))
            && OnCount(p.groups, Cpu) == Max(0, cpu)
  {
    BudgetFrom(Progress(CpuGroups(cpu), MAX_WORKERS, {}), gpus, digest);
    assert OnCount(CpuGroups(cpu), Gpu) == 0 && OnCount(CpuGroups(cpu), Cpu) == Max(0, cpu);
  }

  // Acceptance ------------------------------------------------------------------------------------------------------

  /** The parts of a legacy group that don't depend on the old settings. */
  predicate LegacyShape(g: Group) {
    && IsId(g.id)
    && |g.name| <= 80
    && g.hours == Hours(g.hours.enabled, true, [])
    && |g.members| == 1
    && var m := g.members[0];
       && m.id == LEGACY_MEMBER_ID
       && m.count >= 1
       && m.node.None?
       && (if m.resource == Cpu then m.device.None? && m.jobTypes == JOB_KINDS else m.device.Some? && m.jobTypes == GPU_KINDS)
  }

  /** The parts that do: a name that isn't blank, a usable device and at most 64 workers. */
  predicate Usable(g: Group)
    requires LegacyShape(g)
  {
    && Strip(g.name) != ""
    && (g.members[0].device.Some? ==> DeviceName(g.members[0].device.value))
    && g.members[0].count <= MAX_WORKERS
  }

  lemma LegacyKinds()
    ensures NormalKinds(JOB_KINDS, Cpu) && NormalKinds(GPU_KINDS, Gpu)
  {
    ThreeKinds(Strings(JOB_KINDS));
    ThreeKinds(Strings(GPU_KINDS));
    StringsMember(JOB_KINDS, JOB_KINDS[0]);
    StringsMember(JOB_KINDS, JOB_KINDS[1]);
    StringsMember(JOB_KINDS, JOB_KINDS[2]);
    StringsMember(GPU_KINDS, JOB_KINDS[0]);
    StringsMember(GPU_KINDS, JOB_KINDS[1]);
    StringsMember(GPU_KINDS, JOB_KINDS[2]);
    assert LOUDNESS != GPU_KINDS[0] && LOUDNESS != GPU_KINDS[1];
    assert GPU_KINDS[0] in JOB_KINDS && GPU_KINDS[1] in JOB_KINDS;
  }

  lemma LegacyMemberClean(g: Group)
    requires LegacyShape(g)
    ensures var m := g.members[0];
            CleanMember(MemberJson(m), [], false, None)
            == if (m.device.Some? ==> DeviceName(m.device.value)) && m.count <= MAX_WORKERS then Ok(m) else Rejected
  {
    var m := g.members[0];
    LegacyKinds();
    assert IsId(LEGACY_MEMBER_ID);
    if (m.device.Some? ==> DeviceName(m.device.value)) && m.count <= MAX_WORKERS {
      MemberRoundTrip(m, [], None);
    } else {
      assert Get(MemberJson(m).fields, "count") == Int(m.count);
      assert Get(MemberJson(m).fields, "device") == if m.device.Some? then Str(m.device.value) else Null;
      assert CleanResource(MemberJson(m).fields) == Ok(m.resource);
    }
  }

  predicate UsableMember(m: Member) {
    (m.device.Some? ==> DeviceName(m.device.value)) && m.count <= MAX_WORKERS
  }

  lemma LegacyMembersClean(g: Group)
    requires LegacyShape(g)
    ensures CleanMembers(GroupJson(g).fields, None) == if UsableMember(g.members[0]) then Ok(g.members) else Rejected
  {
    var fields := GroupJson(g).fields;
    LegacyMemberClean(g);
    OneMemberList(g.members[0]);
    assert g.members == [g.members[0]];
    assert MembersJson(g.members) == [MemberJson(g.members[0])];
    MembersFrom(fields, MembersJson(g.members), None);
  }

  lemma LegacyGroupClean(g: Group, others: seq<Group>)
    requires LegacyShape(g) && forall o <- others :: o.id != g.id
    ensures CleanGroup(GroupJson(g), others, None) == if Usable(g) then Ok(g.(name := Strip(g.name))) else Rejected
  {
    var fields := GroupJson(g).fields;
    LegacyMembersClean(g);
    LegacyHoursClean(g);
    assert Usable(g) <==> Strip(g.name) != "" && UsableMember(g.members[0]);
    GroupFieldsOf(g);
  }

  lemma GroupFieldsOf(g: Group)
    ensures var fields := GroupJson(g).fields;
            Get(fields, "id") == Str(g.id) && Get(fields, "name") == Str(g.name)
            && "enabled" in fields && fields["enabled"] == Bool(g.hours.enabled)
  {
  }

  lemma OneMemberList(m: Member)
    ensures CleanMemberList([MemberJson(m)], None)
         == match CleanMember(MemberJson(m), [], false, None) case Ok(v) => Ok([v]) case Rejected => Rejected
  {
    var json := [MemberJson(m)];
    var none: seq<Member> := [];
    assert json[..|json| - 1] == [];
    assert CleanMemberList(json[..|json| - 1], None) == Ok(none);
    assert forall v :: none + [v] == [v];
  }

  lemma LegacyHoursClean(g: Group)
    requires LegacyShape(g)
    ensures CleanHours(GroupJson(g).fields, g.hours.enabled) == Ok(g.hours)
  {
    assert GroupJson(g).fields["availability"] == HoursJson(g.hours);
    assert WindowsJson(g.hours.windows) == [];
    assert CleanWindows([]) == Ok([]);
  }

  predicate DistinctIds(gs: seq<Group>) {
    forall i, j | 0 <= i < j < |gs| :: gs[i].id != gs[j].id
  }

  /** Same groups but for their names. */
  predicate SameButNames(gs: seq<Group>, hs: seq<Group>) {
    && |gs| == |hs|
    && forall i | 0 <= i < |gs| :: hs[i] == gs[i].(name := hs[i].name)
  }

  lemma SameIds(gs: seq<Group>, hs: seq<Group>, last: Group)
    requires SameButNames(gs, hs) && DistinctIds(gs + [last])
    ensures forall h <- hs :: h.id != last.id
  {
    forall h <- hs ensures h.id != last.id {
      var i :| 0 <= i < |hs| && hs[i] == h;
      assert hs[i] == gs[i].(name := hs[i].name);
      assert (gs + [last])[i].id != (gs + [last])[|gs|].id;
    }
  }

  lemma {:induction false} LegacyGroupsClean(gs: seq<Group>)
    requires DistinctIds(gs) && forall g <- gs :: LegacyShape(g)
    ensures var clean := CleanGroups(GroupsJson(gs).items, None);
            && (clean.Ok? <==> forall g <- gs :: Usable(g))
            && (clean.Ok? ==> SameButNames(gs, clean.value))
  {
    if gs != [] {
      var init, last := gs[..|gs| - 1], gs[|gs| - 1];
      assert gs == init + [last];
      assert forall g <- init :: g in gs;
      LegacyGroupsClean(init);
      GroupsJsonSnoc(init, last);
      CleanGroupsSnoc(GroupsJson(init).items, GroupJson(last), None);
      LastLegacyGroup(init, last, CleanGroups(GroupsJson(init).items, None));
    }
  }

  lemma LastLegacyGroup(init: seq<Group>, last: Group, others: Result<seq<Group>>)
    requires DistinctIds(init + [last]) && LegacyShape(last) && forall g <- init :: LegacyShape(g)
    requires others.Ok? <==> forall g <- init :: Usable(g)
    requires others.Ok? ==> SameButNames(init, others.value)
    ensures forall g <- init + [last] :: LegacyShape(g)
    ensures others.Ok? && CleanGroup(GroupJson(last), others.value, None).Ok? <==> forall g <- init + [last] :: Usable(g)
    ensures others.Ok? && CleanGroup(GroupJson(last), others.value, None).Ok?
            ==> SameButNames(init + [last], others.value + [CleanGroup(GroupJson(last), others.value, None).value])
  {
    assert forall g <- init + [last] :: g in init || g == last;
    assert last in init + [last] && forall g <- init :: g in init + [last];
    if others.Ok? {
      SameIds(init, others.value, last);
      LegacyGroupClean(last, others.value);
    }
  }

  lemma {:induction false} NamesDontWork(gs: seq<Group>, hs: seq<Group>, machine: Option<string>, resource: Resource, m: int)
    requires SameButNames(gs, hs)
    ensures WorkersOpen(gs, machine, resource, m) == WorkersOpen(hs, machine, resource, m)
  {
    if gs != [] {
      var g, h := gs[|gs| - 1], hs[|hs| - 1];
      assert h == g.(name := h.name);
      NamesDontWork(gs[..|gs| - 1], hs[..|hs| - 1], machine, resource, m);
      SameHoursSameLoad(g, h, g.members, machine, resource, m);
    }
  }

  lemma {:induction false} SameHoursSameLoad(g: Group, h: Group, members: seq<Member>, machine: Option<string>, resource: Resource, m: int)
    requires g.hours == h.hours
    ensures MembersOpen(g, members, machine, resource, m) == MembersOpen(h, members, machine, resource, m)
  {
    if members != [] {
      SameHoursSameLoad(g, h, members[..|members| - 1], machine, resource, m);
    }
  }

  /** Always-open single-member groups of this app: their load is their switched-on count, all week. */
  lemma {:induction false} LegacyLoad(gs: seq<Group>, machine: Option<string>, resource: Resource, m: int)
    requires 0 <= m < WEEK_MINUTES && forall g <- gs :: LegacyShape(g)
    ensures WorkersOpen(gs, machine, resource, m) == if machine.None? then OnCount(gs, resource) else 0
  {
    if gs != [] {
      assert forall g <- gs[..|gs| - 1] :: g in gs;
      LegacyLoad(gs[..|gs| - 1], machine, resource, m);
      var g := gs[|gs| - 1];
      assert LegacyShape(g);
      assert g.members[..|g.members| - 1] == [];
      assert MembersOpen(g, g.members[..|g.members| - 1], machine, resource, m) == 0;
      assert g.members[|g.members| - 1] == g.members[0];
    }
  }

  /** A digest usable in ids: 16 lower-case hex digits, different for the devices at hand. */
  predicate GoodDigest(digest: string -> string, gpus: seq<OldGpu>) {
    && (forall g <- gpus :: |digest(g.device)| == 16 && forall c <- digest(g.device) :: '0' <= c <= '9' || 'a' <= c <= 'f')
    && (forall g <- gpus, h <- gpus | g.device != h.device :: digest(g.device) != digest(h.device))
  }

  /** A legacy group's id tells what it is for, and its device was seen. */
  predicate LegacyNamed(g: Group, digest: string -> string, seen: set<string>)
    requires LegacyShape(g)
  {
    if g.members[0].resource == Cpu then g.id == "legacy-cpu"
    else g.members[0].device.value in seen && g.id == "legacy-gpu-" + digest(g.members[0].device.value)
  }

  predicate LegacyShaped(p: Progress, digest: string -> string) {
    forall g <- p.groups :: LegacyShape(g) && LegacyNamed(g, digest, p.seen)
  }

  /** Ids of different devices differ, and none is the CPU's. */
  lemma IdsDiffer(o: Group, g: Group, digest: string -> string, seen: set<string>, later: set<string>)
    requires LegacyShape(o) && LegacyNamed(o, digest, seen) && LegacyShape(g) && LegacyNamed(g, digest, later)
    requires g.members[0].resource == Gpu
    requires o.members[0].resource == Gpu ==> digest(o.members[0].device.value) != digest(g.members[0].device.value)
    ensures o.id != g.id
  {
    var id := digest(g.members[0].device.value);
    assert g.id[|"legacy-gpu-"|..] == id && g.id[7] == 'g';
    if o.members[0].resource == Gpu {
      assert o.id[|"legacy-gpu-"|..] == digest(o.members[0].device.value);
    } else {
      assert o.id[7] == 'c';
    }
  }

  lemma DistinctSnoc(groups: seq<Group>, g: Group)
    requires DistinctIds(groups) && forall o <- groups :: o.id != g.id
    ensures DistinctIds(groups + [g])
  {
  }

  lemma StepShaped(p: Progress, gpus: seq<OldGpu>, gpu: OldGpu, digest: string -> string)
    requires GoodDigest(digest, gpus + [gpu]) && LegacyShaped(p, digest) && DistinctIds(p.groups)
    requires forall d <- p.seen :: exists g <- gpus :: g.device == d
    ensures LegacyShaped(WithGpu(p, gpu, digest), digest) && DistinctIds(WithGpu(p, gpu, digest).groups)
  {
    assert gpu in gpus + [gpu];
    if gpu.device != "" && gpu.device !in p.seen {
      var next := WithGpu(p, gpu, digest);
      var g := next.groups[|p.groups|];
      forall o <- p.groups ensures o.id != g.id && LegacyNamed(o, digest, next.seen) {
        if o.members[0].resource == Gpu {
          var other :| other in gpus && other.device == o.members[0].device.value;
          assert other in gpus + [gpu];
        }
        IdsDiffer(o, g, digest, p.seen, next.seen);
      }
      DistinctSnoc(p.groups, g);
    }
  }

  lemma {:induction false} LegacyShapes(cpu: int, gpus: seq<OldGpu>, digest: string -> string)
    requires GoodDigest(digest, gpus)
    ensures LegacyShaped(Legacy(cpu, gpus, digest), digest)
    ensures DistinctIds(Legacy(cpu, gpus, digest).groups)
  {
    if gpus == [] {
      assert IsId("legacy-cpu");
    } else {
      var init, gpu := gpus[..|gpus| - 1], gpus[|gpus| - 1];
      assert gpus == init + [gpu] && forall g <- init :: g in gpus;
      LegacyShapes(cpu, init, digest);
      SeenDevices(Progress(CpuGroups(cpu), MAX_WORKERS, {}), init, digest);
      StepShaped(Legacy(cpu, init, digest), init, gpu, digest);
    }
  }

  /** The first entry of every device: the GPUs that get a group. */
  function FirstGpus(gpus: seq<OldGpu>): seq<OldGpu> {
    if gpus == [] then []
    else
      var init, gpu := gpus[..|gpus| - 1], gpus[|gpus| - 1];
      FirstGpus(init) + if gpu.device != "" && NewTo(init, gpu.device) then [gpu] else []
  }

  predicate GpuFits(gpu: OldGpu) {
    DeviceName(gpu.device) && Strip(CutName(gpu.name)) != ""
  }

  /** What the old settings have to be like. */
  predicate SettingsFit(cpu: int, gpus: seq<OldGpu>) {
    && cpu <= MAX_WORKERS
    && (forall gpu <- FirstGpus(gpus) :: GpuFits(gpu))
    && |FirstGpus(gpus)| + (if cpu > 0 then 1 else 0) <= MAX_GROUPS
  }

  /** The group made for a GPU, as far as acceptance goes. */
  predicate MadeFor(g: Group, gpu: OldGpu) {
    && g.name == CutName(gpu.name)
    && |g.members| == 1 && g.members[0].device == Some(gpu.device) && g.members[0].count <= MAX_WORKERS
  }

  predicate MadeForAll(groups: seq<Group>, start: seq<Group>, gpus: seq<OldGpu>) {
    && |groups| == |start| + |gpus| && groups[..|start|] == start
    && forall k | 0 <= k < |gpus| :: MadeFor(groups[|start| + k], gpus[k])
  }

  lemma {:induction false} OneGroupEach(start: Progress, gpus: seq<OldGpu>, digest: string -> string)
    requires start.seen == {}
    ensures MadeForAll(WithGpus(start, gpus, digest).groups, start.groups, FirstGpus(gpus))
  {
    if gpus == [] {
      assert start.groups[..|start.groups|] == start.groups;
    } else {
      var init, gpu := gpus[..|gpus| - 1], gpus[|gpus| - 1];
      OneGroupEach(start, init, digest);
      SeenDevice(start, init, digest, gpu.device);
    }
  }

  lemma EachUsableIff(gs: seq<Group>, start: seq<Group>, first: seq<OldGpu>)
    requires (forall g <- gs :: LegacyShape(g)) && MadeForAll(gs, start, first) && forall g <- start :: LegacyShape(g)
    ensures (forall g <- gs :: Usable(g)) <==> (forall g <- start :: Usable(g)) && forall gpu <- first :: GpuFits(gpu)
  {
    forall k | 0 <= k < |first| ensures gs[|start| + k] in gs && (Usable(gs[|start| + k]) <==> GpuFits(first[k])) {
      assert gs[|start| + k] in gs && MadeFor(gs[|start| + k], first[k]);
    }
    forall k | 0 <= k < |start| ensures gs[k] == start[k] {
      assert gs[..|start|][k] == start[k];
    }
    if forall g <- gs :: Usable(g) {
      forall gpu <- first ensures GpuFits(gpu) {
        var k :| 0 <= k < |first| && first[k] == gpu;
        assert gs[|start| + k] in gs;
      }
    } else {
      var i :| 0 <= i < |gs| && !Usable(gs[i]);
      assert if i < |start| then gs[i] in start else first[i - |start|] in first;
    }
  }

  lemma UsableIffFits(cpu: int, gpus: seq<OldGpu>, digest: string -> string)
    requires forall g <- Legacy(cpu, gpus, digest).groups :: LegacyShape(g)
    ensures var gs := Legacy(cpu, gpus, digest).groups;
            |gs| <= MAX_GROUPS && (forall g <- gs :: Usable(g)) <==> SettingsFit(cpu, gpus)
  {
    var start := CpuGroups(cpu);
    OneGroupEach(Progress(start, MAX_WORKERS, {}), gpus, digest);
    if cpu > 0 {
      CpuUsable(cpu);
    }
    EachUsableIff(Legacy(cpu, gpus, digest).groups, start, FirstGpus(gpus));
  }

  lemma CpuUsable(cpu: int)
    requires cpu > 0
    ensures LegacyShape(CpuGroups(cpu)[0]) && (Usable(CpuGroups(cpu)[0]) <==> cpu <= MAX_WORKERS)
  {
    var name := "CPU workers";
    assert IsId("legacy-cpu") && Stripped(name);
    StripStrips(name);
  }

  /**
   * The old settings are accepted if and only if the CPU has at most 64 workers, every GPU that gets a group has a
   * usable device name and a name that isn't blank, and no more than 64 groups come of it. The GPU total never refuses
   * them, and what is accepted is what was made, with the spaces around names gone.
   */
  lemma LegacyAccepted(cpu: int, gpus: seq<OldGpu>, digest: string -> string)
    requires GoodDigest(digest, gpus)
    ensures var gs := Legacy(cpu, gpus, digest).groups;
            && (Validated(GroupsJson(gs), None).Ok? <==> SettingsFit(cpu, gpus))
            && (Validated(GroupsJson(gs), None).Ok? ==> SameButNames(gs, Validated(GroupsJson(gs), None).value))
  {
    var gs := Legacy(cpu, gpus, digest).groups;
    LegacyShapes(cpu, gpus, digest);
    LegacyGroupsClean(gs);
    GpuBudgetSpent(cpu, gpus, digest);
    UsableIffFits(cpu, gpus, digest);
    var clean := CleanGroups(GroupsJson(gs).items, None);
    if clean.Ok? && SettingsFit(cpu, gpus) {
      LegacyFits(gs, clean.value);
    }
  }

  /** For one, 65 CPU workers are refused, whatever the GPUs. */
  lemma SixtyFiveIsTooMany(gpus: seq<OldGpu>, digest: string -> string)
    requires GoodDigest(digest, gpus)
    ensures Validated(GroupsJson(Legacy(65, gpus, digest).groups), None).Rejected?
  {
    LegacyAccepted(65, gpus, digest);
  }

  lemma LegacyFits(gs: seq<Group>, hs: seq<Group>)
    requires forall g <- gs :: LegacyShape(g)
    requires SameButNames(gs, hs)
    requires OnCount(gs, Cpu) <= MAX_WORKERS && OnCount(gs, Gpu) <= MAX_WORKERS
    ensures WithinCapacity(hs)
  {
    forall machine: Option<string> ensures MachineFits(hs, machine) {
      forall resource: Resource, m: int | 0 <= m < WEEK_MINUTES ensures WorkersOpen(hs, machine, resource, m) <= MAX_WORKERS {
        NamesDontWork(gs, hs, machine, resource, m);
        LegacyLoad(gs, machine, resource, m);
      }
    }
  }
}
