/** validate_worker_groups: what it accepts, what it promises about capacity, and that running it again changes nothing. */
module GroupValidation {
  import opened Wrappers
  import opened Json
  import opened WeeklyMask
  import opened WorkerPolicy
  import opened WorkerGroups

  /** The nodes with a member: the keys of the per-node totals. */
  function NodesOf(groups: seq<Group>): set<string> {
    set g <- groups, m <- g.members | m.node.Some? :: m.node.value
  }

  lemma {:induction false} NoMembersThere(g: Group, members: seq<Member>, machine: Option<string>, resource: Resource, m: int)
    requires forall x <- members :: x.node != machine
    ensures MembersOpen(g, members, machine, resource, m) == 0
  {
    if members != [] {
      assert forall x <- members[..|members| - 1] :: x in members;
      NoMembersThere(g, members[..|members| - 1], machine, resource, m);
    }
  }

  lemma {:induction false} NobodyThere(groups: seq<Group>, machine: Option<string>, resource: Resource, m: int)
    requires forall g <- groups, x <- g.members :: x.node != machine
    ensures WorkersOpen(groups, machine, resource, m) == 0
  {
    if groups != [] {
      assert forall g <- groups[..|groups| - 1] :: g in groups;
      NobodyThere(groups[..|groups| - 1], machine, resource, m);
      NoMembersThere(groups[|groups| - 1], groups[|groups| - 1].members, machine, resource, m);
    }
  }

  /** The app's totals and every node's totals against the limits. */
  method CheckCapacity(groups: seq<Group>) returns (fits: bool)
    ensures fits <==> WithinCapacity(groups)
  {
    fits := CheckMachine(groups, None);
    if !fits {
      return;
    }
    var left := NodesOf(groups);
    while left != {}
      invariant left <= NodesOf(groups)
      invariant MachineFits(groups, None)
      invariant forall n <- NodesOf(groups) | n !in left :: MachineFits(groups, Some(n))
      decreases |left|
    {
      var n :| n in left;
      var ok := CheckMachine(groups, Some(n));
      if !ok {
        return false;
      }
      left := left - {n};
    }
    forall machine: Option<string> ensures MachineFits(groups, machine) {
      if machine.Some? && machine.value !in NodesOf(groups) {
        forall resource: Resource, m: int ensures WorkersOpen(groups, machine, resource, m) == 0 {
          NobodyThere(groups, machine, resource, m);
        }
      }
    }
  }

  lemma CleanGroupsSnoc(init: seq<Json>, last: Json, nodes: Option<set<string>>)
    ensures CleanGroups(init + [last], nodes)
         == match CleanGroups(init, nodes)
            case Rejected => Rejected
            case Ok(others) =>
              match CleanGroup(last, others, nodes)
              case Rejected => Rejected
              case Ok(g) => Ok(others + [g])
  {
    assert (init + [last])[..|init + [last]| - 1] == init;
  }

  lemma TakeOne(raws: seq<Json>, i: nat)
    requires i < |raws|
    ensures raws[..i + 1] == raws[..i] + [raws[i]]
  {
  }

  /** The loop over the proposed groups, each checked against the ones before it. */
  method CleanEach(raws: seq<Json>, nodes: Option<set<string>>) returns (r: Result<seq<Group>>)
    ensures r == CleanGroups(raws, nodes)
  {
    var groups: seq<Group> := [];
    ghost var done: seq<Json> := [];
    var i := 0;
    while i < |raws|
      invariant 0 <= i <= |raws| && done == raws[..i]
      invariant CleanGroups(done, nodes) == Ok(groups)
    {
      CleanGroupsSnoc(done, raws[i], nodes);
      TakeOne(raws, i);
      var clean := CleanGroup(raws[i], groups, nodes);
      if clean.Rejected? {
        RejectedPrefix(raws, i + 1, nodes);
        return Rejected;
      }
      groups := groups + [clean.value];
      done := done + [raws[i]];
      i := i + 1;
    }
    assert done == raws;
    r := Ok(groups);
  }

  /**
   * Validation accepts exactly the lists whose every field is well formed and that never have more than 64 CPU or 64
   * GPU workers open on this app, or on any one node, at any minute of the week.
   */
  method ValidateWorkerGroups(value: Json, nodes: Option<set<string>>) returns (r: Result<seq<Group>>)
    ensures r == Validated(value, nodes)
    ensures r.Ok? ==> WithinCapacity(r.value)
  {
    if !value.List? || |value.items| > MAX_GROUPS {
      return Rejected;
    }
    var groups := CleanEach(value.items, nodes);
    if groups.Rejected? {
      return Rejected;
    }
    var fits := CheckCapacity(groups.value);
    if !fits {
      return Rejected;
    }
    r := groups;
  }

  lemma {:induction false} RejectedPrefix(raws: seq<Json>, i: nat, nodes: Option<set<string>>)
    requires i <= |raws| && CleanGroups(raws[..i], nodes).Rejected?
    ensures CleanGroups(raws, nodes).Rejected?
    decreases |raws|
  {
    if i == |raws| {
      assert raws[..i] == raws;
    } else {
      var init := raws[..|raws| - 1];
      assert init[..i] == raws[..i];
      RejectedPrefix(init, i, nodes);
    }
  }

  // Writing a group back --------------------------------------------------------------------------------------------

  function Strings(xs: seq<string>): seq<Json> {
    seq(|xs|, i requires 0 <= i < |xs| => Str(xs[i]))
  }

  function Ints(xs: seq<Day>): seq<Json> {
    seq(|xs|, i requires 0 <= i < |xs| => Int(xs[i]))
  }

  /** The stored form of a member; `node` is written only for a member on a node. */
  function MemberJson(m: Member): Json {
    var fields := map["id" := Str(m.id), "resource" := Str(if m.resource == Cpu then "cpu" else "gpu"),
                      "device" := if m.device.Some? then Str(m.device.value) else Null,
                      "count" := Int(m.count), "job_types" := List(Strings(m.jobTypes))];
    Obj(if m.node.Some? then fields["node" := Str(m.node.value)] else fields)
  }

  function WindowJson(w: Window): Json {
    Obj(map["days" := List(Ints(w.days)), "start" := Str(w.start), "end" := Str(w.end)])
  }

  function MembersJson(ms: seq<Member>): seq<Json> {
    seq(|ms|, i requires 0 <= i < |ms| => MemberJson(ms[i]))
  }

  function WindowsJson(ws: seq<Window>): seq<Json> {
    seq(|ws|, i requires 0 <= i < |ws| => WindowJson(ws[i]))
  }

  function HoursJson(h: Hours): Json {
    Obj(map["mode" := Str(if h.always then "always" else "scheduled"), "windows" := List(WindowsJson(h.windows))])
  }

  function GroupJson(g: Group): Json {
    Obj(map["id" := Str(g.id), "name" := Str(g.name), "enabled" := Bool(g.hours.enabled),
            "availability" := HoursJson(g.hours), "members" := List(MembersJson(g.members))])
  }

  function GroupsJson(gs: seq<Group>): Json {
    List(seq(|gs|, i requires 0 <= i < |gs| => GroupJson(gs[i])))
  }

  // Normal form -----------------------------------------------------------------------------------------------------

  predicate NormalNode(node: Option<string>, nodes: Option<set<string>>) {
    node.Some? ==>
      && node.value != "" && |node.value| <= 128 && Strip(node.value) == node.value
      && (nodes.Some? ==> node.value in nodes.value)
  }

  predicate NormalKinds(kinds: seq<string>, resource: Resource) {
    && kinds != []
    && (forall k <- kinds :: k in JOB_KINDS)
    && KindsOf(JOB_KINDS, Strings(kinds)) == kinds
    && (resource == Gpu ==> LOUDNESS !in kinds)
  }

  predicate NormalMember(m: Member, nodes: Option<set<string>>) {
    && IsId(m.id)
    && (if m.resource == Gpu then m.device.Some? && DeviceName(m.device.value) else m.device.None?)
    && 1 <= m.count <= MAX_WORKERS
    && NormalKinds(m.jobTypes, m.resource)
    && NormalNode(m.node, nodes)
  }

  predicate NewMember(m: Member, others: seq<Member>) {
    forall o <- others :: o.id != m.id && KeyOf(o) != KeyOf(m)
  }

  lemma KindsPicked(picked: seq<Json>)
    requires forall k <- picked :: k.Str? && k.s in JOB_KINDS
    ensures var kinds := KindsOf(JOB_KINDS, picked);
            && (forall k :: k in kinds <==> Str(k) in picked)
            && KindsOf(JOB_KINDS, Strings(kinds)) == kinds
            && (picked != [] ==> kinds != [])
  {
    var kinds := KindsOf(JOB_KINDS, picked);
    var k0, k1, k2 := JOB_KINDS[0], JOB_KINDS[1], JOB_KINDS[2];
    var p0, p1, p2 := Str(k0) in picked, Str(k1) in picked, Str(k2) in picked;
    ThreeKinds(picked);
    forall k ensures Str(k) in Strings(kinds) <==> k in kinds {
      StringsMember(kinds, k);
    }
    ThreeKinds(Strings(kinds));
    assert k0 != k1 && k0 != k2 && k1 != k2;
    if picked != [] {
      assert picked[0] in picked;
    }
  }

  lemma ThreeKinds(picked: seq<Json>)
    ensures KindsOf(JOB_KINDS, picked)
         == (if Str(JOB_KINDS[0]) in picked then [JOB_KINDS[0]] else [])
            + (if Str(JOB_KINDS[1]) in picked then [JOB_KINDS[1]] else [])
            + (if Str(JOB_KINDS[2]) in picked then [JOB_KINDS[2]] else [])
  {
    var rest := JOB_KINDS[1..];
    assert KindsOf(rest[1..][1..], picked) == [];
    assert KindsOf(rest[1..], picked) == if Str(JOB_KINDS[2]) in picked then [JOB_KINDS[2]] else [];
    assert KindsOf(rest, picked) == (if Str(JOB_KINDS[1]) in picked then [JOB_KINDS[1]] else []) + KindsOf(rest[1..], picked);
  }

  lemma StringsMember(xs: seq<string>, x: string)
    ensures Str(x) in Strings(xs) <==> x in xs
  {
    if x in xs {
      var i :| 0 <= i < |xs| && xs[i] == x;
      assert Strings(xs)[i] == Str(x);
    }
  }

  lemma CleanMemberIsNormal(raw: Json, others: seq<Member>, legacy: bool, nodes: Option<set<string>>)
    requires CleanMember(raw, others, legacy, nodes).Ok?
    ensures NormalMember(CleanMember(raw, others, legacy, nodes).value, nodes)
    ensures NewMember(CleanMember(raw, others, legacy, nodes).value, others)
  {
    var kinds := Get(raw.fields, "job_types").items;
    KindsPicked(kinds);
    CleanMemberKinds(raw, others, legacy, nodes);
  }

  lemma CleanMemberKinds(raw: Json, others: seq<Member>, legacy: bool, nodes: Option<set<string>>)
    requires CleanMember(raw, others, legacy, nodes).Ok?
    ensures NormalKinds(CleanMember(raw, others, legacy, nodes).value.jobTypes, CleanMember(raw, others, legacy, nodes).value.resource)
  {
    KindsPicked(Get(raw.fields, "job_types").items);
  }

  lemma MemberFields(m: Member)
    ensures var fields := MemberJson(m).fields;
            && Get(fields, "id") == Str(m.id) && Get(fields, "count") == Int(m.count)
            && Get(fields, "job_types") == List(Strings(m.jobTypes))
            && Get(fields, "resource") == Str(if m.resource == Cpu then "cpu" else "gpu")
            && Get(fields, "device") == (if m.device.Some? then Str(m.device.value) else Null)
            && Get(fields, "node") == (if m.node.Some? then Str(m.node.value) else Null)
  {
  }

  lemma CleanMemberOf(fields: map<string, Json>, m: Member, others: seq<Member>, nodes: Option<set<string>>)
    requires Get(fields, "id") == Str(m.id) && Get(fields, "count") == Int(m.count)
    requires CleanResource(fields) == Ok(m.resource) && CleanDevice(fields, m.resource) == Ok(m.device)
    requires CleanNode(fields, nodes) == Ok(m.node) && CleanKinds(fields, m.resource) == Ok(m.jobTypes)
    requires IsId(m.id) && 1 <= m.count <= MAX_WORKERS && NewMember(m, others)
    ensures CleanMember(Obj(fields), others, false, nodes) == Ok(m)
  {
  }

  lemma MemberRoundTrip(m: Member, others: seq<Member>, nodes: Option<set<string>>)
    requires NormalMember(m, nodes) && NewMember(m, others)
    ensures CleanMember(MemberJson(m), others, false, nodes) == Ok(m)
  {
    MemberFields(m);
    CleanMemberOf(MemberJson(m).fields, m, others, nodes);
  }

  lemma MembersJsonSnoc(ms: seq<Member>, m: Member)
    ensures MembersJson(ms + [m]) == MembersJson(ms) + [MemberJson(m)]
  {
  }

  lemma {:induction false} MemberListNormal(raws: seq<Json>, nodes: Option<set<string>>)
    requires CleanMemberList(raws, nodes).Ok?
    ensures var ms := CleanMemberList(raws, nodes).value;
            && |ms| == |raws|
            && (forall m <- ms :: NormalMember(m, nodes))
            && CleanMemberList(MembersJson(ms), nodes) == Ok(ms)
  {
    if raws != [] {
      var init, raw := raws[..|raws| - 1], raws[|raws| - 1];
      assert raws == init + [raw];
      MemberListNormal(init, nodes);
      var others := CleanMemberList(init, nodes).value;
      CleanMemberIsNormal(raw, others, false, nodes);
      var last := CleanMember(raw, others, false, nodes).value;
      MemberRoundTrip(last, others, nodes);
      MembersJsonSnoc(others, last);
    }
  }

  /** Fields without a top-level echo are cleaned by their member list alone. */
  lemma MembersFrom(fields: map<string, Json>, members: seq<Json>, nodes: Option<set<string>>)
    requires fields.Keys == {"id", "name", "enabled", "availability", "members"}
    requires fields["members"] == List(members) && 1 <= |members| <= MAX_MEMBERS
    ensures CleanMembers(fields, nodes) == CleanMemberList(members, nodes)
  {
    assert "resource" !in fields && "device" !in fields && "count" !in fields && "job_types" !in fields;
    assert !FlatConflict(fields, members);
  }

  /** The members of an accepted group, written back and cleaned again, are the same members. */
  lemma MembersRoundTrip(raw: map<string, Json>, nodes: Option<set<string>>, again: map<string, Json>)
    requires CleanMembers(raw, nodes).Ok?
    requires again.Keys == {"id", "name", "enabled", "availability", "members"}
    requires again["members"] == List(MembersJson(CleanMembers(raw, nodes).value))
    ensures CleanMembers(again, nodes) == CleanMembers(raw, nodes)
  {
    var ms := CleanMembers(raw, nodes).value;
    var json := MembersJson(ms);
    if "members" !in raw {
      OneMemberRoundTrip(raw, nodes);
    } else {
      MemberListNormal(raw["members"].items, nodes);
    }
    MembersFrom(again, json, nodes);
  }

  lemma OneMemberRoundTrip(raw: map<string, Json>, nodes: Option<set<string>>)
    requires "members" !in raw && CleanMembers(raw, nodes).Ok?
    ensures |CleanMembers(raw, nodes).value| == 1
    ensures CleanMemberList(MembersJson(CleanMembers(raw, nodes).value), nodes) == CleanMembers(raw, nodes)
  {
    var m := CleanMember(Obj(raw), [], true, nodes).value;
    CleanMemberIsNormal(Obj(raw), [], true, nodes);
    MemberRoundTrip(m, [], nodes);
    var json := MembersJson([m]);
    assert json[..|json| - 1] == [] && json[0] == MemberJson(m);
    var none: seq<Member> := [];
    assert CleanMemberList(json[..|json| - 1], nodes) == Ok(none) && none + [m] == [m];
    assert CleanMembers(raw, nodes) == Ok([m]);
  }

  lemma {:induction false} SortedDaysPicked(from: int, days: seq<Json>)
    requires 0 <= from <= 7
    ensures forall d: Day :: d in SortedDays(from, days) <==> d >= from && Int(d) in days
    decreases 7 - from
  {
    if from < 7 {
      var rest := SortedDays(from + 1, days);
      SortedDaysPicked(from + 1, days);
      forall d: Day ensures d in SortedDays(from, days) <==> d in rest || (d == from && Int(from) in days) {
      }
    }
  }

  lemma {:induction false} SortedDaysSame(from: int, a: seq<Json>, b: seq<Json>)
    requires 0 <= from <= 7
    requires forall d: Day :: Int(d) in a <==> Int(d) in b
    ensures SortedDays(from, a) == SortedDays(from, b)
    decreases 7 - from
  {
    if from < 7 {
      SortedDaysSame(from + 1, a, b);
    }
  }

  lemma IntsMember(xs: seq<Day>, x: Day)
    ensures Int(x) in Ints(xs) <==> x in xs
  {
    if x in xs {
      var i :| 0 <= i < |xs| && xs[i] == x;
      assert Ints(xs)[i] == Int(x);
    }
  }

  lemma DaysRoundTrip(days: seq<Json>, first: int)
    requires 0 <= first <= 6 && days != [] && forall d <- days :: d.Int? && first <= d.n <= 6
    ensures var clean := SortedDays(first, days);
            && clean != []
            && SortedDays(first, Ints(clean)) == clean
            && (forall d <- Ints(clean) :: d.Int? && 0 <= d.n <= 6)
  {
    var clean := SortedDays(first, days);
    SortedDaysPicked(first, days);
    forall d: Day ensures Int(d) in Ints(clean) <==> Int(d) in days {
      IntsMember(clean, d);
    }
    SortedDaysSame(first, Ints(clean), days);
    assert days[0] in days;
    assert days[0].n in clean;
  }

  lemma WindowRoundTrip(raw: Json)
    requires CleanWindow(raw).Ok?
    ensures CleanWindow(WindowJson(CleanWindow(raw).value)) == CleanWindow(raw)
  {
    var w := CleanWindow(raw).value;
    var again := WindowJson(w).fields;
    DaysRoundTrip(Get(raw.fields, "days").items, 0);
    assert Get(again, "days") == List(Ints(w.days)) && Get(again, "start") == Str(w.start) && Get(again, "end") == Str(w.end);
  }

  lemma {:induction false} WindowsRoundTrip(raws: seq<Json>)
    requires CleanWindows(raws).Ok?
    ensures |CleanWindows(raws).value| == |raws|
    ensures CleanWindows(WindowsJson(CleanWindows(raws).value)) == CleanWindows(raws)
  {
    if raws != [] {
      var init := raws[..|raws| - 1];
      WindowsRoundTrip(init);
      var others := CleanWindows(init).value;
      var last := CleanWindow(raws[|raws| - 1]).value;
      WindowRoundTrip(raws[|raws| - 1]);
      var json := WindowsJson(others + [last]);
      assert json[..|json| - 1] == WindowsJson(others);
      assert json[|json| - 1] == WindowJson(last);
    }
  }

  lemma HoursRoundTrip(raw: map<string, Json>, enabled: bool, again: map<string, Json>)
    requires CleanHours(raw, enabled).Ok?
    requires "availability" in again && again["availability"] == HoursJson(CleanHours(raw, enabled).value)
    ensures CleanHours(again, enabled) == CleanHours(raw, enabled)
  {
    var h := CleanHours(raw, enabled).value;
    if "availability" in raw && "windows" in raw["availability"].fields {
      WindowsRoundTrip(raw["availability"].fields["windows"].items);
    }
    assert CleanWindows(WindowsJson(h.windows)) == Ok(h.windows);
    assert "always" != "scheduled";
  }

  lemma GroupFields(g: Group)
    ensures var fields := GroupJson(g).fields;
            && Get(fields, "id") == Str(g.id) && Get(fields, "name") == Str(g.name)
            && "enabled" in fields && fields["enabled"] == Bool(g.hours.enabled)
  {
  }

  lemma CleanGroupOf(fields: map<string, Json>, g: Group, others: seq<Group>, nodes: Option<set<string>>)
    requires Get(fields, "id") == Str(g.id) && Get(fields, "name") == Str(g.name)
    requires "enabled" in fields && fields["enabled"] == Bool(g.hours.enabled)
    requires IsId(g.id) && (forall o <- others :: o.id != g.id)
    requires Strip(g.name) == g.name && 1 <= |g.name| <= 80
    requires CleanMembers(fields, nodes) == Ok(g.members) && CleanHours(fields, g.hours.enabled) == Ok(g.hours)
    ensures CleanGroup(Obj(fields), others, nodes) == Ok(g)
  {
  }

  /** Stored fields that clean to a group's own fields make up that group. */
  lemma GroupFromFields(g: Group, others: seq<Group>, nodes: Option<set<string>>)
    requires IsId(g.id) && (forall o <- others :: o.id != g.id)
    requires Strip(g.name) == g.name && 1 <= |g.name| <= 80
    requires CleanMembers(GroupJson(g).fields, nodes) == Ok(g.members)
    requires CleanHours(GroupJson(g).fields, g.hours.enabled) == Ok(g.hours)
    ensures CleanGroup(GroupJson(g), others, nodes) == Ok(g)
  {
    GroupFields(g);
    CleanGroupOf(GroupJson(g).fields, g, others, nodes);
  }

  lemma GroupRoundTrip(raw: Json, others: seq<Group>, nodes: Option<set<string>>)
    requires CleanGroup(raw, others, nodes).Ok?
    ensures CleanGroup(GroupJson(CleanGroup(raw, others, nodes).value), others, nodes) == CleanGroup(raw, others, nodes)
  {
    var g := CleanGroup(raw, others, nodes).value;
    var enabled := if "enabled" in raw.fields then raw.fields["enabled"] else Bool(true);
    StripStrips(Get(raw.fields, "name").s);
    MembersRoundTrip(raw.fields, nodes, GroupJson(g).fields);
    HoursRoundTrip(raw.fields, enabled.b, GroupJson(g).fields);
    GroupFromFields(g, others, nodes);
  }

  lemma {:induction false} GroupsRoundTrip(raws: seq<Json>, nodes: Option<set<string>>)
    requires CleanGroups(raws, nodes).Ok?
    ensures var gs := CleanGroups(raws, nodes).value;
            |gs| == |raws| && CleanGroups(GroupsJson(gs).items, nodes) == Ok(gs)
  {
    if raws != [] {
      var init, raw := raws[..|raws| - 1], raws[|raws| - 1];
      assert raws == init + [raw];
      CleanGroupsSnoc(init, raw, nodes);
      GroupsRoundTrip(init, nodes);
      var others := CleanGroups(init, nodes).value;
      var last := CleanGroup(raw, others, nodes).value;
      GroupRoundTrip(raw, others, nodes);
      GroupsJsonSnoc(others, last);
      CleanGroupsSnoc(GroupsJson(others).items, GroupJson(last), nodes);
    }
  }

  lemma GroupsJsonSnoc(init: seq<Group>, last: Group)
    ensures GroupsJson(init + [last]).items == GroupsJson(init).items + [GroupJson(last)]
  {
  }

  /** Saving what validation returned and validating it again returns the same groups: the v22 no-op test is sound. */
  lemma ValidationIsIdempotent(value: Json, nodes: Option<set<string>>)
    requires Validated(value, nodes).Ok?
    ensures Validated(GroupsJson(Validated(value, nodes).value), nodes) == Validated(value, nodes)
  {
    GroupsRoundTrip(value.items, nodes);
  }
}
