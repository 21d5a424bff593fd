/** What validation returns for an accepted list, and what it counts, said of the stored JSON. worker_groups.py. */
module GroupMeaning {
  import opened Wrappers
  import opened Json
  import opened Clock
  import opened WeeklyMask
  import opened WorkerPolicy
  import opened WorkerGroups
  import opened GroupValidation
  import opened GroupAcceptance

  // Lists that are cleaned one element at a time --------------------------------------------------------------------

  /** The last element of a cleaned list is one of the last raw one, behind what the others were cleaned to. */
  ghost predicate LastAdded<T>(clean: seq<Json> -> Result<seq<T>>, isOf: (T, Json) -> bool, raws: seq<Json>)
    requires raws != [] && clean(raws).Ok?
  {
    var others, all := clean(raws[..|raws| - 1]), clean(raws).value;
    others.Ok? && all != [] && all[..|all| - 1] == others.value && isOf(all[|all| - 1], raws[|raws| - 1])
  }

  lemma {:induction false} EachCleaned<T>(clean: seq<Json> -> Result<seq<T>>, isOf: (T, Json) -> bool, raws: seq<Json>)
    requires clean([]) == Ok([]) && clean(raws).Ok?
    requires forall xs | xs != [] && clean(xs).Ok? :: LastAdded(clean, isOf, xs)
    ensures |clean(raws).value| == |raws| && forall i | 0 <= i < |raws| :: isOf(clean(raws).value[i], raws[i])
  {
    if raws != [] {
      assert LastAdded(clean, isOf, raws);
      EachCleaned(clean, isOf, raws[..|raws| - 1]);
    }
  }

  // Hours -----------------------------------------------------------------------------------------------------------

  /** A missing switch means on. */
  predicate SwitchedOn(raw: map<string, Json>) {
    "enabled" in raw ==> raw["enabled"] == Bool(true)
  }

  /** A missing availability means always. */
  predicate AlwaysOpen(raw: map<string, Json>) {
    "availability" in raw ==> raw["availability"].Obj? && Get(raw["availability"].fields, "mode") == Str("always")
  }

  function WindowsIn(raw: map<string, Json>): seq<Json> {
    if "availability" in raw && raw["availability"].Obj? && Get(raw["availability"].fields, "windows").List? then
      Get(raw["availability"].fields, "windows").items
    else []
  }

  predicate StartsOn(window: map<string, Json>, d: Day) {
    Get(window, "days").List? && Int(d) in Get(window, "days").items
  }

  function TimeIn(j: Json): int {
    if j.Str? && IsTime(j.s) then Minute(j.s) else 0
  }

  /** A stored window covers minute `t` of day `d`: within a chosen day, or from there into the next one. */
  predicate WindowOpen(raw: Json, d: Day, t: int) {
    && raw.Obj?
    && var start, end := TimeIn(Get(raw.fields, "start")), TimeIn(Get(raw.fields, "end"));
    if start <= end then StartsOn(raw.fields, d) && start <= t < end
    else (StartsOn(raw.fields, d) && start <= t) || (StartsOn(raw.fields, DayBefore(d)) && t < end)
  }

  predicate GroupOpen(raw: Json, d: Day, t: int) {
    && raw.Obj? && SwitchedOn(raw.fields)
    && (AlwaysOpen(raw.fields) || exists w <- WindowsIn(raw.fields) :: WindowOpen(w, d, t))
  }

  predicate Ascending(days: seq<Day>) {
    forall i, j | 0 <= i < j < |days| :: days[i] < days[j]
  }

  /** The returned window: the same times, and the chosen days in order, once each. */
  predicate IsWindowOf(w: Window, raw: Json) {
    && raw.Obj?
    && Get(raw.fields, "start") == Str(w.start) && Get(raw.fields, "end") == Str(w.end)
    && Ascending(w.days) && forall d: Day :: d in w.days <==> StartsOn(raw.fields, d)
  }

  predicate AreHoursOf(h: Hours, raw: map<string, Json>) {
    && (h.enabled <==> SwitchedOn(raw)) && (h.always <==> AlwaysOpen(raw))
    && AreWindowsOf(h.windows, WindowsIn(raw))
  }

  lemma {:induction false} SortedDaysAscend(from: int, days: seq<Json>)
    requires 0 <= from <= 7
    ensures Ascending(SortedDays(from, days))
    decreases 7 - from
  {
    if from < 7 {
      SortedDaysAscend(from + 1, days);
      SortedDaysPicked(from + 1, days);
      var rest := SortedDays(from + 1, days);
      assert forall i | 0 <= i < |rest| :: rest[i] in rest;
    }
  }

  lemma WindowCleaned(raw: Json)
    requires CleanWindow(raw).Ok?
    ensures IsWindowOf(CleanWindow(raw).value, raw)
  {
    SortedDaysPicked(0, Get(raw.fields, "days").items);
    SortedDaysAscend(0, Get(raw.fields, "days").items);
  }

  predicate AreWindowsOf(ws: seq<Window>, raws: seq<Json>) {
    |ws| == |raws| && forall i | 0 <= i < |ws| :: IsWindowOf(ws[i], raws[i])
  }

  lemma LastWindowCleaned(raws: seq<Json>) returns (others: seq<Window>, w: Window)
    requires raws != [] && CleanWindows(raws).Ok?
    ensures CleanWindows(raws[..|raws| - 1]) == Ok(others) && IsWindowOf(w, raws[|raws| - 1])
    ensures CleanWindows(raws).value == others + [w]
  {
    WindowCleaned(raws[|raws| - 1]);
    others, w := CleanWindows(raws[..|raws| - 1]).value, CleanWindow(raws[|raws| - 1]).value;
  }

  lemma WindowsCleaned(raws: seq<Json>)
    requires CleanWindows(raws).Ok?
    ensures AreWindowsOf(CleanWindows(raws).value, raws)
  {
    var clean := (xs: seq<Json>) => CleanWindows(xs);
    forall xs | xs != [] && clean(xs).Ok? ensures LastAdded(clean, IsWindowOf, xs) {
      var others, w := LastWindowCleaned(xs);
    }
    EachCleaned(clean, IsWindowOf, raws);
  }

  lemma HoursCleaned(raw: map<string, Json>, enabled: bool)
    requires CleanHours(raw, enabled).Ok? && (enabled <==> SwitchedOn(raw))
    ensures AreHoursOf(CleanHours(raw, enabled).value, raw)
  {
    if "availability" in raw {
      var windows := WindowsIn(raw);
      assert CleanHours(raw, enabled).value.windows == CleanWindows(windows).value;
      WindowsCleaned(windows);
    }
  }

  lemma WindowMeans(w: Window, raw: Json, d: Day, t: int)
    requires IsWindowOf(w, raw) && 0 <= t < DAY_MINUTES
    ensures OnSomeDay(w, w.days, d * DAY_MINUTES + t) <==> WindowOpen(raw, d, t)
  {
    forall from <- w.days
      ensures Covers(w, from, d * DAY_MINUTES + t) <==>
              var start, end := Minute(w.start), Minute(w.end);
              if start <= end then from == d && start <= t < end
              else (from == d && start <= t) || (from == DayBefore(d) && t < end)
    {
      CoversOnDays(w, from, d, t);
    }
  }

  lemma WindowsMean(ws: seq<Window>, windows: seq<Json>, d: Day, t: int)
    requires AreWindowsOf(ws, windows)
    requires 0 <= t < DAY_MINUTES
    ensures InSomeWindow(ws, d * DAY_MINUTES + t) <==> exists w <- windows :: WindowOpen(w, d, t)
  {
    forall i | 0 <= i < |ws|
      ensures OnSomeDay(ws[i], ws[i].days, d * DAY_MINUTES + t) <==> WindowOpen(windows[i], d, t)
    {
      WindowMeans(ws[i], windows[i], d, t);
    }
    SomeOfBoth(ws, windows, (w: Window) => OnSomeDay(w, w.days, d * DAY_MINUTES + t), w => WindowOpen(w, d, t));
  }

  lemma SomeOfBoth<A, B>(xs: seq<A>, ys: seq<B>, p: A -> bool, q: B -> bool)
    requires |xs| == |ys| && forall i | 0 <= i < |xs| :: p(xs[i]) <==> q(ys[i])
    ensures (exists x <- xs :: p(x)) <==> exists y <- ys :: q(y)
  {
    if exists x <- xs :: p(x) {
      var x :| x in xs && p(x);
      var i :| 0 <= i < |xs| && xs[i] == x;
      assert ys[i] in ys;
    }
    if exists y <- ys :: q(y) {
      var y :| y in ys && q(y);
      var i :| 0 <= i < |ys| && ys[i] == y;
      assert xs[i] in xs;
    }
  }

  /** The returned hours are open at a minute of a day exactly when the stored group says so. */
  lemma HoursMean(h: Hours, raw: map<string, Json>, d: Day, t: int)
    requires AreHoursOf(h, raw) && 0 <= t < DAY_MINUTES
    ensures OpenAt(h, d * DAY_MINUTES + t) <==> GroupOpen(Obj(raw), d, t)
  {
    WindowsMean(h.windows, WindowsIn(raw), d, t);
  }

  // Members ---------------------------------------------------------------------------------------------------------

  /** Kinds in their fixed order, none twice. */
  predicate KindsInOrder(kinds: seq<string>) {
    forall i, j, a, b | 0 <= i < j < |kinds| && 0 <= a <= b < |JOB_KINDS| ::
      !(kinds[i] == JOB_KINDS[b] && kinds[j] == JOB_KINDS[a])
  }

  function MachineOf(raw: map<string, Json>): Option<string> {
    var node := TextOf(Get(raw, "node"));
    if node == "" then None else Some(node)
  }

  /** The returned member, field by field; a device is kept for a GPU only. */
  ghost predicate IsMemberOf(m: Member, raw: Json, id: string) {
    && raw.Obj? && m.id == id
    && Get(raw.fields, "resource") == Str(if m.resource == Cpu then "cpu" else "gpu")
    && (if m.resource == Cpu then m.device.None? else m.device.Some? && Get(raw.fields, "device") == Str(m.device.value))
    && Get(raw.fields, "count") == Int(m.count)
    && m.node == MachineOf(raw.fields)
    && Get(raw.fields, "job_types").List?
    && (forall k :: k in m.jobTypes <==> Str(k) in Get(raw.fields, "job_types").items) && KindsInOrder(m.jobTypes)
  }

  /** The members of a stored group; a legacy flat group is its own. */
  function MembersIn(raw: map<string, Json>): seq<Json> {
    if "members" !in raw then [Obj(raw)] else if raw["members"].List? then raw["members"].items else []
  }

  ghost predicate AreMembersOf(ms: seq<Member>, raw: map<string, Json>) {
    && |ms| == |MembersIn(raw)|
    && forall i | 0 <= i < |ms| ::
      IsMemberOf(ms[i], MembersIn(raw)[i], if "members" in raw then IdOf(MembersIn(raw)[i]) else LEGACY_MEMBER_ID)
  }

  lemma KindsPickedInOrder(picked: seq<Json>)
    ensures KindsInOrder(KindsOf(JOB_KINDS, picked))
  {
    ThreeKinds(picked);
    assert JOB_KINDS[0][0] == 'p' && JOB_KINDS[1][0] == 'i' && JOB_KINDS[2][0] == 'l';
  }

  lemma MemberCleaned(raw: Json, others: seq<Member>, legacy: bool, nodes: Option<set<string>>)
    requires CleanMember(raw, others, legacy, nodes).Ok?
    ensures IsMemberOf(CleanMember(raw, others, legacy, nodes).value, raw, if legacy then LEGACY_MEMBER_ID else IdOf(raw))
  {
    var kinds := Get(raw.fields, "job_types").items;
    KindsPicked(kinds);
    KindsPickedInOrder(kinds);
    NodeAcceptedIff(raw.fields, nodes);
  }

  lemma LastMemberCleaned(raws: seq<Json>, nodes: Option<set<string>>) returns (others: seq<Member>, m: Member)
    requires raws != [] && CleanMemberList(raws, nodes).Ok?
    ensures CleanMemberList(raws[..|raws| - 1], nodes) == Ok(others)
    ensures CleanMemberList(raws, nodes).value == others + [m] && IsMemberOf(m, raws[|raws| - 1], IdOf(raws[|raws| - 1]))
  {
    others := CleanMemberList(raws[..|raws| - 1], nodes).value;
    m := CleanMember(raws[|raws| - 1], others, false, nodes).value;
    MemberCleaned(raws[|raws| - 1], others, false, nodes);
  }

  lemma MemberListCleaned(raws: seq<Json>, nodes: Option<set<string>>)
    requires CleanMemberList(raws, nodes).Ok?
    ensures var ms := CleanMemberList(raws, nodes).value;
            |ms| == |raws| && forall i | 0 <= i < |ms| :: IsMemberOf(ms[i], raws[i], IdOf(raws[i]))
  {
    var clean := (xs: seq<Json>) => CleanMemberList(xs, nodes);
    forall xs | xs != [] && clean(xs).Ok? ensures LastAdded(clean, (m, raw) => IsMemberOf(m, raw, IdOf(raw)), xs) {
      var others, m := LastMemberCleaned(xs, nodes);
    }
    EachCleaned(clean, (m, raw) => IsMemberOf(m, raw, IdOf(raw)), raws);
  }

  lemma MembersCleaned(raw: map<string, Json>, nodes: Option<set<string>>)
    requires CleanMembers(raw, nodes).Ok?
    ensures AreMembersOf(CleanMembers(raw, nodes).value, raw)
  {
    if "members" in raw {
      MemberListCleaned(raw["members"].items, nodes);
    } else {
      MemberCleaned(Obj(raw), [], true, nodes);
    }
  }

  // Groups ----------------------------------------------------------------------------------------------------------

  /** The returned group, field by field. */
  ghost predicate IsGroupOf(g: Group, raw: Json) {
    && raw.Obj? && Get(raw.fields, "id") == Str(g.id)
    && Get(raw.fields, "name").Str? && g.name == Strip(Get(raw.fields, "name").s)
    && AreHoursOf(g.hours, raw.fields) && AreMembersOf(g.members, raw.fields)
  }

  ghost predicate AreGroupsOf(gs: seq<Group>, raws: seq<Json>) {
    |gs| == |raws| && forall i | 0 <= i < |gs| :: IsGroupOf(gs[i], raws[i])
  }

  lemma GroupCleaned(raw: Json, others: seq<Group>, nodes: Option<set<string>>)
    requires CleanGroup(raw, others, nodes).Ok?
    ensures IsGroupOf(CleanGroup(raw, others, nodes).value, raw)
  {
    var enabled := if "enabled" in raw.fields then raw.fields["enabled"] else Bool(true);
    HoursCleaned(raw.fields, enabled.b);
    MembersCleaned(raw.fields, nodes);
  }

  lemma LastGroupCleaned(raws: seq<Json>, nodes: Option<set<string>>) returns (others: seq<Group>, g: Group)
    requires raws != [] && CleanGroups(raws, nodes).Ok?
    ensures CleanGroups(raws[..|raws| - 1], nodes) == Ok(others) && IsGroupOf(g, raws[|raws| - 1])
    ensures CleanGroups(raws, nodes).value == others + [g]
  {
    others := CleanGroups(raws[..|raws| - 1], nodes).value;
    g := CleanGroup(raws[|raws| - 1], others, nodes).value;
    GroupCleaned(raws[|raws| - 1], others, nodes);
  }

  lemma GroupsCleaned(raws: seq<Json>, nodes: Option<set<string>>)
    requires CleanGroups(raws, nodes).Ok?
    ensures AreGroupsOf(CleanGroups(raws, nodes).value, raws)
  {
    var clean := (xs: seq<Json>) => CleanGroups(xs, nodes);
    forall xs | xs != [] && clean(xs).Ok? ensures LastAdded(clean, (g, raw) => IsGroupOf(g, raw), xs) {
      var others, g := LastGroupCleaned(xs, nodes);
    }
    EachCleaned(clean, (g, raw) => IsGroupOf(g, raw), raws);
  }

  /**
   * What comes out of validation: every stored group in its place, with its id, its name without the spaces round it,
   * its hours open exactly when the stored ones are, and its members field by field.
   */
  lemma ReturnedGroups(value: Json, nodes: Option<set<string>>)
    requires Validated(value, nodes).Ok?
    ensures var gs := Validated(value, nodes).value;
            && value.List? && AreGroupsOf(gs, value.items)
            && forall i, d: Day, t | 0 <= i < |gs| && 0 <= t < DAY_MINUTES ::
              OpenAt(gs[i].hours, d * DAY_MINUTES + t) <==> GroupOpen(value.items[i], d, t)
  {
    var gs := Validated(value, nodes).value;
    GroupsCleaned(value.items, nodes);
    forall i, d: Day, t | 0 <= i < |gs| && 0 <= t < DAY_MINUTES
      ensures OpenAt(gs[i].hours, d * DAY_MINUTES + t) <==> GroupOpen(value.items[i], d, t)
    {
      assert IsGroupOf(gs[i], value.items[i]);
      HoursMean(gs[i].hours, value.items[i].fields, d, t);
    }
  }

  // Capacity --------------------------------------------------------------------------------------------------------

  /** The workers these stored members give one machine. */
  function WorkersIn(members: seq<Json>, machine: Option<string>, kind: string): int {
    if members == [] then 0
    else
      var last := members[|members| - 1];
      WorkersIn(members[..|members| - 1], machine, kind)
      + if last.Obj? && MachineOf(last.fields) == machine && Get(last.fields, "resource") == Str(kind) && Get(last.fields, "count").Int?
        then Get(last.fields, "count").n else 0
  }

  /** The workers of one kind a stored group opens on one machine at minute `t` of day `d`. */
  function GroupWorkers(raw: Json, machine: Option<string>, kind: string, d: Day, t: int): int {
    if GroupOpen(raw, d, t) then WorkersIn(MembersIn(raw.fields), machine, kind) else 0
  }

  /** The workers of one kind the stored groups open on one machine at minute `t` of day `d`. */
  function StoredWorkers(raws: seq<Json>, machine: Option<string>, kind: string, d: Day, t: int): int {
    if raws == [] then 0
    else
      var last := raws[|raws| - 1];
      StoredWorkers(raws[..|raws| - 1], machine, kind, d, t)
      + GroupWorkers(last, machine, kind, d, t)
  }

  /** At no minute of the week do the stored groups open more than 64 CPU or 64 GPU workers on one machine. */
  ghost predicate Fits(raws: seq<Json>) {
    forall machine: Option<string> :: FitsOn(raws, machine)
  }

  ghost predicate FitsOn(raws: seq<Json>, machine: Option<string>) {
    forall d: Day, t | 0 <= t < DAY_MINUTES :: FitsAt(raws, machine, d, t)
  }

  predicate FitsAt(raws: seq<Json>, machine: Option<string>, d: Day, t: int) {
    StoredWorkers(raws, machine, "cpu", d, t) <= 64 && StoredWorkers(raws, machine, "gpu", d, t) <= 64
  }

  function KindName(resource: Resource): string {
    if resource == Cpu then "cpu" else "gpu"
  }

  /** Members of these stored forms, whatever their ids. */
  ghost predicate ReadFrom(ms: seq<Member>, raws: seq<Json>) {
    |ms| == |raws| && forall i | 0 <= i < |ms| :: IsMemberOf(ms[i], raws[i], ms[i].id)
  }

  lemma ReadFromMembers(ms: seq<Member>, raw: map<string, Json>)
    requires AreMembersOf(ms, raw)
    ensures ReadFrom(ms, MembersIn(raw))
  {
  }

  lemma {:induction false} MembersCounted(g: Group, ms: seq<Member>, raws: seq<Json>, machine: Option<string>, resource: Resource, m: int)
    requires ReadFrom(ms, raws)
    ensures MembersOpen(g, ms, machine, resource, m) == if OpenAt(g.hours, m) then WorkersIn(raws, machine, KindName(resource)) else 0
  {
    if ms != [] {
      MembersCounted(g, ms[..|ms| - 1], raws[..|raws| - 1], machine, resource, m);
      assert IsMemberOf(ms[|ms| - 1], raws[|raws| - 1], ms[|ms| - 1].id);
      assert "cpu" != "gpu";
    }
  }

  lemma StoredMembersCounted(g: Group, raw: map<string, Json>, machine: Option<string>, resource: Resource, m: int)
    requires AreMembersOf(g.members, raw)
    ensures MembersOpen(g, g.members, machine, resource, m)
         == if OpenAt(g.hours, m) then WorkersIn(MembersIn(raw), machine, KindName(resource)) else 0
  {
    ReadFromMembers(g.members, raw);
    MembersCounted(g, g.members, MembersIn(raw), machine, resource, m);
  }

  lemma GroupCounted(g: Group, raw: Json, machine: Option<string>, resource: Resource, d: Day, t: int)
    requires raw.Obj? && AreHoursOf(g.hours, raw.fields) && AreMembersOf(g.members, raw.fields) && 0 <= t < DAY_MINUTES
    ensures MembersOpen(g, g.members, machine, resource, d * DAY_MINUTES + t) == GroupWorkers(raw, machine, KindName(resource), d, t)
  {
    StoredMembersCounted(g, raw.fields, machine, resource, d * DAY_MINUTES + t);
    OpenOrNot(g, raw, machine, resource, d, t);
  }

  lemma OpenOrNot(g: Group, raw: Json, machine: Option<string>, resource: Resource, d: Day, t: int)
    requires raw.Obj? && AreHoursOf(g.hours, raw.fields) && 0 <= t < DAY_MINUTES
    ensures GroupWorkers(raw, machine, KindName(resource), d, t)
         == if OpenAt(g.hours, d * DAY_MINUTES + t) then WorkersIn(MembersIn(raw.fields), machine, KindName(resource)) else 0
  {
    HoursMean(g.hours, raw.fields, d, t);
    assert raw == Obj(raw.fields);
  }

  lemma {:induction false} GroupsCounted(gs: seq<Group>, raws: seq<Json>, machine: Option<string>, resource: Resource, d: Day, t: int)
    requires AreGroupsOf(gs, raws) && 0 <= t < DAY_MINUTES
    ensures WorkersOpen(gs, machine, resource, d * DAY_MINUTES + t) == StoredWorkers(raws, machine, KindName(resource), d, t)
  {
    if gs != [] {
      var g, raw := gs[|gs| - 1], raws[|raws| - 1];
      GroupsOfInit(gs, raws);
      GroupsCounted(gs[..|gs| - 1], raws[..|raws| - 1], machine, resource, d, t);
      GroupCounted(g, raw, machine, resource, d, t);
    }
  }

  lemma GroupsOfInit(gs: seq<Group>, raws: seq<Json>)
    requires AreGroupsOf(gs, raws) && gs != []
    ensures AreGroupsOf(gs[..|gs| - 1], raws[..|raws| - 1]) && IsGroupOf(gs[|gs| - 1], raws[|raws| - 1])
  {
  }

  /** The week as days and minutes. */
  lemma DayAndMinute(m: int) returns (d: Day, t: int)
    requires 0 <= m < WEEK_MINUTES
    ensures m == d * DAY_MINUTES + t && 0 <= t < DAY_MINUTES
  {
    d, t := m / DAY_MINUTES, m % DAY_MINUTES;
  }

  lemma FitsThen(gs: seq<Group>, raws: seq<Json>, machine: Option<string>, d: Day, t: int)
    requires AreGroupsOf(gs, raws) && 0 <= t < DAY_MINUTES
    ensures FitsAt(raws, machine, d, t) <==> OpenFits(gs, machine, d * DAY_MINUTES + t)
  {
    GroupsCounted(gs, raws, machine, Cpu, d, t);
    GroupsCounted(gs, raws, machine, Gpu, d, t);
  }

  predicate OpenFits(gs: seq<Group>, machine: Option<string>, m: int) {
    WorkersOpen(gs, machine, Cpu, m) <= MAX_WORKERS && WorkersOpen(gs, machine, Gpu, m) <= MAX_WORKERS
  }

  /** What holds at the minutes of every day holds all week. */
  lemma MachineFitsIff(gs: seq<Group>, raws: seq<Json>, machine: Option<string>)
    requires forall d: Day, t | 0 <= t < DAY_MINUTES :: FitsAt(raws, machine, d, t) <==> OpenFits(gs, machine, d * DAY_MINUTES + t)
    ensures MachineFits(gs, machine) <==> FitsOn(raws, machine)
  {
    OpenFitsAllWeek(gs, machine);
    if FitsOn(raws, machine) {
      forall m: int | 0 <= m < WEEK_MINUTES ensures OpenFits(gs, machine, m) {
        var d, t := DayAndMinute(m);
        assert FitsAt(raws, machine, d, t);
      }
    }
  }

  lemma OpenFitsAllWeek(gs: seq<Group>, machine: Option<string>)
    ensures MachineFits(gs, machine) <==> forall m: int | 0 <= m < WEEK_MINUTES :: OpenFits(gs, machine, m)
  {
    if forall m: int | 0 <= m < WEEK_MINUTES :: OpenFits(gs, machine, m) {
      forall resource: Resource, m: int | 0 <= m < WEEK_MINUTES ensures WorkersOpen(gs, machine, resource, m) <= MAX_WORKERS {
        assert OpenFits(gs, machine, m);
        assert resource == Cpu || resource == Gpu;
      }
    }
  }

  lemma FitsIff(gs: seq<Group>, raws: seq<Json>)
    requires AreGroupsOf(gs, raws)
    ensures WithinCapacity(gs) <==> Fits(raws)
  {
    forall machine: Option<string> ensures MachineFits(gs, machine) <==> FitsOn(raws, machine) {
      forall d: Day, t | 0 <= t < DAY_MINUTES
        ensures FitsAt(raws, machine, d, t) <==> OpenFits(gs, machine, d * DAY_MINUTES + t)
      {
        FitsThen(gs, raws, machine, d, t);
      }
      MachineFitsIff(gs, raws, machine);
    }
  }

  /**
   * A list is accepted if and only if it holds at most 64 groups, each good on its own, no two with one id, and the
   * stored groups never open more than 64 workers of a kind on one machine.
   */
  lemma AcceptedIff(value: Json, nodes: Option<set<string>>)
    ensures Validated(value, nodes).Ok? <==>
            && value.List? && |value.items| <= 64
            && (forall g <- value.items :: GoodGroup(g, nodes)) && DistinctRawIds(value.items)
            && Fits(value.items)
  {
    if value.List? {
      GroupsAcceptedIff(value.items, nodes);
      if CleanGroups(value.items, nodes).Ok? {
        GroupsCleaned(value.items, nodes);
        FitsIff(CleanGroups(value.items, nodes).value, value.items);
      }
    }
  }
}
