/** Which group lists validation accepts, said of the stored JSON instead of the cleaning that checks it. */
module GroupAcceptance {
  import opened Wrappers
  import opened Json
  import opened Clock
  import opened WorkerPolicy
  import opened WorkerGroups
  import opened GroupValidation

  // Members ---------------------------------------------------------------------------------------------------------

  predicate GoodDevice(raw: map<string, Json>) {
    var device := Get(raw, "device");
    if Get(raw, "resource") == Str("gpu") then device.Str? && DeviceName(device.s) else device == Null || device == Str("")
  }

  predicate GoodNode(raw: map<string, Json>, nodes: Option<set<string>>) {
    var node := Get(raw, "node");
    || node == Null
    || (node.Str? && |node.s| <= 128 && Strip(node.s) == node.s && (node.s == "" || nodes.None? || node.s in nodes.value))
  }

  predicate GoodKinds(raw: map<string, Json>) {
    var kinds := Get(raw, "job_types");
    && kinds.List? && kinds.items != []
    && (forall k <- kinds.items :: k.Str? && k.s in JOB_KINDS)
    && (Get(raw, "resource") == Str("gpu") ==> Str(LOUDNESS) !in kinds.items)
  }

  /** A member's fields on their own; a legacy flat group needs no id for its member. */
  predicate GoodMember(raw: Json, legacy: bool, nodes: Option<set<string>>) {
    && raw.Obj?
    && (legacy || (Get(raw.fields, "id").Str? && IsId(Get(raw.fields, "id").s)))
    && (Get(raw.fields, "resource") == Str("cpu") || Get(raw.fields, "resource") == Str("gpu"))
    && GoodDevice(raw.fields) && GoodNode(raw.fields, nodes) && GoodKinds(raw.fields)
    && Get(raw.fields, "count").Int? && 1 <= Get(raw.fields, "count").n <= MAX_WORKERS
  }

  /** What a stored text field says, "" when it is null. */
  function TextOf(j: Json): string {
    if j.Str? then j.s else ""
  }

  /** The budget a member draws on, as the program writes it. */
  function BudgetOf(raw: Json): string {
    if !raw.Obj? then ""
    else
      var local := if Get(raw.fields, "resource") == Str("cpu") then "cpu" else "gpu:" + TextOf(Get(raw.fields, "device"));
      var node := TextOf(Get(raw.fields, "node"));
      if node != "" then "node:" + node + ":" + local else local
  }

  function IdOf(raw: Json): string {
    if raw.Obj? then TextOf(Get(raw.fields, "id")) else ""
  }

  // Hours -----------------------------------------------------------------------------------------------------------

  predicate GoodWindow(raw: Json) {
    && raw.Obj?
    && var days, start, end := Get(raw.fields, "days"), Get(raw.fields, "start"), Get(raw.fields, "end");
    && days.List? && days.items != [] && (forall d <- days.items :: d.Int? && 0 <= d.n <= 6)
    && start.Str? && IsTime(start.s) && end.Str? && IsTime(end.s) && start != end
  }

  predicate GoodHours(raw: map<string, Json>) {
    "availability" in raw ==>
      && raw["availability"].Obj?
      && var hours := raw["availability"].fields;
      && var windows := if "windows" in hours then hours["windows"] else List([]);
      && windows.List? && |windows.items| <= MAX_WINDOWS && (forall w <- windows.items :: GoodWindow(w))
      && (Get(hours, "mode") == Str("always") || (Get(hours, "mode") == Str("scheduled") && windows.items != []))
  }

  lemma {:induction false} WindowsAcceptedIff(raws: seq<Json>)
    ensures CleanWindows(raws).Ok? <==> forall w <- raws :: GoodWindow(w)
  {
    if raws != [] {
      var init, last := raws[..|raws| - 1], raws[|raws| - 1];
      assert raws == init + [last];
      WindowsAcceptedIff(init);
      WindowAcceptedIff(last);
      assert forall w :: w in raws <==> w in init || w == last;
    }
  }

  lemma WindowAcceptedIff(raw: Json)
    ensures CleanWindow(raw).Ok? <==> GoodWindow(raw)
  {
  }

  lemma HoursAcceptedIff(raw: map<string, Json>, enabled: bool)
    ensures CleanHours(raw, enabled).Ok? <==> GoodHours(raw)
  {
    if "availability" in raw && raw["availability"].Obj? {
      var hours := raw["availability"].fields;
      var windows := if "windows" in hours then hours["windows"] else List([]);
      if windows.List? {
        WindowsAcceptedIff(windows.items);
      }
    }
  }

  // Member lists ----------------------------------------------------------------------------------------------------

  lemma MemberAcceptedIff(raw: Json, others: seq<Member>, legacy: bool, nodes: Option<set<string>>)
    ensures CleanMember(raw, others, legacy, nodes).Ok? <==>
            && GoodMember(raw, legacy, nodes)
            && (forall o <- others :: o.id != (if legacy then LEGACY_MEMBER_ID else IdOf(raw)) && KeyOf(o) != BudgetOf(raw))
    ensures CleanMember(raw, others, legacy, nodes).Ok? ==>
            && CleanMember(raw, others, legacy, nodes).value.id == (if legacy then LEGACY_MEMBER_ID else IdOf(raw))
            && KeyOf(CleanMember(raw, others, legacy, nodes).value) == BudgetOf(raw)
  {
    assert IsId(LEGACY_MEMBER_ID);
    if raw.Obj? {
      NodeAcceptedIff(raw.fields, nodes);
      var resource := CleanResource(raw.fields);
      if resource.Ok? {
        DeviceAcceptedIff(raw.fields, resource.value);
        KindsAcceptedIff(raw.fields, resource.value);
        var device, node := CleanDevice(raw.fields, resource.value), CleanNode(raw.fields, nodes);
        if device.Ok? && node.Ok? {
          assert ResourceKey(resource.value, device.value, node.value) == BudgetOf(raw);
        }
      }
    }
  }

  lemma NodeAcceptedIff(raw: map<string, Json>, nodes: Option<set<string>>)
    ensures CleanNode(raw, nodes).Ok? <==> GoodNode(raw, nodes)
    ensures CleanNode(raw, nodes).Ok? ==>
              CleanNode(raw, nodes).value == if TextOf(Get(raw, "node")) == "" then None else Some(TextOf(Get(raw, "node")))
  {
    assert Strip("") == "";
  }

  lemma DeviceAcceptedIff(raw: map<string, Json>, resource: Resource)
    requires CleanResource(raw) == Ok(resource)
    ensures CleanDevice(raw, resource).Ok? <==> GoodDevice(raw)
    ensures CleanDevice(raw, resource).Ok? ==>
              CleanDevice(raw, resource).value == if resource == Cpu then None else Some(TextOf(Get(raw, "device")))
  {
  }

  lemma KindsAcceptedIff(raw: map<string, Json>, resource: Resource)
    requires CleanResource(raw) == Ok(resource)
    ensures CleanKinds(raw, resource).Ok? <==> GoodKinds(raw)
  {
  }

  predicate Apart(raws: seq<Json>) {
    forall i, j | 0 <= i < j < |raws| :: IdOf(raws[i]) != IdOf(raws[j]) && BudgetOf(raws[i]) != BudgetOf(raws[j])
  }

  predicate MadeFrom(ms: seq<Member>, raws: seq<Json>) {
    && |ms| == |raws|
    && forall i | 0 <= i < |raws| :: ms[i].id == IdOf(raws[i]) && KeyOf(ms[i]) == BudgetOf(raws[i])
  }

  lemma ApartSnoc(init: seq<Json>, last: Json, others: seq<Member>)
    requires MadeFrom(others, init)
    ensures Apart(init + [last])
       <==> Apart(init) && forall o <- others :: o.id != IdOf(last) && KeyOf(o) != BudgetOf(last)
  {
    var raws := init + [last];
    forall i | 0 <= i < |init| ensures raws[i] == init[i] && others[i] in others {
    }
    assert raws[|init|] == last;
    if Apart(raws) {
      forall i, j | 0 <= i < j < |init| ensures IdOf(init[i]) != IdOf(init[j]) && BudgetOf(init[i]) != BudgetOf(init[j]) {
        assert raws[i] == init[i] && raws[j] == init[j];
      }
      forall o <- others ensures o.id != IdOf(last) && KeyOf(o) != BudgetOf(last) {
        var i :| 0 <= i < |others| && others[i] == o;
        assert raws[i] == init[i];
      }
    }
  }

  lemma {:induction false} MemberListAcceptedIff(raws: seq<Json>, nodes: Option<set<string>>)
    ensures CleanMemberList(raws, nodes).Ok? <==> (forall m <- raws :: GoodMember(m, false, nodes)) && Apart(raws)
    ensures CleanMemberList(raws, nodes).Ok? ==> MadeFrom(CleanMemberList(raws, nodes).value, raws)
  {
    if raws != [] {
      var init, last := raws[..|raws| - 1], raws[|raws| - 1];
      assert raws == init + [last];
      MemberListAcceptedIff(init, nodes);
      assert forall m :: m in raws <==> m in init || m == last;
      if CleanMemberList(init, nodes).Ok? {
        MemberAcceptedIff(last, CleanMemberList(init, nodes).value, false, nodes);
        ApartSnoc(init, last, CleanMemberList(init, nodes).value);
      } else if Apart(raws) {
        ApartInit(init, last);
      }
    }
  }

  lemma ApartInit(init: seq<Json>, last: Json)
    requires Apart(init + [last])
    ensures Apart(init)
  {
    forall i, j | 0 <= i < j < |init| ensures IdOf(init[i]) != IdOf(init[j]) && BudgetOf(init[i]) != BudgetOf(init[j]) {
      assert (init + [last])[i] == init[i] && (init + [last])[j] == init[j];
    }
  }

  // Groups ----------------------------------------------------------------------------------------------------------

  /** The members of a group: a list of one to eight that agree with the flat fields, or the flat group itself. */
  predicate GoodMembers(raw: map<string, Json>, nodes: Option<set<string>>) {
    if "members" !in raw then GoodMember(Obj(raw), true, nodes)
    else
      && raw["members"].List?
      && var members := raw["members"].items;
      && 1 <= |members| <= MAX_MEMBERS && !FlatConflict(raw, members)
      && (forall m <- members :: GoodMember(m, false, nodes)) && Apart(members)
  }

  /** A group's fields on their own. */
  predicate GoodGroup(raw: Json, nodes: Option<set<string>>) {
    && raw.Obj?
    && Get(raw.fields, "id").Str? && IsId(Get(raw.fields, "id").s)
    && Get(raw.fields, "name").Str? && 1 <= |Strip(Get(raw.fields, "name").s)| <= 80
    && ("enabled" in raw.fields ==> raw.fields["enabled"].Bool?)
    && GoodHours(raw.fields) && GoodMembers(raw.fields, nodes)
  }

  lemma MembersAcceptedIff(raw: map<string, Json>, nodes: Option<set<string>>)
    ensures CleanMembers(raw, nodes).Ok? <==> GoodMembers(raw, nodes)
  {
    if "members" !in raw {
      MemberAcceptedIff(Obj(raw), [], true, nodes);
    } else if raw["members"].List? {
      MemberListAcceptedIff(raw["members"].items, nodes);
    }
  }

  lemma GroupAcceptedIff(raw: Json, others: seq<Group>, nodes: Option<set<string>>)
    ensures CleanGroup(raw, others, nodes).Ok? <==> GoodGroup(raw, nodes) && forall o <- others :: o.id != IdOf(raw)
    ensures CleanGroup(raw, others, nodes).Ok? ==> CleanGroup(raw, others, nodes).value.id == IdOf(raw)
  {
    if raw.Obj? {
      MembersAcceptedIff(raw.fields, nodes);
      var enabled := if "enabled" in raw.fields then raw.fields["enabled"] else Bool(true);
      if enabled.Bool? {
        HoursAcceptedIff(raw.fields, enabled.b);
      }
    }
  }

  predicate DistinctRawIds(raws: seq<Json>) {
    forall i, j | 0 <= i < j < |raws| :: IdOf(raws[i]) != IdOf(raws[j])
  }

  predicate IdsOf(gs: seq<Group>, raws: seq<Json>) {
    |gs| == |raws| && forall i | 0 <= i < |raws| :: gs[i].id == IdOf(raws[i])
  }

  lemma DistinctSnoc(init: seq<Json>, last: Json, others: seq<Group>)
    requires IdsOf(others, init)
    ensures DistinctRawIds(init + [last]) <==> DistinctRawIds(init) && forall o <- others :: o.id != IdOf(last)
  {
    var raws := init + [last];
    forall i | 0 <= i < |init| ensures raws[i] == init[i] && others[i] in others {
    }
    assert raws[|init|] == last;
    if DistinctRawIds(raws) {
      DistinctInit(init, last);
      forall o <- others ensures o.id != IdOf(last) {
        var i :| 0 <= i < |others| && others[i] == o;
        assert raws[i] == init[i];
      }
    }
  }

  lemma DistinctInit(init: seq<Json>, last: Json)
    requires DistinctRawIds(init + [last])
    ensures DistinctRawIds(init)
  {
    forall i, j | 0 <= i < j < |init| ensures IdOf(init[i]) != IdOf(init[j]) {
      assert (init + [last])[i] == init[i] && (init + [last])[j] == init[j];
    }
  }

  lemma {:induction false} GroupsAcceptedIff(raws: seq<Json>, nodes: Option<set<string>>)
    ensures CleanGroups(raws, nodes).Ok? <==> (forall g <- raws :: GoodGroup(g, nodes)) && DistinctRawIds(raws)
    ensures CleanGroups(raws, nodes).Ok? ==> IdsOf(CleanGroups(raws, nodes).value, raws)
  {
    if raws != [] {
      var init, last := raws[..|raws| - 1], raws[|raws| - 1];
      assert raws == init + [last];
      GroupsAcceptedIff(init, nodes);
      CleanGroupsSnoc(init, last, nodes);
      assert forall g :: g in raws <==> g in init || g == last;
      if CleanGroups(init, nodes).Ok? {
        GroupAcceptedIff(last, CleanGroups(init, nodes).value, nodes);
        DistinctSnoc(init, last, CleanGroups(init, nodes).value);
      } else if DistinctRawIds(raws) {
        DistinctInit(init, last);
      }
    }
  }
}
