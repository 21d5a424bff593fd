/** How groups_from_legacy reads settings from before groups existed, and which of them it accepts. worker_groups.py. */
module LegacySettings {
  import opened Wrappers
  import opened Json
  import opened WorkerPolicy
  import opened WorkerGroups
  import opened GroupValidation
  import opened GroupMeaning
  import opened LegacyGroups

  /** The Python conversions the reading uses on whatever the settings hold. */
  datatype Python = Python(parse: string -> Option<int>, show: Json -> string)

  function Truncated(x: real): int {
    if x >= 0.0 then x.Floor else -(-x).Floor
  }

  /** `int(value)`; rejected where it raises. */
  function ToInt(value: Json, py: Python): Result<int> {
    match value
    case Bool(b) => Ok(if b then 1 else 0)
    case Int(n) => Ok(n)
    case Float(x) => Ok(Truncated(x))
    case Str(s) => if py.parse(s).Some? then Ok(py.parse(s).value) else Rejected
    case _ => Rejected
  }

  /** One worker when nothing is set. */
  function ReadCpu(settings: map<string, Json>, py: Python): Result<int> {
    var cpu := Get(settings, "cpu_threads");
    if cpu == Null || cpu == Str("") then Ok(1) else ToInt(cpu, py)
  }

  /** `str(value)`. */
  function Text(value: Json, py: Python): string {
    if value.Str? then value.s else py.show(value)
  }

  /** One GPU entry, its worker count a true integer or 1 and its name the device's unless it has one. */
  function ReadGpu(entry: map<string, Json>, py: Python): OldGpu {
    var device, workers := Text(Get(entry, "device"), py), Get(entry, "workers");
    OldGpu(device,
           if Truthy(Get(entry, "name")) then Text(Get(entry, "name"), py) else device,
           if workers.Int? then workers.n else 1,
           if "enabled" in entry then Truthy(entry["enabled"]) else true)
  }

  /** Entries that aren't objects or have no device are passed over. */
  predicate IsGpu(entry: Json) {
    entry.Obj? && Truthy(Get(entry.fields, "device"))
  }

  function ReadGpus(entries: seq<Json>, py: Python): seq<OldGpu> {
    if entries == [] then []
    else
      var init, last := entries[..|entries| - 1], entries[|entries| - 1];
      ReadGpus(init, py) + if IsGpu(last) then [ReadGpu(last.fields, py)] else []
  }

  /** The entries to read: none for a missing or empty list, and a mapping or a text yields only keys and characters. */
  function Entries(settings: map<string, Json>): Result<seq<Json>> {
    var config := Get(settings, "gpu_config");
    match config
    case List(items) => Ok(items)
    case Str(_) => Ok([])
    case Obj(_) => Ok([])
    case _ => if Truthy(config) then Rejected else Ok([])
  }

  /** A detected GPU has one worker and is on. */
  function DetectedGpu(gpu: map<string, Json>, py: Python): OldGpu {
    var device := if Truthy(Get(gpu, "device")) then Text(Get(gpu, "device"), py) else "";
    OldGpu(device, if Truthy(Get(gpu, "name")) then Text(Get(gpu, "name"), py) else device, 1, true)
  }

  function DetectedGpus(gpus: seq<map<string, Json>>, py: Python): (found: seq<OldGpu>)
    ensures |found| == |gpus|
  {
    seq(|gpus|, i requires 0 <= i < |gpus| => DetectedGpu(gpus[i], py))
  }

  /** What the settings and the detection hold, or nothing where reading them raises. */
  function Read(settings: map<string, Json>, detected: seq<map<string, Json>>, py: Python): Result<(int, seq<OldGpu>)> {
    var cpu, entries := ReadCpu(settings, py), Entries(settings);
    if cpu.Rejected? || entries.Rejected? then Rejected
    else Ok((cpu.value, ReadGpus(entries.value, py) + DetectedGpus(detected, py)))
  }

  method ReadGpuConfig(entries: seq<Json>, py: Python) returns (gpus: seq<OldGpu>)
    ensures gpus == ReadGpus(entries, py)
  {
    gpus := [];
    var i := 0;
    while i < |entries|
      invariant 0 <= i <= |entries| && gpus == ReadGpus(entries[..i], py)
    {
      assert entries[..i + 1][..i] == entries[..i];
      if IsGpu(entries[i]) {
        gpus := gpus + [ReadGpu(entries[i].fields, py)];
      }
      i := i + 1;
    }
    assert entries[..i] == entries;
  }

  // What the old release used, said of the settings themselves ------------------------------------------------------

  function DeviceOf(fields: map<string, Json>, py: Python): string {
    if Truthy(Get(fields, "device")) then Text(Get(fields, "device"), py) else ""
  }

  predicate Configures(entry: Json, device: string, py: Python) {
    entry.Obj? && Truthy(Get(entry.fields, "device")) && DeviceOf(entry.fields, py) == device
  }

  /** A GPU's workers: none when switched off, its whole number up to 64, and one when that isn't a whole number. */
  function WorkersUsed(fields: map<string, Json>): nat {
    var workers := Get(fields, "workers");
    if "enabled" in fields && !Truthy(fields["enabled"]) then 0
    else if workers.Int? then Max(0, Min(workers.n, 64))
    else 1
  }

  /** The configured GPUs: of several entries for one device the first counts. */
  function ConfiguredUse(entries: seq<Json>, py: Python): nat {
    if entries == [] then 0
    else
      var init, last := entries[..|entries| - 1], entries[|entries| - 1];
      ConfiguredUse(init, py)
      + if last.Obj? && DeviceOf(last.fields, py) != "" && forall e <- init :: !Configures(e, DeviceOf(last.fields, py), py)
        then WorkersUsed(last.fields) else 0
  }

  /** The detected GPUs nobody configured: one worker each. */
  function DetectedUse(entries: seq<Json>, detected: seq<map<string, Json>>, py: Python): nat {
    if detected == [] then 0
    else
      var init, device := detected[..|detected| - 1], DeviceOf(detected[|detected| - 1], py);
      DetectedUse(entries, init, py)
      + if device != "" && (forall e <- entries :: !Configures(e, device, py)) && (forall g <- init :: DeviceOf(g, py) != device)
        then 1 else 0
  }

  lemma {:induction false} DevicesRead(entries: seq<Json>, py: Python, device: string)
    ensures NewTo(ReadGpus(entries, py), device) <==> forall e <- entries :: !Configures(e, device, py)
  {
    if entries != [] {
      var init, last := entries[..|entries| - 1], entries[|entries| - 1];
      DevicesRead(init, py, device);
      assert entries == init + [last];
      assert forall e :: e in entries <==> e in init || e == last;
      var gpus := ReadGpus(init, py);
      if IsGpu(last) {
        NewToSnoc(gpus, ReadGpu(last.fields, py), device);
        assert ReadGpus(entries, py) == gpus + [ReadGpu(last.fields, py)];
        assert Configures(last, device, py) <==> ReadGpu(last.fields, py).device == device;
      } else {
        assert ReadGpus(entries, py) == gpus;
      }
    }
  }

  lemma NewToSnoc(gpus: seq<OldGpu>, gpu: OldGpu, device: string)
    ensures NewTo(gpus + [gpu], device) <==> NewTo(gpus, device) && gpu.device != device
  {
    assert forall g :: g in gpus + [gpu] <==> g in gpus || g == gpu;
  }

  lemma {:induction false} UsedConfigured(entries: seq<Json>, py: Python)
    ensures Used(ReadGpus(entries, py)) == ConfiguredUse(entries, py)
  {
    if entries != [] {
      var init, last := entries[..|entries| - 1], entries[|entries| - 1];
      var gpus := ReadGpus(init, py);
      UsedConfigured(init, py);
      if IsGpu(last) {
        var gpu := ReadGpu(last.fields, py);
        DevicesRead(init, py, gpu.device);
        assert (gpus + [gpu])[..|gpus|] == gpus;
        assert gpu.device != "" ==> Share(gpu) == WorkersUsed(last.fields);
      } else {
        assert ReadGpus(entries, py) == gpus;
      }
    }
  }

  lemma {:induction false} UsedDetected(entries: seq<Json>, detected: seq<map<string, Json>>, py: Python)
    ensures Used(ReadGpus(entries, py) + DetectedGpus(detected, py)) == ConfiguredUse(entries, py) + DetectedUse(entries, detected, py)
  {
    var read, found := ReadGpus(entries, py), DetectedGpus(detected, py);
    if detected == [] {
      assert read + found == read;
      UsedConfigured(entries, py);
    } else {
      var init, last := detected[..|detected| - 1], detected[|detected| - 1];
      UsedDetected(entries, init, py);
      assert read + found == read + DetectedGpus(init, py) + [DetectedGpu(last, py)];
      UsedSnoc(read + DetectedGpus(init, py), DetectedGpu(last, py));
      NewDetected(entries, init, py, DeviceOf(last, py));
    }
  }

  lemma NewDetected(entries: seq<Json>, init: seq<map<string, Json>>, py: Python, device: string)
    ensures NewTo(ReadGpus(entries, py) + DetectedGpus(init, py), device)
       <==> (forall e <- entries :: !Configures(e, device, py)) && forall g <- init :: DeviceOf(g, py) != device
  {
    DevicesRead(entries, py, device);
    NewToBoth(ReadGpus(entries, py), init, py, device);
  }

  lemma UsedSnoc(gpus: seq<OldGpu>, gpu: OldGpu)
    ensures Used(gpus + [gpu]) == Used(gpus) + if NewTo(gpus, gpu.device) then Share(gpu) else 0
  {
    assert (gpus + [gpu])[..|gpus|] == gpus;
  }

  lemma NewToBoth(read: seq<OldGpu>, detected: seq<map<string, Json>>, py: Python, device: string)
    ensures NewTo(read + DetectedGpus(detected, py), device)
       <==> NewTo(read, device) && forall g <- detected :: DeviceOf(g, py) != device
  {
    var found := DetectedGpus(detected, py);
    assert forall g :: g in read + found <==> g in read || g in found;
    forall i | 0 <= i < |detected| ensures found[i].device == DeviceOf(detected[i], py) && found[i] in found && detected[i] in detected {
    }
    if NewTo(found, device) {
      forall g <- detected ensures DeviceOf(g, py) != device {
        var i :| 0 <= i < |detected| && detected[i] == g;
        assert found[i] in found;
      }
    }
  }

  /**
   * The groups made from old settings: accepted exactly when the settings read, the CPU has at most 64 workers and the
   * GPUs fit; and then the switched-on GPU counts are what the old release used, up to 64.
   */
  method GroupsFromLegacy(settings: map<string, Json>, detected: seq<map<string, Json>>, digest: string -> string, py: Python)
    returns (r: Result<seq<Group>>)
    requires Read(settings, detected, py).Ok? ==> GoodDigest(digest, Read(settings, detected, py).value.1)
    ensures var was := Read(settings, detected, py);
            && (r.Ok? <==> was.Ok? && SettingsFit(was.value.0, was.value.1))
            && (r.Ok? ==>
                  && SameButNames(Legacy(was.value.0, was.value.1, digest).groups, r.value)
                  && OnCount(r.value, Gpu) == Min(64, ConfiguredUse(Entries(settings).value, py) + DetectedUse(Entries(settings).value, detected, py))
                  && OnCount(r.value, Cpu) == Max(0, was.value.0))
    ensures var cpu := Get(settings, "cpu_threads");
            r.Ok? ==>
              && (cpu == Null || cpu == Str("") ==> OnCount(r.value, Cpu) == 1)
              && (cpu.Int? ==> OnCount(r.value, Cpu) == Max(0, cpu.n))
  {
    var cpu, entries := ReadCpu(settings, py), Entries(settings);
    if cpu.Rejected? || entries.Rejected? {
      return Rejected;
    }
    var configured := ReadGpuConfig(entries.value, py);
    var found := DetectedGpus(detected, py);
    r := GroupsFrom(cpu.value, configured, found, digest);
    LegacyAccepted(cpu.value, configured + found, digest);
    UsedDetected(entries.value, detected, py);
    if r.Ok? {
      CountsAccepted(cpu.value, configured + found, digest);
    }
  }

  lemma CountsAccepted(cpu: int, gpus: seq<OldGpu>, digest: string -> string)
    requires GoodDigest(digest, gpus) && Validated(GroupsJson(Legacy(cpu, gpus, digest).groups), None).Ok?
    ensures var gs := Validated(GroupsJson(Legacy(cpu, gpus, digest).groups), None).value;
            OnCount(gs, Gpu) == Min(64, Used(gpus)) && OnCount(gs, Cpu) == Max(0, cpu)
  {
    var gs := Legacy(cpu, gpus, digest).groups;
    LegacyAccepted(cpu, gpus, digest);
    GpuBudgetSpent(cpu, gpus, digest);
    SameCounts(gs, Validated(GroupsJson(gs), None).value, Gpu);
    SameCounts(gs, Validated(GroupsJson(gs), None).value, Cpu);
  }

  lemma {:induction false} FirstsStay(a: seq<OldGpu>, b: seq<OldGpu>, gpu: OldGpu)
    requires gpu in FirstGpus(a)
    ensures gpu in FirstGpus(a + b)
  {
    if b == [] {
      assert a + b == a;
    } else {
      assert (a + b)[..|a + b| - 1] == a + b[..|b| - 1];
      FirstsStay(a, b[..|b| - 1], gpu);
    }
  }

  /** Entry `i` is the first for its device. */
  predicate FirstForDevice(entries: seq<Json>, i: nat, py: Python)
    requires i < |entries|
  {
    && entries[i].Obj? && DeviceOf(entries[i].fields, py) != ""
    && forall k | 0 <= k < i :: !Configures(entries[k], DeviceOf(entries[i].fields, py), py)
  }

  lemma {:induction false} FirstConfigured(entries: seq<Json>, i: nat, py: Python)
    requires i < |entries| && FirstForDevice(entries, i, py)
    ensures ReadGpu(entries[i].fields, py) in FirstGpus(ReadGpus(entries, py))
  {
    var init, last := entries[..|entries| - 1], entries[|entries| - 1];
    var gpus := ReadGpus(init, py);
    if i < |init| {
      FirstConfigured(init, i, py);
      FirstsStay(gpus, if IsGpu(last) then [ReadGpu(last.fields, py)] else [], ReadGpu(entries[i].fields, py));
      assert ReadGpus(entries, py) == gpus + if IsGpu(last) then [ReadGpu(last.fields, py)] else [];
    } else {
      var gpu := ReadGpu(last.fields, py);
      DevicesRead(init, py, gpu.device);
      assert (gpus + [gpu])[..|gpus|] == gpus;
    }
  }

  /** Every configured device gets a group of its own, with the entry's name, or the device's when it has none. */
  lemma DeviceGetsGroup(settings: map<string, Json>, detected: seq<map<string, Json>>, digest: string -> string, py: Python, i: nat)
    requires Read(settings, detected, py).Ok? && i < |Entries(settings).value| && FirstForDevice(Entries(settings).value, i, py)
    requires var was := Read(settings, detected, py).value;
             GoodDigest(digest, was.1) && Validated(GroupsJson(Legacy(was.0, was.1, digest).groups), None).Ok?
    ensures var was, fields := Read(settings, detected, py).value, Entries(settings).value[i].fields;
            var device := DeviceOf(fields, py);
            var name := if Truthy(Get(fields, "name")) then Text(Get(fields, "name"), py) else device;
            exists g <- Validated(GroupsJson(Legacy(was.0, was.1, digest).groups), None).value ::
              |g.members| == 1 && g.members[0].device == Some(device) && g.name == Strip(CutName(name))
  {
    var was, gpu := Read(settings, detected, py).value, ReadGpu(Entries(settings).value[i].fields, py);
    FirstConfigured(Entries(settings).value, i, py);
    FirstsStay(ReadGpus(Entries(settings).value, py), DetectedGpus(detected, py), gpu);
    MadeGroup(was.0, was.1, digest, gpu);
  }

  lemma MadeGroup(cpu: int, gpus: seq<OldGpu>, digest: string -> string, gpu: OldGpu)
    requires GoodDigest(digest, gpus) && gpu in FirstGpus(gpus)
    requires Validated(GroupsJson(Legacy(cpu, gpus, digest).groups), None).Ok?
    ensures exists g <- Validated(GroupsJson(Legacy(cpu, gpus, digest).groups), None).value ::
              |g.members| == 1 && g.members[0].device == Some(gpu.device) && g.name == Strip(CutName(gpu.name))
  {
    var gs := Legacy(cpu, gpus, digest).groups;
    LegacyAccepted(cpu, gpus, digest);
    var i := MadeAt(cpu, gpus, digest, gpu);
    NameReturned(gs, i);
  }

  lemma MadeAt(cpu: int, gpus: seq<OldGpu>, digest: string -> string, gpu: OldGpu) returns (i: nat)
    requires gpu in FirstGpus(gpus)
    ensures i < |Legacy(cpu, gpus, digest).groups| && MadeFor(Legacy(cpu, gpus, digest).groups[i], gpu)
  {
    var first := FirstGpus(gpus);
    OneGroupEach(Progress(CpuGroups(cpu), MAX_WORKERS, {}), gpus, digest);
    var k :| 0 <= k < |first| && first[k] == gpu;
    i := |CpuGroups(cpu)| + k;
  }

  lemma NameReturned(gs: seq<Group>, i: nat)
    requires i < |gs| && Validated(GroupsJson(gs), None).Ok? && SameButNames(gs, Validated(GroupsJson(gs), None).value)
    ensures var hs := Validated(GroupsJson(gs), None).value;
            |hs| == |gs| && hs[i] == gs[i].(name := Strip(gs[i].name)) && hs[i] in hs
  {
    ReturnedGroups(GroupsJson(gs), None);
    var h, raw := Validated(GroupsJson(gs), None).value[i], GroupsJson(gs).items[i];
    assert IsGroupOf(h, raw) && raw == GroupJson(gs[i]);
    assert Get(GroupJson(gs[i]).fields, "name") == Str(gs[i].name);
  }

  lemma {:induction false} SameCounts(gs: seq<Group>, hs: seq<Group>, resource: Resource)
    requires SameButNames(gs, hs)
    ensures OnCount(gs, resource) == OnCount(hs, resource)
  {
    if gs != [] {
      assert hs[|hs| - 1] == gs[|gs| - 1].(name := hs[|hs| - 1].name);
      SameCounts(gs[..|gs| - 1], hs[..|hs| - 1], resource);
    }
  }
}
