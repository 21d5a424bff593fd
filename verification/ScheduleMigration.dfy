/**
 * Settings migration v14 over whole histories of boots: a rewrite of schedules.json that is retried after an IO
 * failure, at most twice, and never comes back once an attempt has settled. upgrade.py.
 */
module ScheduleMigration {
  import opened Wrappers
  import opened Json

  const CURRENT_VERSION := 24
  const MAX_ATTEMPTS := 3

  // The rewrite -----------------------------------------------------------------------------------------------------

  /** A schedule record with the old unconditional pin: a recently-added one whose priority is exactly 2. */
  predicate Pinned(record: Json) {
    && record.Obj?
    && Get(record.fields, "config").Obj?
    && Get(Get(record.fields, "config").fields, "job_type") == Str("recently_added")
    && PyEqual(Get(record.fields, "priority"), Int(2))
  }

  function Unpin(record: Json): Json {
    if Pinned(record) then Obj(record.fields["priority" := Null]) else record
  }

  function UnpinList(records: seq<Json>): (after: seq<Json>)
    ensures |after| == |records| && forall i | 0 <= i < |records| :: after[i] == Unpin(records[i])
  {
    seq(|records|, i requires 0 <= i < |records| => Unpin(records[i]))
  }

  function UnpinMap(records: map<string, Json>): map<string, Json> {
    map id | id in records :: Unpin(records[id])
  }

  /** The file with every pin taken off; schedules are a mapping, or a list in older files. */
  function Unpinned(data: Json): Json {
    if !data.Obj? then data
    else
      match Get(data.fields, "schedules")
      case Obj(records) => Obj(data.fields["schedules" := Obj(UnpinMap(records))])
      case List(records) => Obj(data.fields["schedules" := List(UnpinList(records))])
      case _ => data
  }

  /** Some record of the file is pinned. */
  predicate HasPin(data: Json) {
    && data.Obj?
    && match Get(data.fields, "schedules")
       case Obj(records) => exists id | id in records :: Pinned(records[id])
       case List(records) => exists r <- records :: Pinned(r)
       case _ => false
  }

  /** A record of the kind the old releases pinned: a recently-added schedule. */
  predicate RecentlyAdded(record: Json) {
    && record.Obj? && "config" in record.fields && record.fields["config"].Obj?
    && Get(record.fields["config"].fields, "job_type") == Str("recently_added")
  }

  /** What becomes of one record: a recently-added schedule whose priority is 2 gets none, any other stays as it is. */
  predicate OnlyUnpinned(before: Json, after: Json) {
    if RecentlyAdded(before) && Get(before.fields, "priority") in [Int(2), Float(2.0)] then
      && after.Obj? && after.fields.Keys == before.fields.Keys
      && (forall k | k in before.fields :: after.fields[k] == if k == "priority" then Null else before.fields[k])
    else after == before
  }

  /** The rewrite of one record, on its own fields. */
  lemma UnpinnedRecord(record: Json)
    ensures OnlyUnpinned(record, Unpin(record))
    ensures !Pinned(Unpin(record))
    ensures Unpin(record) == record <==> !Pinned(record)
  {
    if record.Obj? {
      PriorityIsTwo(Get(record.fields, "priority"));
      assert Pinned(record) <==> RecentlyAdded(record) && Get(record.fields, "priority") in [Int(2), Float(2.0)];
      if Pinned(record) {
        assert Get(Unpin(record).fields, "priority") == Null;
        assert !PyEqual(Null, Int(2));
      }
    }
  }

  lemma PriorityIsTwo(priority: Json)
    ensures PyEqual(priority, Int(2)) <==> priority in [Int(2), Float(2.0)]
  {
  }

  /** The schedules, a mapping or a list: each record in its place. */
  predicate EachUnpinned(before: Json, after: Json) {
    match before
    case Obj(records) =>
      after.Obj? && after.fields.Keys == records.Keys && forall id | id in records :: OnlyUnpinned(records[id], after.fields[id])
    case List(records) =>
      after.List? && |after.items| == |records| && forall i | 0 <= i < |records| :: OnlyUnpinned(records[i], after.items[i])
    case _ => after == before
  }

  /**
   * The rewrite in full: nothing but the schedules changes, no schedule appears or goes, a recently-added one with
   * priority 2 gets none and any other stays, none is left pinned, and a file without pins comes out as it went in.
   */
  lemma RewriteOnlyUnpins(data: Json)
    ensures !HasPin(Unpinned(data))
    ensures !HasPin(data) <==> Unpinned(data) == data
    ensures if !data.Obj? then Unpinned(data) == data
            else
              && Unpinned(data).Obj? && Unpinned(data).fields.Keys == data.fields.Keys
              && forall k | k in data.fields ::
                if k == "schedules" then EachUnpinned(data.fields[k], Unpinned(data).fields[k])
                else Unpinned(data).fields[k] == data.fields[k]
  {
    if data.Obj? {
      match Get(data.fields, "schedules")
      case Obj(records) => RewriteOfMap(data, records);
      case List(records) => RewriteOfList(data, records);
      case _ =>
    }
  }

  lemma RewriteOfMap(data: Json, records: map<string, Json>)
    requires data.Obj? && Get(data.fields, "schedules") == Obj(records)
    ensures var after := UnpinMap(records);
            && Unpinned(data) == Obj(data.fields["schedules" := Obj(after)])
            && EachUnpinned(Obj(records), Obj(after))
            && !HasPin(Unpinned(data)) && (!HasPin(data) <==> Unpinned(data) == data)
  {
    MapRewrite(records);
    SameFields(data.fields, Obj(UnpinMap(records)));
  }

  lemma RewriteOfList(data: Json, records: seq<Json>)
    requires data.Obj? && Get(data.fields, "schedules") == List(records)
    ensures var after := UnpinList(records);
            && Unpinned(data) == Obj(data.fields["schedules" := List(after)])
            && EachUnpinned(List(records), List(after))
            && !HasPin(Unpinned(data)) && (!HasPin(data) <==> Unpinned(data) == data)
  {
    ListRewrite(records);
    SameFields(data.fields, List(UnpinList(records)));
  }

  lemma MapRewrite(records: map<string, Json>)
    ensures forall id | id in records :: !Pinned(UnpinMap(records)[id]) && OnlyUnpinned(records[id], UnpinMap(records)[id])
    ensures UnpinMap(records) == records <==> forall id | id in records :: !Pinned(records[id])
  {
    forall id | id in records
      ensures !Pinned(UnpinMap(records)[id]) && OnlyUnpinned(records[id], UnpinMap(records)[id])
      ensures UnpinMap(records)[id] == records[id] <==> !Pinned(records[id])
    {
      UnpinnedRecord(records[id]);
    }
  }

  lemma ListRewrite(records: seq<Json>)
    ensures forall i | 0 <= i < |records| :: !Pinned(UnpinList(records)[i]) && OnlyUnpinned(records[i], UnpinList(records)[i])
    ensures UnpinList(records) == records <==> forall i | 0 <= i < |records| :: !Pinned(records[i])
    ensures forall r <- UnpinList(records) :: !Pinned(r)
  {
    forall i | 0 <= i < |records|
      ensures !Pinned(UnpinList(records)[i]) && OnlyUnpinned(records[i], UnpinList(records)[i])
      ensures UnpinList(records)[i] == records[i] <==> !Pinned(records[i])
    {
      UnpinnedRecord(records[i]);
    }
  }

  lemma SameFields(fields: map<string, Json>, schedules: Json)
    requires "schedules" in fields
    ensures fields["schedules" := schedules] == fields <==> schedules == fields["schedules"]
    ensures Get(fields["schedules" := schedules], "schedules") == schedules
  {
    assert fields["schedules" := schedules]["schedules"] == schedules;
  }

  /** The loop over the records of a list, in place. */
  method UnpinListLoop(records: seq<Json>) returns (after: seq<Json>, unpinned: nat)
    ensures after == UnpinList(records)
    ensures unpinned == 0 <==> forall r <- records :: !Pinned(r)
  {
    after, unpinned := records, 0;
    var i := 0;
    while i < |records|
      invariant 0 <= i <= |records| == |after|
      invariant forall j | 0 <= j < i :: after[j] == Unpin(records[j])
      invariant forall j | i <= j < |records| :: after[j] == records[j]
      invariant unpinned == 0 <==> forall j | 0 <= j < i :: !Pinned(records[j])
    {
      if Pinned(after[i]) {
        after := after[i := Obj(after[i].fields["priority" := Null])];
        unpinned := unpinned + 1;
      }
      i := i + 1;
    }
  }

  /** The same loop over a mapping's values. */
  method UnpinMapLoop(records: map<string, Json>) returns (after: map<string, Json>, unpinned: nat)
    ensures after == UnpinMap(records)
    ensures unpinned == 0 <==> forall id | id in records :: !Pinned(records[id])
  {
    after, unpinned := records, 0;
    var left := records.Keys;
    while left != {}
      invariant left <= records.Keys == after.Keys
      invariant forall id | id in records :: after[id] == if id in left then records[id] else Unpin(records[id])
      invariant unpinned == 0 <==> forall id | id in records && id !in left :: !Pinned(records[id])
      decreases |left|
    {
      var id :| id in left;
      if Pinned(after[id]) {
        after := after[id := Obj(after[id].fields["priority" := Null])];
        unpinned := unpinned + 1;
      }
      left := left - {id};
    }
  }

  // One attempt -----------------------------------------------------------------------------------------------------

  /** The saved retry counter: missing, a number, or something `int` refuses. */
  datatype Counter = Missing | Number(n: int) | Garbage

  function Attempts(c: Counter): int {
    if c.Number? then c.n else 0
  }

  predicate RetryPending(c: Counter) {
    c.Number? && 0 < c.n < MAX_ATTEMPTS
  }

  /** The two settings v14 depends on. */
  datatype Settings = Settings(version: int, counter: Counter)

  /**
   * A running start: the settings in memory, settings.json and schedules.json. A save writes everything in memory, so
   * what an earlier save failed to write is written by the next one that works.
   */
  datatype Live = Live(memory: Settings, disk: Settings, file: Option<Json>)

  function Save(l: Live, works: bool): Live {
    if works then l.(disk := l.memory) else l
  }

  /** `sm.set` assigns in memory first and doesn't take it back; here the failure to save is swallowed. */
  function SetCounter(l: Live, n: int, works: bool): Live {
    Save(l.(memory := l.memory.(counter := Number(n))), works)
  }

  /** What the steps after v14 do with settings.json before they finish or raise. */
  datatype Later = Later(saves: bool, raises: bool)

  /** How things behave during one start: each save of settings.json, each file, and the steps that aren't v14. */
  datatype Env = Env(
    loads: bool,
    raisesBefore: bool,
    configDir: bool,
    readable: bool,
    writable: bool,
    counterSaves: bool,
    later: Later,
    lastSaves: bool)

  datatype Outcome = Settled | Failed

  /** What an attempt comes to. */
  function AttemptOutcome(file: Option<Json>, env: Env): Outcome {
    if !env.configDir || file.None? then Settled
    else if !env.readable then Failed
    else if !HasPin(file.value) then Settled
    else if !env.writable then Failed
    else Settled
  }

  function Attempt(l: Live, env: Env): Live {
    match AttemptOutcome(l.file, env)
    case Failed => SetCounter(l, Attempts(l.memory.counter) + 1, env.counterSaves)
    case Settled =>
      var rewritten := if env.configDir && l.file.Some? && HasPin(l.file.value) then l.(file := Some(Unpinned(l.file.value))) else l;
      SetCounter(rewritten, 0, env.counterSaves)
  }

  /** An install between starts: settings.json and schedules.json. */
  datatype State = State(disk: Settings, file: Option<Json>)

  /** The version gate lets this start migrate. */
  predicate Admitted(s: State, env: Env) {
    && env.loads
    && s.disk.version <= CURRENT_VERSION
    && (s.disk.version < CURRENT_VERSION || RetryPending(s.disk.counter))
    && !env.raisesBefore
  }

  /** Whether this start gets as far as v14 and runs it. */
  predicate Attempted(s: State, env: Env) {
    Admitted(s, env) && (s.disk.version < 14 || RetryPending(s.disk.counter))
  }

  /** The steps after v14, none of which runs on settings that are already current. */
  function LaterOf(s: State, env: Env): Later {
    if s.disk.version < CURRENT_VERSION then env.later else Later(false, false)
  }

  /** One start; settings from a newer build and unreadable ones are left alone. */
  function Boot(s: State, env: Env): State {
    if !Admitted(s, env) then s
    else
      var loaded := Live(s.disk, s.disk, s.file);
      var tried := if Attempted(s, env) then Attempt(loaded, env) else loaded;
      var then14 := Save(tried, LaterOf(s, env).saves);
      if LaterOf(s, env).raises then State(then14.disk, then14.file)
      else
        var done := Save(then14.(memory := then14.memory.(version := CURRENT_VERSION)), env.lastSaves);
        State(done.disk, done.file)
  }

  /** No step raises, the closing save of the version included. */
  predicate GoesThrough(s: State, env: Env) {
    !env.raisesBefore && !LaterOf(s, env).raises && env.lastSaves
  }

  // Histories -------------------------------------------------------------------------------------------------------

  /** A start, or any change to the schedules in between. */
  datatype Event = Started(env: Env) | Edited(file: Option<Json>)

  function After(s: State, e: Event): State {
    match e
    case Started(env) => Boot(s, env)
    case Edited(file) => s.(file := file)
  }

  function History(s: State, events: seq<Event>): State
    decreases |events|
  {
    if events == [] then s else History(After(s, events[0]), events[1..])
  }

  /** How often v14 runs over a history. */
  function Runs(s: State, events: seq<Event>): nat
    decreases |events|
  {
    if events == [] then 0
    else (if events[0].Started? && Attempted(s, events[0].env) then 1 else 0) + Runs(After(s, events[0]), events[1..])
  }

  /** Every start of the history goes through. */
  predicate Ordinary(s: State, events: seq<Event>)
    decreases |events|
  {
    events == [] || ((events[0].Started? ==> GoesThrough(s, events[0].env)) && Ordinary(After(s, events[0]), events[1..]))
  }

  function RetriesLeft(attempts: int): nat {
    if 0 < attempts < MAX_ATTEMPTS then MAX_ATTEMPTS - attempts else 0
  }

  /** The most attempts still to come. */
  function AttemptsLeft(s: State): nat {
    if s.disk.version > CURRENT_VERSION then 0
    else if s.disk.version < 14 then 1 + RetriesLeft(Attempts(s.disk.counter) + 1)
    else RetriesLeft(Attempts(s.disk.counter))
  }

  lemma {:induction false} RunsWithinLeft(s: State, events: seq<Event>)
    requires Ordinary(s, events)
    ensures Runs(s, events) <= AttemptsLeft(s)
    decreases |events|
  {
    if events != [] {
      RunsWithinLeft(After(s, events[0]), events[1..]);
    }
  }

  /**
   * Whatever the version, the counter and the files were at the start, v14 runs at most three times over any history
   * of starts that go through, whether or not the counter's own saves work.
   */
  lemma AtMostThreeAttempts(s: State, events: seq<Event>)
    requires Ordinary(s, events)
    ensures Runs(s, events) <= MAX_ATTEMPTS
  {
    RunsWithinLeft(s, events);
  }

  /** The starts of an install whose schedules can't be read; the closing save works or not. */
  function Unreadable(k: nat, lastSaves: bool): seq<Event> {
    seq(k, _ => Started(Env(true, false, true, false, true, true, Later(false, false), lastSaves)))
  }

  /** And it does try three times: an upgrade that keeps failing makes exactly min(starts, 3) attempts. */
  lemma {:induction false} FailingUpgradeTriesThrice(s: State, k: nat)
    requires s.disk.version < 14 && s.disk.counter == Missing && s.file.Some?
    ensures Runs(s, Unreadable(k, true)) == if k < MAX_ATTEMPTS then k else MAX_ATTEMPTS
  {
    if k > 0 {
      var events := Unreadable(k, true);
      assert events[1..] == Unreadable(k - 1, true);
      FailingRetries(Boot(s, events[0].env), 1, k - 1);
    }
  }

  lemma {:induction false} FailingRetries(s: State, n: int, k: nat)
    requires s.disk == Settings(CURRENT_VERSION, Number(n)) && 1 <= n <= MAX_ATTEMPTS && s.file.Some?
    ensures Runs(s, Unreadable(k, true)) == if k < MAX_ATTEMPTS - n then k else MAX_ATTEMPTS - n
    decreases k
  {
    if k > 0 {
      var events := Unreadable(k, true);
      assert events[1..] == Unreadable(k - 1, true);
      FailingRetries(Boot(s, events[0].env), if n < MAX_ATTEMPTS then n + 1 else n, k - 1);
    }
  }

  /** The bound needs starts that go through: while the closing save keeps raising, every start of an upgrade tries again. */
  lemma {:induction false} AbortedStartsKeepTrying(s: State, k: nat)
    requires s.disk.version < 14 && s.file.Some?
    ensures Runs(s, Unreadable(k, false)) == k
    decreases k
  {
    if k > 0 {
      var events := Unreadable(k, false);
      assert events[1..] == Unreadable(k - 1, false);
      AbortedStartsKeepTrying(Boot(s, events[0].env), k - 1);
    }
  }

  // When it is over -------------------------------------------------------------------------------------------------

  /** v14 has had its turn and no retry is asked for. */
  predicate Over(s: State) {
    s.disk.version >= 14 && !RetryPending(s.disk.counter)
  }

  /** Once over, no later start runs v14 or touches the schedules, however its saves behave and whatever was edited. */
  lemma {:induction false} OverForGood(s: State, events: seq<Event>)
    requires Over(s)
    ensures Runs(s, events) == 0 && Over(History(s, events))
    ensures History(s, events).disk.counter == s.disk.counter
    ensures (forall e <- events :: e.Started?) ==> History(s, events).file == s.file
    decreases |events|
  {
    if events != [] {
      var next := After(s, events[0]);
      OverForGood(next, events[1..]);
      assert events[0] in events && forall e <- events[1..] :: e in events;
    }
  }

  /** The cleared counter is saved: by its own save or by a later step's. */
  predicate CounterSaved(s: State, env: Env) {
    env.counterSaves || LaterOf(s, env).saves
  }

  /**
   * When an attempt settles, v14 is over exactly when the start goes through, or the version gate was already past v14
   * and some save of the cleared counter worked.
   */
  lemma SettledIsFinalIff(s: State, env: Env)
    requires Attempted(s, env) && AttemptOutcome(s.file, env) == Settled
    ensures Over(Boot(s, env)) <==> GoesThrough(s, env) || (s.disk.version >= 14 && CounterSaved(s, env))
  {
    var loaded := Live(s.disk, s.disk, s.file);
    assert Attempt(loaded, env).memory == Settings(s.disk.version, Number(0));
  }

  /**
   * What an attempt leaves of the schedules: a settled one with a configuration folder leaves no pin, a failed one
   * leaves the file as it was, and either way the file is the old one or the old one with its pins off.
   */
  lemma AttemptUnpins(s: State, env: Env)
    requires Attempted(s, env)
    ensures var after := Boot(s, env).file;
            && (after.Some? <==> s.file.Some?)
            && (after == s.file || (s.file.Some? && after == Some(Unpinned(s.file.value))))
            && (AttemptOutcome(s.file, env) == Failed ==> after == s.file)
            && (AttemptOutcome(s.file, env) == Settled && env.configDir && after.Some? ==> !HasPin(after.value))
  {
    if s.file.Some? {
      RewriteOnlyUnpins(s.file.value);
    }
  }

  /** A start at which everything works. */
  const ALL_WELL := Env(true, false, true, true, true, true, Later(false, false), true)

  /**
   * A schedule pinned again after a settled attempt keeps its pin through the next start exactly when the attempt was
   * final. Otherwise, after a start that was cut short by a save that raised, the next one takes the user's pin off.
   */
  lemma RepinnedScheduleStaysIff(s: State, env: Env, edited: Json)
    requires Attempted(s, env) && AttemptOutcome(s.file, env) == Settled && HasPin(edited)
    ensures History(s, [Started(env), Edited(Some(edited)), Started(ALL_WELL)]).file == Some(edited)
       <==> GoesThrough(s, env) || (s.disk.version >= 14 && CounterSaved(s, env))
  {
    var events := [Started(env), Edited(Some(edited)), Started(ALL_WELL)];
    var repinned := Boot(s, env).(file := Some(edited));
    assert events[1..][0] == Edited(Some(edited)) && events[1..][1..] == [Started(ALL_WELL)];
    assert History(repinned, [Started(ALL_WELL)]) == Boot(repinned, ALL_WELL);
    assert History(Boot(s, env), events[1..]) == History(repinned, events[1..][1..]);
    SettledIsFinalIff(s, env);
    RewriteOnlyUnpins(edited);
  }

  /** When it was final, no history of starts takes the pin off. */
  lemma RepinnedScheduleStays(s: State, env: Env, edited: Option<Json>, boots: seq<Event>)
    requires Attempted(s, env) && AttemptOutcome(s.file, env) == Settled
    requires GoesThrough(s, env) || (s.disk.version >= 14 && CounterSaved(s, env))
    requires forall e <- boots :: e.Started?
    ensures History(Boot(s, env).(file := edited), boots).file == edited
  {
    SettledIsFinalIff(s, env);
    OverForGood(Boot(s, env).(file := edited), boots);
  }

  // The code --------------------------------------------------------------------------------------------------------

  /** The settings manager of one start, with the two files it works on. */
  class Install {
    var memory: Settings
    var disk: Settings
    var file: Option<Json>

    constructor (s: State)
      ensures View() == Live(s.disk, s.disk, s.file)
    {
      memory, disk, file := s.disk, s.disk, s.file;
    }

    function View(): Live
      reads this
    {
      Live(memory, disk, file)
    }

    /** Writes all of the settings; a failure raises in the caller. */
    method SaveSettings(works: bool)
      modifies this`disk
      ensures View() == Save(old(View()), works)
    {
      if works {
        disk := memory;
      }
    }

    /** Sets the counter; a failure to save it is swallowed, and the value stays in memory for the next save. */
    method SetAttempts(n: int, works: bool)
      modifies this`memory, this`disk
      ensures View() == SetCounter(old(View()), n, works)
    {
      memory := memory.(counter := Number(n));
      SaveSettings(works);
    }

    method MigrateToV14(env: Env)
      modifies this
      ensures View() == Attempt(old(View()), env)
    {
      if !env.configDir || file.None? {
        SetAttempts(0, env.counterSaves);
        return;
      }
      if !env.readable {
        SetAttempts(Attempts(memory.counter) + 1, env.counterSaves);
        return;
      }
      var data := file.value;
      var unpinned := 0;
      if data.Obj? {
        match Get(data.fields, "schedules") {
          case Obj(records) =>
            var after, n := UnpinMapLoop(records);
            data, unpinned := Obj(data.fields["schedules" := Obj(after)]), n;
          case List(records) =>
            var after, n := UnpinListLoop(records);
            data, unpinned := Obj(data.fields["schedules" := List(after)]), n;
          case _ =>
        }
      }
      if unpinned == 0 {
        SetAttempts(0, env.counterSaves);
        return;
      }
      if !env.writable {
        SetAttempts(Attempts(memory.counter) + 1, env.counterSaves);
        return;
      }
      file := Some(data);
      SetAttempts(0, env.counterSaves);
    }

    /** One start, from settings freshly loaded; it returns early where the program returns or raises. */
    method MigrateSchema(env: Env)
      requires memory == disk
      modifies this
      ensures State(disk, file) == Boot(old(State(disk, file)), env)
    {
      if !env.loads || memory.version > CURRENT_VERSION {
        return;
      }
      var current, retry := memory.version, RetryPending(memory.counter);
      if current == CURRENT_VERSION && !retry {
        return;
      }
      if env.raisesBefore {
        return;
      }
      if current < 14 || retry {
        MigrateToV14(env);
      }
      if current < CURRENT_VERSION {
        SaveSettings(env.later.saves);
        if env.later.raises {
          return;
        }
      }
      memory := memory.(version := CURRENT_VERSION);
      SaveSettings(env.lastSaves);
    }
  }
}
