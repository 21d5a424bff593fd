/**
 * The plugin's own step-by-step code over every item's store file and chapter rows: MarkerStore.cs, the list-building
 * parts of MarkerChapters.cs, BridgeService.cs and MarkerHealer.cs. Each method is tied to the protocol's step.
 */
module MarkerBridge {
  import opened Wrappers
  import opened StoredMarkers
  import opened MarkerChapters
  import opened MarkerRows
  import opened MarkerProtocol
  import opened MarkerSafety

  // The row lists ---------------------------------------------------------------------------------------------------

  method AddType(list: seq<ChapterInfo>, wantedRows: seq<ChapterInfo>, g: Group, replaceOthers: bool)
    returns (after: seq<ChapterInfo>, added: nat)
    ensures after == AddedType(list, OfGroup(wantedRows, g), g, replaceOthers)
    ensures added == if OfGroup(list, g) == [] || replaceOthers then |OfGroup(wantedRows, g)| else 0
  {
    after := list;
    var rows := OfGroup(wantedRows, g);
    if |rows| == 0 {
      return after, 0;
    }
    if OfGroup(after, g) != [] {
      if !replaceOthers {
        return after, 0;
      }
      after := OutsideGroup(after, g);
    }
    after := after + rows;
    added := |rows|;
  }

  method Apply(existing: seq<ChapterInfo>, ours: Option<Markers>, wanted: Option<Markers>, replaceOthers: bool)
    returns (rows: seq<ChapterInfo>, written: nat)
    requires AllPaired(ours) && Paired(wanted)
    ensures rows == Applied(existing, ours, wanted, replaceOthers)
    ensures written == WrittenRows(existing, ours, wanted, replaceOthers, Intro) + WrittenRows(existing, ours, wanted, replaceOthers, Credits)
  {
    var list := Without(existing, OurRows(ours));
    var wantedRows := RowsFor(wanted);
    RowsForOfGroup(wanted, Intro);
    RowsForOfGroup(wanted, Credits);
    AddedTypeOther(list, IntroRows(wanted), Intro, Credits, replaceOthers);
    var intro, credits;
    list, intro := AddType(list, wantedRows, Intro, replaceOthers);
    list, credits := AddType(list, wantedRows, Credits, replaceOthers);
    rows := OrderByStart(list);
    written := intro + credits;
  }

  /** What one more set adds to the groups not seen yet. */
  function SeenWith(seen: Markers, existing: seq<ChapterInfo>, m: Option<Markers>): Markers
    requires Paired(m)
  {
    var intro := if seen.introStart.None? && HasRowOf(existing, IntroRows(m))
                 then seen.(introStart := m.value.introStart, introEnd := m.value.introEnd) else seen;
    if seen.creditsStart.None? && HasRowOf(existing, CreditsRows(m)) then intro.(creditsStart := m.value.creditsStart) else intro
  }

  /** The loop over the stored set and the one it replaces: the first set that shows a group names it. */
  method ShownOf(existing: seq<ChapterInfo>, stored: Option<Markers>) returns (shown: Option<Markers>)
    requires AllPaired(stored)
    ensures shown == Shown(existing, stored)
  {
    var sets := [stored, Replacing(stored)];
    var seen := EMPTY;
    var i := 0;
    while i < |sets|
      invariant 0 <= i <= 2
      invariant i == 0 ==> seen == EMPTY
      invariant i == 1 ==> seen == SeenWith(EMPTY, existing, stored)
      invariant i == 2 ==> seen == SeenWith(SeenWith(EMPTY, existing, stored), existing, Replacing(stored))
    {
      var setRows := RowsFor(sets[i]);
      RowsForOfGroup(sets[i], Intro);
      RowsForOfGroup(sets[i], Credits);
      var intro := seen.introStart.None? && HasRowOf(existing, OfGroup(setRows, Intro));
      var credits := seen.creditsStart.None? && HasRowOf(existing, OfGroup(setRows, Credits));
      if intro {
        seen := seen.(introStart := sets[i].value.introStart, introEnd := sets[i].value.introEnd);
      }
      if credits {
        seen := seen.(creditsStart := sets[i].value.creditsStart);
      }
      i := i + 1;
    }
    shown := if HasMarkers(Some(seen)) then Some(seen) else None;
  }

  // The store and the item's chapters -------------------------------------------------------------------------------

  /** One JSON file per item. A save is a rename over the old file, so it happens whole or not at all. */
  class MarkerStore {
    var files: map<int, Markers>

    constructor ()
      ensures files == map[]
    {
      files := map[];
    }

    function File(id: int): Option<Markers>
      reads this
    {
      if id in files then Some(files[id]) else None
    }

    method Save(id: int, markers: Markers, io: Io)
      modifies this
      ensures files == if io == Done then old(files)[id := markers] else old(files)
    {
      if io == Done {
        files := files[id := markers];
      }
    }

    method Delete(id: int, io: Io) returns (deleted: bool)
      modifies this
      ensures deleted <==> id in old(files) && io == Done
      ensures files == if io == Done then old(files) - {id} else old(files)
    {
      deleted := id in files && io == Done;
      if io == Done {
        files := files - {id};
      }
    }

    /** Deletes the file only when the item is still gone once the lock is held. */
    method DeleteIfGone(id: int, itemExists: bool, io: Io) returns (deleted: bool)
      modifies this
      ensures deleted <==> !itemExists && id in old(files) && io == Done
      ensures files == if !itemExists && io == Done then old(files) - {id} else old(files)
    {
      deleted := false;
      if !itemExists {
        deleted := Delete(id, io);
      }
    }

    /** Saves the markers with the ones a write replaces; deletes the file when neither has any. */
    method SaveReplacing(id: int, markers: Option<Markers>, replacing: Option<Markers>, io: Io)
      modifies this
      ensures File(id) == if io == Done then With(markers, replacing) else old(File(id))
      ensures forall other | other != id :: File(other) == old(File(other))
    {
      var stored := With(markers, replacing);
      if stored.None? {
        var _ := Delete(id, io);
      } else {
        Save(id, stored.value, io);
      }
    }

    method Load(id: int) returns (markers: Option<Markers>)
      ensures markers == StoredMarkers.Load(File(id))
    {
      markers := None;
      if id in files && StoredProblem(Some(files[id])).None? {
        markers := Some(files[id]);
      }
    }
  }

  class ItemRepository {
    var chapters: map<int, seq<ChapterInfo>>

    constructor ()
      ensures chapters == map[]
    {
      chapters := map[];
    }

    function Chapters(id: int): seq<ChapterInfo>
      reads this
    {
      if id in chapters then chapters[id] else []
    }

    method SaveChapters(id: int, rows: seq<ChapterInfo>, io: Io)
      modifies this
      ensures Chapters(id) == if io == Done then rows else old(Chapters(id))
      ensures forall other | other != id :: Chapters(other) == old(Chapters(other))
    {
      if io == Done {
        chapters := chapters[id := rows];
      }
    }
  }

  // The service and the healer --------------------------------------------------------------------------------------

  /** What the caller hears; a stopped process says nothing. */
  datatype Answer = Stored(rows: nat) | Refused(why: Refusal) | Failed | Silence

  /** How many of the wanted rows a swap of the item's rows shows. */
  function RowsWritten(item: Item, wanted: Option<Markers>, replaceOthers: bool): nat
    requires Paired(wanted)
  {
    var ours := Load(item.file);
    WrittenRows(item.rows, ours, wanted, replaceOthers, Intro) + WrittenRows(item.rows, ours, wanted, replaceOthers, Credits)
  }

  /** A save that was reached is the last thing before the process stops. */
  predicate Stopped(existing: seq<ChapterInfo>, rows: seq<ChapterInfo>, previous: Option<Markers>, f: Faults)
    requires AllPaired(previous)
  {
    || f.store == Stops
    || (f.store == Done && !SameRows(existing, rows)
        && (f.rows == Stops || (f.rows == Throws && f.restore == Stops)
            || (f.rows == Done && Shown(existing, previous).Some? && f.finish == Stops)))
  }

  /** The rows are what they should be: they were already, or their save worked. */
  predicate WentThrough(existing: seq<ChapterInfo>, rows: seq<ChapterInfo>, f: Faults) {
    f.store == Done && (SameRows(existing, rows) || f.rows == Done)
  }

  class BridgeService {
    const store: MarkerStore
    const items: ItemRepository

    constructor (store: MarkerStore, items: ItemRepository)
      ensures this.store == store && this.items == items
    {
      this.store := store;
      this.items := items;
    }

    function View(id: int): Item
      reads store, items
    {
      Item(store.File(id), items.Chapters(id))
    }

    method RestoreStore(id: int, previous: Option<Markers>, io: Io)
      modifies store
      ensures store.File(id) == if io == Done then previous else old(store.File(id))
      ensures forall other | other != id :: store.File(other) == old(store.File(other))
    {
      if previous.Some? {
        store.Save(id, previous.value, io);
      } else {
        var _ := store.Delete(id, io);
      }
    }

    /**
     * None when the rows went through, even if the store couldn't be finished after them; a failure when a save before
     * that raised, and then nothing has changed unless rolling the store back failed as well; silence after a stop.
     */
    method WriteStoreThenChapters(id: int, existing: seq<ChapterInfo>, rows: seq<ChapterInfo>,
                                  previous: Option<Markers>, next: Option<Markers>, f: Faults)
      returns (failure: Option<Answer>)
      requires existing == View(id).rows && AllPaired(previous)
      modifies store, items
      ensures View(id) == Write(old(View(id)), rows, previous, next, f)
      ensures forall other | other != id :: View(other) == old(View(other))
      ensures failure == Some(Silence) <==> Stopped(existing, rows, previous, f)
      ensures failure.None? <==> WentThrough(existing, rows, f) && !Stopped(existing, rows, previous, f)
      ensures failure.Some? ==> failure.value == Failed || failure.value == Silence
      ensures failure.None? ==> SameRows(View(id).rows, rows)
      ensures failure == Some(Failed) ==> View(id).rows == existing
      ensures failure == Some(Failed) && f.restore == Done ==> View(id).file == old(View(id)).file || View(id).file == previous
    {
      var same := SameRows(existing, rows);
      var replacing := None;
      if !same {
        replacing := ShownOf(existing, previous);
      }
      store.SaveReplacing(id, next, replacing, f.store);
      if f.store != Done {
        return Some(if f.store == Throws then Failed else Silence);
      }
      if same {
        return None;
      }
      items.SaveChapters(id, rows, f.rows);
      if f.rows == Stops {
        return Some(Silence);
      }
      if f.rows == Throws {
        RestoreStore(id, previous, f.restore);
        return Some(if f.restore == Stops then Silence else Failed);
      }
      if replacing.None? {
        return None;
      }
      store.SaveReplacing(id, next, None, f.finish);
      return if f.finish == Stops then Some(Silence) else None;
    }

    method Post(id: int, request: Markers, currentSize: Option<int>, path: string, replaceOthers: bool, f: Faults)
      returns (answer: Answer)
      modifies store, items
      ensures View(id) == Step(old(View(id)), Event.Post(request, currentSize, path, replaceOthers, f))
      ensures forall other | other != id :: View(other) == old(View(other))
      ensures Problem(Some(Requested(request, path))) == if answer.Refused? then Some(answer.why) else None
      ensures !answer.Refused? ==>
                var was, m := old(View(id)), Requested(request, path);
                var wanted := if IsStale(Some(m), currentSize, path) then None else Some(m);
                var rows := PostRows(was, m, currentSize, path, replaceOthers);
                && (answer == Silence <==> Stopped(was.rows, rows, Load(was.file), f))
                && (answer.Stored? <==> WentThrough(was.rows, rows, f) && answer != Silence)
                && (answer.Stored? ==> answer.rows == RowsWritten(was, wanted, replaceOthers))
      ensures old(Inv(View(id)) && Admissible(View(id), Event.Post(request, currentSize, path, replaceOthers, f)))
              ==> EveryRowNamed(View(id))
    {
      if Inv(View(id)) && Admissible(View(id), Event.Post(request, currentSize, path, replaceOthers, f)) {
        StepKeepsInv(View(id), Event.Post(request, currentSize, path, replaceOthers, f));
        InvNamesEveryRow(Step(View(id), Event.Post(request, currentSize, path, replaceOthers, f)));
      }
      var markers := Requested(request, path);
      var problem := Problem(Some(markers));
      if problem.Some? {
        return Refused(problem.value);
      }
      var stale := IsStale(Some(markers), currentSize, path);
      var previous := store.Load(id);
      var existing := items.Chapters(id);
      var rows, written := Apply(existing, previous, if stale then None else Some(markers), replaceOthers);
      var failure := WriteStoreThenChapters(id, existing, rows, previous, Some(markers), f);
      answer := match failure
                case Some(Failed) => Failed
                case Some(_) => Silence
                case None => Stored(written);
    }

    method Delete(id: int, f: Faults) returns (answer: Answer)
      modifies store, items
      ensures View(id) == Step(old(View(id)), Event.Delete(f))
      ensures var was := old(View(id));
              var rows := Applied(was.rows, Load(was.file), None, false);
              && (answer == Silence <==> Stopped(was.rows, rows, Load(was.file), f))
              && (answer == Stored(0) <==> WentThrough(was.rows, rows, f) && answer != Silence)
              && (answer == Silence || answer == Failed || answer == Stored(0))
      ensures forall other | other != id :: View(other) == old(View(other))
      ensures old(Inv(View(id))) && f == ALL_DONE ==> Untouched(View(id))
    {
      if Inv(View(id)) && f == ALL_DONE {
        DeleteCleansUp(View(id));
      }
      var stored := store.Load(id);
      var existing := items.Chapters(id);
      var rows, _ := Apply(existing, stored, None, false);
      var failure := WriteStoreThenChapters(id, existing, rows, stored, None, f);
      answer := match failure
                case Some(Failed) => Failed
                case Some(_) => Silence
                case None => Stored(0);
    }

    /** The healer's handler of an item update. */
    method OnItemUpdated(id: int, currentSize: Option<int>, path: string, f: Faults)
      modifies store, items
      ensures View(id) == Step(old(View(id)), Updated(currentSize, path, f))
      ensures forall other | other != id :: View(other) == old(View(other))
      ensures old(Inv(View(id))) ==> EveryRowNamed(View(id))
    {
      if Inv(View(id)) {
        HealKeepsInv(View(id), currentSize, path, f);
        InvNamesEveryRow(HealStep(View(id), currentSize, path, f));
      }
      if id !in store.files {
        return;
      }
      var stored := store.Load(id);
      if stored.None? {
        return;
      }
      ReadableShapes(stored);
      var existing := items.Chapters(id);
      if IsStale(stored, currentSize, path) {
        var withoutOurs, _ := Apply(existing, stored, None, false);
        if !SameRows(existing, withoutOurs) {
          items.SaveChapters(id, withoutOurs, f.rows);
        }
        return;
      }
      var rows, _ := Apply(existing, Replacing(stored), stored, false);
      if !SameRows(existing, rows) {
        items.SaveChapters(id, rows, f.rows);
        if f.rows != Done {
          return;
        }
      }
      if stored.value.replacing.Some? {
        store.SaveReplacing(id, stored, None, f.finish);
      }
    }
  }
}
