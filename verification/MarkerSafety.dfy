/** Safety over whole runs: the store always names every row the plugin has on the item, so DELETE can find them. */
module MarkerSafety {
  import opened Wrappers
  import opened StoredMarkers
  import opened MarkerChapters
  import opened MarkerRows
  import opened MarkerProtocol

  // What ShownOf takes down -----------------------------------------------------------------------------------------

  /** Sets that are apart never list each other's rows, unless they are the same rows. */
  lemma ApartRows(a: Option<Markers>, b: Option<Markers>, g: Group, c: ChapterInfo)
    requires Paired(a) && Paired(b) && Apart(a, b)
    requires Listed(c, GroupRows(a, g)) && Listed(c, GroupRows(b, g))
    ensures GroupRows(a, g) == GroupRows(b, g)
  {
  }

  /** With nobody else's lookalike on the item, a set "shows" in a group exactly through a row of ours. */
  lemma ShownThroughOurs(rows: seq<ChapterInfo>, setRows: seq<ChapterInfo>, g: Group)
    requires NoLookalike(rows, setRows)
    requires forall r <- setRows :: InGroup(r, g)
    ensures HasRowOf(rows, setRows) ==> exists c <- rows :: c.author == Plugin && InGroup(c, g) && Listed(c, setRows)
    ensures !HasRowOf(rows, setRows) ==> forall c <- rows :: !Listed(c, setRows)
  {
    if HasRowOf(rows, setRows) {
      var r :| r in setRows && Listed(r, rows);
      var c :| c in rows && SameRow(r, c);
      assert SameRow(c, r);
      assert Listed(c, setRows);
    }
    forall c <- rows | Listed(c, setRows) ensures HasRowOf(rows, setRows) {
      var r :| r in setRows && SameRow(c, r);
      assert SameRow(r, c);
      assert Listed(r, rows);
    }
  }

  lemma NamedLookalikes(item: Item)
    requires Inv(item)
    ensures NoLookalike(item.rows, IntroRows(item.file)) && NoLookalike(item.rows, CreditsRows(item.file))
    ensures NoLookalike(item.rows, IntroRows(Replacing(item.file))) && NoLookalike(item.rows, CreditsRows(Replacing(item.file)))
  {
    forall c <- item.rows | c.author == Other
      ensures && !Listed(c, IntroRows(item.file)) && !Listed(c, CreditsRows(item.file))
              && !Listed(c, IntroRows(Replacing(item.file))) && !Listed(c, CreditsRows(Replacing(item.file)))
    {
      OurRowsByGroup(c, item.file);
    }
  }

  /** The group part of `ShownOf`'s answer covers all our rows of that group. */
  lemma ShownCoversGroup(item: Item, g: Group)
    requires Inv(item)
    ensures var s := GroupRows(item.file, g); var r := GroupRows(Replacing(item.file), g);
            OursWithin(item.rows, g, if HasRowOf(item.rows, s) then s else if HasRowOf(item.rows, r) then r else [])
  {
    var s := GroupRows(item.file, g);
    var r := GroupRows(Replacing(item.file), g);
    NamedLookalikes(item);
    ShownThroughOurs(item.rows, s, g);
    ShownThroughOurs(item.rows, r, g);
    if HasRowOf(item.rows, s) && !OursWithin(item.rows, g, s) {
      var c :| c in item.rows && c.author == Plugin && InGroup(c, g) && Listed(c, s);
      ApartRows(item.file, Replacing(item.file), g, c);
      assert false;
    }
  }

  lemma ShownRows(existing: seq<ChapterInfo>, stored: Option<Markers>, g: Group)
    requires AllPaired(stored)
    ensures Paired(Shown(existing, stored))
    ensures var s := GroupRows(stored, g); var r := GroupRows(Replacing(stored), g);
            GroupRows(Shown(existing, stored), g)
            == if HasRowOf(existing, s) then s else if HasRowOf(existing, r) then r else []
  {
  }

  /**
   * What a write takes down of the rows on the item: a valid set (or none) that replaces nothing itself, names every
   * row of ours and nothing the store didn't already name, and is apart from whatever both old sets were apart from.
   */
  lemma ShownIsFaithful(item: Item, next: Option<Markers>)
    requires Inv(item)
    requires Apart(next, item.file) && Apart(next, Replacing(item.file))
    ensures var shown := Shown(item.rows, item.file);
            && Paired(shown)
            && (shown.Some? ==> Valid(shown) && shown.value.replacing.None?)
            && (forall c <- item.rows | c.author == Plugin :: Listed(c, RowsFor(shown)))
            && (forall c | Listed(c, RowsFor(shown)) :: Listed(c, OurRows(item.file)))
            && Apart(next, shown)
  {
    var shown := Shown(item.rows, item.file);
    if item.file.Some? {
      ReadableShapes(item.file);
    }
    ShownRows(item.rows, item.file, Intro);
    ShownRows(item.rows, item.file, Credits);
    ShownCoversGroup(item, Intro);
    ShownCoversGroup(item, Credits);
    forall c <- item.rows | c.author == Plugin ensures Listed(c, RowsFor(shown)) {
      assert InGroup(c, Intro) || InGroup(c, Credits);
      ListedInSum(c, IntroRows(shown), CreditsRows(shown));
    }
    forall c | Listed(c, RowsFor(shown)) ensures Listed(c, OurRows(item.file)) {
      ListedInSum(c, IntroRows(shown), CreditsRows(shown));
      OurRowsByGroup(c, item.file);
    }
  }

  // What Apply leaves of ours ---------------------------------------------------------------------------------------

  lemma RowsForGroup(c: ChapterInfo, m: Option<Markers>, g: Group)
    requires Paired(m) && InGroup(c, g)
    ensures Listed(c, RowsFor(m)) <==> Listed(c, GroupRows(m, g))
  {
    ListedInSum(c, IntroRows(m), CreditsRows(m));
  }

  /** After `Apply`, every row of ours is a wanted one; other people's rows were there before. */
  lemma AppliedOurs(item: Item, ours: Option<Markers>, wanted: Option<Markers>, replaceOthers: bool)
    requires AllPaired(ours) && Paired(wanted)
    requires forall c <- item.rows | c.author == Plugin :: Listed(c, OurRows(ours)) || Listed(c, RowsFor(wanted))
    ensures var rows := Applied(item.rows, ours, wanted, replaceOthers);
            && (forall c <- rows | c.author == Plugin :: Listed(c, RowsFor(wanted)))
            && (forall c <- rows | c.author == Other :: c in item.rows)
  {
    var rows := Applied(item.rows, ours, wanted, replaceOthers);
    forall c <- rows ensures c.author == Plugin ==> Listed(c, RowsFor(wanted)) {
      AppliedOrigin(item.rows, ours, wanted, replaceOthers, c);
      assert c in RowsFor(wanted) ==> SameRow(c, c);
    }
    forall c <- rows | c.author == Other ensures c in item.rows {
      AppliedOrigin(item.rows, ours, wanted, replaceOthers, c);
    }
  }

  /** When `Apply` changes nothing, every row of ours already is a wanted one. */
  lemma UnchangedOurs(item: Item, ours: Option<Markers>, wanted: Option<Markers>, replaceOthers: bool)
    requires AllPaired(ours) && Paired(wanted)
    requires forall c <- item.rows | c.author == Plugin :: Listed(c, OurRows(ours)) || Listed(c, RowsFor(wanted))
    requires SameRows(item.rows, Applied(item.rows, ours, wanted, replaceOthers))
    ensures forall c <- item.rows | c.author == Plugin :: Listed(c, RowsFor(wanted))
  {
    var rows := Applied(item.rows, ours, wanted, replaceOthers);
    forall c <- item.rows | c.author == Plugin ensures Listed(c, RowsFor(wanted)) {
      SameRowsTwin(item.rows, rows, c);
      var d :| d in rows && SameRow(c, d);
      AppliedOrigin(item.rows, ours, wanted, replaceOthers, d);
      if d !in RowsFor(wanted) {
        ListedTwin(c, d, OurRows(ours));
      }
    }
  }

  // Every step keeps the invariant ----------------------------------------------------------------------------------

  /**
   * A readable record over rows whose plugin-written ones are all in its own set, or all in the set it replaces,
   * meets the invariant when it names nothing of anybody else's.
   */
  lemma RecordInv(item: Item, saved: Option<Markers>, rows: seq<ChapterInfo>)
    requires Inv(item)
    requires Readable(saved) && AllPaired(saved) && Apart(saved, Replacing(saved))
    requires NoLookalike(item.rows, RowsFor(saved))
    requires forall c | Listed(c, RowsFor(Replacing(saved))) :: Listed(c, OurRows(item.file))
    requires forall c <- rows | c.author == Other :: c in item.rows
    requires || (forall c <- rows | c.author == Plugin :: Listed(c, RowsFor(saved)))
             || (forall c <- rows | c.author == Plugin :: Listed(c, RowsFor(Replacing(saved))))
    ensures Inv(Item(saved, rows))
  {
    forall c <- rows | c.author == Other ensures !Listed(c, OurRows(saved)) {
      ListedInSum(c, RowsFor(saved), RowsFor(Replacing(saved)));
      assert c in item.rows;
    }
    RecordOneSet(saved, rows, Intro);
    RecordOneSet(saved, rows, Credits);
    assert forall c <- rows | c.author == Plugin :: c.kind != Chapter by {
      NoChapterListed(saved);
      NoChapterListed(Replacing(saved));
    }
  }

  lemma RecordOneSet(saved: Option<Markers>, rows: seq<ChapterInfo>, g: Group)
    requires AllPaired(saved)
    requires || (forall c <- rows | c.author == Plugin :: Listed(c, RowsFor(saved)))
             || (forall c <- rows | c.author == Plugin :: Listed(c, RowsFor(Replacing(saved))))
    ensures OneSet(Item(saved, rows), g)
  {
    GroupOfListed(rows, saved, g);
    GroupOfListed(rows, Replacing(saved), g);
  }

  lemma NoChapterListed(m: Option<Markers>)
    requires Paired(m)
    ensures forall c | Listed(c, RowsFor(m)) :: c.kind != Chapter
  {
  }

  lemma GroupOfListed(rows: seq<ChapterInfo>, m: Option<Markers>, g: Group)
    requires Paired(m)
    ensures (forall c <- rows | c.author == Plugin :: Listed(c, RowsFor(m))) ==> OursWithin(rows, g, GroupRows(m, g))
  {
    if forall c <- rows | c.author == Plugin :: Listed(c, RowsFor(m)) {
      forall c <- rows | c.author == Plugin && InGroup(c, g) ensures Listed(c, GroupRows(m, g)) {
        RowsForGroup(c, m, g);
      }
    }
  }

  /** `RecordInv` for the records a write saves. */
  lemma SettledInv(item: Item, rows: seq<ChapterInfo>, next: Option<Markers>, replacing: Option<Markers>)
    requires Inv(item)
    requires next.None? || (Valid(next) && next.value.replacing.None?)
    requires replacing.Some? ==> Valid(replacing) && replacing.value.replacing.None?
    requires Paired(next) && Paired(replacing) && Apart(next, replacing)
    requires NoLookalike(item.rows, RowsFor(next))
    requires forall c | Listed(c, RowsFor(replacing)) :: Listed(c, OurRows(item.file))
    requires forall c <- rows | c.author == Other :: c in item.rows
    requires || (forall c <- rows | c.author == Plugin :: Listed(c, RowsFor(next)))
             || (forall c <- rows | c.author == Plugin :: Listed(c, RowsFor(replacing)))
    ensures Inv(Item(With(next, replacing), rows))
  {
    var saved := With(next, replacing);
    SavedIsReadBack(next, replacing);
    assert RowsFor(saved) == RowsFor(next);
    assert Replacing(saved) == replacing;
    RecordInv(item, saved, rows);
  }

  /** The four states a write can leave behind, whichever of its writes fails or stops. */
  lemma WriteOutcomes(item: Item, rows: seq<ChapterInfo>, previous: Option<Markers>, next: Option<Markers>, f: Faults)
    requires AllPaired(previous)
    ensures var after := Write(item, rows, previous, next, f);
            var replacing := Shown(item.rows, previous);
            if SameRows(item.rows, rows) then after == item || after == Item(With(next, None), item.rows)
            else
              || after == item
              || after == Item(previous, item.rows)
              || after == Item(With(next, replacing), item.rows)
              || after == Item(With(next, replacing), rows)
              || after == Item(With(next, None), rows)
  {
  }

  lemma WriteKeepsInv(item: Item, wanted: Option<Markers>, replaceOthers: bool, next: Option<Markers>, f: Faults)
    requires Inv(item)
    requires next.None? || (Valid(next) && next.value.replacing.None?)
    requires wanted == next || wanted.None?
    requires Apart(next, item.file) && Apart(next, Replacing(item.file))
    requires NoLookalike(item.rows, RowsFor(next))
    ensures Inv(Write(item, Applied(item.rows, item.file, wanted, replaceOthers), item.file, next, f))
  {
    var rows := Applied(item.rows, item.file, wanted, replaceOthers);
    WriteOutcomes(item, rows, item.file, next, f);
    if SameRows(item.rows, rows) {
      UnchangedWriteInv(item, wanted, replaceOthers, next);
    } else {
      ChangedWriteInv(item, wanted, replaceOthers, next);
    }
  }

  lemma UnchangedWriteInv(item: Item, wanted: Option<Markers>, replaceOthers: bool, next: Option<Markers>)
    requires Inv(item)
    requires next.None? || (Valid(next) && next.value.replacing.None?)
    requires wanted == next || wanted.None?
    requires NoLookalike(item.rows, RowsFor(next))
    requires SameRows(item.rows, Applied(item.rows, item.file, wanted, replaceOthers))
    ensures Inv(Item(With(next, None), item.rows))
  {
    InvNamesEveryRow(item);
    UnchangedOurs(item, item.file, wanted, replaceOthers);
    assert wanted.None? ==> forall c :: !Listed(c, RowsFor(wanted));
    SettledInv(item, item.rows, next, None);
  }

  lemma ChangedWriteInv(item: Item, wanted: Option<Markers>, replaceOthers: bool, next: Option<Markers>)
    requires Inv(item)
    requires next.None? || (Valid(next) && next.value.replacing.None?)
    requires wanted == next || wanted.None?
    requires Apart(next, item.file) && Apart(next, Replacing(item.file))
    requires NoLookalike(item.rows, RowsFor(next))
    ensures var rows := Applied(item.rows, item.file, wanted, replaceOthers);
            var replacing := Shown(item.rows, item.file);
            && Inv(Item(With(next, replacing), item.rows))
            && Inv(Item(With(next, replacing), rows))
            && Inv(Item(With(next, None), rows))
  {
    var rows := Applied(item.rows, item.file, wanted, replaceOthers);
    var replacing := Shown(item.rows, item.file);
    InvNamesEveryRow(item);
    ShownIsFaithful(item, next);
    AppliedOurs(item, item.file, wanted, replaceOthers);
    assert wanted.None? ==> forall c :: !Listed(c, RowsFor(wanted));
    SettledInv(item, item.rows, next, replacing);
    SettledInv(item, rows, next, replacing);
    SettledInv(item, rows, next, None);
  }

  lemma HealKeepsInv(item: Item, currentSize: Option<int>, path: string, f: Faults)
    requires Inv(item)
    ensures Inv(HealStep(item, currentSize, path, f))
  {
    var stored := item.file;
    InvNamesEveryRow(item);
    if stored.None? {
    } else if IsStale(stored, currentSize, path) {
      StaleHealInv(item);
    } else {
      FreshHealInv(item);
    }
  }

  lemma StaleHealInv(item: Item)
    requires Inv(item) && item.file.Some?
    ensures Inv(item.(rows := Applied(item.rows, item.file, None, false)))
  {
    InvNamesEveryRow(item);
    AppliedOurs(item, item.file, None, false);
    assert forall c :: !Listed(c, RowsFor(None));
  }

  /** Rows of ours are in the stored set or in the replaced one: what the healer's `Apply` needs to know. */
  lemma HealFacts(item: Item)
    requires Inv(item)
    ensures forall c <- item.rows | c.author == Plugin
              :: Listed(c, OurRows(Replacing(item.file))) || Listed(c, RowsFor(item.file))
    ensures NoLookalike(item.rows, RowsFor(item.file))
    ensures forall c | Listed(c, RowsFor(Replacing(item.file))) :: Listed(c, OurRows(item.file))
  {
    InvNamesEveryRow(item);
    forall c ensures Listed(c, OurRows(item.file)) <==> Listed(c, RowsFor(item.file)) || Listed(c, RowsFor(Replacing(item.file))) {
      ListedInSum(c, RowsFor(item.file), RowsFor(Replacing(item.file)));
    }
    forall c ensures Listed(c, RowsFor(Replacing(item.file))) ==> Listed(c, OurRows(Replacing(item.file))) {
      ListedInSum(c, RowsFor(Replacing(item.file)), RowsFor(Replacing(Replacing(item.file))));
    }
  }

  lemma FreshHealInv(item: Item)
    requires Inv(item) && item.file.Some?
    ensures var rows := Applied(item.rows, Replacing(item.file), item.file, false);
            && Inv(item.(rows := rows))
            && Inv(Item(With(item.file, None), rows))
            && (SameRows(item.rows, rows) ==> Inv(Item(With(item.file, None), item.rows)))
  {
    var rows := Applied(item.rows, Replacing(item.file), item.file, false);
    ReadableShapes(item.file);
    HealFacts(item);
    AppliedOurs(item, Replacing(item.file), item.file, false);
    RecordInv(item, item.file, rows);
    FinishedInv(item, rows);
    if SameRows(item.rows, rows) {
      UnchangedOurs(item, Replacing(item.file), item.file, false);
      FinishedInv(item, item.rows);
    }
  }

  /** The finished record over rows that are all its own meets the invariant. */
  lemma FinishedInv(item: Item, rows: seq<ChapterInfo>)
    requires Inv(item) && item.file.Some?
    requires forall c <- rows | c.author == Other :: c in item.rows
    requires forall c <- rows | c.author == Plugin :: Listed(c, RowsFor(item.file))
    ensures Inv(Item(With(item.file, None), rows))
  {
    var finished := With(item.file, None);
    ReadableShapes(item.file);
    HealFacts(item);
    assert RowsFor(finished) == RowsFor(item.file);
    assert forall c :: !Listed(c, RowsFor(Replacing(finished)));
    RecordInv(item, finished, rows);
  }

  lemma StepKeepsInv(item: Item, event: Event)
    requires Inv(item) && Admissible(item, event)
    ensures Inv(Step(item, event))
  {
    InvNamesEveryRow(item);
    match event
    case Post(request, size, path, replaceOthers, f) =>
      if Valid(Some(Requested(request, path))) {
        PostKeepsInv(item, event);
      }
    case Delete(f) =>
      assert forall c :: !Listed(c, RowsFor(None));
      WriteKeepsInv(item, None, false, None, f);
    case Updated(size, path, f) => HealKeepsInv(item, size, path, f);
    case Lost(left) =>
      forall c <- left ensures c in item.rows {
        assert multiset(left)[c] > 0;
      }
    case Added(row) =>
      NamedRows(row, item.file);
      assert forall c <- item.rows + [row] :: c in item.rows || c == row;
  }

  lemma PostKeepsInv(item: Item, event: Event)
    requires Inv(item) && Admissible(item, event) && event.Post? && Valid(Some(Requested(event.request, event.path)))
    ensures Inv(Step(item, event))
  {
    var markers := Requested(event.request, event.path);
    var wanted := if IsStale(Some(markers), event.currentSize, event.path) then None else Some(markers);
    InvNamesEveryRow(item);
    forall c <- item.rows | c.author == Other ensures !Listed(c, RowsFor(Some(markers))) {
      RowsOfSet(c, Some(markers));
    }
    WriteKeepsInv(item, wanted, event.replaceOthers, Some(markers), event.faults);
  }

  lemma {:induction false} RunKeepsInv(item: Item, events: seq<Event>)
    requires Inv(item) && AdmissibleRun(item, events)
    ensures Inv(Run(item, events))
    decreases |events|
  {
    if events != [] {
      StepKeepsInv(item, events[0]);
      RunKeepsInv(Step(item, events[0]), events[1..]);
    }
  }

  /**
   * After any admissible run of POSTs, DELETEs, item updates, lost rows and rows others add, with any write of any
   * operation failing or being the last before a stop, the stored record reads back and names every row of ours.
   */
  lemma EveryRunNamesEveryRow(start: Item, events: seq<Event>)
    requires Untouched(start) && AdmissibleRun(start, events)
    ensures EveryRowNamed(Run(start, events)) && Load(Run(start, events).file) == Run(start, events).file
  {
    RunKeepsInv(start, events);
    InvNamesEveryRow(Run(start, events));
  }

  /** Taking the named rows off an item takes every row of ours off it. */
  lemma StripsOurs(item: Item)
    requires Inv(item)
    ensures var rows := Applied(item.rows, item.file, None, false);
            && (forall c <- rows :: c.author == Other)
            && (SameRows(item.rows, rows) ==> forall c <- item.rows :: c.author == Other)
  {
    InvNamesEveryRow(item);
    AppliedOurs(item, item.file, None, false);
    assert forall c :: !Listed(c, RowsFor(None));
    if SameRows(item.rows, Applied(item.rows, item.file, None, false)) {
      UnchangedOurs(item, item.file, None, false);
    }
  }

  lemma DeleteCleansUp(item: Item)
    requires Inv(item)
    ensures Untouched(DeleteStep(item, ALL_DONE))
  {
    InvNamesEveryRow(item);
    StripsOurs(item);
    WriteDone(item, Applied(item.rows, item.file, None, false), item.file, None);
  }

  /** A write whose every part goes through leaves the new record, without a replaced set, over the new rows. */
  lemma WriteDone(item: Item, rows: seq<ChapterInfo>, previous: Option<Markers>, next: Option<Markers>)
    requires AllPaired(previous)
    ensures Write(item, rows, previous, next, ALL_DONE)
         == Item(With(next, None), if SameRows(item.rows, rows) then item.rows else rows)
  {
  }

  /** So a DELETE that goes through leaves no store file and no row of ours, whatever happened before it. */
  lemma DeleteAlwaysCleansUp(start: Item, events: seq<Event>)
    requires Untouched(start) && AdmissibleRun(start, events)
    ensures Untouched(Step(Run(start, events), Delete(ALL_DONE)))
  {
    RunKeepsInv(start, events);
    DeleteCleansUp(Run(start, events));
  }

  predicate NoneOfOurs(item: Item) {
    forall c <- item.rows :: c.author == Other
  }

  /**
   * An item update of a replaced file takes every row of ours off the item, whatever happened before it: the file's
   * size and the stored one are known and differ, or both paths are and do.
   */
  lemma StaleUpdateRemovesOurRows(start: Item, events: seq<Event>, currentSize: Option<int>, path: string)
    requires Untouched(start) && AdmissibleRun(start, events) && Run(start, events).file.Some?
    requires var m := Run(start, events).file.value;
             || (m.fileSize.Some? && currentSize.Some? && m.fileSize.value != currentSize.value)
             || (m.path != "" && path != "" && m.path != path)
    ensures NoneOfOurs(Step(Run(start, events), Updated(currentSize, path, ALL_DONE)))
  {
    RunKeepsInv(start, events);
    StaleHealStrips(Run(start, events), currentSize, path);
  }

  lemma StaleHealStrips(item: Item, currentSize: Option<int>, path: string)
    requires Inv(item) && item.file.Some?
    requires var m := item.file.value;
             || (m.fileSize.Some? && currentSize.Some? && m.fileSize.value != currentSize.value)
             || (m.path != "" && path != "" && m.path != path)
    ensures NoneOfOurs(Step(item, Updated(currentSize, path, ALL_DONE)))
  {
    InvNamesEveryRow(item);
    StripsOurs(item);
  }
}
