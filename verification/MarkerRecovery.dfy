/** What an item update restores, what a POST delivers and what no operation touches. */
module MarkerRecovery {
  import opened Wrappers
  import opened StoredMarkers
  import opened MarkerChapters
  import opened MarkerRows
  import opened MarkerProtocol
  import opened MarkerSafety

  // What the rows show ----------------------------------------------------------------------------------------------

  /** Exactly one row of this type, with this name and start. */
  predicate OnlyRow(rows: seq<ChapterInfo>, kind: MarkerType, name: string, start: int) {
    exists c <- rows ::
      && c.kind == kind && c.name == name && c.start == start
      && multiset(rows)[c] == 1
      && forall d <- rows | d.kind == kind :: d == c
  }

  predicate ShowsIntro(rows: seq<ChapterInfo>, m: Markers) {
    && m.introStart.Some? && OnlyRow(rows, IntroStart, "Intro", m.introStart.value)
    && m.introEnd.Some? && OnlyRow(rows, IntroEnd, "Intro End", m.introEnd.value)
  }

  predicate ShowsCredits(rows: seq<ChapterInfo>, m: Markers) {
    m.creditsStart.Some? && OnlyRow(rows, CreditsStart, "Credits", m.creditsStart.value)
  }

  predicate NoIntroRow(rows: seq<ChapterInfo>) {
    forall c <- rows :: c.kind != IntroStart && c.kind != IntroEnd
  }

  predicate NoCreditsRow(rows: seq<ChapterInfo>) {
    forall c <- rows :: c.kind != CreditsStart
  }

  /** The only row of its type among the group's rows is the only one on the item. */
  lemma OnlyInGroup(rows: seq<ChapterInfo>, g: Group, c: ChapterInfo)
    requires InGroup(c, g) && multiset(OfGroup(rows, g))[c] == 1
    requires forall d <- OfGroup(rows, g) | d.kind == c.kind :: d == c
    ensures OnlyRow(rows, c.kind, c.name, c.start)
  {
    OfGroupCount(rows, g, c);
    forall d <- rows | d.kind == c.kind ensures d == c {
      OfGroupCount(rows, g, d);
      assert multiset(rows)[d] > 0;
    }
    assert c in rows;
  }

  lemma SameLength(a: seq<ChapterInfo>, b: seq<ChapterInfo>)
    requires SameRows(a, b)
    ensures |a| == |b|
  {
    assert |multiset(Keys(a))| == |a| && |multiset(Keys(b))| == |b|;
  }

  lemma TwoOfTwo<T>(a: T, b: T, x: T, y: T)
    requires multiset{a, b} == multiset{x, y}
    ensures (a == x && b == y) || (a == y && b == x)
  {
    assert a in multiset{x, y} && x in multiset{a, b} && y in multiset{a, b};
    if a == x {
      assert multiset{b} == multiset{a, b} - multiset{a} == multiset{x, y} - multiset{x} == multiset{y};
      assert b in multiset{y};
    }
  }

  /** Rows with the keys of two rows are those two, in either order. */
  lemma TwoRowsWithKeys(shown: seq<ChapterInfo>, x: ChapterInfo, y: ChapterInfo) returns (first: ChapterInfo, last: ChapterInfo)
    requires SameRows(shown, [x, y])
    ensures shown == [first, last] || shown == [last, first]
    ensures Key(first) == Key(x) && Key(last) == Key(y)
  {
    SameLength(shown, [x, y]);
    var a, b := shown[0], shown[1];
    assert shown == [a, b];
    assert multiset{Key(a), Key(b)} == multiset{Key(x), Key(y)} by {
      assert Keys(shown) == [Key(a), Key(b)] && Keys([x, y]) == [Key(x), Key(y)];
    }
    TwoOfTwo(Key(a), Key(b), Key(x), Key(y));
    if Key(a) == Key(x) && Key(b) == Key(y) {
      first, last := a, b;
    } else {
      first, last := b, a;
    }
  }

  lemma NoneInGroup(rows: seq<ChapterInfo>, g: Group)
    requires OfGroup(rows, g) == []
    ensures forall c <- rows :: !InGroup(c, g)
  {
    forall c <- rows ensures !InGroup(c, g) {
      OfGroupCount(rows, g, c);
    }
  }

  lemma OnlyTwo(rows: seq<ChapterInfo>, g: Group, a: ChapterInfo, b: ChapterInfo)
    requires OfGroup(rows, g) == [a, b] || OfGroup(rows, g) == [b, a]
    requires InGroup(a, g) && InGroup(b, g) && a.kind != b.kind
    ensures OnlyRow(rows, a.kind, a.name, a.start) && OnlyRow(rows, b.kind, b.name, b.start)
  {
    OnlyInGroup(rows, g, a);
    OnlyInGroup(rows, g, b);
  }

  /** Rows with the two keys of an intro show that intro; rows with no keys show none. */
  lemma IntroShows(rows: seq<ChapterInfo>, m: Markers)
    requires Paired(Some(m)) && SameRows(OfGroup(rows, Intro), IntroRows(Some(m)))
    ensures if m.introStart.Some? then ShowsIntro(rows, m) else NoIntroRow(rows)
  {
    if m.introStart.Some? {
      var ours := IntroRows(Some(m));
      assert ours == [ours[0], ours[1]];
      var first, last := TwoRowsWithKeys(OfGroup(rows, Intro), ours[0], ours[1]);
      OnlyTwo(rows, Intro, first, last);
    } else {
      SameLength(OfGroup(rows, Intro), IntroRows(Some(m)));
      NoneInGroup(rows, Intro);
    }
  }

  lemma CreditsShow(rows: seq<ChapterInfo>, m: Markers)
    requires SameRows(OfGroup(rows, Credits), CreditsRows(Some(m)))
    ensures if m.creditsStart.Some? then ShowsCredits(rows, m) else NoCreditsRow(rows)
  {
    var shown, ours := OfGroup(rows, Credits), CreditsRows(Some(m));
    SameLength(shown, ours);
    if m.creditsStart.Some? {
      assert Keys(shown) == [Key(shown[0])] && Keys(ours) == [Key(ours[0])];
      assert Key(shown[0]) in multiset(Keys(ours));
      assert shown == [shown[0]];
      OnlyInGroup(rows, Credits, shown[0]);
    } else {
      NoneInGroup(rows, Credits);
    }
  }

  /** The file's own chapters: each as often as before. */
  ghost predicate SameChapters(before: seq<ChapterInfo>, after: seq<ChapterInfo>) {
    forall c: ChapterInfo | c.kind == Chapter :: multiset(after)[c] == multiset(before)[c]
  }

  lemma ChaptersAsBefore(before: seq<ChapterInfo>, after: seq<ChapterInfo>)
    requires multiset(PlainChapters(after)) == multiset(PlainChapters(before))
    ensures SameChapters(before, after)
  {
    forall c: ChapterInfo | c.kind == Chapter ensures multiset(after)[c] == multiset(before)[c] {
      PlainChaptersCount(before, c);
      PlainChaptersCount(after, c);
    }
  }

  // Recovery --------------------------------------------------------------------------------------------------------

  /** Group `g` on the item is exactly the stored set's rows, exactly the replaced set's, or empty. */
  predicate WholeGroup(item: Item, g: Group)
    requires AllPaired(item.file)
  {
    || SameRows(OfGroup(item.rows, g), GroupRows(item.file, g))
    || SameRows(OfGroup(item.rows, g), GroupRows(Replacing(item.file), g))
    || OfGroup(item.rows, g) == []
  }

  lemma {:induction false} KeptWhole(rows: seq<ChapterInfo>, named: seq<ChapterInfo>, g: Group)
    requires forall c <- OfGroup(rows, g) :: !Listed(c, named)
    ensures OfGroup(Without(rows, named), g) == OfGroup(rows, g)
  {
    if rows != [] {
      if InGroup(rows[0], g) {
        assert OfGroup(rows, g)[0] == rows[0];
        assert OfGroup(rows, g)[1..] == OfGroup(rows[1..], g);
      }
      KeptWhole(rows[1..], named, g);
    }
  }

  lemma {:induction false} StrippedWhole(rows: seq<ChapterInfo>, named: seq<ChapterInfo>, g: Group)
    requires forall c <- OfGroup(rows, g) :: Listed(c, named)
    ensures OfGroup(Without(rows, named), g) == []
  {
    if rows != [] {
      if InGroup(rows[0], g) {
        assert OfGroup(rows, g)[0] == rows[0];
        assert OfGroup(rows, g)[1..] == OfGroup(rows[1..], g);
      }
      StrippedWhole(rows[1..], named, g);
    }
  }

  /** The rows a finished item update aims for. */
  function HealRows(item: Item): seq<ChapterInfo>
    requires AllPaired(item.file) && AllPaired(Replacing(item.file))
  {
    Applied(item.rows, Replacing(item.file), item.file, false)
  }

  lemma NamedByReplacing(c: ChapterInfo, file: Option<Markers>, g: Group)
    requires Readable(file) && AllPaired(file) && InGroup(c, g)
    ensures AllPaired(Replacing(file))
    ensures Listed(c, OurRows(Replacing(file))) <==> Listed(c, GroupRows(Replacing(file), g))
  {
    if file.Some? {
      ReadableShapes(file);
    }
    var r := Replacing(file);
    ListedInSum(c, RowsFor(r), RowsFor(Replacing(r)));
    RowsForGroup(c, r, g);
  }

  lemma OfGroupMembers(rows: seq<ChapterInfo>, g: Group, c: ChapterInfo)
    requires c in OfGroup(rows, g)
    ensures InGroup(c, g) && c in rows
  {
    OfGroupCount(rows, g, c);
    assert multiset(OfGroup(rows, g))[c] > 0;
  }

  lemma NamedInGroup(item: Item, g: Group)
    requires Readable(item.file) && AllPaired(item.file) && AllPaired(Replacing(item.file))
    ensures forall c <- OfGroup(item.rows, g) ::
              Listed(c, OurRows(Replacing(item.file))) <==> Listed(c, GroupRows(Replacing(item.file), g))
  {
    forall c <- OfGroup(item.rows, g)
      ensures Listed(c, OurRows(Replacing(item.file))) <==> Listed(c, GroupRows(Replacing(item.file), g))
    {
      OfGroupMembers(item.rows, g, c);
      NamedByReplacing(c, item.file, g);
    }
  }

  /** A group that is all of the stored set's rows is left as it is. */
  lemma StoredGroupHeals(item: Item, g: Group)
    requires Readable(item.file) && AllPaired(item.file) && Apart(item.file, Replacing(item.file))
    requires AllPaired(Replacing(item.file))
    requires SameRows(OfGroup(item.rows, g), GroupRows(item.file, g))
    requires GroupRows(item.file, g) != GroupRows(Replacing(item.file), g)
    ensures SameRows(OfGroup(HealRows(item), g), GroupRows(item.file, g))
  {
    var s, r := GroupRows(item.file, g), GroupRows(Replacing(item.file), g);
    var onItem, named := OfGroup(item.rows, g), OurRows(Replacing(item.file));
    NamedInGroup(item, g);
    forall c <- onItem ensures !Listed(c, named) {
      SameRowsTwin(onItem, s, c);
      if Listed(c, r) {
        OfGroupMembers(item.rows, g, c);
        ApartRows(item.file, Replacing(item.file), g, c);
      }
    }
    KeptWhole(item.rows, named, g);
    AppliedGroup(item.rows, Replacing(item.file), item.file, false, g);
    PermutationKeys(OfGroup(HealRows(item), g), if s == [] then onItem else GroupSwap(Kept(item.rows, Replacing(item.file)), s, g, false));
  }

  /** A group that is all of the replaced set's rows, or empty, is swapped for the stored set's. */
  lemma ReplacedGroupHeals(item: Item, g: Group)
    requires Readable(item.file) && AllPaired(item.file) && AllPaired(Replacing(item.file))
    requires forall c <- OfGroup(item.rows, g) :: Listed(c, GroupRows(Replacing(item.file), g))
    ensures SameRows(OfGroup(HealRows(item), g), GroupRows(item.file, g))
  {
    NamedInGroup(item, g);
    StrippedWhole(item.rows, OurRows(Replacing(item.file)), g);
    AppliedGroup(item.rows, Replacing(item.file), item.file, false, g);
    PermutationKeys(OfGroup(HealRows(item), g), GroupRows(item.file, g));
  }

  /** A whole group ends as exactly the stored set's rows. */
  lemma WholeGroupHeals(item: Item, g: Group)
    requires Readable(item.file) && AllPaired(item.file) && Apart(item.file, Replacing(item.file))
    requires AllPaired(Replacing(item.file))
    requires WholeGroup(item, g)
    ensures SameRows(OfGroup(HealRows(item), g), GroupRows(item.file, g))
  {
    var s, r, onItem := GroupRows(item.file, g), GroupRows(Replacing(item.file), g), OfGroup(item.rows, g);
    if SameRows(onItem, s) && s != r {
      StoredGroupHeals(item, g);
    } else {
      forall c <- onItem ensures Listed(c, r) {
        SameRowsTwin(onItem, r, c);
      }
      ReplacedGroupHeals(item, g);
    }
  }

  /** The item's file is still the one the set was sent for, as far as both sizes and both paths are known. */
  predicate SameFile(m: Markers, currentSize: Option<int>, path: string) {
    && (m.fileSize.None? || currentSize.None? || m.fileSize.value == currentSize.value)
    && (m.path == "" || path == "" || m.path == path)
  }

  /** The record once its write is finished: its own set alone, and no record when that has no markers. */
  function Finished(m: Markers): Option<Markers> {
    if m.introStart.None? && m.creditsStart.None? then None else Some(m.(replacing := None))
  }

  /**
   * One item update of an unreplaced file finishes whatever was interrupted: the record loses its replaced set (the
   * file goes when a DELETE was under way), and every group that was all there or all gone ends as exactly the stored
   * set's rows. The file's own chapters are untouched.
   */
  lemma HealConverges(item: Item, currentSize: Option<int>, path: string)
    requires Readable(item.file) && item.file.Some? && Apart(item.file, Replacing(item.file))
    requires SameFile(item.file.value, currentSize, path)
    ensures AllPaired(item.file)
    ensures var healed, m := HealStep(item, currentSize, path, ALL_DONE), item.file.value;
            && healed.file == Finished(m)
            && (WholeGroup(item, Intro) ==> if m.introStart.Some? then ShowsIntro(healed.rows, m) else NoIntroRow(healed.rows))
            && (WholeGroup(item, Credits) ==> if m.creditsStart.Some? then ShowsCredits(healed.rows, m) else NoCreditsRow(healed.rows))
            && SameChapters(item.rows, healed.rows)
  {
    ReadableShapes(item.file);
    var healed := HealStep(item, currentSize, path, ALL_DONE);
    HealOutcome(item, currentSize, path);
    ApplyConserves(item.rows, Replacing(item.file), item.file, false);
    ChaptersAsBefore(item.rows, healed.rows);
    if WholeGroup(item, Intro) {
      IntroRestored(item, currentSize, path);
    }
    if WholeGroup(item, Credits) {
      CreditsRestored(item, currentSize, path);
    }
  }

  lemma IntroRestored(item: Item, currentSize: Option<int>, path: string)
    requires Readable(item.file) && item.file.Some? && AllPaired(item.file) && Apart(item.file, Replacing(item.file))
    requires SameFile(item.file.value, currentSize, path) && WholeGroup(item, Intro)
    ensures var rows, m := HealStep(item, currentSize, path, ALL_DONE).rows, item.file.value;
            if m.introStart.Some? then ShowsIntro(rows, m) else NoIntroRow(rows)
  {
    GroupRestored(item, currentSize, path, Intro);
    IntroShows(HealStep(item, currentSize, path, ALL_DONE).rows, item.file.value);
  }

  lemma CreditsRestored(item: Item, currentSize: Option<int>, path: string)
    requires Readable(item.file) && item.file.Some? && AllPaired(item.file) && Apart(item.file, Replacing(item.file))
    requires SameFile(item.file.value, currentSize, path) && WholeGroup(item, Credits)
    ensures var rows, m := HealStep(item, currentSize, path, ALL_DONE).rows, item.file.value;
            if m.creditsStart.Some? then ShowsCredits(rows, m) else NoCreditsRow(rows)
  {
    GroupRestored(item, currentSize, path, Credits);
    CreditsShow(HealStep(item, currentSize, path, ALL_DONE).rows, item.file.value);
  }

  lemma GroupRestored(item: Item, currentSize: Option<int>, path: string, g: Group)
    requires Readable(item.file) && item.file.Some? && AllPaired(item.file) && Apart(item.file, Replacing(item.file))
    requires SameFile(item.file.value, currentSize, path) && WholeGroup(item, g)
    ensures SameRows(OfGroup(HealStep(item, currentSize, path, ALL_DONE).rows, g), GroupRows(item.file, g))
  {
    ReadableShapes(item.file);
    HealOutcome(item, currentSize, path);
    WholeGroupHeals(item, g);
    if SameRows(item.rows, HealRows(item)) {
      SameRowsByGroup(item.rows, HealRows(item), g);
    }
  }

  lemma HealOutcome(item: Item, currentSize: Option<int>, path: string)
    requires Readable(item.file) && item.file.Some? && AllPaired(item.file) && AllPaired(Replacing(item.file))
    requires !IsStale(item.file, currentSize, path)
    ensures HealStep(item, currentSize, path, ALL_DONE)
         == Item(With(item.file, None), if SameRows(item.rows, HealRows(item)) then item.rows else HealRows(item))
  {
    ReadableShapes(item.file);
    assert Load(item.file) == item.file;
    if item.file.value.replacing.None? {
      assert With(item.file, None) == item.file;
    }
  }

  lemma {:induction false} WithoutNothing(rows: seq<ChapterInfo>, named: seq<ChapterInfo>)
    requires forall c <- rows :: !Listed(c, named)
    ensures Without(rows, named) == rows
  {
    if rows != [] {
      assert forall c <- rows[1..] :: c in rows;
      WithoutNothing(rows[1..], named);
    }
  }

  /** `Apply` with nothing to strip and no group to fill changes nothing. */
  lemma ApplyNothing(rows: seq<ChapterInfo>, ours: Option<Markers>, wanted: Option<Markers>)
    requires AllPaired(ours) && Paired(wanted)
    requires forall c <- rows :: !Listed(c, OurRows(ours))
    requires forall g :: GroupRows(wanted, g) == [] || OfGroup(rows, g) != []
    ensures SameRows(rows, Applied(rows, ours, wanted, false))
  {
    WithoutNothing(rows, OurRows(ours));
    assert GroupRows(wanted, Intro) == [] || OfGroup(rows, Intro) != [];
    assert GroupRows(wanted, Credits) == [] || OfGroup(rows, Credits) != [];
    assert Swap(rows, wanted, false) == rows;
    OrderByStartSorts(rows);
    PermutationKeys(rows, OrderByStart(rows));
  }

  lemma HealLeavesNoGap(item: Item, g: Group)
    requires Readable(item.file) && AllPaired(item.file) && AllPaired(Replacing(item.file))
    ensures var after := if SameRows(item.rows, HealRows(item)) then item.rows else HealRows(item);
            GroupRows(item.file, g) == [] || OfGroup(after, g) != []
  {
    AppliedGroup(item.rows, Replacing(item.file), item.file, false, g);
    var healed := OfGroup(HealRows(item), g);
    assert GroupRows(item.file, g) != [] ==> |multiset(healed)| > 0;
    if SameRows(item.rows, HealRows(item)) {
      SameRowsByGroup(item.rows, HealRows(item), g);
      assert |multiset(Keys(OfGroup(item.rows, g)))| == |multiset(Keys(healed))|;
    }
  }

  /** A second item update changes nothing, whatever was on the item and whether or not the file was replaced. */
  lemma HealIdempotent(item: Item, currentSize: Option<int>, path: string)
    ensures var healed := HealStep(item, currentSize, path, ALL_DONE);
            HealStep(healed, currentSize, path, ALL_DONE) == healed
  {
    var stored := Load(item.file);
    if stored.None? {
    } else if IsStale(stored, currentSize, path) {
      StaleHealIdempotent(item, currentSize, path);
    } else {
      FreshHealIdempotent(item, currentSize, path);
    }
  }

  lemma StaleHealIdempotent(item: Item, currentSize: Option<int>, path: string)
    requires Load(item.file).Some? && IsStale(Load(item.file), currentSize, path)
    ensures var healed := HealStep(item, currentSize, path, ALL_DONE);
            HealStep(healed, currentSize, path, ALL_DONE) == healed
  {
    var stored := Load(item.file);
    var rows := Applied(item.rows, stored, None, false);
    forall c <- rows ensures !Listed(c, OurRows(stored)) {
      AppliedOrigin(item.rows, stored, None, false, c);
    }
    assert forall g :: GroupRows(None, g) == [];
    ApplyNothing(rows, stored, None);
  }

  /** A finished write with no group left to fill is what an item update leaves alone. */
  lemma NothingToHeal(item: Item, currentSize: Option<int>, path: string)
    requires Readable(item.file) && item.file.Some? && AllPaired(item.file) && item.file.value.replacing.None?
    requires forall g :: GroupRows(item.file, g) == [] || OfGroup(item.rows, g) != []
    requires !IsStale(item.file, currentSize, path)
    ensures HealStep(item, currentSize, path, ALL_DONE) == item
  {
    assert forall c <- item.rows :: !Listed(c, OurRows(None));
    ApplyNothing(item.rows, None, item.file);
    HealOutcome(item, currentSize, path);
  }

  lemma FreshHealIdempotent(item: Item, currentSize: Option<int>, path: string)
    requires Load(item.file).Some? && !IsStale(Load(item.file), currentSize, path)
    ensures var healed := HealStep(item, currentSize, path, ALL_DONE);
            HealStep(healed, currentSize, path, ALL_DONE) == healed
  {
    ReadableShapes(item.file);
    HealOutcome(item, currentSize, path);
    var healed := HealStep(item, currentSize, path, ALL_DONE);
    if healed.file.Some? {
      HealLeavesNoGap(item, Intro);
      HealLeavesNoGap(item, Credits);
      forall g ensures GroupRows(healed.file, g) == [] || OfGroup(healed.rows, g) != [] {
        assert g == Intro || g == Credits;
        assert GroupRows(healed.file, g) == GroupRows(item.file, g);
      }
      NothingToHeal(healed, currentSize, path);
    }
  }

  /** One item update restores every whole group and ends the write; a second changes nothing. */
  predicate Recovers(item: Item, currentSize: Option<int>, path: string)
    requires item.file.Some?
  {
    && AllPaired(item.file)
    && var healed, m := HealStep(item, currentSize, path, ALL_DONE), item.file.value;
    && healed.file == Finished(m)
    && (WholeGroup(item, Intro) ==> if m.introStart.Some? then ShowsIntro(healed.rows, m) else NoIntroRow(healed.rows))
    && (WholeGroup(item, Credits) ==> if m.creditsStart.Some? then ShowsCredits(healed.rows, m) else NoCreditsRow(healed.rows))
    && HealStep(healed, currentSize, path, ALL_DONE) == healed
  }

  /** Recovery after any admissible run: stopped writes and half-done DELETEs included. */
  lemma EveryRunRecovers(start: Item, events: seq<Event>, currentSize: Option<int>, path: string)
    requires Untouched(start) && AdmissibleRun(start, events)
    requires Run(start, events).file.Some? && SameFile(Run(start, events).file.value, currentSize, path)
    ensures Recovers(Run(start, events), currentSize, path)
  {
    RunKeepsInv(start, events);
    HealConverges(Run(start, events), currentSize, path);
    HealIdempotent(Run(start, events), currentSize, path);
  }

  // What a POST delivers --------------------------------------------------------------------------------------------

  /** Without anybody else's rows in it, a group is emptied by taking our rows off. */
  lemma OursStripped(item: Item, g: Group)
    requires Inv(item) && forall c <- item.rows | InGroup(c, g) :: c.author == Plugin
    ensures OfGroup(Kept(item.rows, item.file), g) == []
  {
    InvNamesEveryRow(item);
    forall c <- OfGroup(item.rows, g) ensures Listed(c, OurRows(item.file)) {
      OfGroupMembers(item.rows, g, c);
    }
    StrippedWhole(item.rows, OurRows(item.file), g);
  }

  lemma PostShowsGroup(item: Item, m: Markers, replaceOthers: bool, g: Group)
    requires Inv(item) && Valid(Some(m)) && GroupRows(Some(m), g) != []
    requires replaceOthers || forall c <- item.rows | InGroup(c, g) :: c.author == Plugin
    ensures var rows := Applied(item.rows, item.file, Some(m), replaceOthers);
            && SameRows(OfGroup(rows, g), GroupRows(Some(m), g))
            && (SameRows(item.rows, rows) ==> SameRows(OfGroup(item.rows, g), GroupRows(Some(m), g)))
  {
    var rows, wanted := Applied(item.rows, item.file, Some(m), replaceOthers), GroupRows(Some(m), g);
    if !replaceOthers {
      OursStripped(item, g);
    }
    AppliedGroup(item.rows, item.file, Some(m), replaceOthers, g);
    assert multiset(GroupSwap(Kept(item.rows, item.file), wanted, g, replaceOthers)) == multiset(wanted);
    PermutationKeys(OfGroup(rows, g), wanted);
    if SameRows(item.rows, rows) {
      SameRowsByGroup(item.rows, rows, g);
    }
  }

  /** Nothing of ours is wanted in the group, or somebody else's rows are to be kept in it. */
  predicate GetsNothing(item: Item, wanted: Option<Markers>, replaceOthers: bool, g: Group)
    requires Paired(wanted)
  {
    GroupRows(wanted, g) == [] || (!replaceOthers && exists c <- item.rows :: InGroup(c, g) && c.author == Other)
  }

  lemma LeftInGroup(item: Item, wanted: Option<Markers>, replaceOthers: bool, g: Group, c: ChapterInfo)
    requires Inv(item) && Paired(wanted) && GetsNothing(item, wanted, replaceOthers, g)
    requires c in Applied(item.rows, item.file, wanted, replaceOthers) && InGroup(c, g)
    ensures c in item.rows && !Listed(c, OurRows(item.file))
  {
    var rows, kept := Applied(item.rows, item.file, wanted, replaceOthers), Kept(item.rows, item.file);
    AppliedGroup(item.rows, item.file, wanted, replaceOthers, g);
    GroupKept(item, wanted, replaceOthers, g);
    OfGroupCount(rows, g, c);
    assert multiset(OfGroup(kept, g))[c] > 0;
    OfGroupMembers(kept, g, c);
    WithoutCount(item.rows, OurRows(item.file), c);
    assert multiset(item.rows)[c] > 0;
  }

  /** Such a group has no row of ours left. */
  lemma OursLeaveGroup(item: Item, wanted: Option<Markers>, replaceOthers: bool, g: Group)
    requires Inv(item) && Paired(wanted) && GetsNothing(item, wanted, replaceOthers, g)
    ensures var rows := Applied(item.rows, item.file, wanted, replaceOthers);
            && (forall c <- rows | InGroup(c, g) :: c.author == Other)
            && (SameRows(item.rows, rows) ==> forall c <- item.rows | InGroup(c, g) :: c.author == Other)
  {
    InvNamesEveryRow(item);
    var rows := Applied(item.rows, item.file, wanted, replaceOthers);
    forall c <- rows | InGroup(c, g) ensures c.author == Other && !Listed(c, OurRows(item.file)) {
      LeftInGroup(item, wanted, replaceOthers, g, c);
    }
    if SameRows(item.rows, rows) {
      UnnamedTwins(item, rows, g);
    }
  }

  lemma UnnamedTwins(item: Item, rows: seq<ChapterInfo>, g: Group)
    requires AllPaired(item.file) && SameRows(item.rows, rows)
    requires forall c <- item.rows | c.author == Plugin :: Listed(c, OurRows(item.file))
    requires forall c <- rows | InGroup(c, g) :: !Listed(c, OurRows(item.file))
    ensures forall c <- item.rows | InGroup(c, g) :: c.author == Other
  {
    forall c <- item.rows | InGroup(c, g) ensures c.author == Other {
      SameRowsTwin(item.rows, rows, c);
      var d :| d in rows && SameRow(c, d);
      ListedTwin(c, d, OurRows(item.file));
    }
  }

  lemma GroupKept(item: Item, wanted: Option<Markers>, replaceOthers: bool, g: Group)
    requires Inv(item) && Paired(wanted) && GetsNothing(item, wanted, replaceOthers, g)
    ensures var kept := Kept(item.rows, item.file);
            GroupSwap(kept, GroupRows(wanted, g), g, replaceOthers) == OfGroup(kept, g)
  {
    var kept := Kept(item.rows, item.file);
    if GroupRows(wanted, g) != [] {
      var c :| c in item.rows && InGroup(c, g) && c.author == Other;
      WithoutCount(item.rows, OurRows(item.file), c);
      OfGroupCount(kept, g, c);
      assert multiset(OfGroup(kept, g))[c] > 0;
    }
  }

  /** Nobody else's rows stand in the intro's way: there are none, or they are to be replaced. */
  predicate IntroFree(rows: seq<ChapterInfo>, replaceOthers: bool) {
    replaceOthers || forall c <- rows | c.kind == IntroStart || c.kind == IntroEnd :: c.author == Plugin
  }

  predicate CreditsFree(rows: seq<ChapterInfo>, replaceOthers: bool) {
    replaceOthers || forall c <- rows | c.kind == CreditsStart :: c.author == Plugin
  }

  /** What the rows show of a request that is for the item's own file. */
  predicate ShowsRequest(before: seq<ChapterInfo>, after: seq<ChapterInfo>, request: Markers, replaceOthers: bool) {
    && (if request.introStart.Some? && IntroFree(before, replaceOthers) then ShowsIntro(after, request)
        else forall c <- after | c.kind == IntroStart || c.kind == IntroEnd :: c.author == Other)
    && (if request.creditsStart.Some? && CreditsFree(before, replaceOthers) then ShowsCredits(after, request)
        else forall c <- after | c.kind == CreditsStart :: c.author == Other)
  }

  /**
   * A POST that goes through, after any run: the store holds the request, at the item's path and replacing nothing.
   * The intro is exactly a row "Intro" at its start and a row "Intro End" at its end, the credits exactly a row
   * "Credits" at theirs, unless somebody else's rows of that type are to be kept; a type the request doesn't have, or
   * doesn't get, has none of our rows. A request for a file of another size shows nothing.
   */
  lemma PostDelivers(start: Item, events: seq<Event>, request: Markers, size: Option<int>, path: string, replaceOthers: bool)
    requires Untouched(start) && AdmissibleRun(start, events) && Valid(Some(request))
    ensures var item := Run(start, events);
            var after := Step(item, Post(request, size, path, replaceOthers, ALL_DONE));
            && after.file == Some(Markers(request.introStart, request.introEnd, request.creditsStart, request.fileSize, path, None))
            && if request.fileSize.Some? && size.Some? && request.fileSize.value != size.value then NoneOfOurs(after)
               else ShowsRequest(item.rows, after.rows, request, replaceOthers)
  {
    RunKeepsInv(start, events);
    InvPostDelivers(Run(start, events), request, size, path, replaceOthers);
  }

  lemma InvPostDelivers(item: Item, request: Markers, size: Option<int>, path: string, replaceOthers: bool)
    requires Inv(item) && Valid(Some(request))
    ensures var after := PostStep(item, request, size, path, replaceOthers, ALL_DONE);
            && after.file == Some(Requested(request, path))
            && if request.fileSize.Some? && size.Some? && request.fileSize.value != size.value then NoneOfOurs(after)
               else ShowsRequest(item.rows, after.rows, request, replaceOthers)
  {
    var m := Requested(request, path);
    assert Valid(Some(m));
    var rows := PostRows(item, m, size, path, replaceOthers);
    WriteDone(item, rows, item.file, Some(m));
    assert Load(item.file) == item.file && With(Some(m), None) == Some(m);
    if IsStale(Some(m), size, path) {
      assert rows == Applied(item.rows, item.file, None, false);
      StripsOurs(item);
    } else {
      PostShowsIntro(item, m, replaceOthers);
      PostShowsCredits(item, m, replaceOthers);
    }
  }

  lemma PostShowsIntro(item: Item, m: Markers, replaceOthers: bool)
    requires Inv(item) && Valid(Some(m))
    ensures var rows := Applied(item.rows, item.file, Some(m), replaceOthers);
            var after := if SameRows(item.rows, rows) then item.rows else rows;
            if m.introStart.Some? && IntroFree(item.rows, replaceOthers) then ShowsIntro(after, m)
            else forall c <- after | c.kind == IntroStart || c.kind == IntroEnd :: c.author == Other
  {
    var rows := Applied(item.rows, item.file, Some(m), replaceOthers);
    if m.introStart.Some? && IntroFree(item.rows, replaceOthers) {
      PostShowsGroup(item, m, replaceOthers, Intro);
      IntroShows(if SameRows(item.rows, rows) then item.rows else rows, m);
    } else {
      OursLeaveGroup(item, Some(m), replaceOthers, Intro);
    }
  }

  lemma PostShowsCredits(item: Item, m: Markers, replaceOthers: bool)
    requires Inv(item) && Valid(Some(m))
    ensures var rows := Applied(item.rows, item.file, Some(m), replaceOthers);
            var after := if SameRows(item.rows, rows) then item.rows else rows;
            if m.creditsStart.Some? && CreditsFree(item.rows, replaceOthers) then ShowsCredits(after, m)
            else forall c <- after | c.kind == CreditsStart :: c.author == Other
  {
    var rows := Applied(item.rows, item.file, Some(m), replaceOthers);
    if m.creditsStart.Some? && CreditsFree(item.rows, replaceOthers) {
      PostShowsGroup(item, m, replaceOthers, Credits);
      CreditsShow(if SameRows(item.rows, rows) then item.rows else rows, m);
    } else {
      OursLeaveGroup(item, Some(m), replaceOthers, Credits);
    }
  }

  // Other people's rows ---------------------------------------------------------------------------------------------

  /** The plugin's own operations, as opposed to what happens around it. */
  predicate IsOperation(event: Event) {
    event.Post? || event.Delete? || event.Updated?
  }

  lemma HealRowsOutcomes(item: Item, currentSize: Option<int>, path: string, f: Faults)
    ensures var after := HealStep(item, currentSize, path, f).rows;
            var stored := Load(item.file);
            || after == item.rows
            || after == Applied(item.rows, stored, None, false)
            || (AllPaired(Replacing(stored)) && after == Applied(item.rows, Replacing(stored), stored, false))
  {
    var stored := Load(item.file);
    if stored.Some? {
      ReadableShapes(item.file);
      if !IsStale(stored, currentSize, path) {
        assert AllPaired(Replacing(stored));
      }
    }
  }

  /** The file's own chapters survive every operation, whatever fails or stops, as the same multiset of rows. */
  lemma ChaptersNeverChange(item: Item, event: Event)
    requires IsOperation(event)
    ensures SameChapters(item.rows, Step(item, event).rows)
  {
    var stored := Load(item.file);
    match event {
    case Post(request, size, path, replaceOthers, f) =>
      var markers := Requested(request, path);
      if Valid(Some(markers)) {
        var wanted := if IsStale(Some(markers), size, path) then None else Some(markers);
        WriteOutcomes(item, PostRows(item, markers, size, path, replaceOthers), stored, Some(markers), f);
        ApplyConserves(item.rows, stored, wanted, replaceOthers);
      }
    case Delete(f) =>
      WriteOutcomes(item, Applied(item.rows, stored, None, false), stored, None, f);
      ApplyConserves(item.rows, stored, None, false);
    case Updated(size, path, f) =>
      HealRowsOutcomes(item, size, path, f);
      ApplyConserves(item.rows, stored, None, false);
      if AllPaired(Replacing(stored)) {
        ApplyConserves(item.rows, Replacing(stored), stored, false);
      }
    }
    ChaptersAsBefore(item.rows, Step(item, event).rows);
  }

  /** The one way a row of somebody else's may go: a POST that wants that group and was told to replace it. */
  predicate SwapsGroup(event: Event, c: ChapterInfo) {
    && event.Post?
    && event.replaceOthers
    && Valid(Some(event.request))
    && match c.kind
       case IntroStart | IntroEnd => event.request.introStart.Some?
       case CreditsStart => event.request.creditsStart.Some?
       case Chapter => false
  }

  lemma OtherRowKept(rows: seq<ChapterInfo>, ours: Option<Markers>, wanted: Option<Markers>, replaceOthers: bool, c: ChapterInfo)
    requires AllPaired(ours) && Paired(wanted)
    requires c.author == Other && !Listed(c, OurRows(ours))
    requires replaceOthers ==> forall g | InGroup(c, g) :: GroupRows(wanted, g) == []
    ensures multiset(Applied(rows, ours, wanted, replaceOthers))[c] == multiset(rows)[c]
  {
    var list := Kept(rows, ours);
    AppliedCount(rows, ours, wanted, replaceOthers, c);
    SwapCount(list, wanted, replaceOthers, c);
    WithoutCount(rows, OurRows(ours), c);
    OfGroupCount(list, Intro, c);
    OfGroupCount(list, Credits, c);
    assert GroupRows(wanted, Intro) == IntroRows(wanted) && GroupRows(wanted, Credits) == CreditsRows(wanted);
    assert c in IntroRows(wanted) <==> multiset(IntroRows(wanted))[c] > 0;
    assert c in CreditsRows(wanted) <==> multiset(CreditsRows(wanted))[c] > 0;
  }

  /** Nobody else's row is lost or doubled by any operation, unless a POST was asked to replace its group. */
  lemma OthersNeverChange(item: Item, event: Event, c: ChapterInfo)
    requires Inv(item) && IsOperation(event)
    requires c.author == Other && !IsNamed(c, item.file)
    requires !SwapsGroup(event, c)
    ensures multiset(Step(item, event).rows)[c] == multiset(item.rows)[c]
  {
    InvNamesEveryRow(item);
    NamedRows(c, item.file);
    var stored := item.file;
    match event
    case Post(request, size, path, replaceOthers, f) =>
      var markers := Requested(request, path);
      if Valid(Some(markers)) {
        PostKeepsOther(item, event, c);
      }
    case Delete(f) =>
      WriteOutcomes(item, Applied(item.rows, stored, None, false), stored, None, f);
      OtherRowKept(item.rows, stored, None, false, c);
    case Updated(size, path, f) =>
      HealRowsOutcomes(item, size, path, f);
      OtherRowKept(item.rows, stored, None, false, c);
      if stored.Some? {
        UpdateKeepsOther(item, c);
      }
  }

  lemma PostKeepsOther(item: Item, event: Event, c: ChapterInfo)
    requires Inv(item) && event.Post? && Valid(Some(Requested(event.request, event.path)))
    requires c.author == Other && !Listed(c, OurRows(item.file)) && !SwapsGroup(event, c)
    ensures multiset(Step(item, event).rows)[c] == multiset(item.rows)[c]
  {
    var m := Requested(event.request, event.path);
    var rows := PostRows(item, m, event.currentSize, event.path, event.replaceOthers);
    WriteOutcomes(item, rows, item.file, Some(m), event.faults);
    SwapsNothing(event, c, m);
    OtherRowKept(item.rows, item.file, None, event.replaceOthers, c);
    OtherRowKept(item.rows, item.file, Some(m), event.replaceOthers, c);
  }

  lemma SwapsNothing(event: Event, c: ChapterInfo, m: Markers)
    requires event.Post? && m == Requested(event.request, event.path) && Valid(Some(m)) && !SwapsGroup(event, c)
    ensures event.replaceOthers ==> forall g | InGroup(c, g) :: GroupRows(Some(m), g) == []
  {
    assert Valid(Some(event.request));
  }

  lemma UpdateKeepsOther(item: Item, c: ChapterInfo)
    requires Inv(item) && item.file.Some?
    requires c.author == Other && !Listed(c, OurRows(item.file))
    ensures AllPaired(Replacing(item.file))
    ensures multiset(HealRows(item))[c] == multiset(item.rows)[c]
  {
    var stored := item.file;
    ReadableShapes(stored);
    ListedInSum(c, RowsFor(stored), RowsFor(Replacing(stored)));
    ListedInSum(c, RowsFor(Replacing(stored)), RowsFor(Replacing(Replacing(stored))));
    OtherRowKept(item.rows, Replacing(stored), stored, false, c);
  }
}
