/**
 * Why two intros of one item must be apart. `ShownOf` takes one shared row as proof of the whole set, and the healer
 * strips a shared row and then refuses to put its partner's group back. Both happen for exactly the pairs of intros
 * that share one endpoint and not the other.
 */
module MarkerSharedEndpoint {
  import opened Wrappers
  import opened StoredMarkers
  import opened MarkerChapters
  import opened MarkerRows
  import opened MarkerProtocol
  import opened MarkerSafety
  import opened MarkerRecovery

  const EMPTY_ITEM := Item(None, [])

  /** POST `p`; POST `m`, stopped before its rows; a DELETE stopped before its rows; a DELETE that goes through. */
  function StopTwice(p: Markers, m: Markers): seq<Event> {
    [Post(p, None, "", false, ALL_DONE), Post(m, None, "", false, STOP_BEFORE_ROWS), Delete(STOP_BEFORE_ROWS), Delete(ALL_DONE)]
  }

  predicate Plain(m: Markers) {
    Valid(Some(m)) && m.path == "" && m.replacing.None?
  }

  /** A set's rows on an item that had none. */
  lemma FirstRows(m: Option<Markers>, g: Group)
    requires Paired(m)
    ensures multiset(OfGroup(Applied([], None, m, false), g)) == multiset(GroupRows(m, g))
  {
    AppliedGroup([], None, m, false, g);
  }

  lemma FirstRowsMember(m: Option<Markers>, c: ChapterInfo)
    requires Paired(m) && c in RowsFor(m)
    ensures c in Applied([], None, m, false)
  {
    var g := if InGroup(c, Intro) then Intro else Credits;
    FirstRows(m, g);
    assert multiset(GroupRows(m, g))[c] > 0;
    assert multiset(OfGroup(Applied([], None, m, false), g))[c] > 0;
    OfGroupMembers(Applied([], None, m, false), g, c);
  }

  /** A POST of a plain set on an item without a path is a write towards that set. */
  lemma PostIsWrite(item: Item, m: Markers, f: Faults)
    requires Plain(m)
    ensures Step(item, Post(m, None, "", false, f))
         == Write(item, Applied(item.rows, Load(item.file), Some(m), false), Load(item.file), Some(m), f)
  {
    assert Requested(m, "") == m;
  }

  /** A write stopped before its rows leaves only the record. */
  lemma WriteStopped(item: Item, rows: seq<ChapterInfo>, previous: Option<Markers>, next: Option<Markers>)
    requires AllPaired(previous) && !SameRows(item.rows, rows)
    ensures Write(item, rows, previous, next, STOP_BEFORE_ROWS) == Item(With(next, Shown(item.rows, previous)), item.rows)
  {
  }

  /** The state after the first POST. */
  lemma AfterFirstPost(p: Markers)
    requires Plain(p)
    ensures Step(EMPTY_ITEM, Post(p, None, "", false, ALL_DONE)) == Item(Some(p), Applied([], None, Some(p), false))
  {
    var rows := Applied([], None, Some(p), false);
    PostIsWrite(EMPTY_ITEM, p, ALL_DONE);
    WriteDone(EMPTY_ITEM, rows, None, Some(p));
    FirstRowsMember(Some(p), RowsFor(Some(p))[0]);
    assert |multiset(Keys(rows))| == |rows| > 0;
    assert With(Some(p), None) == Some(p);
  }

  lemma AppliedListed(rows: seq<ChapterInfo>, ours: Option<Markers>, wanted: Option<Markers>, d: ChapterInfo)
    requires AllPaired(ours) && Paired(wanted)
    requires d in Applied(rows, ours, wanted, false)
    ensures Listed(d, RowsFor(wanted)) || !Listed(d, OurRows(ours))
  {
    AppliedOrigin(rows, ours, wanted, false, d);
    assert SameRow(d, d);
  }

  /** Dropping a listed row shows: the result can't have the same rows. */
  lemma StrippedDiffers(rows: seq<ChapterInfo>, ours: Option<Markers>, wanted: Option<Markers>, c: ChapterInfo)
    requires AllPaired(ours) && Paired(wanted)
    requires c in rows && Listed(c, OurRows(ours)) && !Listed(c, RowsFor(wanted))
    ensures !SameRows(rows, Applied(rows, ours, wanted, false))
  {
    var after := Applied(rows, ours, wanted, false);
    forall d <- after ensures !SameRow(c, d) {
      AppliedListed(rows, ours, wanted, d);
      if SameRow(c, d) {
        ListedTwin(c, d, OurRows(ours));
        ListedTwin(c, d, RowsFor(wanted));
      }
    }
    if SameRows(rows, after) {
      SameRowsTwin(rows, after, c);
    }
  }

  /** The row of `p` that `m` doesn't share, and the one it does, when the intros aren't apart. */
  function UnsharedRow(p: Markers, m: Markers): ChapterInfo
    requires Paired(Some(p)) && Paired(Some(m)) && !Apart(Some(p), Some(m))
  {
    IntroRows(Some(p))[if p.introStart == m.introStart then 1 else 0]
  }

  function SharedRow(p: Markers, m: Markers): ChapterInfo
    requires Paired(Some(p)) && Paired(Some(m)) && !Apart(Some(p), Some(m))
  {
    IntroRows(Some(p))[if p.introStart == m.introStart then 0 else 1]
  }

  lemma UnsharedFacts(p: Markers, m: Markers)
    requires Plain(p) && Plain(m) && !Apart(Some(p), Some(m))
    ensures Listed(UnsharedRow(p, m), OurRows(Some(p))) && !Listed(UnsharedRow(p, m), RowsFor(Some(m)))
    ensures UnsharedRow(p, m) in RowsFor(Some(p)) && SharedRow(p, m) in RowsFor(Some(p))
    ensures UnsharedRow(p, m) in IntroRows(Some(p))
  {
    var lost := UnsharedRow(p, m);
    assert SameRow(lost, lost);
    ListedInSum(lost, IntroRows(Some(m)), CreditsRows(Some(m)));
    assert lost in IntroRows(Some(p));
    OurRowsByGroup(lost, Some(p));
  }

  /** Any row of a set's intro on the item makes `ShownOf` report that intro. */
  lemma ShownIntro(rows: seq<ChapterInfo>, stored: Option<Markers>, c: ChapterInfo)
    requires AllPaired(stored)
    requires c in rows && Listed(c, IntroRows(stored))
    ensures Shown(rows, stored).Some? && Paired(Shown(rows, stored)) && IntroRows(Shown(rows, stored)) == IntroRows(stored)
  {
    var r :| r in IntroRows(stored) && SameRow(c, r);
    assert SameRow(r, c);
    assert Listed(r, rows);
    ShownRows(rows, stored, Intro);
  }

  lemma ShownIsValid(rows: seq<ChapterInfo>, stored: Option<Markers>)
    requires Readable(stored) && AllPaired(stored)
    ensures Shown(rows, stored).Some? ==> Valid(Shown(rows, stored)) && Shown(rows, stored).value.replacing.None?
  {
    if stored.Some? {
      ReadableShapes(stored);
    }
  }

  /** The stopped POST's record: `m`, replacing `p`'s intro. */
  lemma AfterStoppedPost(p: Markers, m: Markers)
    requires Plain(p) && Plain(m) && !Apart(Some(p), Some(m))
    ensures var rows := Applied([], None, Some(p), false);
            var item := Step(Item(Some(p), rows), Post(m, None, "", false, STOP_BEFORE_ROWS));
            && item.rows == rows
            && item.file.Some?
            && Readable(item.file)
            && Paired(item.file)
            && IntroRows(item.file) == IntroRows(Some(m))
            && Paired(Replacing(item.file))
            && IntroRows(Replacing(item.file)) == IntroRows(Some(p))
  {
    var rows := Applied([], None, Some(p), false);
    var lost := UnsharedRow(p, m);
    UnsharedFacts(p, m);
    FirstRowsMember(Some(p), lost);
    StrippedDiffers(rows, Some(p), Some(m), lost);
    PostIsWrite(Item(Some(p), rows), m, STOP_BEFORE_ROWS);
    WriteStopped(Item(Some(p), rows), Applied(rows, Some(p), Some(m), false), Some(p), Some(m));
    assert SameRow(lost, lost) && Listed(lost, IntroRows(Some(p)));
    ShownIntro(rows, Some(p), lost);
    ShownIsValid(rows, Some(p));
    SavedIsReadBack(Some(m), Shown(rows, Some(p)));
  }

  /** The stopped DELETE's record names `m`'s intro only: the shared row passed for the whole of `m`. */
  lemma AfterStoppedDelete(item: Item, p: Markers, m: Markers)
    requires Plain(p) && Plain(m) && !Apart(Some(p), Some(m))
    requires Readable(item.file) && item.file.Some? && Paired(item.file) && Paired(Replacing(item.file))
    requires IntroRows(item.file) == IntroRows(Some(m))
    requires SharedRow(p, m) in item.rows
    ensures var after := Step(item, Delete(STOP_BEFORE_ROWS));
            && after.rows == item.rows
            && Readable(after.file)
            && AllPaired(after.file)
            && IntroRows(after.file) == []
            && IntroRows(Replacing(after.file)) == IntroRows(Some(m))
  {
    var shared := SharedRow(p, m);
    assert SameRow(shared, IntroRows(item.file)[if p.introStart == m.introStart then 0 else 1]);
    assert Listed(shared, IntroRows(item.file));
    OurRowsByGroup(shared, item.file);
    assert Load(item.file) == item.file;
    StrippedDiffers(item.rows, item.file, None, shared);
    WriteStopped(item, Applied(item.rows, item.file, None, false), item.file, None);
    ShownIntro(item.rows, item.file, shared);
    ShownIsValid(item.rows, item.file);
    SavedIsReadBack(None, Shown(item.rows, item.file));
  }

  /** A DELETE leaves a row the record doesn't name. */
  lemma DeleteMisses(item: Item, c: ChapterInfo)
    requires Readable(item.file) && AllPaired(item.file)
    requires c in item.rows && !Listed(c, OurRows(item.file))
    ensures c in Step(item, Delete(ALL_DONE)).rows
  {
    AppliedKeeps(item.rows, item.file, None, c);
    assert Load(item.file) == item.file;
    WriteDone(item, Applied(item.rows, item.file, None, false), item.file, None);
  }

  /** For every pair of intros that isn't apart, the run ends with a row of ours and no store file naming it. */
  lemma SharedEndpointLosesARow(p: Markers, m: Markers)
    requires Plain(p) && Plain(m) && !Apart(Some(p), Some(m))
    ensures UnsharedRow(p, m) in Run(EMPTY_ITEM, StopTwice(p, m)).rows
  {
    var events := StopTwice(p, m);
    RunOfFour(EMPTY_ITEM, events);
    AfterFirstPost(p);
    LosesAfterPost(p, m);
  }

  lemma LosesAfterPost(p: Markers, m: Markers)
    requires Plain(p) && Plain(m) && !Apart(Some(p), Some(m))
    ensures var one := Item(Some(p), Applied([], None, Some(p), false));
            UnsharedRow(p, m) in Step(Step(Step(one, Post(m, None, "", false, STOP_BEFORE_ROWS)), Delete(STOP_BEFORE_ROWS)), Delete(ALL_DONE)).rows
  {
    var rows := Applied([], None, Some(p), false);
    UnsharedFacts(p, m);
    FirstRowsMember(Some(p), SharedRow(p, m));
    FirstRowsMember(Some(p), UnsharedRow(p, m));
    AfterStoppedPost(p, m);
    LosesAfterStop(Step(Item(Some(p), rows), Post(m, None, "", false, STOP_BEFORE_ROWS)), p, m);
  }

  lemma LosesAfterStop(item: Item, p: Markers, m: Markers)
    requires Plain(p) && Plain(m) && !Apart(Some(p), Some(m))
    requires Readable(item.file) && item.file.Some? && Paired(item.file) && Paired(Replacing(item.file))
    requires IntroRows(item.file) == IntroRows(Some(m))
    requires SharedRow(p, m) in item.rows && UnsharedRow(p, m) in item.rows
    ensures UnsharedRow(p, m) in Step(Step(item, Delete(STOP_BEFORE_ROWS)), Delete(ALL_DONE)).rows
  {
    var lost := UnsharedRow(p, m);
    UnsharedFacts(p, m);
    AfterStoppedDelete(item, p, m);
    var after := Step(item, Delete(STOP_BEFORE_ROWS));
    OurRowsByGroup(lost, after.file);
    RowsForGroup(lost, Some(m), Intro);
    assert InGroup(lost, Intro);
    DeleteMisses(after, lost);
  }

  lemma RunOfFour(item: Item, events: seq<Event>)
    requires |events| == 4
    ensures Run(item, events) == Step(Step(Step(Step(item, events[0]), events[1]), events[2]), events[3])
    ensures AdmissibleRun(item, events)
       <==> (&& Admissible(item, events[0])
             && Admissible(Step(item, events[0]), events[1])
             && Admissible(Step(Step(item, events[0]), events[1]), events[2])
             && Admissible(Step(Step(Step(item, events[0]), events[1]), events[2]), events[3]))
  {
    var e1, e2, e3 := events[1..], events[1..][1..], events[1..][1..][1..];
    assert e1[0] == events[1] && e2[0] == events[2] && e3[0] == events[3] && e3[1..] == [];
    var i1 := Step(item, events[0]);
    var i2 := Step(i1, events[1]);
    var i3 := Step(i2, events[2]);
    assert Run(i3, e3) == Step(i3, events[3]);
    assert Run(i2, e2) == Run(i3, e3);
    assert Run(i1, e1) == Run(i2, e2);
    assert AdmissibleRun(i3, e3) <==> Admissible(i3, events[3]);
    assert AdmissibleRun(i2, e2) <==> Admissible(i2, events[2]) && AdmissibleRun(i3, e3);
    assert AdmissibleRun(i1, e1) <==> Admissible(i1, events[1]) && AdmissibleRun(i2, e2);
  }

  /**
   * The exact condition. Two POSTs, two stops and a DELETE that goes through leave the item as if the plugin had
   * never been there if and only if the two intros are equal or share neither endpoint.
   */
  lemma CleanUpIffApart(p: Markers, m: Markers)
    requires Plain(p) && Plain(m)
    ensures Untouched(Run(EMPTY_ITEM, StopTwice(p, m))) <==> Apart(Some(p), Some(m))
  {
    if Apart(Some(p), Some(m)) {
      ApartRunAdmissible(p, m);
      DeleteCleansUpAfter(EMPTY_ITEM, StopTwice(p, m));
    } else {
      SharedEndpointLosesARow(p, m);
      assert UnsharedRow(p, m).author == Plugin;
    }
  }

  lemma PostAdmissible(item: Item, m: Markers, f: Faults)
    requires Plain(m) && Apart(Some(m), item.file) && Apart(Some(m), Replacing(item.file))
    requires forall c <- item.rows :: c.author == Plugin
    ensures Admissible(item, Post(m, None, "", false, f))
  {
    assert Requested(m, "") == m;
  }

  lemma FirstRowsAreOurs(p: Markers)
    requires Plain(p)
    ensures forall c <- Applied([], None, Some(p), false) :: c.author == Plugin
  {
    forall c <- Applied([], None, Some(p), false) ensures c.author == Plugin {
      AppliedOrigin([], None, Some(p), false, c);
    }
  }

  lemma ApartRunAdmissible(p: Markers, m: Markers)
    requires Plain(p) && Plain(m) && Apart(Some(p), Some(m))
    ensures AdmissibleRun(EMPTY_ITEM, StopTwice(p, m))
  {
    PostAdmissible(EMPTY_ITEM, p, ALL_DONE);
    AfterFirstPost(p);
    var one := Item(Some(p), Applied([], None, Some(p), false));
    FirstRowsAreOurs(p);
    PostAdmissible(one, m, STOP_BEFORE_ROWS);
    FourAdmissible(EMPTY_ITEM, StopTwice(p, m));
  }

  lemma FourAdmissible(item: Item, events: seq<Event>)
    requires |events| == 4 && events[2].Delete? && events[3].Delete?
    requires Admissible(item, events[0]) && Admissible(Step(item, events[0]), events[1])
    ensures AdmissibleRun(item, events)
  {
    RunOfFour(item, events);
  }

  lemma DeleteCleansUpAfter(item: Item, events: seq<Event>)
    requires |events| == 4 && events[3] == Delete(ALL_DONE)
    requires Inv(item) && AdmissibleRun(item, events)
    ensures Untouched(Run(item, events))
  {
    RunOfFour(item, events);
    var i1 := Step(item, events[0]);
    var i2 := Step(i1, events[1]);
    StepKeepsInv(item, events[0]);
    StepKeepsInv(i1, events[1]);
    StepKeepsInv(i2, events[2]);
    DeleteCleansUp(Step(i2, events[2]));
  }

  /**
   * The healer's side of the same condition. With the stored intro whole on the item and another intro still named
   * as replaced, an item update leaves the stored intro whole if and only if the two are apart.
   */
  lemma HealKeepsIntroIffApart(item: Item, currentSize: Option<int>, path: string)
    requires Readable(item.file) && item.file.Some? && AllPaired(item.file)
    requires item.file.value.introStart.Some?
    requires SameRows(OfGroup(item.rows, Intro), IntroRows(item.file))
    requires SameFile(item.file.value, currentSize, path)
    ensures SameRows(OfGroup(HealStep(item, currentSize, path, ALL_DONE).rows, Intro), IntroRows(item.file))
       <==> Apart(item.file, Replacing(item.file))
  {
    ReadableShapes(item.file);
    if Apart(item.file, Replacing(item.file)) {
      assert GroupRows(item.file, Intro) == IntroRows(item.file);
      GroupRestored(item, currentSize, path, Intro);
    } else {
      HealOutcome(item, currentSize, path);
      SharedRowStripped(item);
    }
  }

  lemma SharedRowStripped(item: Item)
    requires Readable(item.file) && item.file.Some? && AllPaired(item.file) && AllPaired(Replacing(item.file))
    requires SameRows(OfGroup(item.rows, Intro), IntroRows(item.file))
    requires !Apart(item.file, Replacing(item.file))
    ensures !SameRows(item.rows, HealRows(item))
    ensures !SameRows(OfGroup(HealRows(item), Intro), IntroRows(item.file))
  {
    var m := item.file.value;
    var named := OurRows(Replacing(item.file));
    var gone, keep := SharedRow(m, m.replacing.value), UnsharedRow(m, m.replacing.value);
    NamedByReplacing(gone, item.file, Intro);
    NamedByReplacing(keep, item.file, Intro);
    assert SameRow(gone, IntroRows(Replacing(item.file))[if gone.kind == IntroStart then 0 else 1]);
    assert Listed(gone, named) && !Listed(keep, named);
    KeepSurvives(item, keep);
    GoneIsGone(item, gone);
    if SameRows(item.rows, HealRows(item)) {
      SameRowsByGroup(item.rows, HealRows(item), Intro);
    }
  }

  /** A row of the stored intro that the replaced set doesn't name keeps its group from being filled again. */
  lemma KeepSurvives(item: Item, keep: ChapterInfo)
    requires Readable(item.file) && AllPaired(item.file) && AllPaired(Replacing(item.file))
    requires SameRows(OfGroup(item.rows, Intro), IntroRows(item.file))
    requires keep in IntroRows(item.file) && !Listed(keep, OurRows(Replacing(item.file)))
    ensures OfGroup(Kept(item.rows, Replacing(item.file)), Intro) != []
  {
    var named := OurRows(Replacing(item.file));
    SameRowsTwin(IntroRows(item.file), OfGroup(item.rows, Intro), keep);
    var d :| d in OfGroup(item.rows, Intro) && SameRow(keep, d);
    ListedTwin(keep, d, named);
    OfGroupMembers(item.rows, Intro, d);
    assert multiset(item.rows)[d] > 0;
    WithoutCount(item.rows, named, d);
    OfGroupCount(Kept(item.rows, Replacing(item.file)), Intro, d);
  }

  /** A row the replaced set names is off the item, so the intro isn't whole. */
  lemma GoneIsGone(item: Item, gone: ChapterInfo)
    requires Readable(item.file) && AllPaired(item.file) && AllPaired(Replacing(item.file))
    requires gone in IntroRows(item.file) && Listed(gone, OurRows(Replacing(item.file)))
    requires OfGroup(Kept(item.rows, Replacing(item.file)), Intro) != []
    ensures !SameRows(OfGroup(HealRows(item), Intro), IntroRows(item.file))
  {
    var named := OurRows(Replacing(item.file));
    var list := Kept(item.rows, Replacing(item.file));
    var healed := OfGroup(HealRows(item), Intro);
    AppliedGroup(item.rows, Replacing(item.file), item.file, false, Intro);
    assert multiset(healed) == multiset(OfGroup(list, Intro));
    forall d <- healed ensures !SameRow(gone, d) {
      assert multiset(healed)[d] > 0;
      OfGroupCount(list, Intro, d);
      WithoutCount(item.rows, named, d);
      if SameRow(gone, d) {
        ListedTwin(gone, d, named);
        assert false;
      }
    }
    if SameRows(healed, IntroRows(item.file)) {
      SameRowsTwin(IntroRows(item.file), healed, gone);
    }
  }
}
