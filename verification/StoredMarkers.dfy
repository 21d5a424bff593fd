/** What the Emby plugin keeps for one item: emby-plugin/Markers/StoredMarkers.cs. */
module StoredMarkers {
  import opened Wrappers

  /** Times are ticks. `path` is "" where the file has none: null and "" are treated alike. */
  datatype Markers = Markers(
    introStart: Option<int>,
    introEnd: Option<int>,
    creditsStart: Option<int>,
    fileSize: Option<int>,
    path: string,
    replacing: Option<Markers>)

  datatype Refusal =
    | BodyRequired
    | SplitIntro
    | InvalidIntro
    | InvalidCredits
    | InvalidFileSize
    | NoMarkers
    | InvalidReplaced

  const EMPTY := Markers(None, None, None, None, "", None)

  predicate HasMarkers(m: Option<Markers>) {
    m.Some? && (m.value.introStart.Some? || m.value.creditsStart.Some?)
  }

  /** Why these markers can't be stored; None when they can. */
  function Problem(m: Option<Markers>): Option<Refusal> {
    if m.None? then Some(BodyRequired)
    else
      var v := m.value;
      if v.introStart.Some? != v.introEnd.Some? then Some(SplitIntro)
      else if v.introStart.Some? && (v.introStart.value < 0 || v.introEnd.value <= v.introStart.value) then
        Some(InvalidIntro)
      else if v.creditsStart.Some? && v.creditsStart.value < 0 then Some(InvalidCredits)
      else if v.fileSize.Some? && v.fileSize.value <= 0 then Some(InvalidFileSize)
      else if !HasMarkers(m) then Some(NoMarkers)
      else None
  }

  /** Why a store file's content can't be used; None when it can. */
  function StoredProblem(m: Option<Markers>): Option<Refusal> {
    if m.None? || m.value.replacing.None? then Problem(m)
    else if m.value.replacing.value.replacing.Some? || Problem(m.value.replacing).Some? then Some(InvalidReplaced)
    else if HasMarkers(m) || m.value.introEnd.Some? then Problem(m)
    else None
  }

  /** What one store save writes; None stands for deleting the file. */
  function With(markers: Option<Markers>, replacing: Option<Markers>): Option<Markers> {
    if !HasMarkers(markers) && !HasMarkers(replacing) then None
    else
      var m := markers.GetOr(EMPTY);
      Some(m.(replacing := if HasMarkers(replacing) then replacing else None))
  }

  /** A known size or path differs from the item's; unknown values never count as a difference. */
  predicate IsStale(m: Option<Markers>, currentSize: Option<int>, currentPath: string) {
    && m.Some?
    && (|| (m.value.fileSize.Some? && currentSize.Some? && m.value.fileSize.value != currentSize.value)
        || (m.value.path != "" && currentPath != "" && m.value.path != currentPath))
  }

  /** A valid set, as a request or as the set a write replaces. */
  predicate Valid(m: Option<Markers>) {
    Problem(m).None?
  }

  /** A set whose intro start comes with an intro end; reading a missing end throws. */
  predicate Paired(m: Option<Markers>) {
    m.Some? && m.value.introStart.Some? ==> m.value.introEnd.Some?
  }

  function Replacing(m: Option<Markers>): Option<Markers> {
    if m.Some? then m.value.replacing else None
  }

  predicate AllPaired(m: Option<Markers>) {
    Paired(m) && Paired(Replacing(m))
  }

  /** What `MarkerStore.Load` answers for a file's content. */
  function Load(file: Option<Markers>): (loaded: Option<Markers>)
    ensures AllPaired(loaded)
  {
    if StoredProblem(file).None? then file else None
  }

  predicate Readable(file: Option<Markers>) {
    file.Some? ==> StoredProblem(file).None?
  }

  /** An item with no set of its own: nothing, or a set without markers left by a DELETE under way. */
  predicate NothingOwn(m: Option<Markers>) {
    m.Some? ==> !HasMarkers(m) && m.value.introEnd.None?
  }

  /**
   * Every record the protocol saves reads back as itself: the set being written (a valid one, or none for a DELETE)
   * beside the set it replaces (a valid one that replaces nothing itself, or none). Deleting the file is the outcome
   * exactly when neither has markers, so no record with markers in it is ever read as "no markers".
   */
  lemma SavedIsReadBack(next: Option<Markers>, replacing: Option<Markers>)
    requires Valid(next) || NothingOwn(next)
    requires replacing.Some? ==> Valid(replacing) && replacing.value.replacing.None?
    ensures Readable(With(next, replacing))
    ensures Load(With(next, replacing)) == With(next, replacing)
    ensures With(next, replacing).None? <==> NothingOwn(next) && replacing.None?
    ensures With(next, replacing).Some? ==> With(next, replacing).value.replacing == replacing
  {
  }

  /** Which sets are valid, on their fields. */
  lemma ValidIff(m: Markers)
    ensures Valid(Some(m)) <==>
            && (m.introStart.Some? || m.creditsStart.Some?)
            && (m.introStart.Some? <==> m.introEnd.Some?)
            && (m.introStart.Some? && m.introEnd.Some? ==> 0 <= m.introStart.value < m.introEnd.value)
            && (m.creditsStart.Some? ==> m.creditsStart.value >= 0)
            && (m.fileSize.Some? ==> m.fileSize.value > 0)
  {
  }

  /** The precise shapes a readable record has; anything else is refused. */
  lemma ReadableShapes(file: Option<Markers>)
    requires file.Some?
    ensures Readable(file) <==>
            && (file.value.replacing.Some? ==> Valid(file.value.replacing) && file.value.replacing.value.replacing.None?)
            && (Valid(file) || (file.value.replacing.Some? && NothingOwn(file)))
  {
  }
}
