/**
 * The plugin's crash-safe marker writes as a transition system over one item: emby-plugin/Api/BridgeService.cs and
 * emby-plugin/Markers/MarkerHealer.cs. Every read, merge and save of an item happens under one lock, so the only
 * interleavings are whole operations, each of which can fail or stop at any of its writes.
 */
module MarkerProtocol {
  import opened Wrappers
  import opened StoredMarkers
  import opened MarkerChapters
  import opened MarkerRows

  /** The item's store file and its chapter rows in Emby. */
  datatype Item = Item(file: Option<Markers>, rows: seq<ChapterInfo>)

  /** How one write ends: done, an exception with nothing written, or Emby stopping just before it. */
  datatype Io = Done | Throws | Stops

  /** The fate of each write of an operation, in program order. */
  datatype Faults = Faults(store: Io, rows: Io, restore: Io, finish: Io)

  const ALL_DONE := Faults(Done, Done, Done, Done)

  /** A stop just after the store was saved and before the rows were. */
  const STOP_BEFORE_ROWS := Faults(Done, Stops, Done, Done)

  datatype Event =
    | Post(request: Markers, currentSize: Option<int>, path: string, replaceOthers: bool, faults: Faults)
    | Delete(faults: Faults)
    | Updated(currentSize: Option<int>, path: string, faults: Faults)
    | Lost(left: seq<ChapterInfo>)
    | Added(row: ChapterInfo)

  /** Store first, rows second, then the store without the replaced set; rolled back when the rows can't be saved. */
  function Write(item: Item, rows: seq<ChapterInfo>, previous: Option<Markers>, next: Option<Markers>, f: Faults): Item
    requires AllPaired(previous)
  {
    var same := SameRows(item.rows, rows);
    var replacing := if same then None else Shown(item.rows, previous);
    if f.store != Done then item
    else
      var saved := item.(file := With(next, replacing));
      if same || f.rows == Stops then saved
      else if f.rows == Throws then if f.restore == Done then item.(file := previous) else saved
      else
        var shown := saved.(rows := rows);
        if replacing.None? || f.finish != Done then shown else shown.(file := With(next, None))
  }

  /** The set a request stores. */
  function Requested(request: Markers, path: string): Markers {
    request.(path := path, replacing := None)
  }

  /** The rows a POST aims for; a stale set is stored but never shown. */
  function PostRows(item: Item, markers: Markers, currentSize: Option<int>, path: string, replaceOthers: bool): seq<ChapterInfo>
    requires Valid(Some(markers))
  {
    var wanted := if IsStale(Some(markers), currentSize, path) then None else Some(markers);
    Applied(item.rows, Load(item.file), wanted, replaceOthers)
  }

  function PostStep(item: Item, request: Markers, currentSize: Option<int>, path: string, replaceOthers: bool, f: Faults): Item {
    var markers := Requested(request, path);
    if Problem(Some(markers)).Some? then item
    else Write(item, PostRows(item, markers, currentSize, path, replaceOthers), Load(item.file), Some(markers), f)
  }

  function DeleteStep(item: Item, f: Faults): Item {
    Write(item, Applied(item.rows, Load(item.file), None, false), Load(item.file), None, f)
  }

  /** The healer at an item update: drop the rows of a replaced file, or finish a write and put missing rows back. */
  function HealStep(item: Item, currentSize: Option<int>, path: string, f: Faults): Item {
    var stored := Load(item.file);
    if stored.None? then item
    else if IsStale(stored, currentSize, path) then
      var withoutOurs := Applied(item.rows, stored, None, false);
      if SameRows(item.rows, withoutOurs) || f.rows != Done then item else item.(rows := withoutOurs)
    else
      var rows := Applied(item.rows, Replacing(stored), stored, false);
      var same := SameRows(item.rows, rows);
      if !same && f.rows != Done then item
      else
        var shown := if same then item else item.(rows := rows);
        if stored.value.replacing.None? || f.finish != Done then shown
        else shown.(file := With(stored, None))
  }

  function Step(item: Item, event: Event): Item {
    match event
    case Post(request, size, path, replaceOthers, f) => PostStep(item, request, size, path, replaceOthers, f)
    case Delete(f) => DeleteStep(item, f)
    case Updated(size, path, f) => HealStep(item, size, path, f)
    case Lost(left) => item.(rows := left)
    case Added(row) => item.(rows := item.rows + [row])
  }

  function Run(item: Item, events: seq<Event>): Item
    decreases |events|
  {
    if events == [] then item else Run(Step(item, events[0]), events[1..])
  }

  // What the environment may do -----------------------------------------------------------------------------------

  /** Two sets whose intros are equal or share neither endpoint. */
  predicate Apart(a: Option<Markers>, b: Option<Markers>) {
    a.Some? && b.Some? && a.value.introStart.Some? && b.value.introStart.Some?
    ==> (a.value.introStart == b.value.introStart <==> a.value.introEnd == b.value.introEnd)
  }

  predicate NoLookalike(rows: seq<ChapterInfo>, named: seq<ChapterInfo>) {
    forall c <- rows | c.author == Other :: !Listed(c, named)
  }

  /** A row with the type, the name and the start of a row this set is shown as. */
  predicate IsRowOf(c: ChapterInfo, m: Option<Markers>) {
    && m.Some?
    && match c.kind
       case IntroStart => c.name == "Intro" && m.value.introStart == Some(c.start)
       case IntroEnd => c.name == "Intro End" && m.value.introStart.Some? && m.value.introEnd == Some(c.start)
       case CreditsStart => c.name == "Credits" && m.value.creditsStart == Some(c.start)
       case Chapter => false
  }

  /** A row named by a record: by its set or by the one it replaces. */
  predicate IsNamed(c: ChapterInfo, file: Option<Markers>) {
    IsRowOf(c, file) || IsRowOf(c, Replacing(file))
  }

  lemma RowsOfSet(c: ChapterInfo, m: Option<Markers>)
    requires Paired(m)
    ensures Listed(c, RowsFor(m)) <==> IsRowOf(c, m)
  {
    ListedInSum(c, IntroRows(m), CreditsRows(m));
    if m.Some? && m.value.introStart.Some? {
      assert IntroRows(m) == [IntroRows(m)[0], IntroRows(m)[1]];
      assert SameRow(c, IntroRows(m)[0]) <==> c.kind == IntroStart && IsRowOf(c, m);
      assert SameRow(c, IntroRows(m)[1]) <==> c.kind == IntroEnd && IsRowOf(c, m);
    }
    if m.Some? && m.value.creditsStart.Some? {
      assert SameRow(c, CreditsRows(m)[0]) <==> c.kind == CreditsStart && IsRowOf(c, m);
    }
  }

  lemma NamedRows(c: ChapterInfo, file: Option<Markers>)
    requires AllPaired(file)
    ensures Listed(c, OurRows(file)) <==> IsNamed(c, file)
  {
    ListedInSum(c, RowsFor(file), RowsFor(Replacing(file)));
    RowsOfSet(c, file);
    RowsOfSet(c, Replacing(file));
  }

  /**
   * A request's intro is apart from the stored and the replaced one and nobody else's row looks like a row it names;
   * rows others add don't look like a named row. Rows may be lost in any number, one by one or all at once.
   */
  predicate Admissible(item: Item, event: Event) {
    match event
    case Post(request, _, path, _, _) =>
      var markers := Some(request);
      Valid(Some(Requested(request, path))) ==>
        && Apart(markers, item.file)
        && Apart(markers, Replacing(item.file))
        && forall c <- item.rows | c.author == Other :: !IsRowOf(c, markers)
    case Lost(left) => multiset(left) <= multiset(item.rows)
    case Added(row) => row.author == Other && !IsNamed(row, item.file)
    case _ => true
  }

  predicate AdmissibleRun(item: Item, events: seq<Event>)
    decreases |events|
  {
    events == [] || (Admissible(item, events[0]) && AdmissibleRun(Step(item, events[0]), events[1..]))
  }

  // The invariant -------------------------------------------------------------------------------------------------

  /** Every row the plugin wrote in group `g` is one of `named`. */
  predicate OursWithin(rows: seq<ChapterInfo>, g: Group, named: seq<ChapterInfo>) {
    forall c <- rows | c.author == Plugin && InGroup(c, g) :: Listed(c, named)
  }

  /** Per group, the plugin's rows come from only one of the stored and the replaced set. */
  predicate OneSet(item: Item, g: Group)
    requires AllPaired(item.file)
  {
    || OursWithin(item.rows, g, GroupRows(item.file, g))
    || OursWithin(item.rows, g, GroupRows(Replacing(item.file), g))
  }

  predicate Inv(item: Item) {
    && Readable(item.file)
    && AllPaired(item.file)
    && Apart(item.file, Replacing(item.file))
    && NoLookalike(item.rows, OurRows(item.file))
    && (forall c <- item.rows | c.author == Plugin :: c.kind != Chapter)
    && OneSet(item, Intro)
    && OneSet(item, Credits)
  }

  /** An item the plugin never touched. */
  predicate Untouched(item: Item) {
    item.file.None? && forall c <- item.rows :: c.author == Other
  }

  /** The property the protocol is for: the store names every row the plugin has on the item. */
  predicate EveryRowNamed(item: Item) {
    forall c <- item.rows | c.author == Plugin :: IsNamed(c, Load(item.file))
  }

  lemma ListedInSum(c: ChapterInfo, a: seq<ChapterInfo>, b: seq<ChapterInfo>)
    ensures Listed(c, a + b) <==> Listed(c, a) || Listed(c, b)
  {
    if Listed(c, a) {
      var r :| r in a && SameRow(c, r);
      assert r in a + b;
    }
    if Listed(c, b) {
      var r :| r in b && SameRow(c, r);
      assert r in a + b;
    }
  }

  lemma OurRowsByGroup(c: ChapterInfo, m: Option<Markers>)
    requires AllPaired(m)
    ensures Listed(c, OurRows(m))
       <==> (|| Listed(c, IntroRows(m)) || Listed(c, CreditsRows(m))
             || Listed(c, IntroRows(Replacing(m))) || Listed(c, CreditsRows(Replacing(m))))
  {
    ListedInSum(c, RowsFor(m), RowsFor(Replacing(m)));
    ListedInSum(c, IntroRows(m), CreditsRows(m));
    ListedInSum(c, IntroRows(Replacing(m)), CreditsRows(Replacing(m)));
  }

  lemma InvNamesEveryRow(item: Item)
    requires Inv(item)
    ensures Load(item.file) == item.file
    ensures forall c <- item.rows | c.author == Plugin :: Listed(c, OurRows(item.file))
    ensures EveryRowNamed(item)
  {
    forall c <- item.rows | c.author == Plugin ensures Listed(c, OurRows(item.file)) && IsNamed(c, item.file) {
      OurRowsByGroup(c, item.file);
      assert InGroup(c, Intro) || InGroup(c, Credits);
      NamedRows(c, item.file);
    }
  }

  /** A row equal to a listed one is listed too. */
  lemma ListedTwin(c: ChapterInfo, d: ChapterInfo, named: seq<ChapterInfo>)
    requires SameRow(c, d)
    ensures Listed(c, named) <==> Listed(d, named)
  {
    if Listed(c, named) {
      var r :| r in named && SameRow(c, r);
      assert SameRow(d, r);
    }
    if Listed(d, named) {
      var r :| r in named && SameRow(d, r);
      assert SameRow(c, r);
    }
  }
}
