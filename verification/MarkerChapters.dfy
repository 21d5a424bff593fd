/** The plugin's row algebra: emby-plugin/Markers/MarkerChapters.cs. */
module MarkerChapters {
  import opened Wrappers
  import opened StoredMarkers

  datatype MarkerType = Chapter | IntroStart | IntroEnd | CreditsStart

  /** Who put a row on the item. No operation of the plugin reads it; the properties do. */
  datatype Author = Plugin | Other

  datatype ChapterInfo = ChapterInfo(name: string, start: int, kind: MarkerType, author: Author)

  /** Intro start and end are handled together, credits on their own. */
  datatype Group = Intro | Credits

  predicate InGroup(c: ChapterInfo, g: Group) {
    match g
    case Intro => c.kind == IntroStart || c.kind == IntroEnd
    case Credits => c.kind == CreditsStart
  }

  function IntroRows(m: Option<Markers>): (rows: seq<ChapterInfo>)
    requires Paired(m)
    ensures forall r <- rows :: InGroup(r, Intro) && r.author == Plugin
  {
    if m.Some? && m.value.introStart.Some? then
      [ChapterInfo("Intro", m.value.introStart.value, IntroStart, Plugin),
       ChapterInfo("Intro End", m.value.introEnd.value, IntroEnd, Plugin)]
    else []
  }

  function CreditsRows(m: Option<Markers>): (rows: seq<ChapterInfo>)
    ensures forall r <- rows :: InGroup(r, Credits) && r.author == Plugin
  {
    if m.Some? && m.value.creditsStart.Some? then
      [ChapterInfo("Credits", m.value.creditsStart.value, CreditsStart, Plugin)]
    else []
  }

  function GroupRows(m: Option<Markers>, g: Group): (rows: seq<ChapterInfo>)
    requires Paired(m)
    ensures forall r <- rows :: InGroup(r, g) && r.author == Plugin
  {
    match g
    case Intro => IntroRows(m)
    case Credits => CreditsRows(m)
  }

  /** The rows the plugin writes for a set. */
  function RowsFor(m: Option<Markers>): seq<ChapterInfo>
    requires Paired(m)
  {
    IntroRows(m) + CreditsRows(m)
  }

  predicate SameRow(a: ChapterInfo, b: ChapterInfo) {
    a.kind == b.kind && a.start == b.start && a.name == b.name
  }

  /** Whether `rows` holds a row equal to `c`. */
  predicate Listed(c: ChapterInfo, rows: seq<ChapterInfo>) {
    exists r <- rows :: SameRow(c, r)
  }

  function Key(c: ChapterInfo): (int, MarkerType, string) {
    (c.start, c.kind, c.name)
  }

  function Keys(rows: seq<ChapterInfo>): (keys: seq<(int, MarkerType, string)>)
    ensures |keys| == |rows| && forall i | 0 <= i < |rows| :: keys[i] == Key(rows[i])
  {
    seq(|rows|, i requires 0 <= i < |rows| => Key(rows[i]))
  }

  /** Same rows in any order: the program compares the two sorted lists of keys. */
  predicate SameRows(a: seq<ChapterInfo>, b: seq<ChapterInfo>) {
    multiset(Keys(a)) == multiset(Keys(b))
  }

  function Without(rows: seq<ChapterInfo>, named: seq<ChapterInfo>): seq<ChapterInfo> {
    if rows == [] then []
    else if Listed(rows[0], named) then Without(rows[1..], named)
    else [rows[0]] + Without(rows[1..], named)
  }

  function OfGroup(rows: seq<ChapterInfo>, g: Group): seq<ChapterInfo> {
    if rows == [] then []
    else if InGroup(rows[0], g) then [rows[0]] + OfGroup(rows[1..], g)
    else OfGroup(rows[1..], g)
  }

  function OutsideGroup(rows: seq<ChapterInfo>, g: Group): seq<ChapterInfo> {
    if rows == [] then []
    else if InGroup(rows[0], g) then OutsideGroup(rows[1..], g)
    else [rows[0]] + OutsideGroup(rows[1..], g)
  }

  /** The rows that belong to no marker group: the file's own chapters. */
  function PlainChapters(rows: seq<ChapterInfo>): seq<ChapterInfo> {
    OutsideGroup(OutsideGroup(rows, Intro), Credits)
  }

  function InsertByStart(c: ChapterInfo, rows: seq<ChapterInfo>): seq<ChapterInfo> {
    if rows == [] then [c]
    else if c.start <= rows[0].start then [c] + rows
    else [rows[0]] + InsertByStart(c, rows[1..])
  }

  /** A stable sort by start. */
  function OrderByStart(rows: seq<ChapterInfo>): seq<ChapterInfo> {
    if rows == [] then [] else InsertByStart(rows[0], OrderByStart(rows[1..]))
  }

  predicate ByStart(rows: seq<ChapterInfo>) {
    forall i, j | 0 <= i < j < |rows| :: rows[i].start <= rows[j].start
  }

  function OurRows(ours: Option<Markers>): seq<ChapterInfo>
    requires AllPaired(ours)
  {
    RowsFor(ours) + RowsFor(Replacing(ours))
  }

  /** One group of the swap: someone else's rows keep their place unless replacing was asked for. */
  function AddedType(list: seq<ChapterInfo>, rows: seq<ChapterInfo>, g: Group, replaceOthers: bool): seq<ChapterInfo> {
    if rows == [] then list
    else if OfGroup(list, g) != [] then
      if replaceOthers then OutsideGroup(list, g) + rows else list
    else list + rows
  }

  /** `existing` without our old rows, with the wanted ones, by start. */
  function Applied(existing: seq<ChapterInfo>, ours: Option<Markers>, wanted: Option<Markers>, replaceOthers: bool)
    : seq<ChapterInfo>
    requires AllPaired(ours) && Paired(wanted)
  {
    var list := Without(existing, OurRows(ours));
    OrderByStart(AddedType(AddedType(list, IntroRows(wanted), Intro, replaceOthers), CreditsRows(wanted), Credits, replaceOthers))
  }

  predicate HasRowOf(rows: seq<ChapterInfo>, setRows: seq<ChapterInfo>) {
    exists r <- setRows :: Listed(r, rows)
  }

  /** What the rows still show of a stored set or of the one it was replacing, per group. */
  function Shown(existing: seq<ChapterInfo>, stored: Option<Markers>): Option<Markers>
    requires AllPaired(stored)
  {
    var r := Replacing(stored);
    var intro := if HasRowOf(existing, IntroRows(stored)) then stored
                 else if HasRowOf(existing, IntroRows(r)) then r else None;
    var credits := if HasRowOf(existing, CreditsRows(stored)) then stored
                   else if HasRowOf(existing, CreditsRows(r)) then r else None;
    if intro.None? && credits.None? then None
    else Some(EMPTY.(introStart := if intro.Some? then intro.value.introStart else None,
                     introEnd := if intro.Some? then intro.value.introEnd else None,
                     creditsStart := if credits.Some? then credits.value.creditsStart else None))
  }
}
