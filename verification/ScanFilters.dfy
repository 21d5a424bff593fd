/** The filters of a full-library scan: which items of one library a run takes. scan_filters.py. */
module ScanFilters {
  import opened Wrappers

  /** Instants and dates are counted: microseconds and days. */
  const DAY := 86_400_000_000

  /** "" stands for a missing media type or show. */
  datatype MediaItem = MediaItem(
    id: string,
    mediaType: string,
    seriesId: string,
    season: Option<int>,
    addedAt: Option<int>,
    year: Option<int>)

  datatype Added = All | LastDays(days: int) | DateRange(first: int, last: int)

  datatype Filters = Filters(added: Added, latestSeasons: Option<int>, yearFrom: Option<int>, yearTo: Option<int>, now: int)

  /** One run over one library: its filters, its kind, and the date an instant has on the local calendar. */
  datatype Scan = Scan(filters: Filters, kind: string, localDate: int -> Option<int>)

  /** What validation leaves: a number of seasons is at least one. */
  predicate Validated(f: Filters) {
    f.latestSeasons.Some? ==> f.latestSeasons.value >= 1
  }

  predicate YearsActive(f: Filters) {
    f.yearFrom.Some? || f.yearTo.Some?
  }

  datatype Reason = MissingAddedDate | OutsideAddedWindow | MissingMediaType | SpecialsExcluded | MissingShowOrSeason
                  | OutsideLatestSeasons | MissingMovieYear | OutsideMovieYears

  function MediaType(item: MediaItem, kind: string): string {
    if item.mediaType != "" then item.mediaType
    else if kind == "movie" || kind == "movies" then "movie"
    else if kind == "show" || kind == "series" || kind == "tvshows" || kind == "episode" then "episode"
    else ""
  }

  function AddedReason(scan: Scan, item: MediaItem): Option<Reason> {
    if scan.filters.added.All? then None
    else if item.addedAt.None? then Some(MissingAddedDate)
    else if scan.filters.added.LastDays? then
      if scan.filters.now - scan.filters.added.days * DAY <= item.addedAt.value <= scan.filters.now then None
      else Some(OutsideAddedWindow)
    else
      match scan.localDate(item.addedAt.value)
      case None => Some(MissingAddedDate)
      case Some(date) =>
        if scan.filters.added.first <= date <= scan.filters.added.last then None else Some(OutsideAddedWindow)
  }

  type Latest = map<string, set<int>>

  function ExclusionReason(scan: Scan, item: MediaItem, latest: Latest): Option<Reason> {
    var f := scan.filters;
    var mediaType := MediaType(item, scan.kind);
    if AddedReason(scan, item).Some? then AddedReason(scan, item)
    else if mediaType == "" && (f.latestSeasons.Some? || YearsActive(f)) then Some(MissingMediaType)
    else if mediaType == "episode" && f.latestSeasons.Some? then
      if item.season == Some(0) then Some(SpecialsExcluded)
      else if item.seriesId == "" || item.season.None? then Some(MissingShowOrSeason)
      else if item.seriesId !in latest || item.season.value !in latest[item.seriesId] then Some(OutsideLatestSeasons)
      else None
    else if mediaType == "movie" && YearsActive(f) then
      if item.year.None? then Some(MissingMovieYear)
      else if f.yearFrom.Some? && item.year.value < f.yearFrom.value then Some(OutsideMovieYears)
      else if f.yearTo.Some? && item.year.value > f.yearTo.value then Some(OutsideMovieYears)
      else None
    else None
  }

  // The latest seasons of each show ---------------------------------------------------------------------------------

  predicate NamesSeason(item: MediaItem, kind: string) {
    MediaType(item, kind) == "episode" && item.seriesId != "" && item.season.Some? && item.season.value > 0
  }

  function SeriesOf(items: seq<MediaItem>, kind: string): set<string> {
    set item <- items | NamesSeason(item, kind) :: item.seriesId
  }

  /** The positive seasons a show has in the library. */
  function SeasonsOf(items: seq<MediaItem>, kind: string, series: string): set<int> {
    set item <- items | NamesSeason(item, kind) && item.seriesId == series :: item.season.value
  }

  lemma SomeElement(s: set<int>)
    ensures s == {} || exists x :: x in s
  {
    if forall x: int :: x !in s {
      assert s == {};
    }
  }

  lemma {:induction false} HasLargest(s: set<int>, x: int) returns (m: int)
    requires x in s
    ensures x <= m && m in s && forall y <- s :: y <= m
    decreases |s|
  {
    var rest := s - {x};
    m := x;
    if y :| y in rest && y > x {
      m := HasLargest(rest, y);
    }
    forall z <- s ensures z <= m {
      assert z == x || z in rest;
    }
  }

  function Largest(s: set<int>): (m: int)
    requires s != {}
    ensures m in s && forall x <- s :: x <= m
  {
    SomeElement(s);
    assert exists m :: m in s && forall x <- s :: x <= m by {
      var x :| x in s;
      var m := HasLargest(s, x);
      assert m in s && forall y <- s :: y <= m;
    }
    var m :| m in s && forall x <- s :: x <= m;
    m
  }

  function Sorted(s: set<int>): (r: seq<int>)
    ensures forall x :: x in r <==> x in s
    ensures forall i, j | 0 <= i < j < |r| :: r[i] < r[j]
  {
    if s == {} then [] else Sorted(s - {Largest(s)}) + [Largest(s)]
  }

  /** Python's `s[-n:]` for a positive n. */
  function LastOf(s: seq<int>, n: nat): seq<int> {
    if n >= |s| then s else s[|s| - n..]
  }

  function LastSeasons(seasons: set<int>, n: nat): set<int> {
    set x <- LastOf(Sorted(seasons), n)
  }

  function Larger(s: set<int>, x: int): set<int> {
    set y <- s | y > x
  }

  lemma LastOfSnoc(s: seq<int>, m: int, n: nat)
    requires n >= 1
    ensures LastOf(s + [m], n) == LastOf(s, n - 1) + [m]
  {
  }

  lemma LargerSnoc(s: set<int>, m: int, x: int)
    requires x < m && m in s
    ensures Larger(s, x) == Larger(s - {m}, x) + {m}
    ensures |Larger(s, x)| == |Larger(s - {m}, x)| + 1
  {
    assert Larger(s, x) == Larger(s - {m}, x) + {m};
  }

  /** The end of the sorted list holds the seasons that fewer than n others come after. */
  lemma {:induction false} LastSeasonsIff(s: set<int>, n: nat, x: int)
    requires x in s
    ensures x in LastSeasons(s, n) <==> |Larger(s, x)| < n
    decreases |s|
  {
    var m, rest := Largest(s), s - {Largest(s)};
    if n == 0 {
      assert LastOf(Sorted(s), n) == [];
    } else {
      LastOfSnoc(Sorted(rest), m, n);
      if x == m {
        assert Larger(s, x) == {};
      } else {
        LargerSnoc(s, m, x);
        LastSeasonsIff(rest, n - 1, x);
      }
    }
  }

  function LatestOf(scan: Scan, items: seq<MediaItem>): Latest {
    if scan.filters.latestSeasons.None? || scan.filters.latestSeasons.value < 1 then map[]
    else
      map series | series in SeriesOf(items, scan.kind) ::
        LastSeasons(SeasonsOf(items, scan.kind, series), scan.filters.latestSeasons.value)
  }

  // What a run takes ------------------------------------------------------------------------------------------------

  /** The positions of the items that stay, in order. */
  function KeptAt(scan: Scan, items: seq<MediaItem>, latest: Latest): (kept: seq<nat>)
    ensures forall i | 0 <= i < |kept| :: kept[i] < |items|
  {
    if items == [] then []
    else
      var n := |items| - 1;
      KeptAt(scan, items[..n], latest) + if ExclusionReason(scan, items[n], latest).None? then [n] else []
  }

  function Pick(items: seq<MediaItem>, positions: seq<nat>): seq<MediaItem>
    requires forall i | 0 <= i < |positions| :: positions[i] < |items|
  {
    seq(|positions|, i requires 0 <= i < |positions| => items[positions[i]])
  }

  /** Why the others went. */
  function Exclusions(scan: Scan, items: seq<MediaItem>, latest: Latest): multiset<Reason> {
    if items == [] then multiset{}
    else
      var n := |items| - 1;
      var reason := ExclusionReason(scan, items[n], latest);
      Exclusions(scan, items[..n], latest) + if reason.Some? then multiset{reason.value} else multiset{}
  }

  /** The answer of the check made before the i-th item of a pass. */
  predicate Stops(cancel: nat -> bool, first: nat, i: nat) {
    cancel(first + i)
  }

  /** How many of n items a pass reaches. */
  function Reached(cancel: nat -> bool, first: nat, n: nat): (r: nat)
    ensures r <= n && (forall i | 0 <= i < r :: !Stops(cancel, first, i)) && (r < n ==> Stops(cancel, first, r))
  {
    if n == 0 then 0
    else
      var before := Reached(cancel, first, n - 1);
      if before < n - 1 || Stops(cancel, first, n - 1) then before else n
  }

  /** The items the second pass comes to; the first pass, when there is one, must finish. */
  function Seen(scan: Scan, items: seq<MediaItem>, cancel: nat -> bool): (n: nat)
    ensures n <= |items|
  {
    if scan.filters.latestSeasons.None? then Reached(cancel, 0, |items|)
    else if Reached(cancel, 0, |items|) < |items| then 0
    else Reached(cancel, |items|, |items|)
  }

  function Selected(scan: Scan, items: seq<MediaItem>, cancel: nat -> bool): seq<MediaItem> {
    var seen := items[..Seen(scan, items, cancel)];
    Pick(seen, KeptAt(scan, seen, LatestOf(scan, items)))
  }

  function Uncancelled(): nat -> bool {
    _ => false
  }

  lemma UncancelledSeesAll(scan: Scan, items: seq<MediaItem>)
    ensures Seen(scan, items, Uncancelled()) == |items|
    ensures Selected(scan, items, Uncancelled()) == Pick(items, KeptAt(scan, items, LatestOf(scan, items)))
  {
    assert items[..|items|] == items;
  }

  // Properties ------------------------------------------------------------------------------------------------------

  lemma {:induction false} KeptAtIff(scan: Scan, items: seq<MediaItem>, latest: Latest, i: nat)
    ensures i in KeptAt(scan, items, latest) <==> i < |items| && ExclusionReason(scan, items[i], latest).None?
  {
    if items != [] {
      var n := |items| - 1;
      KeptAtIff(scan, items[..n], latest, i);
    }
  }

  predicate Increasing(positions: seq<nat>) {
    forall i, j | 0 <= i < j < |positions| :: positions[i] < positions[j]
  }

  lemma {:induction false} KeptAtIncreasing(scan: Scan, items: seq<MediaItem>, latest: Latest)
    ensures Increasing(KeptAt(scan, items, latest))
  {
    if items != [] {
      KeptAtIncreasing(scan, items[..|items| - 1], latest);
    }
  }

  /** The positions an uncancelled run takes. */
  function Positions(scan: Scan, items: seq<MediaItem>): seq<nat> {
    KeptAt(scan, items, LatestOf(scan, items))
  }

  function AddedOnly(scan: Scan): Scan {
    scan.(filters := scan.filters.(latestSeasons := None, yearFrom := None, yearTo := None))
  }

  function SeasonsOnly(scan: Scan): Scan {
    scan.(filters := scan.filters.(added := All, yearFrom := None, yearTo := None))
  }

  function YearsOnly(scan: Scan): Scan {
    scan.(filters := scan.filters.(added := All, latestSeasons := None))
  }

  lemma ReasonsSplit(scan: Scan, item: MediaItem, latest: Latest, any: Latest)
    ensures ExclusionReason(scan, item, latest).None? <==>
              && ExclusionReason(AddedOnly(scan), item, any).None?
              && ExclusionReason(SeasonsOnly(scan), item, latest).None?
              && ExclusionReason(YearsOnly(scan), item, any).None?
  {
  }

  /**
   * An uncancelled run yields, in the library's order, the items at exactly those positions that the added-date, the
   * latest-seasons and the year filter would each keep alone on the same library.
   */
  lemma FiltersIntersect(scan: Scan, items: seq<MediaItem>, i: nat)
    ensures forall k | 0 <= k < |Positions(scan, items)| :: Positions(scan, items)[k] < |items|
    ensures Selected(scan, items, Uncancelled()) == Pick(items, Positions(scan, items))
    ensures Increasing(Positions(scan, items))
    ensures i in Positions(scan, items) <==>
              && i in Positions(AddedOnly(scan), items)
              && i in Positions(SeasonsOnly(scan), items)
              && i in Positions(YearsOnly(scan), items)
  {
    UncancelledSeesAll(scan, items);
    KeptAtIncreasing(scan, items, LatestOf(scan, items));
    KeptAtIff(scan, items, LatestOf(scan, items), i);
    KeptAtIff(AddedOnly(scan), items, LatestOf(AddedOnly(scan), items), i);
    KeptAtIff(SeasonsOnly(scan), items, LatestOf(SeasonsOnly(scan), items), i);
    KeptAtIff(YearsOnly(scan), items, LatestOf(YearsOnly(scan), items), i);
    assert LatestOf(SeasonsOnly(scan), items) == LatestOf(scan, items);
    if i < |items| {
      ReasonsSplit(scan, items[i], LatestOf(scan, items), LatestOf(AddedOnly(scan), items));
    }
  }

  /** An item is what it says it is, or, when it doesn't say, what its library holds. */
  predicate IsEpisode(item: MediaItem, kind: string) {
    item.mediaType == "episode" || (item.mediaType == "" && kind in ["show", "series", "tvshows", "episode"])
  }

  predicate IsMovie(item: MediaItem, kind: string) {
    item.mediaType == "movie" || (item.mediaType == "" && kind in ["movie", "movies"])
  }

  predicate IsUntyped(item: MediaItem, kind: string) {
    item.mediaType == "" && !IsEpisode(item, kind) && !IsMovie(item, kind)
  }

  lemma TypesAre(item: MediaItem, kind: string)
    ensures MediaType(item, kind) == "episode" <==> IsEpisode(item, kind)
    ensures MediaType(item, kind) == "movie" <==> IsMovie(item, kind)
    ensures MediaType(item, kind) == "" <==> IsUntyped(item, kind)
  {
  }

  /** The later seasons of a show in the library. */
  function LaterSeasons(items: seq<MediaItem>, kind: string, series: string, season: int): set<int> {
    set o <- items | IsEpisode(o, kind) && o.seriesId == series && o.season.Some? && o.season.value > season :: o.season.value
  }

  /** One of the n latest seasons its show has anywhere in the library, whatever the other filters say. */
  predicate InLatestSeasons(items: seq<MediaItem>, kind: string, n: int, item: MediaItem) {
    && item.seriesId != "" && item.season.Some? && item.season.value > 0
    && |LaterSeasons(items, kind, item.seriesId, item.season.value)| < n
  }

  lemma LaterAreLarger(items: seq<MediaItem>, kind: string, item: MediaItem)
    requires NamesSeason(item, kind)
    ensures LaterSeasons(items, kind, item.seriesId, item.season.value)
         == Larger(SeasonsOf(items, kind, item.seriesId), item.season.value)
  {
    forall o <- items ensures MediaType(o, kind) == "episode" <==> IsEpisode(o, kind) {
      TypesAre(o, kind);
    }
  }

  /**
   * The seasons filter keeps an episode exactly when fewer than n later seasons of its show are in the library, and
   * any other item that is known to be one.
   */
  lemma EpisodeKeptIff(scan: Scan, items: seq<MediaItem>, i: nat)
    requires Validated(scan.filters) && scan.filters.latestSeasons.Some? && i < |items|
    ensures var kept := if IsEpisode(items[i], scan.kind) then InLatestSeasons(items, scan.kind, scan.filters.latestSeasons.value, items[i])
                        else !IsUntyped(items[i], scan.kind);
            (i in Positions(SeasonsOnly(scan), items) <==> kept) && (i in Positions(scan, items) ==> kept)
  {
    var only, item := SeasonsOnly(scan), items[i];
    FiltersIntersect(scan, items, i);
    KeptAtIff(only, items, LatestOf(only, items), i);
    assert LatestOf(only, items) == LatestOf(scan, items);
    TypesAre(item, scan.kind);
    if IsEpisode(item, scan.kind) {
      SeasonsReason(scan, item, LatestOf(scan, items));
      InLatestIff(scan, items, item);
    }
  }

  lemma SeasonsReason(scan: Scan, item: MediaItem, latest: Latest)
    requires MediaType(item, scan.kind) == "episode" && scan.filters.latestSeasons.Some?
    ensures ExclusionReason(SeasonsOnly(scan), item, latest).None? <==>
            && item.season.Some? && item.season.value != 0 && item.seriesId != ""
            && item.seriesId in latest && item.season.value in latest[item.seriesId]
  {
  }

  lemma InLatestIff(scan: Scan, items: seq<MediaItem>, item: MediaItem)
    requires item in items && MediaType(item, scan.kind) == "episode"
    requires Validated(scan.filters) && scan.filters.latestSeasons.Some?
    ensures InLatestSeasons(items, scan.kind, scan.filters.latestSeasons.value, item) <==>
            && item.season.Some? && item.season.value != 0 && item.seriesId != ""
            && item.seriesId in LatestOf(scan, items) && item.season.value in LatestOf(scan, items)[item.seriesId]
  {
    var seasons, n := SeasonsOf(items, scan.kind, item.seriesId), scan.filters.latestSeasons.value;
    TypesAre(item, scan.kind);
    if NamesSeason(item, scan.kind) {
      LaterAreLarger(items, scan.kind, item);
      assert item.seriesId in SeriesOf(items, scan.kind) && item.season.value in seasons;
      LastSeasonsIff(seasons, n, item.season.value);
    } else {
      OnlyPositive(items, scan.kind, item.seriesId, n);
    }
  }

  lemma OnlyPositive(items: seq<MediaItem>, kind: string, series: string, n: nat)
    ensures forall x <- LastSeasons(SeasonsOf(items, kind, series), n) :: x > 0
  {
    forall x <- LastSeasons(SeasonsOf(items, kind, series), n) ensures x > 0 {
      assert x in Sorted(SeasonsOf(items, kind, series));
    }
  }

  /** The year filter keeps movies of the years, ends included, and whatever is known not to be a movie. */
  lemma YearsKeptIff(scan: Scan, items: seq<MediaItem>, i: nat)
    requires i < |items| && YearsActive(scan.filters)
    ensures var f, item := scan.filters, items[i];
            i in Positions(YearsOnly(scan), items) <==>
            if IsMovie(item, scan.kind) then
              item.year.Some? && f.yearFrom.GetOr(item.year.value) <= item.year.value <= f.yearTo.GetOr(item.year.value)
            else !IsUntyped(item, scan.kind)
  {
    var only := YearsOnly(scan);
    KeptAtIff(only, items, LatestOf(only, items), i);
    TypesAre(items[i], scan.kind);
  }

  /** Within the last so many days up to now, or on a local date of the range, ends included. */
  ghost predicate InWindow(scan: Scan, at: int) {
    match scan.filters.added
    case All => true
    case LastDays(days) => 0 <= scan.filters.now - at <= days * DAY
    case DateRange(first, last) => exists date :: scan.localDate(at) == Some(date) && first <= date <= last
  }

  /** The added-date filter keeps the items of a known date in its window, and without a filter every item. */
  lemma AddedKeptIff(scan: Scan, items: seq<MediaItem>, i: nat)
    requires i < |items|
    ensures i in Positions(AddedOnly(scan), items) <==>
            scan.filters.added.All? || (items[i].addedAt.Some? && InWindow(scan, items[i].addedAt.value))
  {
    var only := AddedOnly(scan);
    KeptAtIff(only, items, LatestOf(only, items), i);
    if items[i].addedAt.Some? && scan.localDate(items[i].addedAt.value).Some? {
      var date := scan.localDate(items[i].addedAt.value).value;
      assert scan.localDate(items[i].addedAt.value) == Some(date);
    }
  }

  /** What a counted reason says of the item. */
  ghost predicate IsTrueOf(scan: Scan, items: seq<MediaItem>, item: MediaItem, reason: Reason) {
    var f, kind := scan.filters, scan.kind;
    match reason
    case MissingAddedDate => item.addedAt.None? || (f.added.DateRange? && scan.localDate(item.addedAt.value).None?)
    case OutsideAddedWindow =>
      item.addedAt.Some? && !InWindow(scan, item.addedAt.value) && (f.added.DateRange? ==> scan.localDate(item.addedAt.value).Some?)
    case MissingMediaType => IsUntyped(item, kind) && (f.latestSeasons.Some? || YearsActive(f))
    case SpecialsExcluded => IsEpisode(item, kind) && f.latestSeasons.Some? && item.season == Some(0)
    case MissingShowOrSeason =>
      IsEpisode(item, kind) && f.latestSeasons.Some? && item.season != Some(0) && (item.seriesId == "" || item.season.None?)
    case OutsideLatestSeasons =>
      && IsEpisode(item, kind) && f.latestSeasons.Some? && item.seriesId != "" && item.season.Some? && item.season != Some(0)
      && !InLatestSeasons(items, kind, f.latestSeasons.value, item)
    case MissingMovieYear => IsMovie(item, kind) && YearsActive(f) && item.year.None?
    case OutsideMovieYears =>
      && IsMovie(item, kind) && item.year.Some?
      && !(f.yearFrom.GetOr(item.year.value) <= item.year.value <= f.yearTo.GetOr(item.year.value))
  }

  /** Every reason counted is true of its item, and the added date is given as the reason whenever it is one. */
  lemma ReasonIsTrue(scan: Scan, items: seq<MediaItem>, item: MediaItem)
    requires Validated(scan.filters) && item in items
    ensures var reason := ExclusionReason(scan, item, LatestOf(scan, items));
            && (reason.Some? ==> IsTrueOf(scan, items, item, reason.value))
            && (reason == Some(MissingAddedDate) || reason == Some(OutsideAddedWindow) <==>
                !scan.filters.added.All? && (item.addedAt.None? || !InWindow(scan, item.addedAt.value)))
  {
    TypesAre(item, scan.kind);
    if scan.filters.latestSeasons.Some? && IsEpisode(item, scan.kind) {
      InLatestIff(scan, items, item);
    }
    if item.addedAt.Some? && scan.localDate(item.addedAt.value).Some? {
      assert scan.localDate(item.addedAt.value) == Some(scan.localDate(item.addedAt.value).value);
    }
  }

  /** Yielded and excluded items together are the items the run came to: all of them when it isn't cancelled. */
  lemma {:induction false} NothingIsLost(scan: Scan, items: seq<MediaItem>, latest: Latest)
    ensures |KeptAt(scan, items, latest)| + |Exclusions(scan, items, latest)| == |items|
  {
    if items != [] {
      NothingIsLost(scan, items[..|items| - 1], latest);
    }
  }

  lemma {:induction false} KeptAtPrefix(scan: Scan, items: seq<MediaItem>, latest: Latest, n: nat)
    requires n <= |items|
    ensures KeptAt(scan, items[..n], latest) <= KeptAt(scan, items, latest)
  {
    if n < |items| {
      KeptAtPrefix(scan, items[..|items| - 1], latest, n);
      assert items[..|items| - 1][..n] == items[..n];
    } else {
      assert items[..n] == items;
    }
  }

  /** A cancelled run yields the beginning of what the uncancelled one yields. */
  lemma CancelGivesAPrefix(scan: Scan, items: seq<MediaItem>, cancel: nat -> bool)
    ensures Selected(scan, items, cancel) <= Selected(scan, items, Uncancelled())
  {
    UncancelledSeesAll(scan, items);
    KeptAtPrefix(scan, items, LatestOf(scan, items), Seen(scan, items, cancel));
  }

  // The code --------------------------------------------------------------------------------------------------------

  /** The caller's counter of excluded items, added to in place. */
  class Counter {
    var counts: multiset<Reason>

    constructor ()
      ensures counts == multiset{}
    {
      counts := multiset{};
    }
  }

  lemma TakeNext(items: seq<MediaItem>, i: nat)
    requires i < |items|
    ensures items[..i + 1] == items[..i] + [items[i]]
    ensures items[..i + 1][..i] == items[..i]
  {
  }

  /** What the second pass has yielded after these items. */
  function Yielded(scan: Scan, seen: seq<MediaItem>, latest: Latest): seq<MediaItem> {
    Pick(seen, KeptAt(scan, seen, latest))
  }

  lemma YieldedSnoc(scan: Scan, seen: seq<MediaItem>, item: MediaItem, latest: Latest)
    ensures var reason := ExclusionReason(scan, item, latest);
            && Yielded(scan, seen + [item], latest) == Yielded(scan, seen, latest) + (if reason.None? then [item] else [])
            && Exclusions(scan, seen + [item], latest)
               == Exclusions(scan, seen, latest) + (if reason.Some? then multiset{reason.value} else multiset{})
  {
    assert (seen + [item])[..|seen|] == seen;
  }

  /** The first pass: the whole library's seasons, show by show. */
  predicate Collected(seen: seq<MediaItem>, kind: string, latest: Latest) {
    && latest.Keys == SeriesOf(seen, kind)
    && forall series | series in latest :: latest[series] == SeasonsOf(seen, kind, series)
  }

  lemma SeasonsSnoc(seen: seq<MediaItem>, item: MediaItem, kind: string, series: string)
    ensures SeriesOf(seen + [item], kind) == SeriesOf(seen, kind) + if NamesSeason(item, kind) then {item.seriesId} else {}
    ensures SeasonsOf(seen + [item], kind, series)
         == SeasonsOf(seen, kind, series)
            + if NamesSeason(item, kind) && item.seriesId == series then {item.season.value} else {}
  {
  }

  lemma NoSeasons(seen: seq<MediaItem>, kind: string, series: string)
    ensures series in SeriesOf(seen, kind) <==> SeasonsOf(seen, kind, series) != {}
  {
    if series in SeriesOf(seen, kind) {
      var item :| item in seen && NamesSeason(item, kind) && item.seriesId == series;
      assert item.season.value in SeasonsOf(seen, kind, series);
    }
  }

  function AddSeason(latest: Latest, item: MediaItem, kind: string): Latest {
    if !NamesSeason(item, kind) then latest
    else
      latest[item.seriesId := (if item.seriesId in latest then latest[item.seriesId] else {}) + {item.season.value}]
  }

  lemma CollectedSnoc(seen: seq<MediaItem>, item: MediaItem, kind: string, latest: Latest)
    requires Collected(seen, kind, latest)
    ensures Collected(seen + [item], kind, AddSeason(latest, item, kind))
  {
    NoSeasons(seen, kind, item.seriesId);
    SeasonsSnoc(seen, item, kind, item.seriesId);
    forall series | series in AddSeason(latest, item, kind)
      ensures AddSeason(latest, item, kind)[series] == SeasonsOf(seen + [item], kind, series)
    {
      SeasonsSnoc(seen, item, kind, series);
    }
  }

  method CollectSeasons(scan: Scan, items: seq<MediaItem>, cancel: nat -> bool) returns (latest: Latest, done: bool)
    ensures done <==> Reached(cancel, 0, |items|) == |items|
    ensures done ==> Collected(items, scan.kind, latest)
  {
    latest, done := map[], false;
    var i := 0;
    while i < |items|
      invariant 0 <= i <= |items|
      invariant forall k | 0 <= k < i :: !Stops(cancel, 0, k)
      invariant Collected(items[..i], scan.kind, latest)
    {
      if cancel(i) {
        assert Stops(cancel, 0, i);
        return;
      }
      TakeNext(items, i);
      CollectedSnoc(items[..i], items[i], scan.kind, latest);
      latest := AddSeason(latest, items[i], scan.kind);
      i := i + 1;
    }
    assert items[..i] == items;
    done := true;
  }

  lemma LatestFromCollected(scan: Scan, items: seq<MediaItem>, seasons: Latest)
    requires Validated(scan.filters) && scan.filters.latestSeasons.Some? && Collected(items, scan.kind, seasons)
    ensures (map series | series in seasons :: LastSeasons(seasons[series], scan.filters.latestSeasons.value))
         == LatestOf(scan, items)
  {
  }

  /** The second pass. */
  method FilterPass(scan: Scan, items: seq<MediaItem>, latest: Latest, excluded: Counter, cancel: nat -> bool, checks: nat)
    returns (yielded: seq<MediaItem>)
    modifies excluded
    ensures var seen := items[..Reached(cancel, checks, |items|)];
            && yielded == Yielded(scan, seen, latest)
            && excluded.counts == old(excluded.counts) + Exclusions(scan, seen, latest)
  {
    yielded := [];
    ghost var seen: seq<MediaItem>, gone: multiset<Reason> := [], multiset{};
    var i := 0;
    while i < |items|
      invariant 0 <= i <= |items| && seen == items[..i]
      invariant forall k | 0 <= k < i :: !Stops(cancel, checks, k)
      invariant yielded == Yielded(scan, seen, latest) && gone == Exclusions(scan, seen, latest)
      invariant excluded.counts == old(excluded.counts) + gone
    {
      if cancel(checks + i) {
        assert Stops(cancel, checks, i);
        break;
      }
      var reason := ExclusionReason(scan, items[i], latest);
      if reason.Some? {
        excluded.counts := excluded.counts + multiset{reason.value};
        gone := gone + multiset{reason.value};
      } else {
        yielded := yielded + [items[i]];
      }
      YieldedSnoc(scan, seen, items[i], latest);
      TakeNext(items, i);
      seen := seen + [items[i]];
      i := i + 1;
    }
  }

  /** The whole selection; `cancel` answers the checks in the order they are made. */
  method Select(scan: Scan, items: seq<MediaItem>, excluded: Counter, cancel: nat -> bool) returns (yielded: seq<MediaItem>)
    requires Validated(scan.filters)
    modifies excluded
    ensures yielded == Selected(scan, items, cancel)
    ensures excluded.counts == old(excluded.counts)
                               + Exclusions(scan, items[..Seen(scan, items, cancel)], LatestOf(scan, items))
  {
    var latest: Latest, checks := map[], 0;
    if scan.filters.latestSeasons.Some? {
      var seasons, done := CollectSeasons(scan, items, cancel);
      if !done {
        return [];
      }
      LatestFromCollected(scan, items, seasons);
      latest := map series | series in seasons :: LastSeasons(seasons[series], scan.filters.latestSeasons.value);
      checks := |items|;
    }
    yielded := FilterPass(scan, items, latest, excluded, cancel, checks);
  }
}
