/** Quiet hours: the rewrite of calendar-day windows into start-day windows keeps their meaning. quiet_hours.py. */
module QuietHours {
  import opened Wrappers
  import opened Json
  import opened Clock
  import opened WeeklyMask
  import opened GroupValidation
  import opened Bits
  import PyInt

  const DAYS := ["mon", "tue", "wed", "thu", "fri", "sat", "sun"]
  const MIDNIGHT: Time := "00:00"

  datatype QuietWindow = QuietWindow(start: Time, end: Time, days: seq<string>)

  /** Migrated quiet hours; `day_basis` is always "start". */
  datatype Quiet = Quiet(enabled: bool, windows: seq<QuietWindow>)

  // Reading ---------------------------------------------------------------------------------------------------------

  /** Python's `int` on text; None where it raises. */
  type IntReader = string -> Option<int>

  /** All that is needed of it: two digits read as they are written. */
  predicate PlainInts(parse: IntReader) {
    forall v | 0 <= v < 100 :: parse(TwoDigits(v)) == Some(v)
  }

  /** The position of the first colon; the length without one. */
  function Colon(s: string): (i: nat)
    ensures i <= |s| && (i < |s| ==> s[i] == ':') && forall k | 0 <= k < i :: s[k] != ':'
  {
    if s == "" || s[0] == ':' then 0 else 1 + Colon(s[1..])
  }

  /** "h:m", each part read as Python's `int` does, with both in range, zero-padded; None for anything else. */
  function ReadTime(parse: IntReader, value: Json): Option<Time> {
    if !value.Str? || Colon(value.s) == |value.s| then None
    else
      var hour, minute := parse(value.s[..Colon(value.s)]), parse(value.s[Colon(value.s) + 1..]);
      if hour.None? || minute.None? || !(0 <= hour.value < 24) || !(0 <= minute.value < 60) then None
      else Some(Format(hour.value, minute.value))
  }

  function LowerChar(c: char): char {
    if 'A' <= c <= 'Z' then (c as int + 32) as char else c
  }

  function Lower(s: string): string {
    seq(|s|, i requires 0 <= i < |s| => LowerChar(s[i]))
  }

  /** Whether a day is among the chosen ones, as typed. */
  predicate Names(raw: Json, day: string) {
    raw.Str? && Lower(Strip(raw.s)) == day
  }

  predicate NamedBy(raws: seq<Json>, day: string) {
    exists r <- raws :: Names(r, day)
  }

  function Chosen(days: seq<string>, raws: seq<Json>): seq<string> {
    if days == [] then [] else (if NamedBy(raws, days[0]) then [days[0]] else []) + Chosen(days[1..], raws)
  }

  /** The chosen days in week order; every day when none is. */
  function ChosenDays(raw: Json): seq<string> {
    var days := if raw.List? then Chosen(DAYS, raw.items) else [];
    if days == [] then DAYS else days
  }

  predicate StartBasis(fields: map<string, Json>) {
    PyEqual(Get(fields, "day_basis"), Str("start"))
  }

  function Fields(raw: Json): map<string, Json> {
    if raw.Obj? then raw.fields else map[]
  }

  function OldWindow(fields: map<string, Json>): Json {
    Obj(map["start" := Get(fields, "start"), "end" := Get(fields, "end")])
  }

  /** The rules to read: the window list, or the single old window beside it. */
  function Source(fields: map<string, Json>): seq<Json> {
    var windows := Get(fields, "windows");
    if !windows.List? || (windows.items == [] && !StartBasis(fields)) then [OldWindow(fields)] else windows.items
  }

  /** What one rule becomes. */
  function Rewritten(parse: IntReader, window: Json, startBasis: bool): seq<QuietWindow> {
    if !window.Obj? then []
    else
      var start, end := ReadTime(parse, Get(window.fields, "start")), ReadTime(parse, Get(window.fields, "end"));
      if start.None? || end.None? || start == end then []
      else
        var days := ChosenDays(Get(window.fields, "days"));
        if !startBasis && Before(end.value, start.value) then
          (if end.value != MIDNIGHT then [QuietWindow(MIDNIGHT, end.value, days)] else [])
          + [QuietWindow(start.value, MIDNIGHT, days)]
        else [QuietWindow(start.value, end.value, days)]
  }

  function RewrittenAll(parse: IntReader, source: seq<Json>, startBasis: bool): seq<QuietWindow> {
    if source == [] then []
    else RewrittenAll(parse, source[..|source| - 1], startBasis) + Rewritten(parse, source[|source| - 1], startBasis)
  }

  function Migrated(parse: IntReader, raw: Json): Quiet {
    var fields := Fields(raw);
    Quiet(Truthy(Get(fields, "enabled")), RewrittenAll(parse, Source(fields), StartBasis(fields)))
  }

  /** The loop body: what one rule appends. */
  method RewriteRule(parse: IntReader, window: Json, startBasis: bool) returns (windows: seq<QuietWindow>)
    ensures windows == Rewritten(parse, window, startBasis)
  {
    windows := [];
    if !window.Obj? {
      return;
    }
    var start, end := ReadTime(parse, Get(window.fields, "start")), ReadTime(parse, Get(window.fields, "end"));
    if start.None? || end.None? || start == end {
      return;
    }
    var days := ChosenDays(Get(window.fields, "days"));
    if !startBasis && Before(end.value, start.value) {
      if end.value != MIDNIGHT {
        windows := windows + [QuietWindow(MIDNIGHT, end.value, days)];
      }
      windows := windows + [QuietWindow(start.value, MIDNIGHT, days)];
    } else {
      windows := windows + [QuietWindow(start.value, end.value, days)];
    }
  }

  lemma RewrittenTake(parse: IntReader, source: seq<Json>, i: nat, startBasis: bool)
    requires i < |source|
    ensures RewrittenAll(parse, source[..i + 1], startBasis) == RewrittenAll(parse, source[..i], startBasis) + Rewritten(parse, source[i], startBasis)
  {
    assert source[..i + 1][..i] == source[..i];
  }

  method MigrateQuietHours(parse: IntReader, raw: Json) returns (quiet: Quiet)
    ensures quiet == Migrated(parse, raw)
  {
    var fields := Fields(raw);
    var startBasis := StartBasis(fields);
    var source := Source(fields);
    var windows := [];
    var i := 0;
    while i < |source|
      invariant 0 <= i <= |source|
      invariant windows == RewrittenAll(parse, source[..i], startBasis)
    {
      var more := RewriteRule(parse, source[i], startBasis);
      RewrittenTake(parse, source, i, startBasis);
      windows := windows + more;
      i := i + 1;
    }
    assert source[..i] == source;
    quiet := Quiet(Truthy(Get(fields, "enabled")), windows);
  }

  // Meaning ---------------------------------------------------------------------------------------------------------

  /** A stored time says this minute of the day: an hour and a minute, each a number Python reads, round its first colon. */
  predicate SaysMinute(parse: IntReader, value: Json, m: int) {
    && value.Str?
    && exists i | 0 <= i < |value.s| ::
      && value.s[i] == ':' && ':' !in value.s[..i]
      && var hour, minute := parse(value.s[..i]), parse(value.s[i + 1..]);
      && hour.Some? && minute.Some? && 0 <= hour.value < 24 && 0 <= minute.value < 60
      && m == hour.value * 60 + minute.value
  }

  /** A stored list of days means day `d`: the list names it, or there is no list or it names no day at all. */
  predicate MeansDay(days: Json, d: Day) {
    days.List? && (exists e: Day :: NamedBy(days.items, DAYS[e])) ==> NamedBy(days.items, DAYS[d])
  }

  /** Between two stored times, or over midnight round both ends of the day when the second is earlier. */
  predicate Between(parse: IntReader, start: Json, end: Json, t: int) {
    exists s, e | 0 <= s < DAY_MINUTES && 0 <= e < DAY_MINUTES ::
      && SaysMinute(parse, start, s) && SaysMinute(parse, end, e)
      && if s <= e then s <= t < e else t < e || s <= t
  }

  /** What a legacy rule meant at minute `t` of calendar day `d`: a window over midnight covers both ends of its day. */
  predicate LegacyRule(parse: IntReader, window: Json, d: Day, t: int) {
    && window.Obj? && MeansDay(Get(window.fields, "days"), d)
    && Between(parse, Get(window.fields, "start"), Get(window.fields, "end"), t)
  }

  predicate SomeRule(parse: IntReader, source: seq<Json>, d: Day, t: int) {
    exists w <- source :: LegacyRule(parse, w, d, t)
  }

  /** What the settings meant before start days: the rules of the list, or every day's `start` to `end` without any. */
  predicate LegacyQuiet(parse: IntReader, raw: Json, d: Day, t: int) {
    && raw.Obj? && Truthy(Get(raw.fields, "enabled"))
    && var windows := Get(raw.fields, "windows");
    if windows.List? && windows.items != [] then exists w <- windows.items :: LegacyRule(parse, w, d, t)
    else Between(parse, Get(raw.fields, "start"), Get(raw.fields, "end"), t)
  }

  // How rules are read ----------------------------------------------------------------------------------------------

  lemma ColonIs(s: string, i: nat)
    requires i < |s| && s[i] == ':' && ':' !in s[..i]
    ensures Colon(s) == i
  {
    assert forall k | 0 <= k < i :: s[k] in s[..i];
  }

  lemma TimeReads(parse: IntReader, value: Json, m: int)
    ensures SaysMinute(parse, value, m) <==> ReadTime(parse, value).Some? && m == Minute(ReadTime(parse, value).value)
  {
    if value.Str? {
      var i := Colon(value.s);
      if SaysMinute(parse, value, m) {
        var k :| 0 <= k < |value.s| && value.s[k] == ':' && ':' !in value.s[..k];
        ColonIs(value.s, k);
      }
      if i < |value.s| {
        assert value.s[i] == ':' && ':' !in value.s[..i];
        SaidAtColon(parse, value.s, i, m);
      }
    }
  }

  /** With its first colon known, a text says a minute exactly when the two parts are read and in range. */
  lemma SaidAtColon(parse: IntReader, s: string, i: nat, m: int)
    requires i < |s| && s[i] == ':' && ':' !in s[..i]
    ensures SaysMinute(parse, Str(s), m) <==>
            var hour, minute := parse(s[..i]), parse(s[i + 1..]);
            && hour.Some? && minute.Some? && 0 <= hour.value < 24 && 0 <= minute.value < 60
            && m == hour.value * 60 + minute.value
  {
    forall k | 0 <= k < |s| && s[k] == ':' && ':' !in s[..k] ensures k == i {
      ColonIs(s, k);
      ColonIs(s, i);
    }
  }

  lemma BetweenReads(parse: IntReader, start: Json, end: Json, t: int)
    ensures Between(parse, start, end, t) <==>
            && ReadTime(parse, start).Some? && ReadTime(parse, end).Some?
            && var s, e := Minute(ReadTime(parse, start).value), Minute(ReadTime(parse, end).value);
            if s <= e then s <= t < e else t < e || s <= t
  {
    forall m ensures SaysMinute(parse, start, m) <==> ReadTime(parse, start).Some? && m == Minute(ReadTime(parse, start).value) {
      TimeReads(parse, start, m);
    }
    forall m ensures SaysMinute(parse, end, m) <==> ReadTime(parse, end).Some? && m == Minute(ReadTime(parse, end).value) {
      TimeReads(parse, end, m);
    }
    if ReadTime(parse, start).Some? && ReadTime(parse, end).Some? {
      var s, e := Minute(ReadTime(parse, start).value), Minute(ReadTime(parse, end).value);
      assert SaysMinute(parse, start, s) && SaysMinute(parse, end, e);
    }
  }

  lemma DaysRead(raw: Json, d: Day)
    ensures MeansDay(raw, d) <==> DAYS[d] in ChosenDays(raw)
  {
    if raw.List? {
      ChosenMembers(DAYS, raw.items);
      if Chosen(DAYS, raw.items) != [] {
        var day := Chosen(DAYS, raw.items)[0];
        assert day in DAYS && NamedBy(raw.items, day);
        var e :| 0 <= e < 7 && DAYS[e] == day;
      }
    }
  }

  function DayIndex(i: nat, day: string): Day
    requires i <= 6
    decreases 6 - i
  {
    if i == 6 || DAYS[i] == day then i else DayIndex(i + 1, day)
  }

  function DayNumbers(days: seq<string>): (numbers: seq<Day>)
    ensures |numbers| == |days| && forall i | 0 <= i < |days| :: numbers[i] == DayIndex(0, days[i])
  {
    seq(|days|, i requires 0 <= i < |days| => DayIndex(0, days[i]))
  }

  function AsWindow(w: QuietWindow): Window {
    Window(DayNumbers(w.days), w.start, w.end)
  }

  function AsWindows(ws: seq<QuietWindow>): (windows: seq<Window>)
    ensures |windows| == |ws| && forall i | 0 <= i < |ws| :: windows[i] == AsWindow(ws[i])
  {
    seq(|ws|, i requires 0 <= i < |ws| => AsWindow(ws[i]))
  }

  /** The group-like hours the weekly mask is taken from. */
  function AsHours(q: Quiet): Hours {
    Hours(q.enabled, false, AsWindows(q.windows))
  }

  /** Every window names days of the week. */
  predicate KnownDays(days: seq<string>) {
    forall d <- days :: d in DAYS
  }

  lemma DayIndexOf(d: Day)
    ensures DayIndex(0, DAYS[d]) == d
  {
    assert DAYS[0] != DAYS[1] && DAYS[0][0] == 'm' && DAYS[1][..2] == "tu" && DAYS[2][0] == 'w' && DAYS[3][..2] == "th"
      && DAYS[4][0] == 'f' && DAYS[5][..2] == "sa" && DAYS[6][..2] == "su";
    forall i: Day | i < d ensures DAYS[i] != DAYS[d] {
      assert DAYS[i][..2] != DAYS[d][..2];
    }
    DayIndexFrom(0, d);
  }

  lemma {:induction false} DayIndexFrom(i: nat, d: Day)
    requires i <= d && forall j: Day | j < d :: DAYS[j] != DAYS[d]
    ensures DayIndex(i, DAYS[d]) == d
    decreases d - i
  {
    if i < d {
      DayIndexFrom(i + 1, d);
    }
  }

  lemma KnownDayNumbers(days: seq<string>, d: Day)
    requires KnownDays(days)
    ensures d in DayNumbers(days) <==> DAYS[d] in days
  {
    forall i | 0 <= i < |days| ensures DayNumbers(days)[i] == d <==> days[i] == DAYS[d] {
      assert days[i] in DAYS;
      var k :| 0 <= k < 7 && DAYS[k] == days[i];
      DayIndexOf(k);
      DayIndexOf(d);
    }
    if d in DayNumbers(days) {
      var i :| 0 <= i < |days| && DayNumbers(days)[i] == d;
      assert days[i] in days;
    }
    if DAYS[d] in days {
      var i :| 0 <= i < |days| && days[i] == DAYS[d];
      assert DayNumbers(days)[i] == d;
    }
  }

  lemma {:induction false} ChosenMembers(days: seq<string>, raws: seq<Json>)
    ensures forall d :: d in Chosen(days, raws) <==> d in days && NamedBy(raws, d)
  {
    if days != [] {
      ChosenMembers(days[1..], raws);
      assert forall d :: d in days <==> d == days[0] || d in days[1..];
    }
  }

  predicate Inside(w: QuietWindow, d: Day, t: int) {
    OnSomeDay(AsWindow(w), AsWindow(w).days, d * DAY_MINUTES + t)
  }

  predicate SomeInside(ws: seq<QuietWindow>, d: Day, t: int) {
    exists w <- ws :: Inside(w, d, t)
  }

  /** A window that ends later the same day, or at midnight, stays within its start day. */
  lemma WithinDay(w: Window, from: Day, d: Day, t: int, until: int)
    requires 0 <= t < DAY_MINUTES
    requires until == if w.end == MIDNIGHT then DAY_MINUTES else Minute(w.end)
    requires Minute(w.start) < until && !(w.start == MIDNIGHT && w.end == MIDNIGHT)
    ensures Covers(w, from, d * DAY_MINUTES + t) <==> from == d && Minute(w.start) <= t < until
  {
    TimesCompareAsStrings(w.end, MIDNIGHT);
    TimesCompareAsStrings(w.start, MIDNIGHT);
    assert Minute(MIDNIGHT) == 0;
    CoversOnDays(w, from, d, t);
  }

  lemma DayWindow(w: QuietWindow, d: Day, t: int, until: int)
    requires KnownDays(w.days) && 0 <= t < DAY_MINUTES
    requires until == if w.end == MIDNIGHT then DAY_MINUTES else Minute(w.end)
    requires Minute(w.start) < until && !(w.start == MIDNIGHT && w.end == MIDNIGHT)
    ensures Inside(w, d, t) <==> DAYS[d] in w.days && Minute(w.start) <= t < until
  {
    KnownDayNumbers(w.days, d);
    forall from <- AsWindow(w).days ensures Covers(AsWindow(w), from, d * DAY_MINUTES + t) <==> from == d && Minute(w.start) <= t < until {
      WithinDay(AsWindow(w), from, d, t, until);
    }
  }

  /** One legacy rule and what it becomes cover the same minutes. */
  lemma RuleKept(parse: IntReader, window: Json, d: Day, t: int)
    requires 0 <= t < DAY_MINUTES
    ensures LegacyRule(parse, window, d, t) <==> SomeInside(Rewritten(parse, window, false), d, t)
  {
    if window.Obj? {
      BetweenReads(parse, Get(window.fields, "start"), Get(window.fields, "end"), t);
      var start, end := ReadTime(parse, Get(window.fields, "start")), ReadTime(parse, Get(window.fields, "end"));
      if start.Some? && end.Some? && start != end {
        var days := ChosenDays(Get(window.fields, "days"));
        KnownChosen(Get(window.fields, "days"));
        TimedRuleKept(parse, start.value, end.value, days, window, d, t);
      }
    }
  }

  lemma KnownChosen(raw: Json)
    ensures KnownDays(ChosenDays(raw))
  {
    if raw.List? {
      ChosenMembers(DAYS, raw.items);
    }
  }

  lemma InsideTwo(a: QuietWindow, b: QuietWindow, d: Day, t: int)
    ensures SomeInside([a], d, t) <==> Inside(a, d, t)
    ensures SomeInside([a, b], d, t) <==> Inside(a, d, t) || Inside(b, d, t)
  {
    assert [a, b][0] == a && [a, b][1] == b && [a][0] == a;
  }

  lemma TimedRuleKept(parse: IntReader, start: Time, end: Time, days: seq<string>, window: Json, d: Day, t: int)
    requires 0 <= t < DAY_MINUTES && KnownDays(days) && start != end
    requires window.Obj? && ReadTime(parse, Get(window.fields, "start")) == Some(start) && ReadTime(parse, Get(window.fields, "end")) == Some(end)
    requires days == ChosenDays(Get(window.fields, "days"))
    ensures LegacyRule(parse, window, d, t) <==> SomeInside(Rewritten(parse, window, false), d, t)
  {
    TimesCompareAsStrings(end, start);
    BetweenReads(parse, Get(window.fields, "start"), Get(window.fields, "end"), t);
    DaysRead(Get(window.fields, "days"), d);
    SplitKeeps(start, end, days, d, t);
    assert Rewritten(parse, window, false) == Split(start, end, days);
  }

  /** The windows one readable rule becomes: cut at midnight when it runs over it. */
  function Split(start: Time, end: Time, days: seq<string>): seq<QuietWindow> {
    if !Before(end, start) then [QuietWindow(start, end, days)]
    else if end == MIDNIGHT then [QuietWindow(start, MIDNIGHT, days)]
    else [QuietWindow(MIDNIGHT, end, days), QuietWindow(start, MIDNIGHT, days)]
  }

  lemma SplitKeeps(start: Time, end: Time, days: seq<string>, d: Day, t: int)
    requires 0 <= t < DAY_MINUTES && KnownDays(days) && start != end
    ensures var s, e := Minute(start), Minute(end);
            SomeInside(Split(start, end, days), d, t) <==>
            DAYS[d] in days && (if s < e then s <= t < e else t < e || s <= t)
  {
    TimesCompareAsStrings(end, start);
    TimesCompareAsStrings(end, MIDNIGHT);
    TimesCompareAsStrings(start, MIDNIGHT);
    assert Minute(MIDNIGHT) == 0;
    var late := QuietWindow(start, if Before(end, start) then MIDNIGHT else end, days);
    DayWindow(late, d, t, if Before(end, start) then DAY_MINUTES else Minute(end));
    if Before(end, start) && end != MIDNIGHT {
      var morning := QuietWindow(MIDNIGHT, end, days);
      DayWindow(morning, d, t, Minute(end));
      InsideTwo(morning, late, d, t);
    } else {
      InsideTwo(late, late, d, t);
    }
  }

  lemma SomeRuleSnoc(parse: IntReader, init: seq<Json>, last: Json, d: Day, t: int)
    ensures SomeRule(parse, init + [last], d, t) <==> SomeRule(parse, init, d, t) || LegacyRule(parse, last, d, t)
  {
    assert forall w :: w in init + [last] <==> w in init || w == last;
  }

  lemma SomeInsideConcat(a: seq<QuietWindow>, b: seq<QuietWindow>, d: Day, t: int)
    ensures SomeInside(a + b, d, t) <==> SomeInside(a, d, t) || SomeInside(b, d, t)
  {
    assert forall w :: w in a + b <==> w in a || w in b;
  }

  lemma {:induction false} RulesKept(parse: IntReader, source: seq<Json>, d: Day, t: int)
    requires 0 <= t < DAY_MINUTES
    ensures SomeRule(parse, source, d, t) <==> SomeInside(RewrittenAll(parse, source, false), d, t)
  {
    if source != [] {
      var init, last := source[..|source| - 1], source[|source| - 1];
      RulesKept(parse, init, d, t);
      RuleKept(parse, last, d, t);
      assert source == init + [last];
      SomeRuleSnoc(parse, init, last, d, t);
      SomeInsideConcat(RewrittenAll(parse, init, false), Rewritten(parse, last, false), d, t);
    }
  }

  lemma InsideWindows(ws: seq<QuietWindow>, d: Day, t: int)
    ensures InSomeWindow(AsWindows(ws), d * DAY_MINUTES + t) <==> SomeInside(ws, d, t)
  {
    if SomeInside(ws, d, t) {
      var w :| w in ws && Inside(w, d, t);
      var i :| 0 <= i < |ws| && ws[i] == w;
      assert AsWindows(ws)[i] == AsWindow(w);
    }
    if InSomeWindow(AsWindows(ws), d * DAY_MINUTES + t) {
      var v :| v in AsWindows(ws) && OnSomeDay(v, v.days, d * DAY_MINUTES + t);
      var i :| 0 <= i < |ws| && AsWindows(ws)[i] == v;
      assert Inside(ws[i], d, t);
    }
  }

  /**
   * The migration preserves meaning: for settings from before start-day windows, the migrated hours are quiet at a
   * minute of a calendar day exactly when the old rules were.
   */
  lemma MigrationKeepsMeaning(parse: IntReader, raw: Json, d: Day, t: int)
    requires !OnStartDays(raw) && 0 <= t < DAY_MINUTES
    ensures OpenAt(AsHours(Migrated(parse, raw)), d * DAY_MINUTES + t) <==> LegacyQuiet(parse, raw, d, t)
  {
    RulesKept(parse, Source(Fields(raw)), d, t);
    InsideWindows(Migrated(parse, raw).windows, d, t);
    if raw.Obj? {
      OldWindowRead(parse, raw.fields, d, t);
    }
  }

  /** The single old window applies every day. */
  lemma OldWindowRead(parse: IntReader, fields: map<string, Json>, d: Day, t: int)
    ensures LegacyRule(parse, OldWindow(fields), d, t) <==> Between(parse, Get(fields, "start"), Get(fields, "end"), t)
    ensures SomeRule(parse, [OldWindow(fields)], d, t) <==> LegacyRule(parse, OldWindow(fields), d, t)
  {
    var window := OldWindow(fields);
    assert Get(window.fields, "start") == Get(fields, "start") && Get(window.fields, "end") == Get(fields, "end");
    assert [window][0] == window;
  }

  // The meaning of start days ---------------------------------------------------------------------------------------

  /** Between two stored times that start on day `d`, or on the day before when the second time is earlier. */
  predicate BetweenOnDays(parse: IntReader, start: Json, end: Json, today: bool, yesterday: bool, t: int) {
    exists s, e | 0 <= s < DAY_MINUTES && 0 <= e < DAY_MINUTES ::
      && SaysMinute(parse, start, s) && SaysMinute(parse, end, e)
      && if s <= e then today && s <= t < e else (today && s <= t) || (yesterday && t < e)
  }

  /** What a rule on start days means at minute `t` of day `d`: an overnight window runs into the next day. */
  predicate StartRule(parse: IntReader, window: Json, d: Day, t: int) {
    && window.Obj?
    && var days := Get(window.fields, "days");
    BetweenOnDays(parse, Get(window.fields, "start"), Get(window.fields, "end"), MeansDay(days, d), MeansDay(days, DayBefore(d)), t)
  }

  predicate SomeStartRule(parse: IntReader, source: seq<Json>, d: Day, t: int) {
    exists w <- source :: StartRule(parse, w, d, t)
  }

  predicate OnStartDays(raw: Json) {
    raw.Obj? && Get(raw.fields, "day_basis") == Str("start")
  }

  /** What settings on start days mean: the rules of the list, none for an empty one, or `start` to `end` without a list. */
  predicate StartQuiet(parse: IntReader, raw: Json, d: Day, t: int) {
    && raw.Obj? && Truthy(Get(raw.fields, "enabled"))
    && var windows := Get(raw.fields, "windows");
    if windows.List? then exists w <- windows.items :: StartRule(parse, w, d, t)
    else Between(parse, Get(raw.fields, "start"), Get(raw.fields, "end"), t)
  }

  lemma BetweenOnDaysReads(parse: IntReader, start: Json, end: Json, today: bool, yesterday: bool, t: int)
    ensures BetweenOnDays(parse, start, end, today, yesterday, t) <==>
            && ReadTime(parse, start).Some? && ReadTime(parse, end).Some?
            && var s, e := Minute(ReadTime(parse, start).value), Minute(ReadTime(parse, end).value);
            if s <= e then today && s <= t < e else (today && s <= t) || (yesterday && t < e)
  {
    forall m ensures SaysMinute(parse, start, m) <==> ReadTime(parse, start).Some? && m == Minute(ReadTime(parse, start).value) {
      TimeReads(parse, start, m);
    }
    forall m ensures SaysMinute(parse, end, m) <==> ReadTime(parse, end).Some? && m == Minute(ReadTime(parse, end).value) {
      TimeReads(parse, end, m);
    }
    if ReadTime(parse, start).Some? && ReadTime(parse, end).Some? {
      var s, e := Minute(ReadTime(parse, start).value), Minute(ReadTime(parse, end).value);
      assert SaysMinute(parse, start, s) && SaysMinute(parse, end, e);
    }
  }

  lemma NightWindow(w: QuietWindow, d: Day, t: int)
    requires KnownDays(w.days) && 0 <= t < DAY_MINUTES && Minute(w.start) > Minute(w.end)
    ensures Inside(w, d, t)
       <==> (DAYS[d] in w.days && Minute(w.start) <= t) || (DAYS[DayBefore(d)] in w.days && t < Minute(w.end))
  {
    KnownDayNumbers(w.days, d);
    KnownDayNumbers(w.days, DayBefore(d));
    forall from <- AsWindow(w).days
      ensures Covers(AsWindow(w), from, d * DAY_MINUTES + t)
         <==> (from == d && Minute(w.start) <= t) || (from == DayBefore(d) && t < Minute(w.end))
    {
      CoversOnDays(AsWindow(w), from, d, t);
    }
  }

  lemma SameDayWindow(w: QuietWindow, d: Day, t: int)
    requires KnownDays(w.days) && 0 <= t < DAY_MINUTES && Minute(w.start) < Minute(w.end)
    ensures Inside(w, d, t) <==> DAYS[d] in w.days && Minute(w.start) <= t < Minute(w.end)
  {
    TimesCompareAsStrings(w.end, MIDNIGHT);
    assert Minute(MIDNIGHT) == 0;
    DayWindow(w, d, t, Minute(w.end));
  }

  /** One rule on start days and what the migration keeps of it cover the same minutes. */
  lemma StartRuleKept(parse: IntReader, window: Json, d: Day, t: int)
    requires 0 <= t < DAY_MINUTES
    ensures StartRule(parse, window, d, t) <==> SomeInside(Rewritten(parse, window, true), d, t)
  {
    if window.Obj? {
      var days := Get(window.fields, "days");
      BetweenOnDaysReads(parse, Get(window.fields, "start"), Get(window.fields, "end"), MeansDay(days, d), MeansDay(days, DayBefore(d)), t);
      DaysRead(days, d);
      DaysRead(days, DayBefore(d));
      var start, end := ReadTime(parse, Get(window.fields, "start")), ReadTime(parse, Get(window.fields, "end"));
      if start.Some? && end.Some? {
        TimesCompareAsStrings(start.value, end.value);
        if start != end {
          var w := QuietWindow(start.value, end.value, ChosenDays(Get(window.fields, "days")));
          KnownChosen(Get(window.fields, "days"));
          assert Rewritten(parse, window, true) == [w];
          InsideTwo(w, w, d, t);
          StartWindow(w, d, t);
        }
      }
    }
  }

  lemma StartWindow(w: QuietWindow, d: Day, t: int)
    requires KnownDays(w.days) && 0 <= t < DAY_MINUTES && Minute(w.start) != Minute(w.end)
    ensures Inside(w, d, t) <==>
            if Minute(w.start) < Minute(w.end) then DAYS[d] in w.days && Minute(w.start) <= t < Minute(w.end)
            else (DAYS[d] in w.days && Minute(w.start) <= t) || (DAYS[DayBefore(d)] in w.days && t < Minute(w.end))
  {
    if Minute(w.start) < Minute(w.end) {
      SameDayWindow(w, d, t);
    } else {
      NightWindow(w, d, t);
    }
  }

  lemma StartRuleSnoc(parse: IntReader, init: seq<Json>, last: Json, d: Day, t: int)
    ensures SomeStartRule(parse, init + [last], d, t) <==> SomeStartRule(parse, init, d, t) || StartRule(parse, last, d, t)
  {
    assert forall w :: w in init + [last] <==> w in init || w == last;
  }

  lemma {:induction false} StartRulesKept(parse: IntReader, source: seq<Json>, d: Day, t: int)
    requires 0 <= t < DAY_MINUTES
    ensures SomeStartRule(parse, source, d, t) <==> SomeInside(RewrittenAll(parse, source, true), d, t)
  {
    if source != [] {
      var init, last := source[..|source| - 1], source[|source| - 1];
      StartRulesKept(parse, init, d, t);
      StartRuleKept(parse, last, d, t);
      assert source == init + [last];
      StartRuleSnoc(parse, init, last, d, t);
      SomeInsideConcat(RewrittenAll(parse, init, true), Rewritten(parse, last, true), d, t);
    }
  }

  /** Settings already on start days keep their meaning too, overnight windows running into the next day. */
  lemma StartDaysKeepMeaning(parse: IntReader, raw: Json, d: Day, t: int)
    requires OnStartDays(raw) && 0 <= t < DAY_MINUTES
    ensures OpenAt(AsHours(Migrated(parse, raw)), d * DAY_MINUTES + t) <==> StartQuiet(parse, raw, d, t)
  {
    StartRulesKept(parse, Source(raw.fields), d, t);
    InsideWindows(Migrated(parse, raw).windows, d, t);
    OldWindowStarts(parse, raw.fields, d, t);
  }

  /** Running into the next day, every day, is covering both ends of every day. */
  lemma OldWindowStarts(parse: IntReader, fields: map<string, Json>, d: Day, t: int)
    ensures StartRule(parse, OldWindow(fields), d, t) <==> Between(parse, Get(fields, "start"), Get(fields, "end"), t)
    ensures SomeStartRule(parse, [OldWindow(fields)], d, t) <==> StartRule(parse, OldWindow(fields), d, t)
  {
    var window := OldWindow(fields);
    var days := Get(window.fields, "days");
    assert Get(window.fields, "start") == Get(fields, "start") && Get(window.fields, "end") == Get(fields, "end");
    BetweenOnDaysReads(parse, Get(fields, "start"), Get(fields, "end"), MeansDay(days, d), MeansDay(days, DayBefore(d)), t);
    BetweenReads(parse, Get(fields, "start"), Get(fields, "end"), t);
    assert [window][0] == window;
  }

  /** The weekly mask of paused minutes, straight from the settings as they are on disk, of either kind. */
  method QuietHoursWeeklyMask(parse: IntReader, raw: Json) returns (mask: int)
    ensures mask >= 0 && forall m: nat | Bit(mask, m) :: m < WEEK_MINUTES
    ensures forall d: Day, t: nat | t < DAY_MINUTES ::
      Bit(mask, d * DAY_MINUTES + t) <==> if OnStartDays(raw) then StartQuiet(parse, raw, d, t) else LegacyQuiet(parse, raw, d, t)
  {
    var quiet := MigrateQuietHours(parse, raw);
    mask := GroupWeeklyMask(AsHours(quiet));
    forall d: Day, t: nat | t < DAY_MINUTES
      ensures Bit(mask, d * DAY_MINUTES + t) <==> if OnStartDays(raw) then StartQuiet(parse, raw, d, t) else LegacyQuiet(parse, raw, d, t)
    {
      if OnStartDays(raw) {
        StartDaysKeepMeaning(parse, raw, d, t);
      } else {
        MigrationKeepsMeaning(parse, raw, d, t);
      }
    }
  }

  // Migrating twice -------------------------------------------------------------------------------------------------

  function WindowOut(w: QuietWindow): Json {
    Obj(map["start" := Str(w.start), "end" := Str(w.end), "days" := List(Strings(w.days))])
  }

  function WindowsOut(ws: seq<QuietWindow>): seq<Json> {
    seq(|ws|, i requires 0 <= i < |ws| => WindowOut(ws[i]))
  }

  /** Migrated quiet hours as they are stored. */
  function QuietOut(q: Quiet): Json {
    Obj(map["enabled" := Bool(q.enabled), "day_basis" := Str("start"), "windows" := List(WindowsOut(q.windows))])
  }

  lemma ReadBackTime(parse: IntReader, t: Time)
    requires PlainInts(parse)
    ensures ReadTime(parse, Str(t)) == Some(t)
  {
    var hour, minute := 10 * DigitValue(t[0]) + DigitValue(t[1]), 10 * DigitValue(t[3]) + DigitValue(t[4]);
    assert Colon(t) == 2 by {
      assert t[2] == ':' && t[0] != ':' && t[1] != ':';
    }
    TwoOf(t[0], t[1]);
    TwoOf(t[3], t[4]);
    assert t[..2] == TwoDigits(hour) && t[3..] == TwoDigits(minute);
    TimesCompareAsStrings(t, Format(hour, minute));
  }

  /** Python's own `int`, on ASCII text, is such a reader. */
  lemma IntIsPlain()
    ensures PlainInts(s => PyInt.ParseInt(s))
  {
    forall v | 0 <= v < 100 ensures PyInt.ParseInt(TwoDigits(v)) == Some(v) {
      PyInt.TwoDigitsRead(TwoDigits(v));
    }
  }

  lemma TwoOf(a: char, b: char)
    requires Digit(a) && Digit(b)
    ensures TwoDigits(10 * DigitValue(a) + DigitValue(b)) == [a, b]
  {
    var v := 10 * DigitValue(a) + DigitValue(b);
    assert v / 10 == DigitValue(a) && v % 10 == DigitValue(b);
  }

  lemma DayNamesItself(d: Day, e: Day)
    ensures Names(Str(DAYS[d]), DAYS[e]) <==> d == e
  {
    assert Stripped(DAYS[d]);
    StripStrips(DAYS[d]);
    assert Lower(DAYS[d]) == DAYS[d];
    DayIndexOf(d);
    DayIndexOf(e);
  }

  lemma {:induction false} ChosenAgain(days: seq<string>, raws: seq<Json>, again: seq<Json>)
    requires forall d <- days :: NamedBy(raws, d) <==> NamedBy(again, d)
    ensures Chosen(days, again) == Chosen(days, raws)
  {
    if days != [] {
      assert forall d <- days[1..] :: d in days;
      ChosenAgain(days[1..], raws, again);
    }
  }

  lemma StringsName(days: seq<string>, d: Day)
    requires KnownDays(days)
    ensures NamedBy(Strings(days), DAYS[d]) <==> DAYS[d] in days
  {
    if NamedBy(Strings(days), DAYS[d]) {
      var r :| r in Strings(days) && Names(r, DAYS[d]);
      var i :| 0 <= i < |days| && Strings(days)[i] == r;
      assert days[i] in DAYS;
      var k :| 0 <= k < 7 && DAYS[k] == days[i];
      DayNamesItself(k, d);
    }
    if DAYS[d] in days {
      StringsMember(days, DAYS[d]);
      DayNamesItself(d, d);
    }
  }

  lemma DaysReadBack(raw: Json)
    ensures ChosenDays(List(Strings(ChosenDays(raw)))) == ChosenDays(raw)
  {
    var days := ChosenDays(raw);
    KnownChosen(raw);
    forall d <- DAYS ensures NamedBy(Strings(days), d) <==> d in days {
      var k :| 0 <= k < 7 && DAYS[k] == d;
      StringsName(days, k);
    }
    if raw.List? && Chosen(DAYS, raw.items) != [] {
      ChosenMembers(DAYS, raw.items);
      ChosenAgain(DAYS, raw.items, Strings(days));
    } else {
      AllChosen(DAYS, Strings(DAYS));
    }
  }

  lemma {:induction false} AllChosen(days: seq<string>, raws: seq<Json>)
    requires forall d <- days :: NamedBy(raws, d)
    ensures Chosen(days, raws) == days
  {
    if days != [] {
      assert forall d <- days[1..] :: d in days;
      AllChosen(days[1..], raws);
    }
  }

  lemma WindowReadBack(parse: IntReader, w: QuietWindow)
    requires PlainInts(parse)
    requires w.start != w.end && ChosenDays(List(Strings(w.days))) == w.days
    ensures Rewritten(parse, WindowOut(w), true) == [w]
  {
    ReadBackTime(parse, w.start);
    ReadBackTime(parse, w.end);
    var fields := WindowOut(w).fields;
    assert Get(fields, "start") == Str(w.start) && Get(fields, "end") == Str(w.end) && Get(fields, "days") == List(Strings(w.days));
  }

  /** What a rewrite produces is in start-day form. */
  predicate StartForm(w: QuietWindow) {
    w.start != w.end && ChosenDays(List(Strings(w.days))) == w.days
  }

  lemma RewrittenShape(parse: IntReader, rule: Json, startBasis: bool, w: QuietWindow)
    requires w in Rewritten(parse, rule, startBasis)
    ensures rule.Obj? && w.start != w.end && w.days == ChosenDays(Get(rule.fields, "days"))
  {
    var start, end := ReadTime(parse, Get(rule.fields, "start")).value, ReadTime(parse, Get(rule.fields, "end")).value;
    TimesCompareAsStrings(end, start);
    TimesCompareAsStrings(start, MIDNIGHT);
    assert Minute(MIDNIGHT) == 0;
  }

  lemma RewrittenIsStartForm(parse: IntReader, rule: Json, startBasis: bool, w: QuietWindow)
    requires w in Rewritten(parse, rule, startBasis)
    ensures StartForm(w)
  {
    RewrittenShape(parse, rule, startBasis, w);
    DaysReadBack(Get(rule.fields, "days"));
  }

  lemma WindowsOutSnoc(init: seq<QuietWindow>, last: QuietWindow)
    ensures WindowsOut(init + [last]) == WindowsOut(init) + [WindowOut(last)]
  {
  }

  lemma ReadBackSnoc(parse: IntReader, init: seq<QuietWindow>, last: QuietWindow)
    requires PlainInts(parse)
    requires RewrittenAll(parse, WindowsOut(init), true) == init && StartForm(last)
    ensures RewrittenAll(parse, WindowsOut(init + [last]), true) == init + [last]
  {
    WindowReadBack(parse, last);
    WindowsOutSnoc(init, last);
  }

  lemma TakeSnoc<T>(init: seq<T>, ws: seq<T>, n: nat)
    requires 0 < n <= |ws|
    ensures init + ws[..n] == init + ws[..n - 1] + [ws[n - 1]]
  {
  }

  /** What one rule became reads back after whatever came before it. */
  lemma {:induction false} RuleReadBack(parse: IntReader, init: seq<QuietWindow>, rule: Json, startBasis: bool, n: nat)
    requires PlainInts(parse)
    requires RewrittenAll(parse, WindowsOut(init), true) == init
    requires n <= |Rewritten(parse, rule, startBasis)|
    ensures RewrittenAll(parse, WindowsOut(init + Rewritten(parse, rule, startBasis)[..n]), true) == init + Rewritten(parse, rule, startBasis)[..n]
  {
    var ws := Rewritten(parse, rule, startBasis);
    if n == 0 {
      assert init + ws[..0] == init;
    } else {
      RuleReadBack(parse, init, rule, startBasis, n - 1);
      RewrittenIsStartForm(parse, rule, startBasis, ws[n - 1]);
      ReadBackSnoc(parse, init + ws[..n - 1], ws[n - 1]);
      TakeSnoc(init, ws, n);
    }
  }

  lemma {:induction false} WindowsReadBack(parse: IntReader, source: seq<Json>, startBasis: bool)
    requires PlainInts(parse)
    ensures RewrittenAll(parse, WindowsOut(RewrittenAll(parse, source, startBasis)), true) == RewrittenAll(parse, source, startBasis)
  {
    if source == [] {
      assert WindowsOut([]) == [];
    } else {
      var init, last := source[..|source| - 1], source[|source| - 1];
      WindowsReadBack(parse, init, startBasis);
      RuleReadBack(parse, RewrittenAll(parse, init, startBasis), last, startBasis, |Rewritten(parse, last, startBasis)|);
      assert Rewritten(parse, last, startBasis)[..|Rewritten(parse, last, startBasis)|] == Rewritten(parse, last, startBasis);
    }
  }

  /** Migrating what a migration stored changes nothing. */
  lemma MigrationIsIdempotent(parse: IntReader, raw: Json)
    requires PlainInts(parse)
    ensures Migrated(parse, QuietOut(Migrated(parse, raw))) == Migrated(parse, raw)
  {
    var q := Migrated(parse, raw);
    var fields := QuietOut(q).fields;
    assert Get(fields, "enabled") == Bool(q.enabled) && Get(fields, "day_basis") == Str("start");
    assert Get(fields, "windows") == List(WindowsOut(q.windows));
    WindowsReadBack(parse, Source(Fields(raw)), StartBasis(Fields(raw)));
  }
}
