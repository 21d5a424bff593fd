/** Settings migrations v7 to v9: the global path rules move onto the server, doubled on the way and then de-duplicated. */
module PathMigration {
  import opened Wrappers
  import opened Json
  import opened Paths
  import opened PathLaws

  /** An exclude rule; "" where the type is missing. */
  datatype Exclude = Exclude(value: string, kind: string)

  /** The parts of a server entry these steps read and write; None where the key is missing. */
  datatype MediaServer = MediaServer(id: string, pathMappings: Option<seq<Row>>, excludePaths: Option<seq<Exclude>>)

  datatype Settings = Settings(
    mediaServers: Option<seq<MediaServer>>,
    pathMappings: Option<seq<Row>>,
    excludePaths: Option<seq<Exclude>>,
    plexUrl: string,
    plexToken: string,
    legacyPairs: bool)

  // De-duplication --------------------------------------------------------------------------------------------------

  function StripAll(xs: seq<string>): seq<string> {
    if xs == [] then [] else [Strip(xs[0])] + StripAll(xs[1..])
  }

  /** Rows with equal keys are duplicates. Equal sorted alias lists are equal multisets of aliases. */
  function RowKey(r: Row): (string, string, multiset<string>) {
    (Strip(Server(r)), Strip(r.localPrefix), multiset(StripAll(r.webhookPrefixes)))
  }

  function ExcludeKey(e: Exclude): (string, string) {
    (Strip(e.value), Strip(if e.kind == "" then "path" else e.kind))
  }

  predicate HasKey<T, K(==)>(xs: seq<T>, key: T -> K, k: K) {
    exists i | 0 <= i < |xs| :: key(xs[i]) == k
  }

  /** The first element with each key. */
  function FirstOfEach<T, K(==)>(xs: seq<T>, key: T -> K): (first: seq<T>)
    ensures |first| <= |xs|
  {
    if xs == [] then []
    else
      var init, last := xs[..|xs| - 1], xs[|xs| - 1];
      FirstOfEach(init, key) + if HasKey(init, key, key(last)) then [] else [last]
  }

  function Deduped(rows: seq<Row>): seq<Row> {
    FirstOfEach(rows, RowKey)
  }

  function DedupedExcludes(rules: seq<Exclude>): seq<Exclude> {
    FirstOfEach(rules, ExcludeKey)
  }

  lemma HasKeySnoc<T, K>(init: seq<T>, last: T, key: T -> K, k: K)
    ensures HasKey(init + [last], key, k) <==> HasKey(init, key, k) || key(last) == k
  {
    if HasKey(init, key, k) {
      var i :| 0 <= i < |init| && key(init[i]) == k;
      assert (init + [last])[i] == init[i];
    }
    assert (init + [last])[|init|] == last;
  }

  /** Dropping repeats loses no key. */
  lemma {:induction false} SameKeys<T, K>(xs: seq<T>, key: T -> K, k: K)
    ensures HasKey(FirstOfEach(xs, key), key, k) <==> HasKey(xs, key, k)
  {
    if xs != [] {
      var init, last := xs[..|xs| - 1], xs[|xs| - 1];
      assert xs == init + [last];
      SameKeys(init, key, k);
      HasKeySnoc(init, last, key, k);
      if HasKey(init, key, key(last)) {
        assert FirstOfEach(xs, key) == FirstOfEach(init, key);
      } else {
        HasKeySnoc(FirstOfEach(init, key), last, key, k);
      }
    }
  }

  /** A list that keeps its length keeps everything: v9 tells by the length whether it changed anything. */
  lemma {:induction false} NothingDropped<T, K>(xs: seq<T>, key: T -> K)
    ensures |FirstOfEach(xs, key)| == |xs| ==> FirstOfEach(xs, key) == xs
  {
    if xs != [] {
      var init, last := xs[..|xs| - 1], xs[|xs| - 1];
      assert xs == init + [last];
      NothingDropped(init, key);
    }
  }

  /** Appending elements whose keys are all there already adds nothing. */
  lemma {:induction false} RepeatsAddNothing<T, K>(a: seq<T>, b: seq<T>, key: T -> K)
    requires forall i | 0 <= i < |b| :: HasKey(a, key, key(b[i]))
    ensures FirstOfEach(a + b, key) == FirstOfEach(a, key)
  {
    if b == [] {
      assert a + b == a;
    } else {
      var init, last := b[..|b| - 1], b[|b| - 1];
      RepeatsAddNothing(a, init, key);
      assert (a + b)[..|a + b| - 1] == a + init && (a + b)[|a + b| - 1] == last;
      var i :| 0 <= i < |a| && key(a[i]) == key(last);
      assert (a + init)[i] == a[i];
    }
  }

  /** The double copy of v7 and v8 is undone by v9, leaving the original list with its own later duplicates dropped. */
  lemma DoubleCopyUndone<T, K>(xs: seq<T>, key: T -> K)
    ensures FirstOfEach(xs + xs, key) == FirstOfEach(xs, key)
  {
    forall i | 0 <= i < |xs| ensures HasKey(xs, key, key(xs[i])) {
    }
    RepeatsAddNothing(xs, xs, key);
  }

  /** De-duplicating twice is de-duplicating once: v9 is idempotent. */
  lemma {:induction false} DedupIsIdempotent<T, K>(xs: seq<T>, key: T -> K)
    ensures FirstOfEach(FirstOfEach(xs, key), key) == FirstOfEach(xs, key)
  {
    if xs != [] {
      var init, last := xs[..|xs| - 1], xs[|xs| - 1];
      var first := FirstOfEach(init, key);
      DedupIsIdempotent(init, key);
      SameKeys(init, key, key(last));
      if HasKey(init, key, key(last)) {
        assert FirstOfEach(xs, key) == first;
      } else {
        assert (first + [last])[..|first + [last]| - 1] == first;
      }
    }
  }

  // Dropped rows are invisible --------------------------------------------------------------------------------------

  /** Prefixes as `normalize_path_mappings` leaves them. */
  predicate NoSpaces(r: Row) {
    Stripped(Server(r)) && Stripped(r.localPrefix) && forall w <- r.webhookPrefixes :: Stripped(w)
  }

  lemma {:induction false} StripAllSame(xs: seq<string>)
    requires forall w <- xs :: Stripped(w)
    ensures StripAll(xs) == xs
  {
    if xs != [] {
      StripStrips(xs[0]);
      assert forall w <- xs[1..] :: w in xs;
      StripAllSame(xs[1..]);
    }
  }

  /** Without surrounding spaces, equal keys mean the same prefixes, aliases in any order. */
  lemma SameKey(a: Row, b: Row)
    requires NoSpaces(a) && NoSpaces(b) && RowKey(a) == RowKey(b)
    ensures Server(a) == Server(b) && a.localPrefix == b.localPrefix
    ensures forall w :: w in a.webhookPrefixes <==> w in b.webhookPrefixes
  {
    StripStrips(Server(a));
    StripStrips(Server(b));
    StripStrips(a.localPrefix);
    StripStrips(b.localPrefix);
    StripAllSame(a.webhookPrefixes);
    StripAllSame(b.webhookPrefixes);
    forall w ensures w in a.webhookPrefixes <==> w in b.webhookPrefixes {
      assert w in multiset(a.webhookPrefixes) <==> w in multiset(b.webhookPrefixes);
    }
  }

  /** A prefix the row moves paths from. */
  predicate IsSource(r: Row, s: string) {
    s == Server(r) || s in r.webhookPrefixes
  }

  /** Some cleaned path lies under this normalized prefix: cleaned paths don't start with a space. */
  predicate Live(norm: string) {
    norm != "" && !Space(norm[0])
  }

  /** Every prefix of `b` that can match a path lies under a prefix of `a`. */
  predicate Covered(a: Row, b: Row) {
    CoversOne(a, Server(b)) && forall w <- b.webhookPrefixes :: CoversOne(a, w)
  }

  predicate CoversOne(a: Row, s: string) {
    Live(Normal(s)) ==> SourceOver(a, Normal(s))
  }

  predicate SourceOver(a: Row, norm: string) {
    Under(norm, Normal(Server(a))) || exists w <- a.webhookPrefixes :: Under(norm, Normal(w))
  }

  /** Every direction of `b` that can offer something is a direction of `a`, up to how prefixes are compared. */
  predicate Offers(a: Row, b: Row) {
    forall d <- RowDirections(b) | Live(Normal(d.0)) && Normal(d.1) != "" :: OffersOne(a, d)
  }

  predicate OffersOne(a: Row, d: Direction) {
    exists e <- RowDirections(a) ::
      && Normal(e.0) == Normal(d.0) && Normal(e.1) == Normal(d.1)
      && (WindowsPath(Strip(d.1)) ==> WindowsPath(Strip(e.1)))
  }

  /** A row can be dropped after every earlier row with its key. */
  predicate TwinsReplaceable(rows: seq<Row>) {
    forall i, j | 0 <= i < j < |rows| && RowKey(rows[i]) == RowKey(rows[j]) ::
      Covered(rows[i], rows[j]) && Offers(rows[i], rows[j])
  }

  /** Rows without surrounding spaces are of that kind. */
  lemma UnspacedTwins(rows: seq<Row>)
    requires forall r <- rows :: NoSpaces(r)
    ensures TwinsReplaceable(rows)
  {
    forall i, j | 0 <= i < j < |rows| && RowKey(rows[i]) == RowKey(rows[j])
      ensures Covered(rows[i], rows[j]) && Offers(rows[i], rows[j])
    {
      var a, b := rows[i], rows[j];
      assert a in rows && b in rows;
      SameKey(a, b);
      forall s | IsSource(b, s) ensures CoversOne(a, s) {
        assert Normal(s) != "" ==> Under(Normal(s), Normal(s));
      }
      forall d <- RowDirections(b) ensures d in RowDirections(a) {
        AliasMembers(a, a.webhookPrefixes, d);
        AliasMembers(b, b.webhookPrefixes, d);
      }
    }
  }

  lemma {:induction false} AliasMatches(clean: string, local: string, webhooks: seq<string>)
    ensures FirstAlias(clean, local, webhooks).Some? <==> exists w <- webhooks :: Under(clean, Normal(w))
  {
    if webhooks != [] {
      AliasMatches(clean, local, webhooks[1..]);
      assert forall w :: w in webhooks <==> w == webhooks[0] || w in webhooks[1..];
    }
  }

  lemma RowMatches(clean: string, r: Row)
    ensures RowLocal(clean, r).Some? <==> SourceOver(r, clean)
  {
    AliasMatches(clean, Normal(r.localPrefix), r.webhookPrefixes);
  }

  lemma UnderUnder(clean: string, p: string, q: string)
    requires Under(clean, p) && Under(p, q)
    ensures Under(clean, q)
  {
    assert clean[..|q|] == p[..|q|];
    if |q| < |p| {
      assert clean[|q|] == p[|q|];
    }
  }

  /** Whatever a covered row matches, the covering one matches too. */
  lemma CoveredMatches(clean: string, a: Row, b: Row)
    requires Covered(a, b) && Stripped(clean) && RowLocal(clean, b).Some?
    ensures RowLocal(clean, a).Some?
  {
    var s := RowLocalOrigin(clean, b);
    assert clean[0] == Normal(s)[0];
    assert CoversOne(a, s);
    var q := if Under(Normal(s), Normal(Server(a))) then Server(a) else var w :| w in a.webhookPrefixes && Under(Normal(s), Normal(w)); w;
    UnderUnder(clean, Normal(s), Normal(q));
    RowMatches(clean, a);
  }

  lemma {:induction false} FirstLocalSnoc(clean: string, init: seq<Row>, last: Row)
    ensures FirstLocal(clean, init + [last]) == if FirstLocal(clean, init).Some? then FirstLocal(clean, init) else RowLocal(clean, last)
  {
    if init == [] {
      assert [] + [last] == [last] && [last][1..] == [];
    } else {
      assert (init + [last])[0] == init[0] && (init + [last])[1..] == init[1..] + [last];
      FirstLocalSnoc(clean, init[1..], last);
    }
  }

  lemma {:induction false} SomeRowMatches(clean: string, rows: seq<Row>, i: nat)
    requires i < |rows| && RowLocal(clean, rows[i]).Some?
    ensures FirstLocal(clean, rows).Some?
  {
    FirstLocalStep(clean, rows);
    if i > 0 {
      var rest := rows[1..];
      assert rest[i - 1] == rows[i];
      SomeRowMatches(clean, rest, i - 1);
    }
  }

  lemma FirstLocalDropped(clean: string, init: seq<Row>, last: Row)
    requires Stripped(clean) && HasKey(init, RowKey, RowKey(last)) && TwinsReplaceable(init + [last])
    ensures FirstLocal(clean, init + [last]) == FirstLocal(clean, init)
  {
    var i :| 0 <= i < |init| && RowKey(init[i]) == RowKey(last);
    assert (init + [last])[i] == init[i] && (init + [last])[|init|] == last;
    FirstLocalSnoc(clean, init, last);
    if RowLocal(clean, last).Some? {
      CoveredMatches(clean, init[i], last);
      SomeRowMatches(clean, init, i);
    }
  }

  lemma {:induction false} FirstLocalDeduped(clean: string, rows: seq<Row>)
    requires Stripped(clean) && TwinsReplaceable(rows)
    ensures FirstLocal(clean, Deduped(rows)) == FirstLocal(clean, rows)
  {
    if rows != [] {
      var init, last := rows[..|rows| - 1], rows[|rows| - 1];
      assert rows == init + [last];
      FirstLocalDeduped(clean, init);
      if HasKey(init, RowKey, RowKey(last)) {
        FirstLocalDropped(clean, init, last);
        assert Deduped(rows) == Deduped(init);
      } else {
        assert Deduped(rows) == Deduped(init) + [last];
        FirstLocalSnoc(clean, init, last);
        FirstLocalSnoc(clean, Deduped(init), last);
      }
    }
  }

  /** What one direction offers, a direction like it offers as well. */
  lemma LikeOffers(clean: string, d: Direction, e: Direction, f: string)
    requires Normal(e.0) == Normal(d.0) && Normal(e.1) == Normal(d.1)
    requires WindowsPath(Strip(d.1)) ==> WindowsPath(Strip(e.1))
    requires f != "" && f in Forms(clean, d)
    ensures f in Forms(clean, e)
  {
    var candidate := Join(Normal(d.1), Rest(clean, Normal(d.0)));
    assert Forms(clean, d) == [candidate, WindowsNative(d.1, candidate)];
    assert Forms(clean, e) == [candidate, WindowsNative(e.1, candidate)];
    assert Forms(clean, e)[0] == candidate && Forms(clean, e)[1] == WindowsNative(e.1, candidate);
  }

  lemma TwinForm(clean: string, init: seq<Row>, i: nat, last: Row, d: Direction, f: string)
    requires Stripped(clean) && i < |init| && Offers(init[i], last)
    requires d in RowDirections(last) && f != "" && f in Forms(clean, d)
    ensures Offered(clean, Directions(init), f)
  {
    assert Under(clean, Normal(d.0)) && clean[0] == Normal(d.0)[0];
    assert OffersOne(init[i], d);
    var e :| e in RowDirections(init[i]) && Normal(e.0) == Normal(d.0) && Normal(e.1) == Normal(d.1)
      && (WindowsPath(Strip(d.1)) ==> WindowsPath(Strip(e.1)));
    LikeOffers(clean, d, e, f);
    RowDirectionsIn(init, i, e);
  }

  lemma TwinAddsNothing(candidates: seq<string>, clean: string, init: seq<Row>, i: nat, last: Row)
    requires Distinct(candidates) && Stripped(clean) && i < |init| && Offers(init[i], last)
    ensures AddAll(candidates, clean, Directions(init) + RowDirections(last)) == AddAll(candidates, clean, Directions(init))
  {
    var all := AddAll(candidates, clean, Directions(init));
    AddAllConcat(candidates, clean, Directions(init), RowDirections(last));
    AddAllMembers(candidates, clean, Directions(init));
    forall f | Offered(clean, RowDirections(last), f) ensures f in all {
      var d :| d in RowDirections(last) && f in Forms(clean, d);
      TwinForm(clean, init, i, last, d, f);
    }
    AddNothing(all, clean, RowDirections(last));
  }

  lemma DirectionsSnoc(init: seq<Row>, last: Row)
    ensures Directions(init + [last]) == Directions(init) + RowDirections(last)
  {
    assert (init + [last])[..|init + [last]| - 1] == init;
  }

  lemma AddAllSameSnoc(candidates: seq<string>, clean: string, a: seq<Row>, b: seq<Row>, last: Row)
    requires AddAll(candidates, clean, Directions(a)) == AddAll(candidates, clean, Directions(b))
    ensures AddAll(candidates, clean, Directions(a + [last])) == AddAll(candidates, clean, Directions(b + [last]))
  {
    DirectionsSnoc(a, last);
    DirectionsSnoc(b, last);
    AddAllConcat(candidates, clean, Directions(a), RowDirections(last));
    AddAllConcat(candidates, clean, Directions(b), RowDirections(last));
  }

  lemma AddAllDropped(candidates: seq<string>, clean: string, init: seq<Row>, last: Row)
    requires Distinct(candidates) && Stripped(clean) && HasKey(init, RowKey, RowKey(last)) && TwinsReplaceable(init + [last])
    ensures AddAll(candidates, clean, Directions(init + [last])) == AddAll(candidates, clean, Directions(init))
  {
    var i :| 0 <= i < |init| && RowKey(init[i]) == RowKey(last);
    assert (init + [last])[i] == init[i] && (init + [last])[|init|] == last;
    DirectionsSnoc(init, last);
    TwinAddsNothing(candidates, clean, init, i, last);
  }

  lemma {:induction false} AddAllDeduped(candidates: seq<string>, clean: string, rows: seq<Row>)
    requires Distinct(candidates) && Stripped(clean) && TwinsReplaceable(rows)
    ensures AddAll(candidates, clean, Directions(Deduped(rows))) == AddAll(candidates, clean, Directions(rows))
  {
    if rows != [] {
      var init, last := rows[..|rows| - 1], rows[|rows| - 1];
      assert rows == init + [last];
      AddAllDeduped(candidates, clean, init);
      if HasKey(init, RowKey, RowKey(last)) {
        AddAllDropped(candidates, clean, init, last);
        assert Deduped(rows) == Deduped(init);
      } else {
        assert Deduped(rows) == Deduped(init) + [last];
        AddAllSameSnoc(candidates, clean, Deduped(init), init, last);
      }
    }
  }

  /**
   * When every dropped row is covered by the ones with its key before it, neither resolver can tell the de-duplicated
   * list from the original.
   */
  lemma DroppedRowsAreInvisible(path: string, rows: seq<Row>)
    requires TwinsReplaceable(rows)
    ensures Canonical(path, Deduped(rows)) == Canonical(path, rows)
    ensures Expanded(path, Deduped(rows)) == Expanded(path, rows)
  {
    CleanTwice(path);
    FirstLocalDeduped(Clean(path), rows);
    AddAllDeduped([Clean(path)], Clean(path), rows);
    if rows != [] {
      SameKeys(rows, RowKey, RowKey(rows[0]));
      assert HasKey(rows, RowKey, RowKey(rows[0]));
    }
  }

  // And exactly those -----------------------------------------------------------------------------------------------

  function Xs(n: nat): (s: string)
    ensures |s| == n && forall i | 0 <= i < n :: s[i] == 'x'
  {
    seq(n, _ => 'x')
  }

  /** A path under a prefix and under nothing longer: two slashes and a segment longer than any prefix. */
  function Probe(norm: string, n: nat): string {
    norm + "//" + Xs(n)
  }

  predicate IsNormal(q: string) {
    q == "/" || (q != "" && q[|q| - 1] != '/')
  }

  lemma NormalIsNormal(prefix: string)
    ensures Normal(prefix) == "" || IsNormal(Normal(prefix))
    ensures |Normal(prefix)| <= |prefix|
    ensures Forward(Normal(prefix))
  {
    NormalTwice(prefix);
    CutRightFacts(Slash(prefix));
  }

  lemma ProbeIsClean(norm: string, n: nat)
    requires Live(norm) && Forward(norm) && n >= 1
    ensures Clean(Probe(norm, n)) == Probe(norm, n) && Under(Probe(norm, n), norm)
  {
    var c := Probe(norm, n);
    assert c[0] == norm[0] && c[|c| - 1] == 'x' && c[|norm|] == '/';
    assert c[..|norm|] == norm;
    StripStrips(c);
    SlashForward(c);
  }

  lemma UnderProbe(norm: string, n: nat, q: string)
    requires norm != "" && IsNormal(q) && |q| <= n && Under(Probe(norm, n), q)
    ensures Under(norm, q)
  {
    assert |q| <= |norm|;
    forall k | 0 <= k < |q| ensures q[k] == norm[k] {
      assert Probe(norm, n)[..|q|][k] == q[k];
    }
  }

  /** What follows the prefix itself in its probe. */
  lemma ProbeRest(norm: string, n: nat)
    requires Live(norm) && n >= 1
    ensures Under(Probe(norm, n), norm) && Rest(Probe(norm, n), norm) == Xs(n)
  {
    var c := Probe(norm, n);
    assert c[..|norm|] == norm && c[|norm|] == '/';
    assert c[|norm|..] == "//" + Xs(n);
    SlashesCut(Xs(n));
  }

  lemma SlashesCut(x: string)
    requires x != "" && x[0] != '/'
    ensures CutLeft("//" + x) == x
  {
    var one, two := "/" + x, "//" + x;
    assert two[1..] == one && one[1..] == x;
    assert CutLeft(one) == CutLeft(x);
  }

  /** Moving a probe from its own prefix takes a slash off it, so the path changes whatever the target. */
  lemma MovedProbeDiffers(norm: string, target: string, n: nat)
    requires norm != "" && n >= 1
    ensures Join(target, Xs(n)) != Probe(norm, n)
  {
    var moved, c := Join(target, Xs(n)), Probe(norm, n);
    CutRightFacts(target);
    var root := CutRight(target);
    assert moved == root + "/" + Xs(n);
    if |moved| == |c| {
      assert c[|norm|] == '/' && moved[|norm|] == root[|root| - 1];
    }
  }

  function Room(webhooks: seq<string>): nat {
    if webhooks == [] then 0 else |webhooks[0]| + Room(webhooks[1..])
  }

  lemma {:induction false} RoomForAll(webhooks: seq<string>)
    ensures forall w <- webhooks :: |w| <= Room(webhooks)
  {
    if webhooks != [] {
      RoomForAll(webhooks[1..]);
    }
  }

  /** A segment no prefix of these rows is as long as. */
  function SegmentFor(a: Row, b: Row): nat {
    1 + |Server(a)| + |a.localPrefix| + Room(a.webhookPrefixes) + |Server(b)| + |b.localPrefix| + Room(b.webhookPrefixes)
  }

  lemma SegmentIsLong(a: Row, b: Row, s: string)
    requires IsSource(a, s) || IsSource(b, s) || s == a.localPrefix || s == b.localPrefix
    ensures |Normal(s)| <= SegmentFor(a, b)
  {
    RoomForAll(a.webhookPrefixes);
    RoomForAll(b.webhookPrefixes);
    NormalIsNormal(s);
  }

  lemma UncoveredProbe(a: Row, b: Row, s: string)
    requires IsSource(b, s) && Live(Normal(s)) && !SourceOver(a, Normal(s))
    ensures RowLocal(Probe(Normal(s), SegmentFor(a, b)), a).None?
  {
    var p, n := Normal(s), SegmentFor(a, b);
    var c := Probe(p, n);
    forall q | IsSource(a, q) ensures !Under(c, Normal(q)) {
      SegmentIsLong(a, b, q);
      NormalIsNormal(q);
      if Under(c, Normal(q)) {
        UnderProbe(p, n, Normal(q));
      }
    }
    RowMatches(c, a);
  }

  /** A prefix of `b` that isn't covered shows: some path resolves through `b` and not without it. */
  lemma UncoveredShows(a: Row, b: Row, s: string) returns (path: string)
    requires IsSource(b, s) && Live(Normal(s)) && !SourceOver(a, Normal(s))
    ensures Canonical(path, [a, b]) != Canonical(path, [a])
    decreases |Normal(s)|
  {
    var p, n := Normal(s), SegmentFor(a, b);
    path := Probe(p, n);
    NormalIsNormal(s);
    ProbeIsClean(p, n);
    UncoveredProbe(a, b, s);
    RowMatches(path, b);
    var t := RowLocalOrigin(path, b);
    SegmentIsLong(a, b, t);
    NormalIsNormal(t);
    UnderProbe(p, n, Normal(t));
    if |Normal(t)| < |p| {
      ShorterUncovered(a, p, Normal(t));
      path := UncoveredShows(a, b, t);
    } else {
      assert Normal(t) == p;
      ProbeRest(p, n);
      MovedProbeDiffers(p, Normal(b.localPrefix), n);
      TwoRows(path, a, b);
    }
  }

  lemma ShorterUncovered(a: Row, p: string, q: string)
    requires !SourceOver(a, p) && Under(p, q) && Live(p)
    ensures !SourceOver(a, q) && Live(q)
  {
    assert p[0] == q[0];
    forall s | IsSource(a, s) ensures !Under(q, Normal(s)) {
      if Under(q, Normal(s)) {
        UnderUnder(p, q, Normal(s));
      }
    }
  }

  lemma TwoRows(clean: string, a: Row, b: Row)
    ensures FirstLocal(clean, [a]) == RowLocal(clean, a)
    ensures FirstLocal(clean, [a, b]) == if RowLocal(clean, a).Some? then RowLocal(clean, a) else RowLocal(clean, b)
  {
    assert [a][1..] == [] && [a, b][1..] == [b] && [b][1..] == [];
    FirstLocalStep(clean, [a]);
    FirstLocalStep(clean, [b]);
    FirstLocalStep(clean, [a, b]);
  }

  /** Dropping `b` somewhere after `a` changes no path's canonical form, whatever rows are around them. */
  ghost predicate Droppable(a: Row, b: Row) {
    forall path: string, before: seq<Row>, between: seq<Row>, behind: seq<Row> ::
      Canonical(path, before + [a] + between + [b] + behind) == Canonical(path, before + [a] + between + behind)
  }

  lemma {:induction false} FirstLocalConcat(clean: string, x: seq<Row>, y: seq<Row>)
    ensures FirstLocal(clean, x + y) == if FirstLocal(clean, x).Some? then FirstLocal(clean, x) else FirstLocal(clean, y)
  {
    if x == [] {
      assert x + y == y;
    } else {
      assert (x + y)[0] == x[0] && (x + y)[1..] == x[1..] + y;
      FirstLocalStep(clean, x + y);
      FirstLocalStep(clean, x);
      FirstLocalConcat(clean, x[1..], y);
    }
  }

  lemma CoveredIsDroppable(path: string, a: Row, b: Row, before: seq<Row>, between: seq<Row>, behind: seq<Row>)
    requires Covered(a, b)
    ensures Canonical(path, before + [a] + between + [b] + behind) == Canonical(path, before + [a] + between + behind)
  {
    var clean, front := Clean(path), before + [a] + between;
    CleanTwice(path);
    FirstLocalConcat(clean, front + [b], behind);
    FirstLocalConcat(clean, front, [b]);
    FirstLocalConcat(clean, front, behind);
    TwoRows(clean, b, b);
    if RowLocal(clean, b).Some? {
      CoveredMatches(clean, a, b);
      assert front[|before|] == a;
      SomeRowMatches(clean, front, |before|);
    }
  }

  /**
   * The exact condition for the first match: a row can be dropped after another, in any list and for any path, if and
   * only if each of its prefixes that can match a path lies under a prefix of the other.
   */
  lemma DroppableIffCovered(a: Row, b: Row)
    ensures Droppable(a, b) <==> Covered(a, b)
  {
    if Covered(a, b) {
      forall path: string, before: seq<Row>, between: seq<Row>, behind: seq<Row>
        ensures Canonical(path, before + [a] + between + [b] + behind) == Canonical(path, before + [a] + between + behind)
      {
        CoveredIsDroppable(path, a, b, before, between, behind);
      }
    } else {
      var s := if !CoversOne(a, Server(b)) then Server(b) else var w :| w in b.webhookPrefixes && !CoversOne(a, w); w;
      var path := UncoveredShows(a, b, s);
      var none: seq<Row> := [];
      assert none + [a] + none + [b] + none == [a, b] && none + [a] + none + none == [a];
      assert Canonical(path, none + [a] + none + [b] + none) != Canonical(path, none + [a] + none + none);
    }
  }

  // The same for the fan-out ----------------------------------------------------------------------------------------

  /** Dropping `b` somewhere after `a` changes no path's candidates, whatever rows are around them. */
  ghost predicate FanOutDroppable(a: Row, b: Row) {
    forall path: string, before: seq<Row>, between: seq<Row>, behind: seq<Row> ::
      Expanded(path, before + [a] + between + [b] + behind) == Expanded(path, before + [a] + between + behind)
  }

  lemma {:induction false} DirectionsConcat(x: seq<Row>, y: seq<Row>)
    ensures Directions(x + y) == Directions(x) + Directions(y)
  {
    if y == [] {
      assert x + y == x;
    } else {
      var init, last := y[..|y| - 1], y[|y| - 1];
      assert x + y == (x + init) + [last] && y == init + [last];
      DirectionsSnoc(x + init, last);
      DirectionsSnoc(init, last);
      DirectionsConcat(x, init);
      assert (Directions(x) + Directions(init)) + RowDirections(last) == Directions(x) + (Directions(init) + RowDirections(last));
    }
  }

  lemma OffersIsDroppable(path: string, a: Row, b: Row, before: seq<Row>, between: seq<Row>, behind: seq<Row>)
    requires Offers(a, b)
    ensures Expanded(path, before + [a] + between + [b] + behind) == Expanded(path, before + [a] + between + behind)
  {
    var clean, front := Clean(path), before + [a] + between;
    CleanTwice(path);
    assert front[|before|] == a;
    TwinAddsNothing([clean], clean, front, |before|, b);
    DirectionsSnoc(front, b);
    DirectionsConcat(front + [b], behind);
    DirectionsConcat(front, behind);
    AddAllConcat([clean], clean, Directions(front + [b]), Directions(behind));
    AddAllConcat([clean], clean, Directions(front), Directions(behind));
  }

  lemma {:induction false} CutLeftKeeps(s: string, k: nat)
    requires k < |s| && s[k] != '/'
    ensures |CutLeft(s)| >= |s| - k
  {
    if s[0] == '/' {
      CutLeftKeeps(s[1..], k - 1);
    }
  }

  /** Moving a probe from a shorter prefix keeps both slashes; moving it from its own leaves one. */
  lemma ShorterMoves(norm: string, n: nat, q: string, target: string, other: string)
    requires Under(norm, q) && |q| < |norm| && IsNormal(norm) && n >= 1
    ensures Under(Probe(norm, n), q) && Join(other, Rest(Probe(norm, n), q)) != Join(target, Xs(n))
  {
    var c := Probe(norm, n);
    assert c[..|q|] == norm[..|q|];
    var tail := c[|q|..];
    assert tail[|norm| - 1 - |q|] == norm[|norm| - 1] != '/';
    CutLeftKeeps(tail, |norm| - 1 - |q|);
    CutLeftFacts(tail);
    var rest, moved := CutLeft(tail), Join(target, Xs(n));
    assert rest[|rest| - n - 1] == c[|c| - n - 1] == '/' && rest[|rest| - n - 2] == c[|c| - n - 2];
    CutRightFacts(target);
    assert moved == CutRight(target) + "/" + Xs(n);
    var shorter := Join(other, rest);
    assert shorter[|shorter| - n - 2] == rest[|rest| - n - 2] == '/';
    if |moved| == |shorter| {
      assert moved[|moved| - n - 2] == CutRight(target)[|CutRight(target)| - 1];
    }
  }

  lemma SameTargets(t: string, u: string, rest: string)
    requires rest != "" && IsNormal(t) && IsNormal(u) && Join(t, rest) == Join(u, rest)
    ensures t == u
  {
    CutRightFacts(t);
    CutRightFacts(u);
    var x, y := CutRight(t), CutRight(u);
    assert Join(t, rest) == x + ("/" + rest) && Join(u, rest) == y + ("/" + rest);
    assert |x| == |y|;
    assert (x + ("/" + rest))[..|x|] == x && (y + ("/" + rest))[..|y|] == y;
    assert CutRight("/") == "";
  }

  lemma DirectionEnds(r: Row, d: Direction)
    requires d in RowDirections(r)
    ensures (IsSource(r, d.0) || d.0 == r.localPrefix) && (IsSource(r, d.1) || d.1 == r.localPrefix)
  {
    AliasMembers(r, r.webhookPrefixes, d);
  }

  /** Some direction of the row agrees with `d` in both prefixes as they are compared. */
  predicate HasLike(r: Row, d: Direction) {
    exists e <- RowDirections(r) :: Normal(e.0) == Normal(d.0) && Normal(e.1) == Normal(d.1)
  }

  /** A probe of `norm` moved from a prefix it lies under isn't the probe moved to `target`, unless both ends agree. */
  lemma MovesApart(norm: string, n: nat, q: string, target: string, other: string)
    requires Live(norm) && IsNormal(norm) && Forward(norm) && n >= 1
    requires IsNormal(q) && |q| <= n && Under(Probe(norm, n), q)
    requires IsNormal(target) && IsNormal(other) && Forward(other) && !(q == norm && other == target)
    ensures var moved := Join(other, Rest(Probe(norm, n), q)); Forward(moved) && moved != Join(target, Xs(n))
  {
    var c := Probe(norm, n);
    UnderProbe(norm, n, q);
    ProbeIsClean(norm, n);
    CleanTwice(c);
    RestOfClean(c, q);
    JoinIsForward(other, Rest(c, q));
    if q == norm {
      ProbeRest(norm, n);
      if Join(other, Rest(c, q)) == Join(target, Xs(n)) {
        SameTargets(other, target, Xs(n));
      }
    } else {
      ShorterMoves(norm, n, q, target, other);
    }
  }

  /** A direction `a` has nothing like offers a form that `a` doesn't. */
  lemma UnlikeForm(a: Row, b: Row, d: Direction, e: Direction)
    requires d in RowDirections(b) && Live(Normal(d.0)) && Normal(d.1) != "" && !HasLike(a, d) && e in RowDirections(a)
    ensures Join(Normal(d.1), Xs(SegmentFor(a, b))) !in Forms(Probe(Normal(d.0), SegmentFor(a, b)), e)
  {
    var p, q, n := Normal(d.0), Normal(e.0), SegmentFor(a, b);
    var f := Join(Normal(d.1), Xs(n));
    DirectionEnds(a, e);
    SegmentIsLong(a, b, e.0);
    NormalIsNormal(d.0);
    NormalIsNormal(d.1);
    NormalIsNormal(e.0);
    NormalIsNormal(e.1);
    if Normal(e.1) != "" && Under(Probe(p, n), q) {
      MovesApart(p, n, q, Normal(d.1), Normal(e.1));
      JoinIsForward(Normal(d.1), Xs(n));
      NativeIsOther(e.1, Join(Normal(e.1), Rest(Probe(p, n), q)), f);
    }
  }

  lemma UnlikeMissing(a: Row, b: Row, d: Direction)
    requires d in RowDirections(b) && Live(Normal(d.0)) && Normal(d.1) != "" && !HasLike(a, d)
    ensures var path := Probe(Normal(d.0), SegmentFor(a, b));
            Join(Normal(d.1), Xs(SegmentFor(a, b))) !in AddAll([path], path, Directions([a]))
  {
    var p, n := Normal(d.0), SegmentFor(a, b);
    var path, f := Probe(p, n), Join(Normal(d.1), Xs(n));
    MovedProbeDiffers(p, Normal(d.1), n);
    TwoRowDirections(a, b);
    AddAllMembers([path], path, Directions([a]));
    forall e <- Directions([a]) ensures f !in Forms(path, e) {
      UnlikeForm(a, b, d, e);
    }
  }

  lemma UnlikeOffered(a: Row, b: Row, d: Direction)
    requires d in RowDirections(b) && Live(Normal(d.0)) && Normal(d.1) != ""
    ensures var path := Probe(Normal(d.0), SegmentFor(a, b));
            Join(Normal(d.1), Xs(SegmentFor(a, b))) in AddAll([path], path, Directions([a, b]))
  {
    var p, n := Normal(d.0), SegmentFor(a, b);
    var path, f := Probe(p, n), Join(Normal(d.1), Xs(n));
    ProbeRest(p, n);
    TwoRowDirections(a, b);
    AddAllMembers([path], path, Directions([a, b]));
    assert d in Directions([a, b]);
    assert Forms(path, d)[0] == f && f != "";
    assert Offered(path, Directions([a, b]), f);
  }

  lemma UnlikeShows(a: Row, b: Row, d: Direction)
    requires d in RowDirections(b) && Live(Normal(d.0)) && Normal(d.1) != "" && !HasLike(a, d)
    ensures var path := Probe(Normal(d.0), SegmentFor(a, b)); Expanded(path, [a, b]) != Expanded(path, [a])
  {
    NormalIsNormal(d.0);
    ProbeIsClean(Normal(d.0), SegmentFor(a, b));
    UnlikeMissing(a, b, d);
    UnlikeOffered(a, b, d);
  }

  lemma TwoRowDirections(a: Row, b: Row)
    ensures Directions([a]) == RowDirections(a) && Directions([a, b]) == RowDirections(a) + RowDirections(b)
  {
    DirectionsSnoc([], a);
    DirectionsSnoc([a], b);
    assert [] + [a] == [a] && [a] + [b] == [a, b];
  }

  predicate HasWindowsPrefix(r: Row) {
    WindowsPath(Strip(Server(r))) || WindowsPath(Strip(r.localPrefix)) || exists w <- r.webhookPrefixes :: WindowsPath(Strip(w))
  }

  /**
   * The exact condition for the fan-out: for a row without Windows prefixes, it can be dropped after another, in any
   * list and for any path, if and only if each of its directions that can offer something is one of the other's.
   */
  lemma FanOutDroppableIffOffers(a: Row, b: Row)
    ensures Offers(a, b) ==> FanOutDroppable(a, b)
    ensures !HasWindowsPrefix(b) ==> (FanOutDroppable(a, b) <==> Offers(a, b))
  {
    if Offers(a, b) {
      forall path: string, before: seq<Row>, between: seq<Row>, behind: seq<Row>
        ensures Expanded(path, before + [a] + between + [b] + behind) == Expanded(path, before + [a] + between + behind)
      {
        OffersIsDroppable(path, a, b, before, between, behind);
      }
    } else if !HasWindowsPrefix(b) {
      UnofferedShows(a, b);
    }
  }

  lemma UnofferedShows(a: Row, b: Row)
    requires !Offers(a, b) && !HasWindowsPrefix(b)
    ensures !FanOutDroppable(a, b)
  {
    var d :| d in RowDirections(b) && Live(Normal(d.0)) && Normal(d.1) != "" && !OffersOne(a, d);
    DirectionEnds(b, d);
    assert !WindowsPath(Strip(d.1));
    assert !HasLike(a, d);
    UnlikeShows(a, b, d);
    TwoOnly(Probe(Normal(d.0), SegmentFor(a, b)), a, b);
  }

  lemma TwoOnly(path: string, a: Row, b: Row)
    requires Expanded(path, [a, b]) != Expanded(path, [a])
    ensures !FanOutDroppable(a, b)
  {
    var none: seq<Row> := [];
    assert none + [a] + none + [b] + none == [a, b] && none + [a] + none + none == [a];
    assert Expanded(path, none + [a] + none + [b] + none) != Expanded(path, none + [a] + none + none);
  }

  /** A row v9 drops although it isn't covered: the key is stripped, the matching isn't. */
  lemma SpacedRowIsVisible()
    ensures var rows := [Row("/a", "", "/l", []), Row("/a ", "", "/l", [])];
            Canonical("/a /x", rows) == "/l/x" && Canonical("/a /x", Deduped(rows)) == "/a /x"
  {
    var one, two := Row("/a", "", "/l", []), Row("/a ", "", "/l", []);
    SpacedPath("/a /x", one, two);
    SpacedKeys(one, two);
  }

  lemma SpacedKeys(one: Row, two: Row)
    requires one == Row("/a", "", "/l", []) && two == Row("/a ", "", "/l", [])
    ensures Deduped([one, two]) == [one]
  {
    StrippedSame();
    assert RowKey(one) == RowKey(two);
    var init := [one, two][..1];
    assert init == [one] && [one][..0] == [] && RowKey(init[0]) == RowKey(one);
    assert FirstOfEach([one], RowKey) == [one];
  }

  lemma StrippedSame()
    ensures Strip("/a ") == "/a" == Strip("/a")
  {
    assert StripLeft("/a ") == "/a " && "/a "[..2] == "/a";
    assert StripRight("/a ") == StripRight("/a") == "/a" && StripLeft("/a") == "/a";
  }

  lemma PlainNormal(s: string)
    requires s != "" && Forward(s) && s[|s| - 1] != '/'
    ensures Normal(s) == s
  {
    SlashForward(s);
  }

  lemma SpacedPath(path: string, one: Row, two: Row)
    requires path == "/a /x" && one == Row("/a", "", "/l", []) && two == Row("/a ", "", "/l", [])
    ensures Canonical(path, [one]) == path && Canonical(path, [one, two]) == "/l/x"
  {
    StripStrips(path);
    SlashForward(path);
    PlainNormal("/a");
    PlainNormal("/a ");
    PlainNormal("/l");
    assert Clean(path) == path;
    assert path[2] == ' ' && !Under(path, "/a");
    assert path[..3] == "/a " && path[3] == '/' && Under(path, "/a ");
    assert path[3..] == "/x" && "/x"[1..] == "x" && CutLeft("/x") == CutLeft("x") == "x";
    assert Join("/l", "x") == "/l/x";
    assert [one][1..] == [] && [one, two][1..] == [two];
    assert RowLocal(path, one) == None && RowLocal(path, two) == Some("/l/x");
    FirstLocalStep(path, [one]);
    FirstLocalStep(path, [two]);
    FirstLocalStep(path, [one, two]);
  }

  // The steps -------------------------------------------------------------------------------------------------------

  /** Whether the old flat settings name a Plex server. */
  predicate HasPlex(s: Settings) {
    Strip(s.plexUrl) != "" || Strip(s.plexToken) != ""
  }

  function AfterV7(s: Settings, id: string): Settings {
    if s.mediaServers.Some? then s
    else s.(mediaServers := Some(if HasPlex(s) then [MediaServer(id, Some(s.pathMappings.GetOr([])), None)] else []))
  }

  function AfterV8(s: Settings): Settings {
    var rows, rules, servers := s.pathMappings.GetOr([]), s.excludePaths.GetOr([]), s.mediaServers.GetOr([]);
    var ruled := rows != [] || rules != [];
    if !ruled && !s.legacyPairs then s
    else if ruled && |servers| != 1 then s.(legacyPairs := false)
    else if servers == [] then s
    else
      var first := servers[0];
      var moved := first.(
        pathMappings := if rows != [] then Some(first.pathMappings.GetOr([]) + rows) else first.pathMappings,
        excludePaths := if rules != [] then Some(first.excludePaths.GetOr([]) + rules) else first.excludePaths);
      s.(mediaServers := Some(servers[0 := moved]), pathMappings := None, excludePaths := None, legacyPairs := false)
  }

  function CleanedServer(m: MediaServer): MediaServer {
    m.(pathMappings := if m.pathMappings.Some? then Some(Deduped(m.pathMappings.value)) else None,
       excludePaths := if m.excludePaths.Some? then Some(DedupedExcludes(m.excludePaths.value)) else None)
  }

  function CleanedServers(ms: seq<MediaServer>): seq<MediaServer> {
    seq(|ms|, i requires 0 <= i < |ms| => CleanedServer(ms[i]))
  }

  function AfterV9(s: Settings): Settings {
    if s.mediaServers.Some? then s.(mediaServers := Some(CleanedServers(s.mediaServers.value))) else s
  }

  /** settings.json behind its manager: each step writes it at most once. */
  class SettingsManager {
    var settings: Settings

    constructor (settings: Settings)
      ensures this.settings == settings
    {
      this.settings := settings;
    }

    method MigrateToV7(newId: string)
      modifies this
      ensures settings == AfterV7(old(settings), newId)
    {
      if settings.mediaServers.Some? {
        return;
      }
      if Strip(settings.plexUrl) == "" && Strip(settings.plexToken) == "" {
        settings := settings.(mediaServers := Some([]));
        return;
      }
      var entry := MediaServer(newId, Some(settings.pathMappings.GetOr([])), None);
      settings := settings.(mediaServers := Some([entry]));
    }

    method MigrateToV8()
      modifies this
      ensures settings == AfterV8(old(settings))
    {
      var rows, rules := settings.pathMappings.GetOr([]), settings.excludePaths.GetOr([]);
      if rows == [] && rules == [] && !settings.legacyPairs {
        return;
      }
      var servers := settings.mediaServers.GetOr([]);
      if servers == [] && (rows != [] || rules != []) {
        settings := settings.(legacyPairs := false);
        return;
      }
      if |servers| > 1 && (rows != [] || rules != []) {
        settings := settings.(legacyPairs := false);
        return;
      }
      if servers != [] {
        var target := servers[0];
        var existingRows, existingRules := target.pathMappings.GetOr([]), target.excludePaths.GetOr([]);
        if rows != [] {
          target := target.(pathMappings := Some(existingRows + rows));
        }
        if rules != [] {
          target := target.(excludePaths := Some(existingRules + rules));
        }
        servers := servers[0 := target];
        settings := settings.(mediaServers := Some(servers), pathMappings := None, excludePaths := None, legacyPairs := false);
      }
    }

    method MigrateToV9()
      modifies this
      ensures settings == AfterV9(old(settings))
    {
      var servers := settings.mediaServers.GetOr([]);
      if servers == [] {
        assert settings.mediaServers.Some? ==> CleanedServers(settings.mediaServers.value) == settings.mediaServers.value;
        return;
      }
      var cleaned: seq<MediaServer> := [];
      var changed := false;
      var i := 0;
      while i < |servers|
        invariant 0 <= i <= |servers|
        invariant cleaned == CleanedServers(servers[..i])
        invariant !changed ==> cleaned == servers[..i]
        invariant settings == old(settings)
      {
        var target, shorter := CleanServer(servers[i]);
        changed := changed || shorter;
        cleaned := cleaned + [target];
        assert servers[..i + 1] == servers[..i] + [servers[i]];
        i := i + 1;
      }
      assert servers[..i] == servers;
      assert cleaned == CleanedServers(settings.mediaServers.value);
      if changed {
        settings := settings.(mediaServers := Some(cleaned));
      }
    }
  }

  /** One server's two lists; each is written back only when it got shorter. */
  method CleanServer(entry: MediaServer) returns (target: MediaServer, changed: bool)
    ensures target == CleanedServer(entry)
    ensures !changed ==> target == entry
  {
    target, changed := entry, false;
    if entry.pathMappings.Some? && entry.pathMappings.value != [] {
      var rows := DedupLoop(entry.pathMappings.value, RowKey);
      NothingDropped(entry.pathMappings.value, RowKey);
      if |rows| != |entry.pathMappings.value| {
        target := target.(pathMappings := Some(rows));
        changed := true;
      }
    }
    if entry.excludePaths.Some? && entry.excludePaths.value != [] {
      var rules := DedupLoop(entry.excludePaths.value, ExcludeKey);
      NothingDropped(entry.excludePaths.value, ExcludeKey);
      if |rules| != |entry.excludePaths.value| {
        target := target.(excludePaths := Some(rules));
        changed := true;
      }
    }
  }

  /** The inner loops of v9: a set of seen keys and a list of kept rows. */
  method DedupLoop<T, K(==)>(xs: seq<T>, key: T -> K) returns (kept: seq<T>)
    ensures kept == FirstOfEach(xs, key)
  {
    kept := [];
    var seen: set<K> := {};
    ghost var done: seq<T> := [];
    var i := 0;
    while i < |xs|
      invariant 0 <= i <= |xs| && done == xs[..i]
      invariant kept == FirstOfEach(done, key)
      invariant forall k :: k in seen <==> HasKey(done, key, k)
    {
      var row := xs[i];
      KeysSnoc(done, row, key);
      assert key(row) in seen <==> HasKey(done, key, key(row));
      if key(row) !in seen {
        seen := seen + {key(row)};
        kept := kept + [row];
      }
      done := done + [row];
      i := i + 1;
    }
    assert done == xs;
  }

  lemma KeysSnoc<T, K>(init: seq<T>, last: T, key: T -> K)
    ensures forall k :: HasKey(init + [last], key, k) <==> HasKey(init, key, k) || key(last) == k
  {
    forall k ensures HasKey(init + [last], key, k) <==> HasKey(init, key, k) || key(last) == k {
      HasKeySnoc(init, last, key, k);
    }
  }

  /** v8 puts the global lists behind the only server's own and clears them; without one server nothing moves. */
  lemma GlobalRulesMove(s: Settings)
    ensures var after, servers := AfterV8(s), s.mediaServers.GetOr([]);
            if |servers| == 1 then
              && after.mediaServers.Some? && |after.mediaServers.value| == 1
              && var was, now := servers[0], after.mediaServers.value[0];
              && now.id == was.id
              && now.pathMappings.GetOr([]) == was.pathMappings.GetOr([]) + s.pathMappings.GetOr([])
              && now.excludePaths.GetOr([]) == was.excludePaths.GetOr([]) + s.excludePaths.GetOr([])
              && after.pathMappings.GetOr([]) == [] && after.excludePaths.GetOr([]) == []
            else
              && after.mediaServers.GetOr([]) == servers
              && after.pathMappings.GetOr([]) == s.pathMappings.GetOr([])
              && after.excludePaths.GetOr([]) == s.excludePaths.GetOr([])
  {
    var servers := s.mediaServers.GetOr([]);
    if |servers| == 1 {
      assert servers == [servers[0]];
      assert servers[0].pathMappings.GetOr([]) + [] == servers[0].pathMappings.GetOr([]);
      assert servers[0].excludePaths.GetOr([]) + [] == servers[0].excludePaths.GetOr([]);
    } else if servers != [] {
      assert servers[0 := servers[0]] == servers;
    }
  }

  lemma {:induction false} OncePerKey<T, K>(xs: seq<T>, key: T -> K)
    ensures var kept := FirstOfEach(xs, key);
            && (forall x <- xs :: HasKey(kept, key, key(x)))
            && (forall x <- kept :: x in xs)
            && forall i, j | 0 <= i < j < |kept| :: key(kept[i]) != key(kept[j])
  {
    if xs != [] {
      var init, last := xs[..|xs| - 1], xs[|xs| - 1];
      assert xs == init + [last];
      var first := FirstOfEach(init, key);
      OncePerKey(init, key);
      SameKeys(init, key, key(last));
      if HasKey(init, key, key(last)) {
        assert FirstOfEach(xs, key) == first;
      } else {
        assert FirstOfEach(xs, key) == first + [last];
        forall x <- xs ensures HasKey(first + [last], key, key(x)) {
          HasKeySnoc(first, last, key, key(x));
        }
      }
    }
  }

  /** Two exclude rules say the same: value and type agree but for surrounding spaces, and no type means "path". */
  predicate SameRule(a: Exclude, b: Exclude) {
    && Strip(a.value) == Strip(b.value)
    && Strip(if a.kind == "" then "path" else a.kind) == Strip(if b.kind == "" then "path" else b.kind)
  }

  lemma RuleKeys(a: Exclude, b: Exclude)
    ensures SameRule(a, b) <==> ExcludeKey(a) == ExcludeKey(b)
  {
  }

  /** De-duplicated exclude rules say everything the list said, nothing else, and nothing twice. */
  lemma ExcludesOnce(rules: seq<Exclude>)
    ensures var kept := DedupedExcludes(rules);
            && (forall r <- rules :: exists k <- kept :: SameRule(k, r))
            && (forall k <- kept :: k in rules)
            && forall i, j | 0 <= i < j < |kept| :: !SameRule(kept[i], kept[j])
  {
    OncePerKey(rules, ExcludeKey);
    var kept := DedupedExcludes(rules);
    forall r <- rules ensures exists k <- kept :: SameRule(k, r) {
      StillSaid(kept, r);
    }
    forall i, j | 0 <= i < j < |kept| ensures !SameRule(kept[i], kept[j]) {
      RuleKeys(kept[i], kept[j]);
    }
  }

  lemma StillSaid(kept: seq<Exclude>, r: Exclude)
    requires HasKey(kept, ExcludeKey, ExcludeKey(r))
    ensures exists k <- kept :: SameRule(k, r)
  {
    var i :| 0 <= i < |kept| && ExcludeKey(kept[i]) == ExcludeKey(r);
    RuleKeys(kept[i], r);
    assert kept[i] in kept;
  }

  /**
   * A single-Plex install upgraded through v7, v8 and v9 ends with its global rules on its server, first occurrences
   * only, whatever its ids, and no global rules left behind.
   */
  lemma SingleServerUpgrade(s: Settings, id: string)
    requires s.mediaServers.None? && HasPlex(s)
    ensures var rows, rules := s.pathMappings.GetOr([]), s.excludePaths.GetOr([]);
            var after := AfterV9(AfterV8(AfterV7(s, id)));
            && after.mediaServers.Some? && |after.mediaServers.value| == 1
            && after.mediaServers.value[0].pathMappings == Some(Deduped(rows))
            && after.mediaServers.value[0].excludePaths.GetOr([]) == DedupedExcludes(rules)
            && after.pathMappings.GetOr([]) == [] && after.excludePaths.GetOr([]) == []
  {
    var rows, rules := s.pathMappings.GetOr([]), s.excludePaths.GetOr([]);
    DoubleCopyUndone(rows, RowKey);
    var none: seq<Exclude> := [];
    assert none + rules == rules;
    assert FirstOfEach(none, ExcludeKey) == none;
    var moved := AfterV8(AfterV7(s, id));
    assert CleanedServers(moved.mediaServers.value) == [CleanedServer(moved.mediaServers.value[0])];
  }

  /** And that upgrade can't be noticed: every path resolves as it did through the original global list. */
  lemma UpgradeKeepsEveryPath(s: Settings, id: string, path: string)
    requires s.mediaServers.None? && HasPlex(s)
    requires TwinsReplaceable(s.pathMappings.GetOr([]))
    ensures var after := AfterV9(AfterV8(AfterV7(s, id))).mediaServers;
            && after.Some? && |after.value| == 1 && after.value[0].pathMappings.Some?
            && var rows := after.value[0].pathMappings.value;
               && Canonical(path, rows) == Canonical(path, s.pathMappings.GetOr([]))
               && Expanded(path, rows) == Expanded(path, s.pathMappings.GetOr([]))
  {
    SingleServerUpgrade(s, id);
    DroppedRowsAreInvisible(path, s.pathMappings.GetOr([]));
  }
}
