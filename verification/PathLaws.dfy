/** How the two resolvers relate, and which rows they can't tell apart. */
module PathLaws {
  import opened Wrappers
  import opened Json
  import opened Paths

  predicate Distinct(xs: seq<string>) {
    forall i, j | 0 <= i < j < |xs| :: xs[i] != xs[j]
  }

  // The candidate list ----------------------------------------------------------------------------------------------

  lemma {:induction false} AddFormsMembers(candidates: seq<string>, forms: seq<string>)
    requires Distinct(candidates)
    ensures Distinct(AddForms(candidates, forms)) && candidates <= AddForms(candidates, forms)
    ensures forall f :: f in AddForms(candidates, forms) <==> f in candidates || (f != "" && f in forms)
    decreases |forms|
  {
    if forms != [] {
      AddFormsMembers(AddForm(candidates, forms[0]), forms[1..]);
      assert forall f :: f in forms <==> f == forms[0] || f in forms[1..];
    }
  }

  /** Whether some direction offers this form. */
  predicate Offered(clean: string, directions: seq<Direction>, form: string)
  {
    form != "" && exists d <- directions :: form in Forms(clean, d)
  }

  lemma OfferedSnoc(clean: string, init: seq<Direction>, last: Direction, form: string)
    ensures Offered(clean, init + [last], form) <==> Offered(clean, init, form) || (form != "" && form in Forms(clean, last))
  {
    assert forall d :: d in init + [last] <==> d in init || d == last;
  }

  /** The fan-out as a set: what was there, and every form some direction offers. No form is listed twice. */
  lemma {:induction false} AddAllMembers(candidates: seq<string>, clean: string, directions: seq<Direction>)
    requires Distinct(candidates)
    ensures var all := AddAll(candidates, clean, directions);
            && Distinct(all)
            && candidates <= all
            && (forall f :: f in all <==> f in candidates || Offered(clean, directions, f))
  {
    if directions != [] {
      var init, last := directions[..|directions| - 1], directions[|directions| - 1];
      AddAllMembers(candidates, clean, init);
      AddFormsMembers(AddAll(candidates, clean, init), Forms(clean, last));
      assert directions == init + [last];
      forall f ensures Offered(clean, directions, f) <==> Offered(clean, init, f) || (f != "" && f in Forms(clean, last)) {
        OfferedSnoc(clean, init, last, f);
      }
    }
  }

  /** Directions whose every form is already listed add nothing. */
  lemma {:induction false} AddNothing(candidates: seq<string>, clean: string, directions: seq<Direction>)
    requires forall f | Offered(clean, directions, f) :: f in candidates
    ensures AddAll(candidates, clean, directions) == candidates
  {
    if directions != [] {
      var init, last := directions[..|directions| - 1], directions[|directions| - 1];
      forall f | Offered(clean, init, f) ensures f in candidates {
        var d :| d in init && f in Forms(clean, d);
        assert d in directions;
        assert Offered(clean, directions, f);
      }
      AddNothing(candidates, clean, init);
      forall f <- Forms(clean, last) | f != "" ensures f in candidates {
        assert last in directions;
        assert Offered(clean, directions, f);
      }
      AddFormsNothing(candidates, Forms(clean, last));
    }
  }

  lemma {:induction false} AddFormsNothing(candidates: seq<string>, forms: seq<string>)
    requires forall f <- forms | f != "" :: f in candidates
    ensures AddForms(candidates, forms) == candidates
    decreases |forms|
  {
    if forms != [] {
      assert forms[0] in forms;
      assert forall f <- forms[1..] :: f in forms;
      AddFormsNothing(candidates, forms[1..]);
    }
  }

  lemma AliasMembers(r: Row, webhooks: seq<string>, d: Direction)
    ensures d in AliasDirections(r, webhooks)
       <==> exists w <- webhooks :: d == (w, r.localPrefix) || d == (w, Server(r)) || d == (r.localPrefix, w) || d == (Server(r), w)
  {
    if webhooks != [] {
      AliasMembers(r, webhooks[1..], d);
      assert forall w :: w in webhooks <==> w == webhooks[0] || w in webhooks[1..];
    }
  }

  lemma {:induction false} RowDirectionsIn(rows: seq<Row>, i: nat, d: Direction)
    requires i < |rows| && d in RowDirections(rows[i])
    ensures d in Directions(rows)
  {
    if i < |rows| - 1 {
      RowDirectionsIn(rows[..|rows| - 1], i, d);
    }
  }

  /** The candidates start with the path itself and never repeat. */
  lemma ExpandedStartsWithPath(path: string, rows: seq<Row>)
    requires Clean(path) != ""
    ensures var candidates := Expanded(path, rows);
            candidates != [] && candidates[0] == Clean(path) && Distinct(candidates)
  {
    CleanTwice(path);
    AddAllMembers([Clean(path)], Clean(path), Directions(rows));
  }

  // The two keys of the server's prefix -----------------------------------------------------------------------------

  predicate Alike(a: Row, b: Row) {
    Server(a) == Server(b) && a.localPrefix == b.localPrefix && a.webhookPrefixes == b.webhookPrefixes
  }

  lemma {:induction false} AliasesAlike(a: Row, b: Row, webhooks: seq<string>)
    requires Alike(a, b)
    ensures AliasDirections(a, webhooks) == AliasDirections(b, webhooks)
  {
    if webhooks != [] {
      AliasesAlike(a, b, webhooks[1..]);
    }
  }

  lemma {:induction false} DirectionsAlike(before: seq<Row>, a: Row, b: Row, behind: seq<Row>)
    requires Alike(a, b)
    ensures Directions(before + [a] + behind) == Directions(before + [b] + behind)
  {
    var x, y := before + [a] + behind, before + [b] + behind;
    if behind == [] {
      assert x[..|x| - 1] == before == y[..|y| - 1];
      AliasesAlike(a, b, a.webhookPrefixes);
    } else {
      var init := behind[..|behind| - 1];
      assert x[..|x| - 1] == before + [a] + init && y[..|y| - 1] == before + [b] + init;
      DirectionsAlike(before, a, b, init);
    }
  }

  lemma RowLocalAlike(clean: string, a: Row, b: Row)
    requires Alike(a, b)
    ensures RowLocal(clean, a) == RowLocal(clean, b)
  {
  }

  lemma SameHeads(clean: string, x: seq<Row>, y: seq<Row>)
    requires x != [] && y != [] && RowLocal(clean, x[0]) == RowLocal(clean, y[0])
    requires FirstLocal(clean, x[1..]) == FirstLocal(clean, y[1..])
    ensures FirstLocal(clean, x) == FirstLocal(clean, y)
  {
    FirstLocalStep(clean, x);
    FirstLocalStep(clean, y);
  }

  lemma {:induction false} FirstLocalSame(clean: string, x: seq<Row>, y: seq<Row>)
    requires |x| == |y| && forall i | 0 <= i < |x| :: RowLocal(clean, x[i]) == RowLocal(clean, y[i])
    ensures FirstLocal(clean, x) == FirstLocal(clean, y)
  {
    if x != [] {
      assert RowLocal(clean, x[0]) == RowLocal(clean, y[0]);
      FirstLocalSame(clean, x[1..], y[1..]);
      SameHeads(clean, x, y);
    }
  }

  /** Both resolvers read a row's server prefix under either key, the newer one first when a row has both. */
  lemma EitherKey(path: string, before: seq<Row>, p: string, q: string, local: string, aliases: seq<string>, behind: seq<Row>)
    ensures var older, newer := before + [Row("", p, local, aliases)] + behind, before + [Row(p, "", local, aliases)] + behind;
            Canonical(path, older) == Canonical(path, newer) && Expanded(path, older) == Expanded(path, newer)
    ensures var both, newer := before + [Row(p, q, local, aliases)] + behind, before + [Row(p, "", local, aliases)] + behind;
            p != "" ==> Canonical(path, both) == Canonical(path, newer) && Expanded(path, both) == Expanded(path, newer)
  {
    var newer := Row(p, "", local, aliases);
    SwapAlike(path, before, Row("", p, local, aliases), newer, behind);
    if p != "" {
      SwapAlike(path, before, Row(p, q, local, aliases), newer, behind);
    }
  }

  lemma SwapAlike(path: string, before: seq<Row>, a: Row, b: Row, behind: seq<Row>)
    requires Alike(a, b)
    ensures var x, y := before + [a] + behind, before + [b] + behind;
            Canonical(path, x) == Canonical(path, y) && Expanded(path, x) == Expanded(path, y)
  {
    DirectionsAlike(before, a, b, behind);
    FirstLocalAlike(Clean(path), before, a, b, behind);
  }

  lemma FirstLocalAlike(clean: string, before: seq<Row>, a: Row, b: Row, behind: seq<Row>)
    requires Alike(a, b)
    ensures FirstLocal(clean, before + [a] + behind) == FirstLocal(clean, before + [b] + behind)
  {
    var x, y := before + [a] + behind, before + [b] + behind;
    RowLocalAlike(clean, a, b);
    forall i | 0 <= i < |x| ensures RowLocal(clean, x[i]) == RowLocal(clean, y[i]) {
      assert i != |before| ==> x[i] == y[i];
    }
    FirstLocalSame(clean, x, y);
  }

  // First match inside the fan-out ----------------------------------------------------------------------------------

  lemma RowLocalOrigin(clean: string, r: Row) returns (source: string)
    requires RowLocal(clean, r).Some?
    ensures Under(clean, Normal(source)) && (source == Server(r) || source in r.webhookPrefixes)
    ensures RowLocal(clean, r) == Moved(clean, source, Normal(r.localPrefix))
  {
    if Under(clean, Normal(Server(r))) {
      source := Server(r);
    } else {
      source := AliasOrigin(clean, Normal(r.localPrefix), r.webhookPrefixes);
    }
  }

  lemma FirstLocalStep(clean: string, rows: seq<Row>)
    requires rows != []
    ensures FirstLocal(clean, rows)
         == if RowLocal(clean, rows[0]).Some? then RowLocal(clean, rows[0]) else FirstLocal(clean, rows[1..])
    ensures FirstLocal(clean, []) == None
  {
  }

  predicate RowMoves(clean: string, r: Row) {
    RowLocal(clean, r).Some?
  }

  /** The first row that matches. */
  predicate IsFirstMatch(clean: string, rows: seq<Row>, i: nat) {
    i < |rows| && RowMoves(clean, rows[i]) && forall k | 0 <= k < i :: !RowMoves(clean, rows[k])
  }

  lemma {:induction false} FirstRow(clean: string, rows: seq<Row>) returns (i: nat)
    requires FirstLocal(clean, rows).Some?
    ensures IsFirstMatch(clean, rows, i) && FirstLocal(clean, rows) == RowLocal(clean, rows[i])
    decreases |rows|
  {
    var row, rest := rows[0], rows[1..];
    FirstLocalStep(clean, rows);
    if RowMoves(clean, row) {
      i := 0;
    } else {
      var k := FirstRow(clean, rest);
      assert rest[k] == rows[k + 1];
      i := k + 1;
      forall j | 0 <= j < i ensures !RowMoves(clean, rows[j]) {
        assert j > 0 ==> rows[j] == rest[j - 1];
      }
    }
  }

  /** Where a first match came from: a row, one of its prefixes, and that row's local root. */
  lemma FirstLocalOrigin(clean: string, rows: seq<Row>) returns (i: nat, source: string)
    requires FirstLocal(clean, rows).Some?
    ensures i < |rows| && Under(clean, Normal(source))
    ensures source == Server(rows[i]) || source in rows[i].webhookPrefixes
    ensures FirstLocal(clean, rows) == Moved(clean, source, Normal(rows[i].localPrefix))
  {
    i := FirstRow(clean, rows);
    source := RowLocalOrigin(clean, rows[i]);
  }

  lemma {:induction false} AliasOrigin(clean: string, local: string, webhooks: seq<string>) returns (source: string)
    requires FirstAlias(clean, local, webhooks).Some?
    ensures source in webhooks && Under(clean, Normal(source)) && FirstAlias(clean, local, webhooks) == Moved(clean, source, local)
  {
    if Under(clean, Normal(webhooks[0])) {
      source := webhooks[0];
    } else {
      source := AliasOrigin(clean, local, webhooks[1..]);
    }
  }

  /** The row that moves the path, if any, says where to. */
  predicate MatchHasLocal(clean: string, rows: seq<Row>) {
    forall i | 0 <= i < |rows| && IsFirstMatch(clean, rows, i) :: rows[i].localPrefix != ""
  }

  /**
   * When the matching row has a local prefix, the fan-out contains the canonical path exactly when the path isn't blank
   * and, with no rows at all, is already clean: without rows the canonical path is handed back untouched.
   */
  lemma CanonicalIsExpandedIff(path: string, rows: seq<Row>)
    requires MatchHasLocal(Clean(path), rows)
    ensures Canonical(path, rows) in Expanded(path, rows) <==> Clean(path) != "" && (rows != [] || Clean(path) == path)
  {
    if Clean(path) != "" {
      CleanTwice(path);
      AddAllMembers([Clean(path)], Clean(path), Directions(rows));
      if rows == [] {
      } else if FirstLocal(Clean(path), rows).Some? {
        CanonicalOffered(path, rows);
      }
    }
  }

  lemma CanonicalOffered(path: string, rows: seq<Row>)
    requires rows != [] && Clean(Clean(path)) == Clean(path) && path != ""
    requires MatchHasLocal(Clean(path), rows) && FirstLocal(Clean(path), rows).Some?
    ensures Offered(Clean(path), Directions(rows), Canonical(path, rows))
  {
    var clean := Clean(path);
    var i := FirstRow(clean, rows);
    var r := rows[i];
    var source := RowLocalOrigin(clean, r);
    var d := (source, r.localPrefix);
    AliasMembers(r, r.webhookPrefixes, d);
    assert d in RowDirections(r);
    RowDirectionsIn(rows, i, d);
    NormalTwice(source);
    assert Normal(r.localPrefix) != "";
    assert Canonical(path, rows) == Join(Normal(r.localPrefix), Rest(clean, Normal(source)));
    assert Canonical(path, rows) in Forms(clean, d);
  }

  /** A row without one moves its paths to the root, where the fan-out never looks; only the root itself stays. */
  lemma NoLocalIff(path: string, server: string)
    requires Clean(path) != ""
    ensures var rows := [Row(server, "", "", [])];
            (Canonical(path, rows) in Expanded(path, rows) <==> !Under(Clean(path), Normal(server)) || Clean(path) == "/")
  {
    var clean, norm, r := Clean(path), Normal(server), Row(server, "", "", []);
    assert [r][1..] == [] && [r][..0] == [];
    assert RowDirections(r) == [(server, ""), ("", server)];
    assert Directions([r]) == RowDirections(r);
    AddNothing([clean], clean, RowDirections(r));
    assert FirstLocal(clean, [r]) == RowLocal(clean, r);
    if Under(clean, norm) {
      NowhereIsShorter(clean, norm);
    }
  }

  /** A path moved to no prefix at all comes out shorter, but for the root. */
  lemma NowhereIsShorter(clean: string, norm: string)
    requires Under(clean, norm)
    ensures Join("", Rest(clean, norm)) == clean <==> clean == "/"
  {
    var tail := clean[|norm|..];
    CutLeftFacts(tail);
    assert tail != "" ==> tail[0] == '/' && |CutLeft(tail)| < |tail|;
  }

  // And back again --------------------------------------------------------------------------------------------------

  /** No "//" and no "/" at the end. */
  predicate NoEmptySegments(s: string) {
    && (forall i | 0 <= i < |s| - 1 :: !(s[i] == '/' && s[i + 1] == '/'))
    && (s != "" ==> s[|s| - 1] != '/')
  }

  /** A prefix that isn't the root and has nothing to strip. */
  predicate PlainPrefix(prefix: string) {
    prefix != "" && Normal(prefix) != "/" && Stripped(Normal(prefix))
  }

  /** A matching path without empty segments is its prefix, or its prefix, one slash and the rest. */
  lemma PathInTwo(clean: string, source: string)
    requires Clean(clean) == clean && NoEmptySegments(clean)
    requires Under(clean, Normal(source)) && Normal(source) != "/"
    ensures var rest := Rest(clean, Normal(source));
            clean == if rest == "" then Normal(source) else Normal(source) + "/" + rest
  {
    var norm := Normal(source);
    SplitAtSlash(clean, norm);
  }

  lemma SplitAtSlash(clean: string, norm: string)
    requires Under(clean, norm) && NoEmptySegments(clean)
    ensures clean == if Rest(clean, norm) == "" then norm else norm + "/" + Rest(clean, norm)
  {
    var n := |norm|;
    var tail := clean[n..];
    assert clean == norm + tail;
    if |clean| > n {
      assert clean[|clean| - 1] != '/';
      assert |tail| >= 2 && tail[0] == '/' && tail[1] == clean[n + 1];
      assert tail[1..] != "" && tail[1..][0] != '/';
      assert CutLeft(tail[1..]) == tail[1..];
      assert tail == "/" + tail[1..];
      assert norm + tail == norm + "/" + tail[1..];
    }
  }

  /** Joining a plain root and the end of a clean path gives a clean path. */
  lemma JoinedIsClean(root: string, rest: string)
    requires root != "" && Stripped(root) && Forward(root) && CutRight(root) == root
    requires Forward(rest) && (rest != "" ==> !Space(rest[|rest| - 1]))
    ensures Clean(Join(root, rest)) == Join(root, rest) && Join(root, rest) != ""
  {
    var c := Join(root, rest);
    assert rest != "" ==> c == root + "/" + rest && c[0] == root[0] && c[|c| - 1] == rest[|rest| - 1];
    assert Forward(c);
    SlashForward(c);
    StripStrips(c);
  }

  lemma JoinedRest(root: string, rest: string)
    requires root != "" && CutRight(root) == root && CutLeft(rest) == rest
    ensures Under(Join(root, rest), root) && Rest(Join(root, rest), root) == rest
  {
    if rest == "" {
      assert root[..|root|] == root && root[|root|..] == "";
    } else {
      var c := root + ("/" + rest);
      assert Join(root, rest) == c;
      assert c[..|root|] == root && c[|root|..] == "/" + rest;
      assert ("/" + rest)[1..] == rest;
    }
  }

  /** The canonical path, already clean, split where it was joined. */
  lemma JoinedPath(clean: string, source: string, local: string)
    requires Clean(clean) == clean && Under(clean, Normal(source))
    requires PlainPrefix(local)
    ensures var root, rest := Normal(local), Rest(clean, Normal(source));
            var c := Join(root, rest);
            && Clean(c) == c && c != ""
            && Under(c, Normal(local))
            && Rest(c, root) == rest
  {
    var root, rest := Normal(local), Rest(clean, Normal(source));
    NormalTwice(local);
    CleanTwice(clean);
    RestOfClean(clean, Normal(source));
    JoinedIsClean(root, rest);
    CutLeftFacts(clean[|Normal(source)|..]);
    JoinedRest(root, rest);
  }

  lemma RestOfClean(clean: string, norm: string)
    requires Under(clean, norm) && Stripped(clean) && Forward(clean)
    ensures var rest := Rest(clean, norm); Forward(rest) && (rest != "" ==> !Space(rest[|rest| - 1]))
  {
    var tail := clean[|norm|..];
    var rest := CutLeft(tail);
    CutLeftFacts(tail);
    forall x <- rest ensures x in clean {
      assert x in tail;
    }
    if rest != "" {
      assert rest[|rest| - 1] == tail[|tail| - 1] == clean[|clean| - 1];
    }
  }

  /**
   * Round trip: for rows with plain local prefixes, expanding the canonical path of a path without empty segments lists
   * the path again, so a file found under its local name can be matched with the name the server or the webhook used.
   */
  lemma ExpandingCanonicalReturns(path: string, rows: seq<Row>)
    requires Clean(path) != "" && NoEmptySegments(Clean(path))
    requires forall r <- rows :: PlainPrefix(r.localPrefix)
    ensures Clean(path) in Expanded(Canonical(path, rows), rows)
  {
    CleanTwice(path);
    if rows == [] || FirstLocal(Clean(path), rows).None? {
      ExpandedStartsWithPath(Canonical(path, rows), rows);
    } else {
      MatchedReturns(Clean(path), rows);
    }
  }

  lemma MatchedReturns(clean: string, rows: seq<Row>)
    requires Clean(clean) == clean && NoEmptySegments(clean)
    requires forall r <- rows :: PlainPrefix(r.localPrefix)
    requires FirstLocal(clean, rows).Some?
    ensures clean in Expanded(FirstLocal(clean, rows).value, rows)
  {
    var i, source := FirstLocalOrigin(clean, rows);
    var c := FirstLocal(clean, rows).value;
    assert rows[i] in rows;
    NeverUnderRoot(clean);
    JoinedPath(clean, source, rows[i].localPrefix);
    PathInTwo(clean, source);
    BackDirection(rows, i, source);
    BackForm(clean, c, source, rows[i].localPrefix);
    AddAllMembers([c], c, Directions(rows));
    assert clean != "";
    assert Offered(c, Directions(rows), clean);
  }

  /** The root as a prefix matches only paths with an empty segment. */
  lemma NeverUnderRoot(clean: string)
    requires NoEmptySegments(clean)
    ensures !Under(clean, "/")
  {
    if |clean| > 1 {
      assert clean[..1][0] == clean[0];
      assert !(clean[0] == '/' && clean[0 + 1] == '/');
    }
  }

  lemma BackDirection(rows: seq<Row>, i: nat, source: string)
    requires i < |rows| && (source == Server(rows[i]) || source in rows[i].webhookPrefixes)
    ensures (rows[i].localPrefix, source) in Directions(rows)
  {
    AliasMembers(rows[i], rows[i].webhookPrefixes, (rows[i].localPrefix, source));
    RowDirectionsIn(rows, i, (rows[i].localPrefix, source));
  }

  lemma BackForm(clean: string, c: string, source: string, local: string)
    requires Clean(c) == c && Under(c, Normal(local)) && Normal(source) != "/"
    requires Under(clean, Normal(source)) && Rest(c, Normal(local)) == Rest(clean, Normal(source))
    requires clean == if Rest(clean, Normal(source)) == "" then Normal(source) else Normal(source) + "/" + Rest(clean, Normal(source))
    ensures clean in Forms(c, (local, source))
  {
    NormalTwice(source);
    NormalTwice(local);
    assert Forms(c, (local, source))[0] == Join(Normal(source), Rest(c, Normal(local))) == clean;
  }

  // Native forms ----------------------------------------------------------------------------------------------------

  lemma {:induction false} OneBackslashKeeps(s: string)
    ensures '\\' in s ==> '\\' in OneBackslash(s)
    ensures '\\' !in s ==> OneBackslash(s) == s
  {
    if s != "" {
      OneBackslashKeeps(s[1..]);
      assert s == [s[0]] + s[1..];
    }
  }

  /** A native form has backslashes unless its path has no slash, so it never equals another compared path. */
  lemma NativeIsOther(prefix: string, path: string, f: string)
    requires Forward(path) && Forward(f) && path != f
    ensures WindowsNative(prefix, path) == "" || WindowsNative(prefix, path) != f
  {
    var native := Backslash(path);
    OneBackslashKeeps(native);
    if '/' in path {
      var i :| 0 <= i < |path| && path[i] == '/';
      assert native[i] == '\\';
      if WindowsNative(prefix, path) != "" && |native| >= 2 && native[0] == '\\' && native[1] == '\\' {
        assert ("\\\\" + OneBackslash(native[2..]))[0] == '\\';
      }
    } else {
      assert native == path;
    }
  }

  lemma JoinIsForward(root: string, rest: string)
    requires Forward(root) && Forward(rest)
    ensures Forward(Join(root, rest))
  {
    CutRightFacts(root);
  }

  // The form a Windows server stores --------------------------------------------------------------------------------

  predicate SingleBackslashes(s: string) {
    forall i | 0 <= i < |s| - 1 :: s[i] != '\\' || s[i + 1] != '\\'
  }

  lemma {:induction false} OneBackslashFacts(s: string)
    ensures var t := OneBackslash(s);
            ('/' !in s ==> '/' !in t) && (s != "" ==> t != "" && t[0] == s[0]) && SingleBackslashes(t)
  {
    if s != "" {
      OneBackslashFacts(s[1..]);
      assert s == [s[0]] + s[1..];
    }
  }

  lemma {:induction false} SinglesStay(s: string)
    requires SingleBackslashes(s)
    ensures OneBackslash(s) == s
  {
    if s != "" {
      assert forall i | 0 <= i < |s| - 1 :: s[1..][i] == s[i + 1];
      SinglesStay(s[1..]);
      assert s == [s[0]] + s[1..];
    }
  }

  /** The path with backslashes for slashes; a doubled one is kept only at the front, where it starts a share's name. */
  predicate IsWindowsForm(native: string, path: string) {
    && '/' !in native
    && (forall i | 2 <= i < |native| - 1 :: native[i] != '\\' || native[i + 1] != '\\')
    && ((forall i | 1 <= i < |path| - 1 :: path[i] != '/' || path[i + 1] != '/')
        ==> |native| == |path| && forall i | 0 <= i < |path| :: native[i] == if path[i] == '/' then '\\' else path[i])
  }

  lemma NativeIsWindowsForm(prefix: string, path: string)
    requires WindowsPath(Strip(prefix)) && Forward(path) && path != ""
    ensures WindowsNative(prefix, path) != "" && IsWindowsForm(WindowsNative(prefix, path), path)
  {
    var native := Backslash(path);
    assert '/' !in native && forall i | 0 <= i < |path| :: native[i] == '\\' <==> path[i] == '/';
    if |native| >= 2 && native[0] == '\\' && native[1] == '\\' {
      ShareForm(path, native);
    } else {
      OneBackslashFacts(native);
      if forall i | 1 <= i < |path| - 1 :: path[i] != '/' || path[i + 1] != '/' {
        SinglesStay(native);
      }
    }
  }

  lemma ShareForm(path: string, native: string)
    requires Forward(path) && native == Backslash(path) && '/' !in native && |native| >= 2 && native[0] == '\\' && native[1] == '\\'
    ensures IsWindowsForm("\\\\" + OneBackslash(native[2..]), path)
  {
    var rest := native[2..];
    OneBackslashFacts(rest);
    assert forall i | 0 <= i < |rest| :: rest[i] == native[i + 2];
    if forall i | 1 <= i < |path| - 1 :: path[i] != '/' || path[i + 1] != '/' {
      forall i | 0 <= i < |rest| - 1 ensures rest[i] != '\\' || rest[i + 1] != '\\' {
        var k := i + 2;
        assert path[k] != '/' || path[k + 1] != '/';
      }
      SinglesStay(rest);
      assert "\\\\" + rest == native;
    }
  }

  /** A file under a row's local prefix is also offered as a Windows server behind that row stores it. */
  lemma WindowsFormOffered(path: string, rows: seq<Row>, i: nat)
    requires Clean(path) != "" && i < |rows|
    requires Under(Clean(path), Normal(rows[i].localPrefix)) && WindowsPath(Strip(Server(rows[i])))
    ensures var moved := Join(Normal(Server(rows[i])), Rest(Clean(path), Normal(rows[i].localPrefix)));
            moved in Expanded(path, rows) && exists native <- Expanded(path, rows) :: IsWindowsForm(native, moved)
  {
    var clean, r := Clean(path), rows[i];
    var d := (r.localPrefix, Server(r));
    var moved := Join(Normal(Server(r)), Rest(clean, Normal(r.localPrefix)));
    CleanTwice(path);
    RestOfClean(clean, Normal(r.localPrefix));
    NormalTwice(Server(r));
    JoinIsForward(Normal(Server(r)), Rest(clean, Normal(r.localPrefix)));
    NativeIsWindowsForm(Server(r), moved);
    assert RowDirections(r)[1] == d;
    RowDirectionsIn(rows, i, d);
    AddAllMembers([clean], clean, Directions(rows));
    assert Forms(clean, d) == [moved, WindowsNative(Server(r), moved)];
    assert Forms(clean, d)[0] in Forms(clean, d) && Forms(clean, d)[1] in Forms(clean, d);
    assert Offered(clean, Directions(rows), moved) && Offered(clean, Directions(rows), WindowsNative(Server(r), moved));
  }

  // The exact condition for one row ---------------------------------------------------------------------------------

  function OneRow(server: string, local: string): Row {
    Row(server, "", local, [])
  }

  lemma OneRowFacts(clean: string, server: string, local: string)
    ensures var r := OneRow(server, local);
            && FirstLocal(clean, [r]) == Moved(clean, server, Normal(local))
            && Directions([r]) == [(server, local), (local, server)]
  {
    var r := OneRow(server, local);
    assert [r][1..] == [] && [r][..0] == [];
    assert FirstLocal(clean, []) == None && FirstAlias(clean, Normal(local), []) == None;
    assert Directions([r]) == RowDirections(r);
  }

  /** The path comes back: expanding its canonical form lists it. */
  predicate Returns(clean: string, server: string, local: string) {
    clean in Expanded(Canonical(clean, [OneRow(server, local)]), [OneRow(server, local)])
  }

  /** Every cleaned path without empty segments comes back. */
  ghost predicate AllReturn(server: string, local: string) {
    forall clean: string | clean != "" && Clean(clean) == clean && NoEmptySegments(clean) :: Returns(clean, server, local)
  }

  /** What a form of the fan-out can be: a path moved one way or the other, or its native form with backslashes. */
  lemma NotReturned(clean: string, c: string, server: string, local: string)
    requires Clean(clean) == clean && clean != "" && clean != c && c == Clean(c) && c != ""
    requires Under(c, Normal(server)) && Normal(local) != "" ==> Join(Normal(local), Rest(c, Normal(server))) != clean
    requires !Under(c, Normal(local))
    ensures clean !in Expanded(c, [OneRow(server, local)])
  {
    OneRowFacts(c, server, local);
    AddAllMembers([c], c, Directions([OneRow(server, local)]));
    CleanTwice(clean);
    ThereNotReturned(clean, c, server, local);
    assert Forms(c, (local, server)) == [];
  }

  lemma ThereNotReturned(clean: string, c: string, server: string, local: string)
    requires Forward(clean) && clean != "" && c == Clean(c)
    requires Under(c, Normal(server)) && Normal(local) != "" ==> Join(Normal(local), Rest(c, Normal(server))) != clean
    ensures clean !in Forms(c, (server, local))
  {
    if Under(c, Normal(server)) && Normal(local) != "" {
      var moved := Join(Normal(local), Rest(c, Normal(server)));
      NormalTwice(local);
      CleanTwice(c);
      RestOfClean(c, Normal(server));
      JoinIsForward(Normal(local), Rest(c, Normal(server)));
      NativeIsOther(local, moved, clean);
      assert clean != "" ==> WindowsNative(local, moved) != clean;
    }
  }

  // The round trip of one row, both ways ----------------------------------------------------------------------------

  /** The local prefix is the server's with spaces on one side only. */
  predicate SpacedTwin(local: string, server: string) {
    StripLeft(Normal(local)) == Normal(server) || StripRight(Normal(local)) == Normal(server)
  }

  lemma {:induction false} StripLeftKeeps(s: string, t: string)
    requires StripLeft(s) != ""
    ensures StripLeft(s + t) == StripLeft(s) + t
  {
    if Space(s[0]) {
      assert (s + t)[1..] == s[1..] + t;
      StripLeftKeeps(s[1..], t);
    } else {
      assert (s + t)[0] == s[0];
    }
  }

  lemma {:induction false} StripLeftSkips(s: string, t: string)
    requires StripLeft(s) == "" && t != "" && !Space(t[0])
    ensures StripLeft(s + t) == t
  {
    if s == "" {
      assert s + t == t;
    } else {
      assert (s + t)[1..] == s[1..] + t;
      StripLeftSkips(s[1..], t);
    }
  }

  lemma StripRightSame(s: string)
    requires s == "" || !Space(s[|s| - 1])
    ensures StripRight(s) == s
  {
  }

  /** A plain server prefix without empty segments, itself a path that can come back. */
  predicate PlainServer(server: string) {
    PlainPrefix(server) && NoEmptySegments(Normal(server)) && Normal(server)[|Normal(server)| - 1] != '/'
  }

  lemma CanonicalOfOne(clean: string, server: string, local: string)
    requires clean != "" && Clean(clean) == clean
    ensures Canonical(clean, [OneRow(server, local)])
         == if Under(clean, Normal(server)) then Join(Normal(local), Rest(clean, Normal(server))) else clean
  {
    OneRowFacts(clean, server, local);
  }

  lemma BelowRest(p: string, x: char)
    requires p != "" && x != '/'
    ensures Under(p + ['/', x], p) && Rest(p + ['/', x], p) == [x]
  {
    var c := p + ['/', x];
    assert c[..|p|] == p && c[|p|..] == ['/', x];
    assert ['/', x][1..] == [x] && CutLeft([x]) == [x];
  }

  /** The path one segment below the server's prefix. */
  lemma BelowServer(server: string)
    requires PlainServer(server)
    ensures var p := Normal(server);
            var c := p + "/x";
            && Clean(c) == c && NoEmptySegments(c) && Under(c, p) && Rest(c, p) == "x"
  {
    NormalTwice(server);
    BelowRest(Normal(server), 'x');
    assert "/x" == ['/', 'x'];
  }

  lemma RootChildIsClean(p: string)
    ensures Clean("/x") == "/x"
    ensures Under("/x", p) && p != "/" ==> p == "/x" && Join("/", Rest("/x", p)) != p + "/x"
  {
    var moved := "/x";
    assert moved[0] == '/' && moved[1] == 'x' && Stripped(moved);
    StripStrips(moved);
    SlashForward(moved);
    assert moved[..1] == "/" && moved[..2] == moved;
  }

  /** A row with no local prefix, or the root, sends its paths to the root and can't take them back. */
  lemma RootLocalBreaks(server: string, local: string)
    requires PlainServer(server) && (Normal(local) == "" || Normal(local) == "/")
    ensures !AllReturn(server, local)
  {
    var p := Normal(server);
    var c, moved := p + "/x", "/x";
    BelowServer(server);
    CanonicalOfOne(c, server, local);
    RootChildIsClean(p);
    assert CutRight("/") == "" && CutRight("") == "";
    assert Canonical(c, [OneRow(server, local)]) == moved;
    NotReturned(c, moved, server, local);
    assert !Returns(c, server, local);
  }

  /** A path joined under a root with leading spaces, as it is cleaned. */
  lemma LeadingCleaned(root: string)
    requires Forward(root) && root != ""
    ensures var d := StripLeft(root) + "/x"; Clean(root + "/x") == d && Clean(d) == d
  {
    var moved, d := root + "/x", StripLeft(root) + "/x";
    if StripLeft(root) == "" {
      StripLeftSkips(root, "/x");
    } else {
      StripLeftKeeps(root, "/x");
    }
    StrippedForm(root, moved, d);
  }

  /** Leading spaces are stripped from the path and not from the prefix. */
  lemma LeadingSpaceBreaks(server: string, local: string)
    requires PlainServer(server) && Normal(local) != "" && Space(Normal(local)[0]) && !SpacedTwin(local, server)
    ensures !AllReturn(server, local)
  {
    var p, root := Normal(server), Normal(local);
    var c, d := p + "/x", StripLeft(root) + "/x";
    BelowServer(server);
    CanonicalOfOne(c, server, local);
    NormalTwice(local);
    assert Canonical(c, [OneRow(server, local)]) == root + "/x";
    LeadingCleaned(root);
    assert d != c by {
      assert d[..|d| - 2] == StripLeft(root) && c[..|c| - 2] == p;
    }
    LeadingNotReturned(c, d, server, local);
    ExpandedOfClean(root + "/x", server, local);
    assert !Returns(c, server, local);
  }

  lemma LeadingNotReturned(c: string, d: string, server: string, local: string)
    requires Clean(c) == c && c != "" && !Space(c[0]) && Clean(d) == d && d != "" && !Space(d[0]) && c != d
    requires Normal(local) != "" && Space(Normal(local)[0])
    ensures c !in Expanded(d, [OneRow(server, local)])
  {
    var root := Normal(local);
    NormalTwice(local);
    if Under(d, Normal(server)) {
      assert CutRight(root) == root && Join(root, Rest(d, Normal(server)))[0] == root[0];
    }
    NotReturned(c, d, server, local);
  }

  lemma StrippedForm(root: string, moved: string, d: string)
    requires Forward(moved) && moved != "" && moved[|moved| - 1] == 'x' && StripLeft(moved) == d && d != ""
    ensures Clean(moved) == d && Clean(d) == d
  {
  }

  lemma ExpandedOfClean(path: string, server: string, local: string)
    ensures Expanded(Clean(path), [OneRow(server, local)]) == Expanded(path, [OneRow(server, local)])
  {
    CleanTwice(path);
  }

  lemma {:induction false} StripRightStarts(s: string)
    requires s != "" && !Space(s[0])
    ensures StripRight(s) != "" && StripRight(s)[0] == s[0]
  {
    if Space(s[|s| - 1]) {
      StripRightStarts(s[..|s| - 1]);
    }
  }

  /** So are trailing ones, when the path is the prefix itself. */
  lemma TrailingSpaceBreaks(server: string, local: string)
    requires PlainServer(server) && Normal(local) != "" && !SpacedTwin(local, server)
    requires !Space(Normal(local)[0]) && Space(Normal(local)[|Normal(local)| - 1])
    ensures !AllReturn(server, local)
  {
    var p, root := Normal(server), Normal(local);
    NormalTwice(server);
    NormalTwice(local);
    StripStrips(p);
    SlashForward(p);
    CanonicalOfOne(p, server, local);
    assert Rest(p, p) == "";
    assert Canonical(p, [OneRow(server, local)]) == root;
    var d := StripRight(root);
    StripRightStarts(root);
    assert d != "" && d[0] == root[0] && d == root[..|d|] && |d| < |root|;
    StripStrips(d);
    SlashForward(root);
    assert Forward(d);
    SlashForward(d);
    assert Clean(root) == d && Clean(d) == d;
    if Under(d, p) {
      var moved := Join(root, Rest(d, p));
      assert |moved| >= |root| > |d| >= |p|;
    }
    NotReturned(p, d, server, local);
    ExpandedOfClean(root, server, local);
    assert !Returns(p, server, local);
  }

  lemma LeadingTwinCleans(clean: string, p: string, root: string, rest: string)
    requires p != "" && StripLeft(root) == p && Stripped(clean) && Forward(clean) && CutRight(root) == root
    requires clean == if rest == "" then p else p + "/" + rest
    ensures Clean(Join(root, rest)) == clean
  {
    LeadingTwinLeft(p, root, rest);
    CleansTo(Join(root, rest), clean);
  }

  lemma LeadingTwinLeft(p: string, root: string, rest: string)
    requires p != "" && StripLeft(root) == p && CutRight(root) == root
    ensures StripLeft(Join(root, rest)) == if rest == "" then p else p + "/" + rest
  {
    if rest != "" {
      var t := "/" + rest;
      StripLeftKeeps(root, t);
      assert root + "/" + rest == root + t;
      assert p + "/" + rest == p + t;
    }
  }

  lemma CleansTo(path: string, clean: string)
    requires StripLeft(path) == clean && Stripped(clean) && Forward(clean)
    ensures Clean(path) == clean
  {
    StripRightSame(clean);
    SlashForward(clean);
  }

  /** With leading spaces on the server's own prefix, the canonical path cleans to the path itself. */
  lemma LeadingTwinReturns(clean: string, server: string, local: string)
    requires PlainServer(server) && StripLeft(Normal(local)) == Normal(server)
    requires clean != "" && Clean(clean) == clean && NoEmptySegments(clean) && Under(clean, Normal(server))
    ensures Returns(clean, server, local)
  {
    CanonicalOfOne(clean, server, local);
    PathInTwo(clean, server);
    NormalTwice(local);
    CleanTwice(clean);
    LeadingTwinCleans(clean, Normal(server), Normal(local), Rest(clean, Normal(server)));
    ExpandedStartsWithPath(Canonical(clean, [OneRow(server, local)]), [OneRow(server, local)]);
  }

  /** With trailing ones, the prefix itself cleans to the server's and everything below it finds its way back. */
  lemma TrailingTwinReturns(clean: string, server: string, local: string)
    requires PlainServer(server) && StripRight(Normal(local)) == Normal(server)
    requires clean != "" && Clean(clean) == clean && NoEmptySegments(clean) && Under(clean, Normal(server))
    ensures Returns(clean, server, local)
  {
    var p, root := Normal(server), Normal(local);
    CanonicalOfOne(clean, server, local);
    PathInTwo(clean, server);
    NormalTwice(local);
    NormalTwice(server);
    assert root[0] == p[0];
    var rest := Rest(clean, p);
    var moved := Join(root, rest);
    if rest == "" {
      assert moved == root && Strip(moved) == p;
      SlashForward(p);
      ExpandedStartsWithPath(moved, [OneRow(server, local)]);
    } else {
      BelowTwin(clean, moved, server, local);
    }
  }

  lemma BelowTwin(clean: string, moved: string, server: string, local: string)
    requires PlainServer(server) && StripRight(Normal(local)) == Normal(server) && Normal(local)[0] == Normal(server)[0]
    requires Clean(clean) == clean && Under(clean, Normal(server)) && Rest(clean, Normal(server)) != ""
    requires clean == Normal(server) + "/" + Rest(clean, Normal(server))
    requires moved == Join(Normal(local), Rest(clean, Normal(server))) && Normal(local) != "/"
    ensures clean in Expanded(moved, [OneRow(server, local)])
  {
    var p, root, rest := Normal(server), Normal(local), Rest(clean, Normal(server));
    CleanTwice(clean);
    NormalTwice(local);
    NormalTwice(server);
    RestOfClean(clean, p);
    CutLeftFacts(clean[|p|..]);
    JoinedRest(root, rest);
    JoinIsForward(root, rest);
    assert moved == root + "/" + rest && moved[0] == root[0] && moved[|moved| - 1] == rest[|rest| - 1];
    StripStrips(moved);
    SlashForward(moved);
    OneRowFacts(moved, server, local);
    assert Forms(moved, (local, server))[0] == Join(p, rest) == clean;
    assert (local, server) in Directions([OneRow(server, local)]);
    AddAllMembers([moved], moved, Directions([OneRow(server, local)]));
    assert Offered(moved, Directions([OneRow(server, local)]), clean);
  }

  /**
   * The exact condition for the round trip of one row with a plain server prefix: every path comes back if and only if
   * the local prefix is plain too, or is the server's own with spaces on one side.
   */
  lemma AllReturnIff(server: string, local: string)
    requires PlainServer(server)
    ensures AllReturn(server, local) <==> PlainPrefix(local) || SpacedTwin(local, server)
  {
    var root := Normal(local);
    if PlainPrefix(local) || SpacedTwin(local, server) {
      forall clean: string | clean != "" && Clean(clean) == clean && NoEmptySegments(clean)
        ensures Returns(clean, server, local)
      {
        OneReturns(clean, server, local);
      }
    } else if root == "" || root == "/" {
      RootLocalBreaks(server, local);
    } else if Space(root[0]) {
      LeadingSpaceBreaks(server, local);
    } else {
      TrailingSpaceBreaks(server, local);
    }
  }

  lemma OneReturns(clean: string, server: string, local: string)
    requires PlainServer(server) && (PlainPrefix(local) || SpacedTwin(local, server))
    requires clean != "" && Clean(clean) == clean && NoEmptySegments(clean)
    ensures Returns(clean, server, local)
  {
    var rows := [OneRow(server, local)];
    if PlainPrefix(local) {
      ExpandingCanonicalReturns(clean, rows);
    } else if !Under(clean, Normal(server)) {
      CanonicalOfOne(clean, server, local);
      ExpandedStartsWithPath(clean, rows);
    } else if StripLeft(Normal(local)) == Normal(server) {
      LeadingTwinReturns(clean, server, local);
    } else {
      TrailingTwinReturns(clean, server, local);
    }
  }
}
