/** Path mapping: first match and full fan-out over the same rows. config/paths.py. */
module Paths {
  import opened Wrappers
  import opened Json

  /** One mapping row as stored; "" where a key is missing or empty. */
  datatype Row = Row(remotePrefix: string, plexPrefix: string, localPrefix: string, webhookPrefixes: seq<string>)

  /** The server's prefix: `remote_prefix`, or the older `plex_prefix`. */
  function Server(r: Row): string {
    if r.remotePrefix != "" then r.remotePrefix else r.plexPrefix
  }

  // Prefixes --------------------------------------------------------------------------------------------------------

  function Slash(s: string): (t: string)
    ensures |t| == |s|
  {
    seq(|s|, i requires 0 <= i < |s| => if s[i] == '\\' then '/' else s[i])
  }

  /** `s.rstrip("/")`. */
  function CutRight(s: string): (t: string)
    ensures |t| <= |s|
  {
    if s == "" || s[|s| - 1] != '/' then s else CutRight(s[..|s| - 1])
  }

  /** `s.lstrip("/")`. */
  function CutLeft(s: string): (t: string)
    ensures |t| <= |s|
  {
    if s == "" || s[0] != '/' then s else CutLeft(s[1..])
  }

  lemma {:induction false} CutRightFacts(s: string)
    ensures var t := CutRight(s);
            t == s[..|t|] && (t == "" || t[|t| - 1] != '/') && CutRight(t) == t
  {
    if s == "" || s[|s| - 1] != '/' {
      assert s[..|s|] == s;
    } else {
      CutRightFacts(s[..|s| - 1]);
    }
  }

  lemma {:induction false} CutLeftFacts(s: string)
    ensures var t := CutLeft(s);
            t == s[|s| - |t|..] && (t == "" || t[0] != '/') && CutLeft(t) == t
  {
    if s == "" || s[0] != '/' {
    } else {
      CutLeftFacts(s[1..]);
    }
  }

  /** A prefix as it is compared: forward slashes, none at the end, "/" for the root and "" for none. */
  function Normal(prefix: string): string {
    if prefix == "" then ""
    else
      var cut := CutRight(Slash(prefix));
      if cut == "" then "/" else cut
  }

  /** A path as it is compared. */
  function Clean(path: string): string {
    Slash(Strip(path))
  }

  predicate Forward(s: string) {
    '\\' !in s
  }

  lemma SlashForward(s: string)
    ensures Forward(Slash(s))
    ensures Forward(s) <==> Slash(s) == s
  {
    if Slash(s) == s {
      assert forall i | 0 <= i < |s| :: s[i] != '\\';
    }
  }

  lemma NormalTwice(prefix: string)
    ensures Normal(Normal(prefix)) == Normal(prefix)
    ensures Forward(Normal(prefix))
    ensures Normal(prefix) != "/" ==> CutRight(Normal(prefix)) == Normal(prefix)
  {
    var cut := CutRight(Slash(prefix));
    SlashForward(prefix);
    CutRightFacts(Slash(prefix));
    assert forall c <- cut :: c in Slash(prefix);
    SlashForward(cut);
    assert Slash("/") == "/" && CutRight("/") == "";
  }

  lemma CleanTwice(path: string)
    ensures Clean(Clean(path)) == Clean(path)
    ensures Forward(Clean(path)) && Stripped(Clean(path))
  {
    StripStrips(path);
    var s := Strip(path);
    SlashForward(s);
    StripStrips(Slash(s));
  }

  /** Equal to a normalized prefix, or under it; never a partial segment. */
  predicate Under(clean: string, norm: string) {
    && norm != ""
    && |norm| <= |clean|
    && clean[..|norm|] == norm
    && (|clean| == |norm| || clean[|norm|] == '/')
  }

  /** `_path_matches_prefix`, which cleans and normalizes its arguments itself. */
  predicate Matches(path: string, prefix: string) {
    Under(Clean(path), Normal(prefix))
  }

  /** The resolvers hand over what they already cleaned, so the second cleaning changes nothing. */
  lemma MatchesClean(path: string, prefix: string)
    ensures Matches(Clean(path), Normal(prefix)) <==> Under(Clean(path), Normal(prefix))
  {
    CleanTwice(path);
    NormalTwice(prefix);
  }

  /** What follows the prefix. */
  function Rest(clean: string, norm: string): string
    requires Under(clean, norm)
  {
    CutLeft(clean[|norm|..])
  }

  function Join(root: string, rest: string): string {
    if rest != "" then CutRight(root) + "/" + rest else if root != "" then root else "/"
  }

  // First match -----------------------------------------------------------------------------------------------------

  /** The path under another root, when it matches. */
  function Moved(clean: string, source: string, target: string): Option<string>
  {
    if Under(clean, Normal(source)) then Some(Join(target, Rest(clean, Normal(source)))) else None
  }

  function FirstAlias(clean: string, local: string, webhooks: seq<string>): Option<string>
  {
    if webhooks == [] then None
    else if Under(clean, Normal(webhooks[0])) then Moved(clean, webhooks[0], local)
    else FirstAlias(clean, local, webhooks[1..])
  }

  function RowLocal(clean: string, r: Row): Option<string>
  {
    var local := Normal(r.localPrefix);
    if Under(clean, Normal(Server(r))) then Moved(clean, Server(r), local) else FirstAlias(clean, local, r.webhookPrefixes)
  }

  function FirstLocal(clean: string, rows: seq<Row>): Option<string>
  {
    if rows == [] then None
    else if RowLocal(clean, rows[0]).Some? then RowLocal(clean, rows[0])
    else FirstLocal(clean, rows[1..])
  }

  /** `path_to_canonical_local`. */
  function Canonical(path: string, rows: seq<Row>): string {
    if path == "" || rows == [] then path
    else FirstLocal(Clean(path), rows).GetOr(Clean(path))
  }

  // Fan-out ---------------------------------------------------------------------------------------------------------

  predicate Letter(c: char) {
    'A' <= c <= 'Z' || 'a' <= c <= 'z'
  }

  /** A drive letter or a UNC share. */
  predicate WindowsPath(s: string) {
    || (|s| >= 2 && Letter(s[0]) && s[1] == ':' && (|s| == 2 || s[2] == '\\' || s[2] == '/'))
    || (|s| >= 3 && s[0] == '\\' && s[1] == '\\' && s[2] != '\\' && s[2] != '/')
  }

  function Backslash(s: string): string {
    seq(|s|, i requires 0 <= i < |s| => if s[i] == '/' then '\\' else s[i])
  }

  /** Runs of backslashes become one. */
  function OneBackslash(s: string): string {
    if s == "" then ""
    else if |s| >= 2 && s[0] == '\\' && s[1] == '\\' then OneBackslash(s[1..])
    else [s[0]] + OneBackslash(s[1..])
  }

  /** The form a Windows server stores, when the prefix is a Windows path; "" otherwise. */
  function WindowsNative(prefix: string, path: string): string {
    if !WindowsPath(Strip(prefix)) then ""
    else
      var native := Backslash(path);
      if |native| >= 2 && native[0] == '\\' && native[1] == '\\' then "\\\\" + OneBackslash(native[2..]) else OneBackslash(native)
  }

  /** One direction of one row: a source and a target prefix, as stored. */
  type Direction = (string, string)

  function AliasDirections(r: Row, webhooks: seq<string>): seq<Direction> {
    if webhooks == [] then []
    else
      var w := webhooks[0];
      [(w, r.localPrefix), (w, Server(r)), (r.localPrefix, w), (Server(r), w)] + AliasDirections(r, webhooks[1..])
  }

  function RowDirections(r: Row): seq<Direction> {
    [(Server(r), r.localPrefix), (r.localPrefix, Server(r))] + AliasDirections(r, r.webhookPrefixes)
  }

  function Directions(rows: seq<Row>): seq<Direction> {
    if rows == [] then [] else Directions(rows[..|rows| - 1]) + RowDirections(rows[|rows| - 1])
  }

  /** The forms one direction offers, in order; "" offers nothing. */
  function Forms(clean: string, d: Direction): seq<string>
  {
    var source, target := Normal(d.0), Normal(d.1);
    if target == "" || !Under(clean, source) then []
    else
      var candidate := Join(target, Rest(clean, source));
      [candidate, WindowsNative(d.1, candidate)]
  }

  function AddForm(candidates: seq<string>, form: string): seq<string> {
    if form != "" && form !in candidates then candidates + [form] else candidates
  }

  function AddForms(candidates: seq<string>, forms: seq<string>): seq<string>
    decreases |forms|
  {
    if forms == [] then candidates else AddForms(AddForm(candidates, forms[0]), forms[1..])
  }

  function AddAll(candidates: seq<string>, clean: string, directions: seq<Direction>): seq<string>
  {
    if directions == [] then candidates
    else AddForms(AddAll(candidates, clean, directions[..|directions| - 1]), Forms(clean, directions[|directions| - 1]))
  }

  /** `expand_path_mapping_candidates`. */
  function Expanded(path: string, rows: seq<Row>): seq<string> {
    if Clean(path) == "" then []
    else AddAll([Clean(path)], Clean(path), Directions(rows))
  }

  // The loops -------------------------------------------------------------------------------------------------------

  /** The two mutable collections of the fan-out. */
  method AddMapped(clean: string, source: string, target: string, candidates: seq<string>, seen: set<string>)
    returns (candidates': seq<string>, seen': set<string>)
    requires Clean(clean) == clean
    requires forall c :: c in seen <==> c in candidates
    ensures candidates' == AddForms(candidates, Forms(clean, (source, target)))
    ensures forall c :: c in seen' <==> c in candidates'
  {
    candidates', seen' := candidates, seen;
    var src, dst := Normal(source), Normal(target);
    MatchesClean(clean, source);
    if src == "" || dst == "" || !Matches(clean, src) {
      return;
    }
    var candidate := Join(dst, Rest(clean, src));
    var forms := [candidate, WindowsNative(target, candidate)];
    var i := 0;
    while i < 2
      invariant 0 <= i <= 2
      invariant AddForms(candidates', forms[i..]) == AddForms(candidates, forms)
      invariant forall c :: c in seen' <==> c in candidates'
    {
      var form := forms[i];
      assert forms[i..][1..] == forms[i + 1..];
      if form != "" && form !in seen' {
        seen' := seen' + {form};
        candidates' := candidates' + [form];
      }
      i := i + 1;
    }
  }

  lemma {:induction false} AddAllConcat(candidates: seq<string>, clean: string, a: seq<Direction>, b: seq<Direction>)
    ensures AddAll(candidates, clean, a + b) == AddAll(AddAll(candidates, clean, a), clean, b)
  {
    if b == [] {
      assert a + b == a;
    } else {
      assert (a + b)[..|a + b| - 1] == a + b[..|b| - 1];
      AddAllConcat(candidates, clean, a, b[..|b| - 1]);
    }
  }

  lemma AddAllFour(candidates: seq<string>, clean: string, a: Direction, b: Direction, c: Direction, d: Direction)
    ensures AddAll(candidates, clean, [a, b, c, d])
         == AddForms(AddForms(AddForms(AddForms(candidates, Forms(clean, a)), Forms(clean, b)), Forms(clean, c)), Forms(clean, d))
  {
    assert [a, b, c, d] == [a] + [b] + [c] + [d];
    AddAllConcat(candidates, clean, [a] + [b] + [c], [d]);
    AddAllConcat(candidates, clean, [a] + [b], [c]);
    AddAllConcat(candidates, clean, [a], [b]);
  }

  method AddRow(clean: string, r: Row, candidates: seq<string>, seen: set<string>)
    returns (candidates': seq<string>, seen': set<string>)
    requires Clean(clean) == clean
    requires forall c :: c in seen <==> c in candidates
    ensures candidates' == AddAll(candidates, clean, RowDirections(r))
    ensures forall c :: c in seen' <==> c in candidates'
  {
    var server, local := Server(r), r.localPrefix;
    candidates', seen' := AddMapped(clean, server, local, candidates, seen);
    candidates', seen' := AddMapped(clean, local, server, candidates', seen');
    AddAllConcat(candidates, clean, [(server, local)], [(local, server)]);
    ghost var both := [(server, local), (local, server)];
    assert both == [(server, local)] + [(local, server)];
    AddAllConcat(candidates, clean, both, AliasDirections(r, r.webhookPrefixes));
    var i := 0;
    while i < |r.webhookPrefixes|
      invariant 0 <= i <= |r.webhookPrefixes|
      invariant AddAll(candidates', clean, AliasDirections(r, r.webhookPrefixes[i..])) == AddAll(candidates, clean, RowDirections(r))
      invariant forall c :: c in seen' <==> c in candidates'
    {
      var w := r.webhookPrefixes[i];
      ghost var before := candidates';
      AddAllFour(before, clean, (w, local), (w, server), (local, w), (server, w));
      AddAllConcat(before, clean, [(w, local), (w, server), (local, w), (server, w)], AliasDirections(r, r.webhookPrefixes[i + 1..]));
      assert r.webhookPrefixes[i..][1..] == r.webhookPrefixes[i + 1..];
      candidates', seen' := AddMapped(clean, w, local, candidates', seen');
      candidates', seen' := AddMapped(clean, w, server, candidates', seen');
      candidates', seen' := AddMapped(clean, local, w, candidates', seen');
      candidates', seen' := AddMapped(clean, server, w, candidates', seen');
      i := i + 1;
    }
  }

  method ExpandPathMappingCandidates(path: string, rows: seq<Row>) returns (candidates: seq<string>)
    ensures candidates == Expanded(path, rows)
  {
    if path == "" {
      return [];
    }
    var clean := Clean(path);
    if clean == "" {
      return [];
    }
    CleanTwice(path);
    if rows == [] {
      return [clean];
    }
    candidates := [clean];
    var seen := {clean};
    var i := 0;
    while i < |rows|
      invariant 0 <= i <= |rows|
      invariant candidates == AddAll([clean], clean, Directions(rows[..i]))
      invariant forall c :: c in seen <==> c in candidates
    {
      assert rows[..i + 1][..i] == rows[..i];
      AddAllConcat([clean], clean, Directions(rows[..i]), RowDirections(rows[i]));
      candidates, seen := AddRow(clean, rows[i], candidates, seen);
      i := i + 1;
    }
    assert rows[..i] == rows;
  }
}
