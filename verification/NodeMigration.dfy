/**
 * Settings migration v24: the address and key of every Plex helper move onto the nodes list, servers that share a
 * helper share its node, and the server keeps a pointer. upgrade.py.
 *
 * The rules of nodes/settings.py (how an address is normalised, when two names look the same, which characters a name
 * may show, fresh ids) are parameters.
 */
module NodeMigration {
  import opened Wrappers
  import opened Json

  const NAME_MAX_LEN := 80

  datatype Node = Node(id: string, name: string, url: string, key: string, enabled: bool)

  /** A server's helper block; None where the key is missing, nodeId holding None where it is null. */
  datatype Agent = Agent(url: Option<string>, token: Option<string>, nodeId: Option<Option<string>>, enabled: bool)

  /** A server entry; the agent is None where it isn't a Plex server or has no helper block. */
  datatype Server = Server(name: string, enabled: bool, agent: Option<Agent>)

  datatype Settings = Settings(servers: Option<seq<Server>>, nodes: seq<Node>, revision: int)

  datatype Rules = Rules(
    normalise: string -> Option<string>,
    nameKey: string -> string,
    visible: string -> string,
    newId: nat -> string)

  // Naming a new node -----------------------------------------------------------------------------------------------

  function Decimal(n: nat): (digits: string)
    ensures |digits| >= 1
  {
    var digit := ['0' + (n % 10) as char];
    if n < 10 then digit else Decimal(n / 10) + digit
  }

  /** Python's `s[:end]`, where a negative end counts from the back. */
  function SliceTo(s: string, end: int): (r: string)
    ensures end >= 0 ==> |r| <= end
  {
    if end >= |s| then s
    else if end >= 0 then s[..end]
    else if |s| + end >= 0 then s[..|s| + end]
    else ""
  }

  function Tail(suffix: nat): string {
    if suffix > 1 then ") " + Decimal(suffix) else ")"
  }

  /** The name with this number, the server's own name cut so it fits the limit. */
  function Candidate(server: string, suffix: nat, limit: int): string {
    var room := limit - |"Plex helper ("| - |Tail(suffix)|;
    var short := if |server| <= room then server else StripRight(SliceTo(server, room - 1)) + "…";
    "Plex helper (" + short + Tail(suffix)
  }

  /** Numbered names never look alike. */
  ghost predicate Numbers(nameKey: string -> string) {
    forall server: string, limit: int, j: nat, k: nat | 1 <= j < k ::
      nameKey(Candidate(server, j, limit)) != nameKey(Candidate(server, k, limit))
  }

  function Keys(key: nat -> string, k: nat): set<string> {
    set j: nat | 1 <= j <= k :: key(j)
  }

  lemma {:induction false} KeysCount(key: nat -> string, k: nat)
    requires forall i: nat, j: nat | 1 <= i < j :: key(i) != key(j)
    ensures |Keys(key, k)| == k
  {
    if k > 0 {
      KeysCount(key, k - 1);
      assert Keys(key, k) == Keys(key, k - 1) + {key(k)};
    }
  }

  /** The pigeonhole: a set that holds the first k names has at least k elements. */
  lemma TakenIsLarge(nameKey: string -> string, server: string, limit: int, taken: set<string>, k: nat)
    requires Numbers(nameKey)
    requires forall j: nat | 1 <= j <= k :: nameKey(Candidate(server, j, limit)) in taken
    ensures k <= |taken|
  {
    var key := (j: nat) => nameKey(Candidate(server, j, limit));
    KeysCount(key, k);
    assert taken == Keys(key, k) + (taken - Keys(key, k));
  }

  /** The first number from k on whose name is free; past the size of the taken set there is no need to look. */
  function FirstFree(nameKey: string -> string, server: string, taken: set<string>, limit: int, k: nat): (n: nat)
    ensures n >= k
    ensures n <= |taken| + 1 || n == k
    ensures forall j: nat | k <= j < n :: nameKey(Candidate(server, j, limit)) in taken
    ensures n <= |taken| ==> nameKey(Candidate(server, n, limit)) !in taken
    decreases |taken| + 1 - k
  {
    if k > |taken| || nameKey(Candidate(server, k, limit)) !in taken then k
    else FirstFree(nameKey, server, taken, limit, k + 1)
  }

  function HelperName(nameKey: string -> string, server: string, taken: set<string>, limit: int): string {
    Candidate(server, FirstFree(nameKey, server, taken, limit, 1), limit)
  }

  /** The name loop runs out of numbers only after more names than are taken, so it finds a free one. */
  lemma HelperNameIsFree(nameKey: string -> string, server: string, taken: set<string>, limit: int)
    requires Numbers(nameKey)
    ensures nameKey(HelperName(nameKey, server, taken, limit)) !in taken
  {
    var n := FirstFree(nameKey, server, taken, limit, 1);
    if nameKey(Candidate(server, n, limit)) in taken {
      TakenIsLarge(nameKey, server, limit, taken, n);
    }
  }

  lemma FreeIffReached(nameKey: string -> string, server: string, taken: set<string>, limit: int, suffix: nat)
    requires Numbers(nameKey) && 1 <= suffix <= FirstFree(nameKey, server, taken, limit, 1)
    ensures nameKey(Candidate(server, suffix, limit)) !in taken <==> suffix == FirstFree(nameKey, server, taken, limit, 1)
  {
    HelperNameIsFree(nameKey, server, taken, limit);
  }

  method HelperNodeName(nameKey: string -> string, server: string, taken: set<string>, limit: int) returns (name: string)
    requires Numbers(nameKey)
    ensures name == HelperName(nameKey, server, taken, limit)
    ensures nameKey(name) !in taken
  {
    ghost var n := FirstFree(nameKey, server, taken, limit, 1);
    var suffix: nat := 1;
    while true
      invariant 1 <= suffix <= n
      decreases n - suffix
    {
      name := Candidate(server, suffix, limit);
      FreeIffReached(nameKey, server, taken, limit, suffix);
      if nameKey(name) !in taken {
        return;
      }
      suffix := suffix + 1;
    }
  }

  function Value(digits: string): int {
    if digits == "" then 0 else 10 * Value(digits[..|digits| - 1]) + (digits[|digits| - 1] as int - '0' as int)
  }

  lemma {:induction false} DecimalReads(n: nat)
    ensures Value(Decimal(n)) == n
    ensures forall c <- Decimal(n) :: '0' <= c <= '9'
  {
    var digit := ['0' + (n % 10) as char];
    if n < 10 {
      assert Value(digit[..0]) == 0;
    } else {
      DecimalReads(n / 10);
      assert Decimal(n)[..|Decimal(n)| - 1] == Decimal(n / 10);
    }
  }

  /** What stands behind a text's last blank. */
  lemma BehindTheBlank(s: string, x: string, y: string)
    requires |x| < |s| && s[|s| - |x|..] == x && s[|s| - |x| - 1] == ' ' && ' ' !in x
    requires |y| < |s| && s[|s| - |y|..] == y && s[|s| - |y| - 1] == ' ' && ' ' !in y
    ensures x == y
  {
    assert forall i | |s| - |x| <= i < |s| :: s[i] == x[i - (|s| - |x|)];
    assert forall i | |s| - |y| <= i < |s| :: s[i] == y[i - (|s| - |y|)];
  }

  /** Two texts that end in a blank and a number are equal only with the same number. */
  lemma SameNumber(a: string, j: nat, b: string, k: nat)
    requires a + " " + Decimal(j) == b + " " + Decimal(k)
    ensures j == k
  {
    DecimalReads(j);
    DecimalReads(k);
    var s := a + " " + Decimal(j);
    assert s == b + " " + Decimal(k);
    BehindTheBlank(s, Decimal(j), Decimal(k));
  }

  /** The assumption on the name rule can be met: names compared as they are written are told apart by their number. */
  lemma PlainNamesAreNumbered()
    ensures Numbers(s => s)
  {
    forall server: string, limit: int, j: nat, k: nat | 1 <= j < k
      ensures Candidate(server, j, limit) != Candidate(server, k, limit)
    {
      var a := CandidateEnds(server, j, limit);
      var b := CandidateEnds(server, k, limit);
      TailsDiffer(a, j, b, k);
    }
  }

  lemma CandidateEnds(server: string, suffix: nat, limit: int) returns (start: string)
    ensures Candidate(server, suffix, limit) == start + Tail(suffix)
  {
    var name := Candidate(server, suffix, limit);
    start := name[..|name| - |Tail(suffix)|];
  }

  lemma TailsDiffer(a: string, j: nat, b: string, k: nat)
    requires 1 <= j < k
    ensures a + Tail(j) != b + Tail(k)
  {
    var x, y := a + Tail(j), b + Tail(k);
    assert y == b + ")" + " " + Decimal(k);
    if j == 1 {
      DecimalReads(k);
      assert x[|x| - 1] == ')';
      assert y[|y| - 1] == Decimal(k)[|Decimal(k)| - 1] && Decimal(k)[|Decimal(k)| - 1] in Decimal(k);
    } else {
      assert x == a + ")" + " " + Decimal(j);
      if x == y {
        SameNumber(a + ")", j, b + ")", k);
        assert false;
      }
    }
  }

  // The length of a name --------------------------------------------------------------------------------------------

  function Pow10(d: nat): (p: nat)
    ensures p >= 1
  {
    if d == 0 then 1 else 10 * Pow10(d - 1)
  }

  lemma {:induction false} DecimalLength(n: nat, d: nat)
    requires 1 <= d && n < Pow10(d)
    ensures |Decimal(n)| <= d
  {
    if n >= 10 {
      assert d > 1;
      assert n / 10 < Pow10(d - 1);
      DecimalLength(n / 10, d - 1);
    }
  }

  /** A name is within the limit unless its number alone needs nearly all of it. */
  lemma CandidateFits(server: string, suffix: nat, limit: nat, d: nat)
    requires 1 <= d && d + 16 <= limit && suffix < Pow10(d)
    ensures |Candidate(server, suffix, limit)| <= limit
  {
    DecimalLength(suffix, d);
    var room := limit - 13 - |Tail(suffix)|;
    assert |"Plex helper ("| == 13;
    assert room >= 1;
    var cut := SliceTo(server, room - 1);
    assert |StripRight(cut)| <= |cut| <= room - 1 by { StripRightShortens(cut); }
  }

  lemma {:induction false} StripRightShortens(s: string)
    ensures |StripRight(s)| <= |s|
  {
    if s != "" && Space(s[|s| - 1]) {
      StripRightShortens(s[..|s| - 1]);
    }
  }

  lemma HelperNameFits(nameKey: string -> string, server: string, taken: set<string>, limit: nat, d: nat)
    requires 1 <= d && d + 16 <= limit && |taken| + 1 < Pow10(d)
    ensures |HelperName(nameKey, server, taken, limit)| <= limit
  {
    CandidateFits(server, FirstFree(nameKey, server, taken, limit, 1), limit, d);
  }

  // Moving the helpers ----------------------------------------------------------------------------------------------

  predicate Pending(s: Server) {
    s.agent.Some? && (s.agent.value.url.Some? || s.agent.value.token.Some?)
  }

  function Token(a: Agent): string {
    Strip(a.token.GetOr(""))
  }

  predicate HasAddress(a: Agent) {
    Strip(a.url.GetOr("")) != ""
  }

  function Address(rules: Rules, a: Agent): Option<string> {
    if HasAddress(a) then rules.normalise(a.url.GetOr("")) else None
  }

  /** A helper that becomes, or joins, a node: it has a usable address and a key and points at no node yet. */
  predicate Movable(rules: Rules, s: Server) {
    && Pending(s)
    && s.agent.value.nodeId.None?
    && Address(rules, s.agent.value).GetOr("") != ""
    && Token(s.agent.value) != ""
  }

  type Place = (Option<string>, string)

  function PlaceOf(rules: Rules, s: Server): Place
    requires Movable(rules, s)
  {
    (Address(rules, s.agent.value), Token(s.agent.value))
  }

  /** The helper was in use: switched on, on a switched-on server. */
  predicate InUse(s: Server) {
    s.agent.Some? && s.agent.value.enabled && s.enabled
  }

  /** What happens to a server whose helper isn't moved. */
  function Leave(s: Server): Server {
    if !Pending(s) then s
    else
      var a := s.agent.value;
      if a.nodeId.Some? then s.(agent := Some(a.(url := None, token := None)))
      else s.(agent := Some(Agent(None, None, Some(None), a.enabled && HasAddress(a))))
  }

  function Point(s: Server, id: string): Server
    requires s.agent.Some?
  {
    s.(agent := Some(Agent(None, None, Some(Some(id)), s.agent.value.enabled)))
  }

  /** The loop's variables: the nodes, the index of the node at each place, the names in use and the servers done. */
  datatype Moving = Moving(nodes: seq<Node>, byAddress: map<Place, nat>, names: set<string>, out: seq<Server>)

  predicate Indexed(st: Moving) {
    forall p | p in st.byAddress :: st.byAddress[p] < |st.nodes|
  }

  function ByAddress(rules: Rules, nodes: seq<Node>): (m: map<Place, nat>)
    ensures forall p | p in m :: m[p] < |nodes|
  {
    if nodes == [] then map[]
    else
      var init, last := nodes[..|nodes| - 1], nodes[|nodes| - 1];
      ByAddress(rules, init)[(rules.normalise(last.url), last.key) := |init|]
  }

  function NamesOf(rules: Rules, nodes: seq<Node>): set<string> {
    set n <- nodes :: rules.nameKey(Strip(n.name))
  }

  function Start(rules: Rules, nodes: seq<Node>): (st: Moving)
    ensures Indexed(st)
  {
    Moving(nodes, ByAddress(rules, nodes), NamesOf(rules, nodes), [])
  }

  function BaseName(rules: Rules, s: Server): string {
    var shown := rules.visible(s.name);
    if shown == "" then "Plex" else shown
  }

  function NewNode(rules: Rules, created: nat, s: Server, names: set<string>): Node
    requires Movable(rules, s)
  {
    var p := PlaceOf(rules, s);
    Node(rules.newId(created), HelperName(rules.nameKey, BaseName(rules, s), names, NAME_MAX_LEN), p.0.value, p.1, InUse(s))
  }

  function Step(rules: Rules, had: nat, st: Moving, s: Server): (next: Moving)
    requires Indexed(st) && had <= |st.nodes|
    ensures Indexed(next) && had <= |next.nodes|
  {
    if !Movable(rules, s) then st.(out := st.out + [Leave(s)])
    else
      var p := PlaceOf(rules, s);
      if p in st.byAddress then
        var i := st.byAddress[p];
        var nodes := if InUse(s) then st.nodes[i := st.nodes[i].(enabled := true)] else st.nodes;
        st.(nodes := nodes, out := st.out + [Point(s, nodes[i].id)])
      else
        var node := NewNode(rules, |st.nodes| - had, s, st.names);
        Moving(st.nodes + [node], st.byAddress[p := |st.nodes|], st.names + {rules.nameKey(node.name)}, st.out + [Point(s, node.id)])
  }

  function Moved(rules: Rules, nodes: seq<Node>, servers: seq<Server>): (st: Moving)
    ensures Indexed(st) && |nodes| <= |st.nodes|
  {
    if servers == [] then Start(rules, nodes)
    else Step(rules, |nodes|, Moved(rules, nodes, servers[..|servers| - 1]), servers[|servers| - 1])
  }

  /** The whole step: the nodes list and its revision are written only when the list changed. */
  function AfterV24(rules: Rules, s: Settings): Settings {
    if s.servers.None? then s
    else
      var st := Moved(rules, s.nodes, s.servers.value);
      Settings(Some(st.out), st.nodes, if st.nodes == s.nodes then s.revision else s.revision + 1)
  }

  // What the move keeps ---------------------------------------------------------------------------------------------

  function Switch(nodes: seq<Node>, i: nat, on: bool): seq<Node>
    requires i < |nodes|
  {
    if on then nodes[i := nodes[i].(enabled := true)] else nodes
  }

  /** What the proofs below use of a step: everything but how a new node's name was found. */
  predicate Stepped(rules: Rules, had: nat, st: Moving, s: Server, next: Moving)
    requires Indexed(st) && had <= |st.nodes|
  {
    if !Movable(rules, s) then next.nodes == st.nodes && next.byAddress == st.byAddress && next.names == st.names
    else
      var p := PlaceOf(rules, s);
      if p in st.byAddress then
        next.nodes == Switch(st.nodes, st.byAddress[p], InUse(s)) && next.byAddress == st.byAddress && next.names == st.names
      else
        && |next.nodes| == |st.nodes| + 1
        && var node := next.nodes[|st.nodes|];
        && next.nodes == st.nodes + [node]
        && node.id == rules.newId(|st.nodes| - had) && node.enabled == InUse(s)
        && node.url == p.0.value && node.key == p.1
        && next.byAddress == st.byAddress[p := |st.nodes|]
        && next.names == st.names + {rules.nameKey(node.name)}
  }

  lemma StepIsStepped(rules: Rules, had: nat, st: Moving, s: Server)
    requires Indexed(st) && had <= |st.nodes|
    ensures var next := Step(rules, had, st, s);
            && Indexed(next)
            && Stepped(rules, had, st, s, next)
            && (Numbers(rules.nameKey) && |next.nodes| > |st.nodes|
                ==> rules.nameKey(next.nodes[|st.nodes|].name) !in st.names)
  {
    if Numbers(rules.nameKey) {
      HelperNameIsFree(rules.nameKey, BaseName(rules, s), st.names, NAME_MAX_LEN);
    }
  }

  /** The place a node stands at: a node made here stands at the address it was made for. */
  function NodePlace(rules: Rules, had: nat, nodes: seq<Node>, i: nat): Place
    requires i < |nodes|
  {
    (if i < had then rules.normalise(nodes[i].url) else Some(nodes[i].url), nodes[i].key)
  }

  function Places(rules: Rules, had: nat, nodes: seq<Node>): (places: seq<Place>)
    ensures |places| == |nodes|
    ensures forall i | 0 <= i < |nodes| :: places[i] == NodePlace(rules, had, nodes, i)
  {
    seq(|nodes|, i requires 0 <= i < |nodes| => NodePlace(rules, had, nodes, i))
  }

  /** The dictionary holds, for each place, the last index of it, and nothing else. */
  predicate LastIndex(places: seq<Place>, m: map<Place, nat>) {
    && (forall p | p in m :: m[p] < |places| && places[m[p]] == p && p !in places[m[p] + 1..])
    && forall i | 0 <= i < |places| :: places[i] in m
  }

  lemma PutLast(places: seq<Place>, m: map<Place, nat>, p: Place)
    requires LastIndex(places, m)
    ensures LastIndex(places + [p], m[p := |places|])
  {
    var longer, m' := places + [p], m[p := |places|];
    forall q | q in m' ensures longer[m'[q]] == q && q !in longer[m'[q] + 1..] {
      if q != p {
        assert longer[m'[q] + 1..] == places[m[q] + 1..] + [p];
      }
    }
  }

  predicate LastAt(rules: Rules, had: nat, st: Moving) {
    LastIndex(Places(rules, had, st.nodes), st.byAddress)
  }

  lemma {:induction false} StartLastAt(rules: Rules, nodes: seq<Node>)
    ensures LastAt(rules, |nodes|, Start(rules, nodes))
  {
    if nodes != [] {
      var init, last := nodes[..|nodes| - 1], nodes[|nodes| - 1];
      StartLastAt(rules, init);
      var p := (rules.normalise(last.url), last.key);
      PutLast(Places(rules, |init|, init), ByAddress(rules, init), p);
      assert Places(rules, |nodes|, nodes) == Places(rules, |init|, init) + [p];
    }
  }

  lemma SteppedPlaces(rules: Rules, had: nat, st: Moving, s: Server, next: Moving)
    requires Indexed(st) && had <= |st.nodes| && Stepped(rules, had, st, s, next)
    ensures if |next.nodes| == |st.nodes| then Places(rules, had, next.nodes) == Places(rules, had, st.nodes)
            else
              && Movable(rules, s)
              && Places(rules, had, next.nodes) == Places(rules, had, st.nodes) + [PlaceOf(rules, s)]
  {
    forall i | 0 <= i < |st.nodes| ensures NodePlace(rules, had, next.nodes, i) == NodePlace(rules, had, st.nodes, i) {
    }
    if |next.nodes| > |st.nodes| {
      assert NodePlace(rules, had, next.nodes, |st.nodes|) == PlaceOf(rules, s);
    }
  }

  lemma StepLastAt(rules: Rules, had: nat, st: Moving, s: Server, next: Moving)
    requires Indexed(st) && had <= |st.nodes| && Stepped(rules, had, st, s, next)
    requires LastAt(rules, had, st)
    ensures LastAt(rules, had, next)
  {
    SteppedPlaces(rules, had, st, s, next);
    if |next.nodes| > |st.nodes| {
      PutLast(Places(rules, had, st.nodes), st.byAddress, PlaceOf(rules, s));
    }
  }

  lemma {:induction false} MovedLastAt(rules: Rules, nodes: seq<Node>, servers: seq<Server>)
    ensures LastAt(rules, |nodes|, Moved(rules, nodes, servers))
  {
    if servers == [] {
      StartLastAt(rules, nodes);
    } else {
      var init, last := servers[..|servers| - 1], servers[|servers| - 1];
      MovedLastAt(rules, nodes, init);
      StepIsStepped(rules, |nodes|, Moved(rules, nodes, init), last);
      StepLastAt(rules, |nodes|, Moved(rules, nodes, init), last, Moved(rules, nodes, servers));
    }
  }

  /** The nodes there were stay, in place, changed at most by being switched on; new ones follow with fresh ids. */
  predicate Kept(rules: Rules, nodes: seq<Node>, st: Moving) {
    && |nodes| <= |st.nodes|
    && SwitchedOn(nodes, st.nodes[..|nodes|])
    && forall i | |nodes| <= i < |st.nodes| :: st.nodes[i].id == rules.newId(i - |nodes|)
  }

  lemma StepKept(rules: Rules, nodes: seq<Node>, st: Moving, s: Server, next: Moving)
    requires Indexed(st) && Kept(rules, nodes, st) && Stepped(rules, |nodes|, st, s, next)
    ensures Kept(rules, nodes, next)
  {
    assert SwitchedOn(st.nodes[..|nodes|], next.nodes[..|nodes|]);
  }

  lemma {:induction false} MovedKept(rules: Rules, nodes: seq<Node>, servers: seq<Server>)
    ensures Kept(rules, nodes, Moved(rules, nodes, servers))
  {
    if servers == [] {
      assert nodes[..|nodes|] == nodes;
    } else {
      var init, last := servers[..|servers| - 1], servers[|servers| - 1];
      MovedKept(rules, nodes, init);
      StepIsStepped(rules, |nodes|, Moved(rules, nodes, init), last);
      StepKept(rules, nodes, Moved(rules, nodes, init), last, Moved(rules, nodes, servers));
    }
  }

  /** The helper of this server was moved to node i. */
  predicate Uses(rules: Rules, s: Server, st: Moving, i: nat) {
    Movable(rules, s) && PlaceOf(rules, s) in st.byAddress && st.byAddress[PlaceOf(rules, s)] == i
  }

  /** Every server done so far points at the node of its place, or was left as it should be. */
  predicate Pointed(rules: Rules, servers: seq<Server>, st: Moving) {
    && Indexed(st)
    && |st.out| == |servers|
    && forall j | 0 <= j < |servers| :: PointedAt(rules, servers[j], st.out[j], st)
  }

  predicate PointedAt(rules: Rules, s: Server, out: Server, st: Moving)
    requires Indexed(st)
  {
    if Movable(rules, s) then
      PlaceOf(rules, s) in st.byAddress && out == Point(s, st.nodes[st.byAddress[PlaceOf(rules, s)]].id)
    else out == Leave(s)
  }

  lemma PointedAtStays(rules: Rules, had: nat, st: Moving, s: Server, earlier: Server, out: Server)
    requires Indexed(st) && had <= |st.nodes| && PointedAt(rules, earlier, out, st)
    ensures PointedAt(rules, earlier, out, Step(rules, had, st, s))
  {
  }

  lemma {:induction false} MovedPointed(rules: Rules, nodes: seq<Node>, servers: seq<Server>)
    ensures Pointed(rules, servers, Moved(rules, nodes, servers))
  {
    if servers != [] {
      var init, last := servers[..|servers| - 1], servers[|servers| - 1];
      var before, st := Moved(rules, nodes, init), Moved(rules, nodes, servers);
      MovedPointed(rules, nodes, init);
      forall j | 0 <= j < |servers| ensures PointedAt(rules, servers[j], st.out[j], st) {
        if j < |init| {
          PointedAtStays(rules, |nodes|, before, last, init[j], before.out[j]);
        }
      }
    }
  }

  /** Some server that was using its helper was moved to node i. */
  predicate InUseBySome(rules: Rules, servers: seq<Server>, st: Moving, i: nat) {
    exists j | 0 <= j < |servers| :: Uses(rules, servers[j], st, i) && InUse(servers[j])
  }

  predicate UsedBySome(rules: Rules, servers: seq<Server>, st: Moving, i: nat) {
    exists j | 0 <= j < |servers| :: Uses(rules, servers[j], st, i)
  }

  /** A node is on exactly when it was on before or is in use, and no new node is without a server. */
  predicate SwitchedRight(rules: Rules, nodes: seq<Node>, servers: seq<Server>, st: Moving) {
    forall i | 0 <= i < |st.nodes| :: NodeRight(rules, nodes, servers, st, i)
  }

  lemma StepUses(rules: Rules, had: nat, st: Moving, init: seq<Server>, s: Server, next: Moving, i: nat)
    requires Indexed(st) && had <= |st.nodes| && Stepped(rules, had, st, s, next)
    requires forall j | 0 <= j < |init| :: Movable(rules, init[j]) ==> PlaceOf(rules, init[j]) in st.byAddress
    ensures InUseBySome(rules, init + [s], next, i) <==>
            InUseBySome(rules, init, st, i) || (Uses(rules, s, next, i) && InUse(s))
    ensures UsedBySome(rules, init + [s], next, i) <==> UsedBySome(rules, init, st, i) || Uses(rules, s, next, i)
  {
    var servers := init + [s];
    forall j | 0 <= j < |init| ensures Uses(rules, servers[j], next, i) <==> Uses(rules, init[j], st, i) {
      assert servers[j] == init[j];
    }
    assert servers[|init|] == s;
    if UsedBySome(rules, init, st, i) {
      var j :| 0 <= j < |init| && Uses(rules, init[j], st, i);
      assert Uses(rules, servers[j], next, i);
    }
    if InUseBySome(rules, init, st, i) {
      var j :| 0 <= j < |init| && Uses(rules, init[j], st, i) && InUse(init[j]);
      assert Uses(rules, servers[j], next, i) && InUse(servers[j]);
    }
  }

  predicate NodeRight(rules: Rules, nodes: seq<Node>, servers: seq<Server>, st: Moving, i: nat)
    requires i < |st.nodes|
  {
    && (st.nodes[i].enabled <==> (i < |nodes| && nodes[i].enabled) || InUseBySome(rules, servers, st, i))
    && (i >= |nodes| ==> UsedBySome(rules, servers, st, i))
  }

  lemma StepNodeRight(rules: Rules, nodes: seq<Node>, init: seq<Server>, st: Moving, s: Server, next: Moving, i: nat)
    requires Indexed(st) && |nodes| <= |st.nodes| && Stepped(rules, |nodes|, st, s, next) && i < |next.nodes|
    requires Pointed(rules, init, st)
    requires i < |st.nodes| ==> NodeRight(rules, nodes, init, st, i)
    ensures NodeRight(rules, nodes, init + [s], next, i)
  {
    forall j | 0 <= j < |init| ensures Movable(rules, init[j]) ==> PlaceOf(rules, init[j]) in st.byAddress {
      assert PointedAt(rules, init[j], st.out[j], st);
    }
    StepUses(rules, |nodes|, st, init, s, next, i);
  }

  lemma StepSwitchedRight(rules: Rules, nodes: seq<Node>, init: seq<Server>, st: Moving, s: Server, next: Moving)
    requires Indexed(st) && |nodes| <= |st.nodes| && Stepped(rules, |nodes|, st, s, next)
    requires Pointed(rules, init, st) && SwitchedRight(rules, nodes, init, st)
    ensures SwitchedRight(rules, nodes, init + [s], next)
  {
    forall i | 0 <= i < |next.nodes| ensures NodeRight(rules, nodes, init + [s], next, i) {
      StepNodeRight(rules, nodes, init, st, s, next, i);
    }
  }

  lemma {:induction false} MovedSwitchedRight(rules: Rules, nodes: seq<Node>, servers: seq<Server>)
    ensures SwitchedRight(rules, nodes, servers, Moved(rules, nodes, servers))
  {
    if servers != [] {
      var init, last := servers[..|servers| - 1], servers[|servers| - 1];
      assert servers == init + [last];
      MovedSwitchedRight(rules, nodes, init);
      MovedPointed(rules, nodes, init);
      StepIsStepped(rules, |nodes|, Moved(rules, nodes, init), last);
      StepSwitchedRight(rules, nodes, init, Moved(rules, nodes, init), last, Moved(rules, nodes, servers));
    } else {
      forall i | 0 <= i < |nodes| ensures NodeRight(rules, nodes, servers, Start(rules, nodes), i) {
      }
    }
  }

  /** How the unique-name rule sees a node's name. */
  function KeyAt(rules: Rules, had: nat, nodes: seq<Node>, i: nat): string
    requires i < |nodes|
  {
    rules.nameKey(if i < had then Strip(nodes[i].name) else nodes[i].name)
  }

  predicate Named(rules: Rules, had: nat, st: Moving) {
    && |st.names| <= |st.nodes|
    && (forall i | 0 <= i < |st.nodes| :: KeyAt(rules, had, st.nodes, i) in st.names)
    && forall i, j | 0 <= j < i < |st.nodes| && had <= i :: KeyAt(rules, had, st.nodes, i) != KeyAt(rules, had, st.nodes, j)
  }

  lemma {:induction false} NamesOfCount(rules: Rules, nodes: seq<Node>)
    ensures |NamesOf(rules, nodes)| <= |nodes|
  {
    if nodes != [] {
      var init, last := nodes[..|nodes| - 1], nodes[|nodes| - 1];
      NamesOfCount(rules, init);
      assert nodes == init + [last];
      assert NamesOf(rules, nodes) == NamesOf(rules, init) + {rules.nameKey(Strip(last.name))};
    }
  }

  lemma StepNamed(rules: Rules, had: nat, st: Moving, s: Server, next: Moving)
    requires Indexed(st) && had <= |st.nodes| && Named(rules, had, st) && Stepped(rules, had, st, s, next)
    requires |next.nodes| > |st.nodes| ==> rules.nameKey(next.nodes[|st.nodes|].name) !in st.names
    ensures Named(rules, had, next)
  {
    forall i | 0 <= i < |st.nodes|
      ensures KeyAt(rules, had, next.nodes, i) == KeyAt(rules, had, st.nodes, i)
    {
    }
    if |next.nodes| > |st.nodes| {
      assert KeyAt(rules, had, next.nodes, |st.nodes|) !in st.names;
    }
  }

  lemma {:induction false} MovedNamed(rules: Rules, nodes: seq<Node>, servers: seq<Server>)
    requires Numbers(rules.nameKey)
    ensures Named(rules, |nodes|, Moved(rules, nodes, servers))
  {
    if servers == [] {
      NamesOfCount(rules, nodes);
    } else {
      var init, last := servers[..|servers| - 1], servers[|servers| - 1];
      MovedNamed(rules, nodes, init);
      StepIsStepped(rules, |nodes|, Moved(rules, nodes, init), last);
      StepNamed(rules, |nodes|, Moved(rules, nodes, init), last, Moved(rules, nodes, servers));
    }
  }

  /** No new node stands where another node already stood. */
  predicate OnlyOneNew(rules: Rules, had: nat, nodes: seq<Node>) {
    NoRepeats(Places(rules, had, nodes), had)
  }

  predicate NoRepeats(places: seq<Place>, had: nat) {
    forall i | had <= i < |places| :: places[i] !in places[..i]
  }

  lemma StepOnlyOneNew(rules: Rules, had: nat, st: Moving, s: Server, next: Moving)
    requires Indexed(st) && LastAt(rules, had, st) && had <= |st.nodes| && Stepped(rules, had, st, s, next)
    requires OnlyOneNew(rules, had, st.nodes)
    ensures OnlyOneNew(rules, had, next.nodes)
  {
    SteppedPlaces(rules, had, st, s, next);
  }

  lemma {:induction false} MovedOnlyOneNew(rules: Rules, nodes: seq<Node>, servers: seq<Server>)
    ensures OnlyOneNew(rules, |nodes|, Moved(rules, nodes, servers).nodes)
  {
    if servers != [] {
      var init, last := servers[..|servers| - 1], servers[|servers| - 1];
      MovedOnlyOneNew(rules, nodes, init);
      MovedLastAt(rules, nodes, init);
      StepIsStepped(rules, |nodes|, Moved(rules, nodes, init), last);
      StepOnlyOneNew(rules, |nodes|, Moved(rules, nodes, init), last, Moved(rules, nodes, servers));
    }
  }

  // The properties of the step --------------------------------------------------------------------------------------

  predicate PointsAt(s: Server, n: Node) {
    s.agent.Some? && s.agent.value.nodeId == Some(Some(n.id))
  }

  /**
   * What becomes of a helper block with an address or a key. Both are taken off it. One with a node id keeps that and
   * its switch. One with a usable address and a key keeps its switch and names a node of the list that stands at the
   * normalised address and has the key. Any other gets a null id and stays on only if it had an address.
   */
  predicate HelperMoved(rules: Rules, had: nat, nodes: seq<Node>, was: Agent, now: Agent) {
    var url, key := was.url.GetOr(""), Strip(was.token.GetOr(""));
    var address := if Strip(url) == "" then None else rules.normalise(url);
    && now.url.None? && now.token.None?
    && if was.nodeId.Some? then now.nodeId == was.nodeId && now.enabled == was.enabled
       else if address.GetOr("") == "" || key == "" then
         now.nodeId == Some(None) && (now.enabled <==> was.enabled && Strip(url) != "")
       else
         && now.enabled == was.enabled
         && exists i | 0 <= i < |nodes| ::
           && now.nodeId == Some(Some(nodes[i].id)) && nodes[i].key == key
           && (if i < had then rules.normalise(nodes[i].url) else Some(nodes[i].url)) == address
  }

  /** Every server comes out in its place with its name and its switch, and only a helper block is ever changed. */
  lemma MovedServersNameTheirNode(rules: Rules, s: Settings, j: nat)
    requires s.servers.Some? && j < |s.servers.value|
    ensures var was, t := s.servers.value[j], AfterV24(rules, s);
            && |t.servers.value| == |s.servers.value|
            && var now := t.servers.value[j];
            && now.name == was.name && now.enabled == was.enabled
            && if was.agent.None? || (was.agent.value.url.None? && was.agent.value.token.None?) then now == was
               else now.agent.Some? && HelperMoved(rules, |s.nodes|, t.nodes, was.agent.value, now.agent.value)
  {
    var servers := s.servers.value;
    var st := Moved(rules, s.nodes, servers);
    MovedPointed(rules, s.nodes, servers);
    assert PointedAt(rules, servers[j], st.out[j], st);
    if Movable(rules, servers[j]) {
      var i := NodeAt(rules, s, j);
      assert st.out[j].agent.value.nodeId == Some(Some(st.nodes[i].id));
    }
  }

  /** Ids name nodes, and the new ones are fresh. */
  ghost predicate FreshIds(rules: Rules, nodes: seq<Node>) {
    && (forall i, j | 0 <= i < j < |nodes| :: nodes[i].id != nodes[j].id)
    && (forall i: nat, j: nat | i < j :: rules.newId(i) != rules.newId(j))
    && forall i, j: nat | 0 <= i < |nodes| :: rules.newId(j) != nodes[i].id
  }

  lemma IdsStayDistinct(rules: Rules, nodes: seq<Node>, st: Moving, i: nat, j: nat)
    requires FreshIds(rules, nodes) && Kept(rules, nodes, st) && i < j < |st.nodes|
    ensures st.nodes[i].id != st.nodes[j].id
  {
    if i < |nodes| {
      assert st.nodes[..|nodes|][i] == st.nodes[i];
    }
    if j < |nodes| {
      assert st.nodes[..|nodes|][j] == st.nodes[j];
    }
  }

  /** A helper without a node id came out with one. */
  predicate GotNode(was: Server, now: Server) {
    && was.agent.Some? && was.agent.value.nodeId.None?
    && now.agent.Some? && now.agent.value.nodeId.Some? && now.agent.value.nodeId.value.Some?
  }

  lemma GotNodeIffMovable(rules: Rules, s: Settings, j: nat)
    requires s.servers.Some? && j < |s.servers.value|
    ensures var st := Moved(rules, s.nodes, s.servers.value);
            |st.out| == |s.servers.value| && (GotNode(s.servers.value[j], st.out[j]) <==> Movable(rules, s.servers.value[j]))
  {
    var servers := s.servers.value;
    var st := Moved(rules, s.nodes, servers);
    MovedPointed(rules, s.nodes, servers);
    assert PointedAt(rules, servers[j], st.out[j], st);
  }

  /** Two helpers that got a node got the same one exactly when their addresses, normalised, and their keys were equal. */
  lemma ServersShareIff(rules: Rules, s: Settings, j: nat, k: nat)
    requires FreshIds(rules, s.nodes) && s.servers.Some? && j < |s.servers.value| && k < |s.servers.value|
    ensures var was, now := s.servers.value, AfterV24(rules, s).servers.value;
            && |now| == |was|
            && (GotNode(was[j], now[j]) && GotNode(was[k], now[k]) ==>
                var a, b := was[j].agent.value, was[k].agent.value;
                (now[j].agent.value.nodeId == now[k].agent.value.nodeId <==>
                 && rules.normalise(a.url.GetOr("")) == rules.normalise(b.url.GetOr(""))
                 && Strip(a.token.GetOr("")) == Strip(b.token.GetOr(""))))
  {
    var servers := s.servers.value;
    var st := Moved(rules, s.nodes, servers);
    GotNodeIffMovable(rules, s, j);
    GotNodeIffMovable(rules, s, k);
    if Movable(rules, servers[j]) && Movable(rules, servers[k]) {
      MovedShareIff(rules, s, j, k);
      assert PlaceOf(rules, servers[j]) == PlaceOf(rules, servers[k]) <==>
             var a, b := servers[j].agent.value, servers[k].agent.value;
             && rules.normalise(a.url.GetOr("")) == rules.normalise(b.url.GetOr(""))
             && Strip(a.token.GetOr("")) == Strip(b.token.GetOr(""));
    }
  }

  lemma MovedShareIff(rules: Rules, s: Settings, j: nat, k: nat)
    requires FreshIds(rules, s.nodes) && s.servers.Some? && j < |s.servers.value| && k < |s.servers.value|
    requires Movable(rules, s.servers.value[j]) && Movable(rules, s.servers.value[k])
    ensures var out := Moved(rules, s.nodes, s.servers.value).out;
            && |out| == |s.servers.value| && out[j].agent.Some? && out[k].agent.Some?
            && (out[j].agent.value.nodeId == out[k].agent.value.nodeId <==>
                PlaceOf(rules, s.servers.value[j]) == PlaceOf(rules, s.servers.value[k]))
  {
    var servers := s.servers.value;
    var st := Moved(rules, s.nodes, servers);
    var a := NodeAt(rules, s, j);
    var b := NodeAt(rules, s, k);
    MovedKept(rules, s.nodes, servers);
    if a < b {
      IdsStayDistinct(rules, s.nodes, st, a, b);
    } else if b < a {
      IdsStayDistinct(rules, s.nodes, st, b, a);
    }
  }

  /** Where the node of a moved server stands in the list, and that it is named by the server and stands at its place. */
  lemma NodeAt(rules: Rules, s: Settings, j: nat) returns (i: nat)
    requires s.servers.Some? && j < |s.servers.value| && Movable(rules, s.servers.value[j])
    ensures var st, p := Moved(rules, s.nodes, s.servers.value), PlaceOf(rules, s.servers.value[j]);
            && |st.out| == |s.servers.value| && i < |st.nodes| && st.out[j] == Point(s.servers.value[j], st.nodes[i].id)
            && p in st.byAddress && st.byAddress[p] == i && NodePlace(rules, |s.nodes|, st.nodes, i) == p
  {
    var servers := s.servers.value;
    var st := Moved(rules, s.nodes, servers);
    MovedPointed(rules, s.nodes, servers);
    MovedLastAt(rules, s.nodes, servers);
    assert PointedAt(rules, servers[j], st.out[j], st);
    i := st.byAddress[PlaceOf(rules, servers[j])];
    assert Places(rules, |s.nodes|, st.nodes)[i] == PlaceOf(rules, servers[j]);
  }

  /** Some switched-on server had its helper switched on and came out naming this node. */
  predicate NamedInUse(before: seq<Server>, after: seq<Server>, n: Node)
    requires |before| == |after|
  {
    exists j | 0 <= j < |before| ::
      GotNode(before[j], after[j]) && PointsAt(after[j], n) && before[j].enabled && before[j].agent.value.enabled
  }

  predicate NamedBySome(before: seq<Server>, after: seq<Server>, n: Node)
    requires |before| == |after|
  {
    exists j | 0 <= j < |before| :: GotNode(before[j], after[j]) && PointsAt(after[j], n)
  }

  lemma PointsAtIff(rules: Rules, s: Settings, j: nat, i: nat)
    requires FreshIds(rules, s.nodes) && s.servers.Some? && j < |s.servers.value|
    requires Movable(rules, s.servers.value[j])
    ensures var st := Moved(rules, s.nodes, s.servers.value);
            && |st.out| == |s.servers.value|
            && (i < |st.nodes| ==> (PointsAt(st.out[j], st.nodes[i]) <==> Uses(rules, s.servers.value[j], st, i)))
  {
    var servers := s.servers.value;
    var st := Moved(rules, s.nodes, servers);
    MovedPointed(rules, s.nodes, servers);
    MovedKept(rules, s.nodes, servers);
    assert PointedAt(rules, servers[j], st.out[j], st);
    var k := st.byAddress[PlaceOf(rules, servers[j])];
    if i < k {
      IdsStayDistinct(rules, s.nodes, st, i, k);
    } else if k < i < |st.nodes| {
      IdsStayDistinct(rules, s.nodes, st, k, i);
    }
  }

  /** A node is on afterwards exactly when it was on before, or a switched-on server had its helper, now this node, on. */
  lemma NodeIsOnIff(rules: Rules, s: Settings, i: nat)
    requires FreshIds(rules, s.nodes) && s.servers.Some? && i < |AfterV24(rules, s).nodes|
    ensures var t := AfterV24(rules, s);
            && |t.servers.value| == |s.servers.value|
            && (t.nodes[i].enabled <==>
                (i < |s.nodes| && s.nodes[i].enabled) || NamedInUse(s.servers.value, t.servers.value, t.nodes[i]))
  {
    var servers := s.servers.value;
    var st := Moved(rules, s.nodes, servers);
    MovedSwitchedRight(rules, s.nodes, servers);
    MovedPointed(rules, s.nodes, servers);
    assert NodeRight(rules, s.nodes, servers, st, i);
    forall j | 0 <= j < |servers|
      ensures GotNode(servers[j], st.out[j]) && PointsAt(st.out[j], st.nodes[i]) <==> Uses(rules, servers[j], st, i)
    {
      GotNodeIffMovable(rules, s, j);
      if Movable(rules, servers[j]) {
        PointsAtIff(rules, s, j, i);
      }
    }
  }

  /**
   * The list: old nodes keep their place and everything but their switch, which only goes on; every new node is used by
   * a server, stands where no other node stands and has a name no other node looks like; the revision counts a change.
   */
  lemma NodesListAfter(rules: Rules, s: Settings)
    requires Numbers(rules.nameKey) && s.servers.Some?
    ensures var t, had := AfterV24(rules, s), |s.nodes|;
            && had <= |t.nodes| && SwitchedOn(s.nodes, t.nodes[..had])
            && t.revision == s.revision + (if t.nodes == s.nodes then 0 else 1)
            && OnlyOneNew(rules, had, t.nodes)
            && |t.servers.value| == |s.servers.value|
            && (forall i | had <= i < |t.nodes| :: NamedBySome(s.servers.value, t.servers.value, t.nodes[i]))
            && forall i, k | 0 <= k < i < |t.nodes| && had <= i ::
              KeyAt(rules, had, t.nodes, i) != KeyAt(rules, had, t.nodes, k)
  {
    var servers := s.servers.value;
    var st := Moved(rules, s.nodes, servers);
    MovedKept(rules, s.nodes, servers);
    MovedOnlyOneNew(rules, s.nodes, servers);
    MovedNamed(rules, s.nodes, servers);
    MovedPointed(rules, s.nodes, servers);
    MovedSwitchedRight(rules, s.nodes, servers);
    forall i | |s.nodes| <= i < |st.nodes|
      ensures NamedBySome(servers, st.out, st.nodes[i])
    {
      assert NodeRight(rules, s.nodes, servers, st, i);
      assert UsedBySome(rules, servers, st, i);
      var j :| 0 <= j < |servers| && Uses(rules, servers[j], st, i);
      assert PointedAt(rules, servers[j], st.out[j], st);
      GotNodeIffMovable(rules, s, j);
    }
  }

  /** The name of every new node fits, unless there are more names than 80 characters leave room to number. */
  lemma {:induction false} NewNamesFit(rules: Rules, nodes: seq<Node>, servers: seq<Server>, d: nat)
    requires Numbers(rules.nameKey) && 1 <= d <= NAME_MAX_LEN - 16 && |nodes| + |servers| < Pow10(d)
    ensures var st := Moved(rules, nodes, servers);
            && |st.nodes| <= |nodes| + |servers|
            && forall i | |nodes| <= i < |st.nodes| :: |st.nodes[i].name| <= NAME_MAX_LEN
  {
    if servers != [] {
      var init, last := servers[..|servers| - 1], servers[|servers| - 1];
      NewNamesFit(rules, nodes, init, d);
      MovedNamed(rules, nodes, init);
      HelperNameFits(rules.nameKey, BaseName(rules, last), Moved(rules, nodes, init).names, NAME_MAX_LEN, d);
    }
  }

  /** A new node's name: the server's, as it may be shown, in "Plex helper (…)", numbered from 2 on, whole if it fits. */
  predicate ReadsAs(rules: Rules, s: Server, k: nat, name: string) {
    var shown, tail := rules.visible(s.name), if k == 1 then ")" else ") " + Decimal(k);
    var base := if shown == "" then "Plex" else shown;
    && k >= 1 && "Plex helper (" <= name
    && |tail| <= |name| && name[|name| - |tail|..] == tail
    && (13 + |base| + |tail| <= 80 ==> name == "Plex helper (" + base + tail)
  }

  ghost predicate NamedAfterOne(rules: Rules, servers: seq<Server>, name: string) {
    exists j: nat, k: nat :: j < |servers| && ReadsAs(rules, servers[j], k, name)
  }

  lemma HelperNameReads(rules: Rules, s: Server, taken: set<string>) returns (k: nat)
    ensures ReadsAs(rules, s, k, HelperName(rules.nameKey, BaseName(rules, s), taken, NAME_MAX_LEN))
  {
    k := FirstFree(rules.nameKey, BaseName(rules, s), taken, NAME_MAX_LEN, 1);
    assert |"Plex helper ("| == 13;
  }

  /** A step keeps the names there are, and names the node it makes by the rule. */
  lemma StepNames(rules: Rules, had: nat, st: Moving, s: Server, i: nat)
    requires Indexed(st) && had <= |st.nodes| && i < |Step(rules, had, st, s).nodes|
    ensures var next := Step(rules, had, st, s);
            next.nodes[i].name == if i < |st.nodes| then st.nodes[i].name
                                  else HelperName(rules.nameKey, BaseName(rules, s), st.names, NAME_MAX_LEN)
  {
  }

  /** Every new node is named after one of the servers. */
  lemma {:induction false} NewNamesRead(rules: Rules, nodes: seq<Node>, servers: seq<Server>, i: nat)
    requires |nodes| <= i < |Moved(rules, nodes, servers).nodes|
    ensures NamedAfterOne(rules, servers, Moved(rules, nodes, servers).nodes[i].name)
  {
    if servers != [] {
      var init, last := servers[..|servers| - 1], servers[|servers| - 1];
      var before := Moved(rules, nodes, init);
      assert servers == init + [last];
      StepNames(rules, |nodes|, before, last, i);
      if i < |before.nodes| {
        NewNamesRead(rules, nodes, init, i);
        NamedAfterLonger(rules, init, last, before.nodes[i].name);
      } else {
        var k := HelperNameReads(rules, last, before.names);
        assert ReadsAs(rules, servers[|init|], k, Moved(rules, nodes, servers).nodes[i].name);
      }
    }
  }

  lemma NamedAfterLonger(rules: Rules, init: seq<Server>, last: Server, name: string)
    requires NamedAfterOne(rules, init, name)
    ensures NamedAfterOne(rules, init + [last], name)
  {
    var j: nat, k: nat :| j < |init| && ReadsAs(rules, init[j], k, name);
    assert ReadsAs(rules, (init + [last])[j], k, name);
  }

  /** A second run finds nothing to do. */
  lemma SecondRunChangesNothing(rules: Rules, again: Rules, s: Settings)
    ensures AfterV24(again, AfterV24(rules, s)) == AfterV24(rules, s)
  {
    if s.servers.Some? {
      var servers := s.servers.value;
      var st := Moved(rules, s.nodes, servers);
      MovedPointed(rules, s.nodes, servers);
      forall out <- st.out ensures !Pending(out) {
        var j :| 0 <= j < |st.out| && st.out[j] == out;
        assert PointedAt(rules, servers[j], out, st);
      }
      NothingPending(again, st.nodes, st.out);
    }
  }

  // A rollback and a second upgrade ---------------------------------------------------------------------------------

  /** The address this helper is moved under comes out of normalisation as it went in. */
  predicate Settled(rules: Rules, s: Server)
    requires Movable(rules, s)
  {
    rules.normalise(PlaceOf(rules, s).0.value) == PlaceOf(rules, s).0
  }

  predicate HadNode(rules: Rules, nodes: seq<Node>, p: Place) {
    exists i | 0 <= i < |nodes| :: (rules.normalise(nodes[i].url), nodes[i].key) == p
  }

  /** Every helper that needs a new node has a settled address. */
  predicate NewOnesSettled(rules: Rules, s: Settings)
    requires s.servers.Some?
  {
    forall sv <- s.servers.value :: Movable(rules, sv) && !HadNode(rules, s.nodes, PlaceOf(rules, sv)) ==> Settled(rules, sv)
  }

  /**
   * A build from before nodes saved the servers again, as they were, and the upgrade is run once more: it finds the
   * nodes of the first time and ends where that one did, exactly when every address it had made a node for is settled.
   */
  lemma RollbackReusesIff(rules: Rules, newId: nat -> string, s: Settings)
    requires FreshIds(rules, s.nodes) && s.servers.Some?
    ensures var t := AfterV24(rules, s);
            AfterV24(rules.(newId := newId), t.(servers := s.servers)) == t <==> NewOnesSettled(rules, s)
  {
    var t, again := AfterV24(rules, s), rules.(newId := newId);
    if NewOnesSettled(rules, s) {
      SettledIsReused(rules, again, s);
    }
    if AfterV24(again, t.(servers := s.servers)) == t {
      forall sv <- s.servers.value | Movable(rules, sv) && !HadNode(rules, s.nodes, PlaceOf(rules, sv))
        ensures Settled(rules, sv)
      {
        var j :| 0 <= j < |s.servers.value| && s.servers.value[j] == sv;
        ReusedIsSettled(rules, again, s, j);
      }
    }
  }

  lemma NewNodeFor(rules: Rules, s: Settings, j: nat)
    requires s.servers.Some? && j < |s.servers.value| && Movable(rules, s.servers.value[j])
    requires !HadNode(rules, s.nodes, PlaceOf(rules, s.servers.value[j]))
    ensures var st, p := Moved(rules, s.nodes, s.servers.value), PlaceOf(rules, s.servers.value[j]);
            && p in st.byAddress && |s.nodes| <= st.byAddress[p] < |st.nodes|
            && st.nodes[st.byAddress[p]].url == p.0.value && st.nodes[st.byAddress[p]].key == p.1
  {
    var st, p := Moved(rules, s.nodes, s.servers.value), PlaceOf(rules, s.servers.value[j]);
    MovedPointed(rules, s.nodes, s.servers.value);
    MovedLastAt(rules, s.nodes, s.servers.value);
    MovedKept(rules, s.nodes, s.servers.value);
    assert PointedAt(rules, s.servers.value[j], st.out[j], st);
    var i := st.byAddress[p];
    assert Places(rules, |s.nodes|, st.nodes)[i] == p;
    assert NodePlace(rules, |s.nodes|, st.nodes, i) == p;
    forall k | 0 <= k < |s.nodes| ensures NodePlace(rules, |s.nodes|, st.nodes, k) != p {
      assert st.nodes[..|s.nodes|][k] == st.nodes[k];
      assert (rules.normalise(s.nodes[k].url), s.nodes[k].key) != p;
    }
  }

  lemma ReusedIsSettled(rules: Rules, again: Rules, s: Settings, j: nat)
    requires FreshIds(rules, s.nodes) && s.servers.Some? && j < |s.servers.value| && Movable(rules, s.servers.value[j])
    requires !HadNode(rules, s.nodes, PlaceOf(rules, s.servers.value[j]))
    requires again == rules.(newId := again.newId)
    requires AfterV24(again, AfterV24(rules, s).(servers := s.servers)) == AfterV24(rules, s)
    ensures Settled(rules, s.servers.value[j])
  {
    var servers, sv := s.servers.value, s.servers.value[j];
    var p := PlaceOf(rules, sv);
    var st := Moved(rules, s.nodes, servers);
    var st2 := Moved(again, st.nodes, servers);
    NewNodeFor(rules, s, j);
    PointsAtIff(rules, s, j, st.byAddress[p]);
    MovedPointed(rules, s.nodes, servers);
    MovedPointed(again, st.nodes, servers);
    MovedLastAt(again, st.nodes, servers);
    assert PointedAt(again, sv, st2.out[j], st2);
    assert st2.nodes == st.nodes && st2.out == st.out && PlaceOf(again, sv) == p;
    var i := st2.byAddress[p];
    PointsAtIff(rules, s, j, i);
    assert PointsAt(st.out[j], st.nodes[i]);
    assert i == st.byAddress[p];
    assert Places(again, |st.nodes|, st2.nodes)[i] == p;
  }

  lemma SameIndex(places: seq<Place>, a: map<Place, nat>, b: map<Place, nat>)
    requires LastIndex(places, a) && LastIndex(places, b)
    ensures a == b
  {
    forall p | p in a ensures p in b && a[p] == b[p] {
      assert places[a[p]] in b;
    }
    forall p | p in b ensures p in a {
      assert places[b[p]] in a;
    }
  }

  /** With settled addresses, the second upgrade sees every node where the first one left it. */
  lemma SamePlaces(rules: Rules, again: Rules, s: Settings)
    requires s.servers.Some? && NewOnesSettled(rules, s) && again == rules.(newId := again.newId)
    ensures var st := Moved(rules, s.nodes, s.servers.value);
            Places(again, |st.nodes|, st.nodes) == Places(rules, |s.nodes|, st.nodes)
  {
    var st := Moved(rules, s.nodes, s.servers.value);
    forall i | 0 <= i < |st.nodes|
      ensures NodePlace(again, |st.nodes|, st.nodes, i) == NodePlace(rules, |s.nodes|, st.nodes, i)
    {
      if i >= |s.nodes| {
        NewNodeSettled(rules, s, i);
      }
    }
  }

  lemma NewNodeSettled(rules: Rules, s: Settings, i: nat)
    requires s.servers.Some? && NewOnesSettled(rules, s)
    requires var st := Moved(rules, s.nodes, s.servers.value); |s.nodes| <= i < |st.nodes|
    ensures var node := Moved(rules, s.nodes, s.servers.value).nodes[i]; rules.normalise(node.url) == Some(node.url)
  {
    var servers := s.servers.value;
    var st := Moved(rules, s.nodes, servers);
    var places := Places(rules, |s.nodes|, st.nodes);
    MovedSwitchedRight(rules, s.nodes, servers);
    MovedLastAt(rules, s.nodes, servers);
    MovedOnlyOneNew(rules, s.nodes, servers);
    MovedKept(rules, s.nodes, servers);
    assert NodeRight(rules, s.nodes, servers, st, i);
    var j :| 0 <= j < |servers| && Uses(rules, servers[j], st, i);
    var p := PlaceOf(rules, servers[j]);
    assert places[i] == p && places[i] == NodePlace(rules, |s.nodes|, st.nodes, i);
    forall k | 0 <= k < |s.nodes| ensures (rules.normalise(s.nodes[k].url), s.nodes[k].key) != p {
      assert st.nodes[..|s.nodes|][k] == st.nodes[k];
      assert places[..i][k] == NodePlace(rules, |s.nodes|, st.nodes, k);
    }
    assert !HadNode(rules, s.nodes, p);
    assert servers[j] in servers && Settled(rules, servers[j]);
  }

  lemma {:induction false} NothingNew(rules: Rules, nodes: seq<Node>, servers: seq<Server>)
    requires forall s <- servers | Movable(rules, s) ::
      var at := ByAddress(rules, nodes);
      PlaceOf(rules, s) in at && (InUse(s) ==> nodes[at[PlaceOf(rules, s)]].enabled)
    ensures Moved(rules, nodes, servers).nodes == nodes
    ensures Moved(rules, nodes, servers).byAddress == ByAddress(rules, nodes)
  {
    if servers != [] {
      var init, last := servers[..|servers| - 1], servers[|servers| - 1];
      assert last in servers && forall s <- init :: s in servers;
      NothingNew(rules, nodes, init);
    }
  }

  lemma SettledIsReused(rules: Rules, again: Rules, s: Settings)
    requires s.servers.Some? && NewOnesSettled(rules, s) && again == rules.(newId := again.newId)
    ensures AfterV24(again, AfterV24(rules, s).(servers := s.servers)) == AfterV24(rules, s)
  {
    var servers := s.servers.value;
    var st := Moved(rules, s.nodes, servers);
    SamePlaces(rules, again, s);
    MovedLastAt(rules, s.nodes, servers);
    StartLastAt(again, st.nodes);
    SameIndex(Places(rules, |s.nodes|, st.nodes), st.byAddress, ByAddress(again, st.nodes));
    MovedPointed(rules, s.nodes, servers);
    forall sv <- servers | Movable(again, sv)
      ensures PlaceOf(again, sv) in st.byAddress
      ensures InUse(sv) ==> st.nodes[st.byAddress[PlaceOf(again, sv)]].enabled
    {
      var j :| 0 <= j < |servers| && servers[j] == sv;
      assert PointedAt(rules, sv, st.out[j], st);
      UsedIsOn(rules, s, j);
    }
    NothingNew(again, st.nodes, servers);
    SamePointers(rules, again, servers, st, Moved(again, st.nodes, servers), st.nodes);
  }

  lemma UsedIsOn(rules: Rules, s: Settings, j: nat)
    requires s.servers.Some? && j < |s.servers.value| && Movable(rules, s.servers.value[j])
    ensures var st, p := Moved(rules, s.nodes, s.servers.value), PlaceOf(rules, s.servers.value[j]);
            p in st.byAddress && (InUse(s.servers.value[j]) ==> st.nodes[st.byAddress[p]].enabled)
  {
    var servers := s.servers.value;
    var st := Moved(rules, s.nodes, servers);
    MovedPointed(rules, s.nodes, servers);
    MovedSwitchedRight(rules, s.nodes, servers);
    assert PointedAt(rules, servers[j], st.out[j], st);
    var i := st.byAddress[PlaceOf(rules, servers[j])];
    assert NodeRight(rules, s.nodes, servers, st, i);
    assert Uses(rules, servers[j], st, i);
  }

  lemma SamePointers(rules: Rules, again: Rules, servers: seq<Server>, st: Moving, st2: Moving, nodes: seq<Node>)
    requires again == rules.(newId := again.newId) && Pointed(rules, servers, st)
    requires st2 == Moved(again, nodes, servers) && st2.nodes == st.nodes && st2.byAddress == st.byAddress
    ensures st2.out == st.out
  {
    MovedPointed(again, nodes, servers);
    forall j | 0 <= j < |servers| ensures st2.out[j] == st.out[j] {
      assert PointedAt(rules, servers[j], st.out[j], st) && PointedAt(again, servers[j], st2.out[j], st2);
    }
  }

  // An address that isn't settled -----------------------------------------------------------------------------------

  predicate RouteChar(c: char) {
    'a' <= c <= 'z' || c == '/' || c == '-'
  }

  /** A node's route from here to the end: "/v1", alone or with a path of lower-case letters and dashes behind it. */
  predicate RouteAt(s: string, i: nat) {
    && i + 3 <= |s| && s[i..i + 3] == "/v1"
    && (i + 3 == |s| || (s[i + 3] == '/' && forall c <- s[i + 3..] :: RouteChar(c)))
  }

  function FirstRoute(s: string, i: nat): (k: nat)
    requires i <= |s|
    ensures i <= k <= |s|
    decreases |s| - i
  {
    if i == |s| || RouteAt(s, i) then i else FirstRoute(s, i + 1)
  }

  /** An address with a route pasted behind it, cut back to the address, once. */
  function DropRoute(s: string): string {
    s[..FirstRoute(s, 0)]
  }

  lemma {:induction false} FirstRouteIs(s: string, i: nat, k: nat)
    requires i <= k <= |s| && (forall j | i <= j < k :: !RouteAt(s, j)) && (k < |s| ==> RouteAt(s, k))
    ensures FirstRoute(s, i) == k
    decreases k - i
  {
    if i < k {
      FirstRouteIs(s, i + 1, k);
    }
  }

  /** A text that ends in the digit of a version has no route but there. */
  lemma OnlyLastRoute(s: string, j: nat)
    requires s != "" && s[|s| - 1] == '1' && j + 3 < |s|
    ensures !RouteAt(s, j)
  {
    var tail := s[j + 3..];
    assert tail[|tail| - 1] == '1';
    assert '1' in tail && !RouteChar('1');
  }

  /** So only the last of several routes goes. */
  lemma LastRouteGoes(base: string)
    ensures DropRoute(base + "/v1") == base
  {
    var s := base + "/v1";
    assert s[|base|..|base| + 3] == "/v1" && s[|s| - 1] == '1';
    forall j | 0 <= j < |base| ensures !RouteAt(s, j) {
      OnlyLastRoute(s, j);
    }
    FirstRouteIs(s, 0, |base|);
    assert s[..|base|] == base;
  }

  /** The address rule, for addresses its other checks accept as they are. */
  function Routed(raw: string): Option<string> {
    var url := DropRoute(raw);
    if url == "" then None else Some(url)
  }

  /** An install with one Plex server whose helper is used at this address. */
  function OneHelper(url: string, key: string): Settings {
    Settings(Some([Server("Plex", true, Some(Agent(Some(url), Some(key), None, true)))]), [], 0)
  }

  /**
   * An address with two routes pasted behind it, whatever it is: the first upgrade makes a node at the address with one
   * route, and the upgrade after a rollback doesn't find it there and makes a second.
   */
  lemma TwoRoutesTwoNodes(base: string, rules: Rules, newId: nat -> string)
    requires Stripped(base) && base != "" && rules.normalise == Routed
    ensures var s := OneHelper(base + "/v1/v1", "key");
            var t := AfterV24(rules, s);
            var again := AfterV24(rules.(newId := newId), t.(servers := s.servers));
            && |t.nodes| == 1 && t.nodes[0].url == base + "/v1"
            && |again.nodes| == 2 && again.nodes[1].url == base + "/v1"
  {
    var one, two := base + "/v1", base + "/v1/v1";
    TwoRoutesNormalise(base);
    MoveOneHelper(two, one, rules, []);
    MoveOneHelper(two, one, rules.(newId := newId), AfterV24(rules, OneHelper(two, "key")).nodes);
  }

  lemma TwoRoutesNormalise(base: string)
    requires base != "" && Stripped(base)
    ensures Routed(base + "/v1/v1") == Some(base + "/v1") && Routed(base + "/v1") == Some(base)
    ensures Strip(base + "/v1/v1") != "" && base + "/v1" != base
  {
    var two := base + "/v1/v1";
    assert two == (base + "/v1") + "/v1";
    LastRouteGoes(base);
    LastRouteGoes(base + "/v1");
    assert two[0] == base[0] && two[|two| - 1] == '1';
    StripStrips(two);
  }

  /** The one helper moves to a new node when no node is found at its address. */
  lemma MoveOneHelper(url: string, address: string, rules: Rules, nodes: seq<Node>)
    requires Strip(url) != "" && rules.normalise(url) == Some(address) && address != ""
    requires |nodes| <= 1 && forall n <- nodes :: rules.normalise(n.url) != Some(address)
    ensures var st := Moved(rules, nodes, OneHelper(url, "key").servers.value);
            && |st.nodes| == |nodes| + 1 && st.nodes[|nodes|].url == address
            && st.nodes[..|nodes|] == nodes
  {
    var servers := OneHelper(url, "key").servers.value;
    var server := servers[0];
    assert servers[..0] == [] && Strip("key") == "key" by {
      StripStrips("key");
    }
    assert Movable(rules, server) && PlaceOf(rules, server) == (Some(address), "key");
    if nodes != [] {
      assert nodes[..|nodes| - 1] == [];
    }
    assert PlaceOf(rules, server) !in ByAddress(rules, nodes);
    assert Moved(rules, nodes, servers) == Step(rules, |nodes|, Start(rules, nodes), server);
  }

  // The code --------------------------------------------------------------------------------------------------------

  lemma {:induction false} NothingPending(rules: Rules, nodes: seq<Node>, servers: seq<Server>)
    requires forall s <- servers :: !Pending(s)
    ensures Moved(rules, nodes, servers).nodes == nodes && Moved(rules, nodes, servers).out == servers
  {
    if servers != [] {
      var init, last := servers[..|servers| - 1], servers[|servers| - 1];
      assert servers == init + [last] && last in servers && forall s <- init :: s in servers;
      NothingPending(rules, nodes, init);
    }
  }

  class SettingsManager {
    var settings: Settings

    constructor (settings: Settings)
      ensures this.settings == settings
    {
      this.settings := settings;
    }

    method MigrateToV24(rules: Rules)
      requires Numbers(rules.nameKey)
      modifies this
      ensures settings == AfterV24(rules, old(settings))
    {
      if settings.servers.None? {
        return;
      }
      var st, changed, listChanged := MoveAll(rules, settings.nodes, settings.servers.value);
      if changed == 0 {
        NothingPending(rules, settings.nodes, settings.servers.value);
        return;
      }
      settings := settings.(servers := Some(st.out));
      if listChanged {
        settings := settings.(nodes := st.nodes, revision := settings.revision + 1);
      }
    }
  }

  predicate NonePending(servers: seq<Server>) {
    forall s <- servers :: !Pending(s)
  }

  lemma NextServer(rules: Rules, nodes: seq<Node>, servers: seq<Server>, i: nat)
    requires i < |servers|
    ensures Moved(rules, nodes, servers[..i + 1]) == Step(rules, |nodes|, Moved(rules, nodes, servers[..i]), servers[i])
    ensures NonePending(servers[..i + 1]) <==> NonePending(servers[..i]) && !Pending(servers[i])
  {
    TakeNext(servers, i);
  }

  /** The count of new nodes and, while there are none, whether one was switched on. */
  predicate Tracked(had: seq<Node>, nodes: seq<Node>, created: nat, switched: bool) {
    && |nodes| == |had| + created
    && (created == 0 ==> SwitchedOn(had, nodes) && (switched <==> nodes != had))
  }

  lemma TrackedStep(had: seq<Node>, before: seq<Node>, after: seq<Node>, made: nat, created: nat, switched: bool, joined: bool)
    requires Tracked(had, before, made, switched) && |after| == |before| - made + created && made <= created
    requires created == made ==> SwitchedOn(before, after) && (joined <==> after != before)
    ensures Tracked(had, after, created, switched || joined)
  {
  }

  /** The loop over the servers; `listChanged` says whether a node was created or switched on. */
  method MoveAll(rules: Rules, had: seq<Node>, servers: seq<Server>)
    returns (st: Moving, changed: nat, listChanged: bool)
    requires Numbers(rules.nameKey)
    ensures st == Moved(rules, had, servers)
    ensures listChanged <==> st.nodes != had
    ensures changed == 0 ==> NonePending(servers)
  {
    var byAddress: map<Place, nat> := BuildByAddress(rules, had);
    st := Moving(had, byAddress, NamesOf(rules, had), []);
    var created, nodesChanged := 0, false;
    changed := 0;
    var i := 0;
    while i < |servers|
      invariant 0 <= i <= |servers|
      invariant st == Moved(rules, had, servers[..i])
      invariant Tracked(had, st.nodes, created, nodesChanged)
      invariant changed == 0 ==> NonePending(servers[..i])
    {
      NextServer(rules, had, servers, i);
      ghost var before, made, switched := st.nodes, created, nodesChanged;
      if Pending(servers[i]) {
        changed := changed + 1;
      }
      var joined;
      st, created, joined := MoveOne(rules, st, created, servers[i]);
      nodesChanged := nodesChanged || joined;
      TrackedStep(had, before, st.nodes, made, created, switched, joined);
      i := i + 1;
    }
    assert servers[..i] == servers;
    listChanged := created > 0 || nodesChanged;
  }

  /** The body of the loop: one server's helper. */
  method MoveOne(rules: Rules, st: Moving, created: nat, s: Server)
    returns (next: Moving, created': nat, joined: bool)
    requires Numbers(rules.nameKey)
    requires Indexed(st) && created <= |st.nodes|
    ensures next == Step(rules, |st.nodes| - created, st, s)
    ensures |next.nodes| == |st.nodes| - created + created' && created <= created'
    ensures created' == created ==> SwitchedOn(st.nodes, next.nodes) && (joined <==> next.nodes != st.nodes)
  {
    next, created', joined := st, created, false;
    if !Movable(rules, s) {
      next := st.(out := st.out + [Leave(s)]);
      return;
    }
    var place := PlaceOf(rules, s);
    if place in st.byAddress {
      var k := st.byAddress[place];
      if InUse(s) && !st.nodes[k].enabled {
        next, joined := st.(nodes := st.nodes[k := st.nodes[k].(enabled := true)]), true;
        assert next.nodes[k] != st.nodes[k];
      }
      next := next.(out := st.out + [Point(s, st.nodes[k].id)]);
    } else {
      var name := HelperNodeName(rules.nameKey, BaseName(rules, s), st.names, NAME_MAX_LEN);
      var node := Node(rules.newId(created), name, place.0.value, place.1, InUse(s));
      next := Moving(st.nodes + [node], st.byAddress[place := |st.nodes|], st.names + {rules.nameKey(name)},
                     st.out + [Point(s, node.id)]);
      created' := created + 1;
    }
  }

  /** The same list, but for nodes that were switched on. */
  predicate SwitchedOn(before: seq<Node>, after: seq<Node>) {
    && |after| == |before|
    && forall i | 0 <= i < |before| ::
      after[i] == before[i].(enabled := after[i].enabled) && (before[i].enabled ==> after[i].enabled)
  }

  lemma TakeNext<T>(xs: seq<T>, i: nat)
    requires i < |xs|
    ensures xs[..i + 1] == xs[..i] + [xs[i]]
    ensures xs[..i + 1][..i] == xs[..i] && xs[..i + 1][i] == xs[i]
  {
  }

  /** The dictionary of places: of two nodes at one place the later one stays. */
  method BuildByAddress(rules: Rules, nodes: seq<Node>) returns (m: map<Place, nat>)
    ensures m == ByAddress(rules, nodes)
  {
    m := map[];
    var i := 0;
    while i < |nodes|
      invariant 0 <= i <= |nodes| && m == ByAddress(rules, nodes[..i])
    {
      TakeNext(nodes, i);
      m := m[(rules.normalise(nodes[i].url), nodes[i].key) := i];
      i := i + 1;
    }
    assert nodes[..i] == nodes;
  }
}
