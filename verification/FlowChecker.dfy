/** The routing-model check of a form definition: `routingModelFaults`. */
module FlowChecker {
  import opened CanonicalJson
  import opened Collections

  datatype Screen = Screen(id: string, terminal: bool, children: seq<string>)

  /** One entry of the routing model, in the object's own order. */
  datatype Route = Route(from: string, tos: seq<string>)

  datatype Definition = Definition(screens: seq<Screen>, model: seq<Route>)

  datatype Edge = Edge(from: string, to: string)

  datatype Fault =
    | NotConnected(islands: seq<string>)
    | NoEntryScreen
    | BackwardRoute(to: string, from: string)
    | TooManyBranches(count: nat)
    | DeadEnd(id: string)
    | NoFooter(id: string)
    | ReservedId

  function Ids(screens: seq<Screen>): seq<string> {
    seq(|screens|, i requires 0 <= i < |screens| => screens[i].id)
  }

  function EdgesFrom(from: string, tos: seq<string>): seq<Edge> {
    seq(|tos|, i requires 0 <= i < |tos| => Edge(from, tos[i]))
  }

  /** `Object.entries(model).flatMap(…)`. */
  function Edges(model: seq<Route>): seq<Edge> {
    if model == [] then [] else EdgesFrom(model[0].from, model[0].tos) + Edges(model[1..])
  }

  /** `model[id] ?? []`. */
  function Onward(model: seq<Route>, id: string): seq<string> {
    if model == [] then [] else if model[0].from == id then model[0].tos else Onward(model[1..], id)
  }

  // ---------- Connectivity, as a path through declared screens ----------

  predicate Linked(edges: seq<Edge>, a: string, b: string) {
    Edge(a, b) in edges || Edge(b, a) in edges
  }

  ghost predicate Path(ids: seq<string>, edges: seq<Edge>, p: seq<string>) {
    && p != []
    && (forall i :: 0 <= i < |p| ==> p[i] in ids)
    && forall i :: 0 <= i < |p| - 1 ==> Linked(edges, p[i], p[i + 1])
  }

  /** Two declared screens joined by routes, taken either way, through declared screens. */
  ghost predicate Joined(ids: seq<string>, edges: seq<Edge>, a: string, b: string) {
    exists p :: Path(ids, edges, p) && p[0] == a && p[|p| - 1] == b
  }

  ghost function Islands(ids: seq<string>, edges: seq<Edge>, start: string, rest: seq<string>): seq<string> {
    if rest == [] then []
    else (if Joined(ids, edges, start, rest[0]) then [] else [rest[0]]) + Islands(ids, edges, start, rest[1..])
  }

  // ---------- The remaining rules ----------

  predicate HasInbound(edges: seq<Edge>, id: string) {
    exists i :: 0 <= i < |edges| && edges[i].to == id
  }

  function BackwardRoutes(edges: seq<Edge>, rest: seq<Edge>): seq<Fault> {
    if rest == [] then []
    else (if KeyLess(rest[0].from, rest[0].to) && Edge(rest[0].to, rest[0].from) in edges
          then [BackwardRoute(rest[0].to, rest[0].from)] else [])
         + BackwardRoutes(edges, rest[1..])
  }

  function ScreenFaults(model: seq<Route>, s: Screen): seq<Fault> {
    (if Onward(model, s.id) == [] && !s.terminal then [DeadEnd(s.id)] else [])
    + (if s.terminal && "Footer" !in s.children then [NoFooter(s.id)] else [])
    + (if s.id == "SUCCESS" then [ReservedId] else [])
  }

  function AllScreenFaults(model: seq<Route>, screens: seq<Screen>): seq<Fault> {
    if screens == [] then [] else ScreenFaults(model, screens[0]) + AllScreenFaults(model, screens[1..])
  }

  ghost function ConnectionFaults(ids: seq<string>, edges: seq<Edge>): seq<Fault> {
    if ids == [] then []
    else
      var islands := Islands(ids, edges, ids[0], ids);
      if islands == [] then [] else [NotConnected(islands)]
  }

  function EntryFaults(ids: seq<string>, edges: seq<Edge>): seq<Fault> {
    if forall i :: 0 <= i < |ids| ==> HasInbound(edges, ids[i]) then [NoEntryScreen] else []
  }

  ghost function Faults(d: Definition): seq<Fault> {
    var ids, edges := Ids(d.screens), Edges(d.model);
    ConnectionFaults(ids, edges)
    + EntryFaults(ids, edges)
    + BackwardRoutes(edges, edges)
    + (if |edges| > 10 then [TooManyBranches(|edges|)] else [])
    + AllScreenFaults(d.model, d.screens)
  }

  // ---------- The worklist search ----------

  method Neighbours(ids: seq<string>, edges: seq<Edge>) returns (neighbours: map<string, set<string>>)
    ensures forall a :: a in neighbours <==> a in ids
    ensures forall a, b :: a in neighbours ==> (b in neighbours[a] <==> Linked(edges, a, b))
  {
    neighbours := map id | id in ids :: {};
    for i := 0 to |edges|
      invariant forall a :: a in neighbours <==> a in ids
      invariant forall a, b :: a in neighbours ==> (b in neighbours[a] <==> Linked(edges[..i], a, b))
    {
      var e := edges[i];
      assert edges[..i + 1] == edges[..i] + [e];
      if e.from in neighbours {
        neighbours := neighbours[e.from := neighbours[e.from] + {e.to}];
      }
      if e.to in neighbours {
        neighbours := neighbours[e.to := neighbours[e.to] + {e.from}];
      }
    }
    assert edges[..|edges|] == edges;
  }

  ghost function Names(ids: seq<string>, edges: seq<Edge>): set<string> {
    (set i | 0 <= i < |ids| :: ids[i]) + (set i | 0 <= i < |edges| :: edges[i].from)
    + set i | 0 <= i < |edges| :: edges[i].to
  }

  lemma JoinedStep(ids: seq<string>, edges: seq<Edge>, start: string, a: string, b: string)
    requires Joined(ids, edges, start, a) && b in ids && Linked(edges, a, b)
    ensures Joined(ids, edges, start, b)
  {
    var p :| Path(ids, edges, p) && p[0] == start && p[|p| - 1] == a;
    assert Path(ids, edges, p + [b]);
  }

  /** A set that holds the start and every neighbour of its declared members holds every path. */
  lemma {:induction false} ClosedHoldsPath(ids: seq<string>, edges: seq<Edge>, reached: set<string>, p: seq<string>)
    requires Path(ids, edges, p) && p[0] in reached
    requires forall a, b :: a in reached && a in ids && Linked(edges, a, b) ==> b in reached
    ensures p[|p| - 1] in reached
  {
    if |p| > 1 {
      assert Linked(edges, p[0], p[1]);
      forall i | 0 <= i < |p[1..]| - 1 ensures Linked(edges, p[1..][i], p[1..][i + 1]) {
        assert Linked(edges, p[i + 1], p[i + 1 + 1]);
      }
      ClosedHoldsPath(ids, edges, reached, p[1..]);
    }
  }

  lemma LinkedNames(ids: seq<string>, edges: seq<Edge>, a: string, b: string)
    requires Linked(edges, a, b)
    ensures b in Names(ids, edges)
  {
  }

  ghost predicate Sound(ids: seq<string>, edges: seq<Edge>, reached: set<string>) {
    forall id :: id in reached && id in ids ==> Joined(ids, edges, ids[0], id)
  }

  /** Only screens still on the stack have neighbours not reached. */
  ghost predicate Frontier(ids: seq<string>, edges: seq<Edge>, reached: set<string>, stack: seq<string>) {
    forall a, b :: a in reached && a in ids && Linked(edges, a, b) ==> b in reached || a in stack
  }

  lemma FrontierMoves(ids: seq<string>, edges: seq<Edge>, before: set<string>, left: seq<string>, current: string,
                      reached: set<string>, stack: seq<string>)
    requires Frontier(ids, edges, before, left + [current])
    requires before <= reached && left <= stack
    requires forall id :: id in reached && id !in before ==> id in stack
    requires current in ids ==> forall b :: Linked(edges, current, b) ==> b in reached
    ensures Frontier(ids, edges, reached, stack)
  {
    forall a, b | a in reached && a in ids && Linked(edges, a, b) ensures b in reached || a in stack {
      if a in before && a != current {
        assert b in before || a in left + [current];
      }
    }
  }

  lemma SearchStarts(ids: seq<string>, edges: seq<Edge>)
    requires ids != []
    ensures Sound(ids, edges, {ids[0]}) && Frontier(ids, edges, {ids[0]}, [ids[0]]) && ids[0] in Names(ids, edges)
  {
    assert Path(ids, edges, [ids[0]]);
  }

  lemma SoundGrows(ids: seq<string>, edges: seq<Edge>, reached: set<string>, current: string, n: string)
    requires ids != [] && Sound(ids, edges, reached)
    requires current in reached && current in ids && Linked(edges, current, n)
    ensures Sound(ids, edges, reached + {n})
  {
    hide Joined, Linked;
    if n in ids { JoinedStep(ids, edges, ids[0], current, n); }
  }

  /** Reaches exactly the declared screens joined to the first one. */
  method Reach(ids: seq<string>, edges: seq<Edge>) returns (reached: set<string>)
    ensures ids == [] ==> reached == {}
    ensures forall id :: id in ids ==> (id in reached <==> Joined(ids, edges, ids[0], id))
  {
    var neighbours := Neighbours(ids, edges);
    reached := if ids == [] then {} else {ids[0]};
    var stack := if ids == [] then [] else [ids[0]];
    if ids == [] { return; }
    SearchStarts(ids, edges);
    hide Linked, Joined, Path, Names, Sound, Frontier;
    while |stack| > 0
      invariant ids[0] in reached && reached <= Names(ids, edges)
      invariant forall id :: id in stack ==> id in reached
      invariant Sound(ids, edges, reached) && Frontier(ids, edges, reached, stack)
      decreases Names(ids, edges) - reached, |stack|
    {
      var current := stack[|stack| - 1];
      ghost var before, left := reached, stack[..|stack| - 1];
      assert stack == left + [current];
      stack := stack[..|stack| - 1];
      var next := if current in neighbours then neighbours[current] else {};
      while next != {}
        invariant before <= reached <= Names(ids, edges) && left <= stack
        invariant reached == before ==> stack == left
        invariant forall id :: id in stack ==> id in reached
        invariant forall id :: id in reached && id !in before ==> id in stack
        invariant Sound(ids, edges, reached)
        invariant forall b :: b in next ==> current in ids && Linked(edges, current, b)
        invariant current in ids ==> forall b :: Linked(edges, current, b) ==> b in reached || b in next
        decreases next
      {
        var n :| n in next;
        next := next - {n};
        if n !in reached {
          LinkedNames(ids, edges, current, n);
          SoundGrows(ids, edges, reached, current, n);
          reached := reached + {n};
          stack := stack + [n];
        }
      }
      FrontierMoves(ids, edges, before, left, current, reached, stack);
    }
    ReachedIsJoined(ids, edges, reached);
  }

  lemma ReachedIsJoined(ids: seq<string>, edges: seq<Edge>, reached: set<string>)
    requires ids != [] && ids[0] in reached && Sound(ids, edges, reached) && Frontier(ids, edges, reached, [])
    ensures forall id :: id in ids ==> (id in reached <==> Joined(ids, edges, ids[0], id))
  {
    forall id | id in ids && Joined(ids, edges, ids[0], id) ensures id in reached {
      var p :| Path(ids, edges, p) && p[0] == ids[0] && p[|p| - 1] == id;
      ClosedHoldsPath(ids, edges, reached, p);
    }
  }

  // ---------- The check ----------

  lemma {:induction false} IslandsSnoc(ids: seq<string>, edges: seq<Edge>, start: string, rest: seq<string>, id: string)
    ensures Islands(ids, edges, start, rest + [id]) ==
            Islands(ids, edges, start, rest) + if Joined(ids, edges, start, id) then [] else [id]
  {
    if rest != [] {
      assert (rest + [id])[1..] == rest[1..] + [id];
      IslandsSnoc(ids, edges, start, rest[1..], id);
    } else {
      assert [] + [id] == [id] && [id][1..] == [];
    }
  }

  lemma {:induction false} BackwardSnoc(edges: seq<Edge>, rest: seq<Edge>, e: Edge)
    ensures BackwardRoutes(edges, rest + [e]) == BackwardRoutes(edges, rest) + BackwardRoutes(edges, [e])
  {
    if rest != [] {
      assert (rest + [e])[1..] == rest[1..] + [e];
      BackwardSnoc(edges, rest[1..], e);
    } else {
      assert [] + [e] == [e];
    }
  }

  lemma {:induction false} ScreenFaultsSnoc(model: seq<Route>, screens: seq<Screen>, s: Screen)
    ensures AllScreenFaults(model, screens + [s]) == AllScreenFaults(model, screens) + ScreenFaults(model, s)
  {
    if screens != [] {
      assert (screens + [s])[1..] == screens[1..] + [s];
      ScreenFaultsSnoc(model, screens[1..], s);
    } else {
      assert [] + [s] == [s] && [s][1..] == [];
    }
  }

  method CheckConnection(ids: seq<string>, edges: seq<Edge>) returns (faults: seq<Fault>)
    ensures faults == ConnectionFaults(ids, edges)
  {
    hide Joined;
    faults := [];
    var reached := Reach(ids, edges);
    var islands := [];
    for i := 0 to |ids|
      invariant ids != [] ==> islands == Islands(ids, edges, ids[0], ids[..i])
    {
      assert ids[..i + 1] == ids[..i] + [ids[i]];
      IslandsSnoc(ids, edges, ids[0], ids[..i], ids[i]);
      if ids[i] !in reached { islands := islands + [ids[i]]; }
    }
    assert ids[..|ids|] == ids;
    if ids != [] && islands != [] { faults := [NotConnected(islands)]; }
  }

  method RoutingModelFaults(d: Definition) returns (faults: seq<Fault>)
    ensures faults == Faults(d)
  {
    hide KeyLess, ScreenFaults, ConnectionFaults, EntryFaults, Edges;
    var ids, edges := Ids(d.screens), Edges(d.model);
    faults := CheckConnection(ids, edges);
    faults := faults + EntryFaults(ids, edges);
    ghost var first := faults;
    for i := 0 to |edges|
      invariant faults == first + BackwardRoutes(edges, edges[..i])
    {
      assert edges[..i + 1] == edges[..i] + [edges[i]];
      BackwardSnoc(edges, edges[..i], edges[i]);
      BackwardOne(edges, edges[i]);
      if KeyLess(edges[i].from, edges[i].to) && Edge(edges[i].to, edges[i].from) in edges {
        faults := faults + [BackwardRoute(edges[i].to, edges[i].from)];
      }
    }
    assert edges[..|edges|] == edges;
    if |edges| > 10 { faults := faults + [TooManyBranches(|edges|)]; }
    ghost var second := faults;
    for i := 0 to |d.screens|
      invariant faults == second + AllScreenFaults(d.model, d.screens[..i])
    {
      assert d.screens[..i + 1] == d.screens[..i] + [d.screens[i]];
      ScreenFaultsSnoc(d.model, d.screens[..i], d.screens[i]);
      faults := faults + ScreenFaults(d.model, d.screens[i]);
    }
    assert d.screens[..|d.screens|] == d.screens;
  }

  lemma BackwardOne(edges: seq<Edge>, e: Edge)
    ensures BackwardRoutes(edges, [e]) ==
            if KeyLess(e.from, e.to) && Edge(e.to, e.from) in edges then [BackwardRoute(e.to, e.from)] else []
  {
    assert [e][1..] == [];
  }

  // ---------- What no fault means ----------

  lemma {:induction false} NoIslands(ids: seq<string>, edges: seq<Edge>, start: string, rest: seq<string>)
    ensures Islands(ids, edges, start, rest) == [] <==>
            forall i :: 0 <= i < |rest| ==> Joined(ids, edges, start, rest[i])
  {
    if rest != [] {
      NoIslands(ids, edges, start, rest[1..]);
      assert forall i :: 0 < i < |rest| ==> rest[i] == rest[1..][i - 1];
    }
  }

  lemma PathReversed(ids: seq<string>, edges: seq<Edge>, p: seq<string>)
    requires Path(ids, edges, p)
    ensures var q := seq(|p|, i requires 0 <= i < |p| => p[|p| - 1 - i]); Path(ids, edges, q)
  {
    var q := seq(|p|, i requires 0 <= i < |p| => p[|p| - 1 - i]);
    forall i | 0 <= i < |q| - 1 ensures Linked(edges, q[i], q[i + 1]) {
      assert Linked(edges, p[|p| - 2 - i], p[|p| - 2 - i + 1]);
    }
  }

  lemma JoinedSymmetric(ids: seq<string>, edges: seq<Edge>, a: string, b: string)
    requires Joined(ids, edges, a, b)
    ensures Joined(ids, edges, b, a)
  {
    var p :| Path(ids, edges, p) && p[0] == a && p[|p| - 1] == b;
    PathReversed(ids, edges, p);
    var q := seq(|p|, i requires 0 <= i < |p| => p[|p| - 1 - i]);
    assert q[0] == b && q[|q| - 1] == a;
  }

  lemma JoinedTransitive(ids: seq<string>, edges: seq<Edge>, a: string, b: string, c: string)
    requires Joined(ids, edges, a, b) && Joined(ids, edges, b, c)
    ensures Joined(ids, edges, a, c)
  {
    var p :| Path(ids, edges, p) && p[0] == a && p[|p| - 1] == b;
    var q :| Path(ids, edges, q) && q[0] == b && q[|q| - 1] == c;
    var r := p + q[1..];
    forall i | 0 <= i < |r| - 1 ensures Linked(edges, r[i], r[i + 1]) {
      if i >= |p| - 1 {
        var k := i - (|p| - 1);
        assert Linked(edges, q[k], q[k + 1]);
        assert r[i] == q[k];
      }
    }
    assert Path(ids, edges, r) && r[0] == a && r[|r| - 1] == c;
  }

  lemma ConnectedScreens(ids: seq<string>, edges: seq<Edge>)
    ensures ConnectionFaults(ids, edges) == [] <==>
            forall a, b :: a in ids && b in ids ==> Joined(ids, edges, a, b)
  {
    hide Joined;
    if ids != [] {
      NoIslands(ids, edges, ids[0], ids);
      if ConnectionFaults(ids, edges) != [] {
        var i :| 0 <= i < |ids| && !Joined(ids, edges, ids[0], ids[i]);
        assert ids[0] in ids && ids[i] in ids;
      } else {
        forall a, b | a in ids && b in ids ensures Joined(ids, edges, a, b) {
          JoinedSymmetric(ids, edges, ids[0], a);
          JoinedTransitive(ids, edges, a, ids[0], b);
        }
      }
    }
  }

  lemma ConnectedOnEdges(d: Definition)
    ensures var ids, edges := Ids(d.screens), Edges(d.model);
            (forall islands :: NotConnected(islands) !in Faults(d)) <==>
            forall a, b :: a in ids && b in ids ==> Joined(ids, edges, a, b)
  {
    hide Joined;
    var ids, edges := Ids(d.screens), Edges(d.model);
    OtherFaults(d);
    ConnectedScreens(ids, edges);
    if ConnectionFaults(ids, edges) != [] {
      var islands := Islands(ids, edges, ids[0], ids);
      assert NotConnected(islands) in ConnectionFaults(ids, edges);
      assert NotConnected(islands) in Faults(d);
    }
  }

  lemma {:induction false} BackwardKinds(edges: seq<Edge>, rest: seq<Edge>)
    ensures forall f :: f in BackwardRoutes(edges, rest) ==> f.BackwardRoute?
  {
    if rest != [] { BackwardKinds(edges, rest[1..]); }
  }

  lemma {:induction false} ScreenKinds(model: seq<Route>, screens: seq<Screen>)
    ensures forall f :: f in AllScreenFaults(model, screens) ==> f.DeadEnd? || f.NoFooter? || f.ReservedId?
  {
    if screens != [] { ScreenKinds(model, screens[1..]); }
  }

  lemma OtherFaults(d: Definition)
    ensures var ids, edges := Ids(d.screens), Edges(d.model);
            forall f :: f in Faults(d) && f.NotConnected? ==> f in ConnectionFaults(ids, edges)
  {
    BackwardKinds(Edges(d.model), Edges(d.model));
    ScreenKinds(d.model, d.screens);
  }

  // ---------- What a definition without faults looks like ----------

  ghost predicate Declared(d: Definition, id: string) {
    exists i :: 0 <= i < |d.screens| && d.screens[i].id == id
  }

  ghost predicate Leads(d: Definition, from: string, to: string) {
    exists i :: 0 <= i < |d.model| && d.model[i].from == from && to in d.model[i].tos
  }

  /** A way through declared screens, along routes taken either way. */
  ghost predicate Way(d: Definition, p: seq<string>) {
    && p != []
    && (forall i :: 0 <= i < |p| ==> Declared(d, p[i]))
    && forall i :: 0 <= i < |p| - 1 ==> Leads(d, p[i], p[i + 1]) || Leads(d, p[i + 1], p[i])
  }

  ghost predicate Reachable(d: Definition, a: string, b: string) {
    exists p :: Way(d, p) && p[0] == a && p[|p| - 1] == b
  }

  function Branches(model: seq<Route>): nat {
    if model == [] then 0 else |model[0].tos| + Branches(model[1..])
  }

  /** The first entry of the screen, if there is one, names a screen to go on to. */
  ghost predicate GoesOn(model: seq<Route>, id: string) {
    exists i :: 0 <= i < |model| && model[i].from == id && model[i].tos != []
                && forall j :: 0 <= j < i ==> model[j].from != id
  }

  /** What Meta asks of a routing model. */
  ghost predicate RoutingSound(d: Definition) {
    && (forall a, b :: Declared(d, a) && Declared(d, b) ==> Reachable(d, a, b))
    && (exists id :: Declared(d, id) && forall r :: r in d.model ==> id !in r.tos)
    && (forall a, b :: a != b && Leads(d, a, b) ==> !Leads(d, b, a))
    && Branches(d.model) <= 10
    && forall s :: s in d.screens ==>
         (if s.terminal then "Footer" in s.children else GoesOn(d.model, s.id)) && s.id != "SUCCESS"
  }

  /** The same, said of the list of edges. */
  ghost predicate EdgesSound(d: Definition) {
    var ids, edges := Ids(d.screens), Edges(d.model);
    && (forall a, b :: a in ids && b in ids ==> Joined(ids, edges, a, b))
    && (exists id :: id in ids && !HasInbound(edges, id))
    && (forall e :: e in edges && e.from != e.to ==> Edge(e.to, e.from) !in edges)
    && |edges| <= 10
    && forall s :: s in d.screens ==> SoundScreen(d.model, s)
  }

  predicate SoundScreen(model: seq<Route>, s: Screen) {
    && (if s.terminal then "Footer" in s.children else Onward(model, s.id) != [])
    && s.id != "SUCCESS"
  }

  lemma SoundScreenExactly(model: seq<Route>, s: Screen)
    ensures ScreenFaults(model, s) == [] <==> SoundScreen(model, s)
  {
  }

  lemma {:induction false} SoundScreens(model: seq<Route>, screens: seq<Screen>)
    ensures AllScreenFaults(model, screens) == [] <==> forall s :: s in screens ==> SoundScreen(model, s)
  {
    hide ScreenFaults, SoundScreen;
    if screens != [] {
      SoundScreenExactly(model, screens[0]);
      SoundScreens(model, screens[1..]);
      assert screens == [screens[0]] + screens[1..];
    }
  }

  lemma {:induction false} ForwardOnly(edges: seq<Edge>, rest: seq<Edge>)
    ensures BackwardRoutes(edges, rest) == [] <==>
            forall e :: e in rest && KeyLess(e.from, e.to) ==> Edge(e.to, e.from) !in edges
  {
    hide KeyLess;
    if rest != [] {
      ForwardOnly(edges, rest[1..]);
      assert rest == [rest[0]] + rest[1..];
    }
  }

  /** One order of each pair of names is looked at, and that is enough. */
  lemma NoTwoCyclesExactly(edges: seq<Edge>)
    ensures BackwardRoutes(edges, edges) == [] <==>
            forall e :: e in edges && e.from != e.to ==> Edge(e.to, e.from) !in edges
  {
    ForwardOnly(edges, edges);
    forall e | e in edges
      ensures KeyLess(e.from, e.to) || e.from == e.to || KeyLess(e.to, e.from)
      ensures !KeyLess(e.from, e.from)
    {
      KeyLessTotal(e.from, e.to);
      KeyLessTotal(e.from, e.from);
    }
    hide BackwardRoutes, KeyLess;
    forall e | e in edges && e.from != e.to && BackwardRoutes(edges, edges) == [] ensures Edge(e.to, e.from) !in edges {
      var back := Edge(e.to, e.from);
      assert back in edges ==> KeyLess(e.from, e.to) || KeyLess(back.from, back.to);
    }
  }

  lemma NoFaultsOnEdges(d: Definition)
    ensures Faults(d) == [] <==> EdgesSound(d)
  {
    hide Joined, HasInbound, SoundScreen, BackwardRoutes, AllScreenFaults, Edges, Ids;
    var ids, edges := Ids(d.screens), Edges(d.model);
    ConnectedScreens(ids, edges);
    EntryExactly(ids, edges);
    NoTwoCyclesExactly(edges);
    SoundScreens(d.model, d.screens);
    hide ConnectionFaults, EntryFaults;
  }

  lemma EntryExactly(ids: seq<string>, edges: seq<Edge>)
    ensures EntryFaults(ids, edges) == [] <==> exists id :: id in ids && !HasInbound(edges, id)
  {
    hide HasInbound;
    if i :| 0 <= i < |ids| && !HasInbound(edges, ids[i]) { assert ids[i] in ids; }
  }

  // ---------- The edges are the routes ----------

  lemma DeclaredIs(d: Definition, id: string)
    ensures id in Ids(d.screens) <==> Declared(d, id)
  {
    var ids := Ids(d.screens);
    if Declared(d, id) {
      var i :| 0 <= i < |d.screens| && d.screens[i].id == id;
      assert ids[i] == id;
    }
  }

  lemma {:induction false} EdgesAre(model: seq<Route>, e: Edge)
    ensures e in Edges(model) <==> exists i :: 0 <= i < |model| && model[i].from == e.from && e.to in model[i].tos
    ensures |Edges(model)| == Branches(model)
  {
    if model != [] {
      var first, rest := EdgesFrom(model[0].from, model[0].tos), Edges(model[1..]);
      EdgesAre(model[1..], e);
      FirstEdges(model[0], e);
      assert e in Edges(model) <==> e in first || e in rest;
      if e in rest {
        var i :| 0 <= i < |model[1..]| && model[1..][i].from == e.from && e.to in model[1..][i].tos;
        assert model[i + 1] == model[1..][i];
      }
      if i :| 0 <= i < |model| && model[i].from == e.from && e.to in model[i].tos {
        if i > 0 { assert model[1..][i - 1] == model[i]; }
      }
    }
  }

  lemma FirstEdges(r: Route, e: Edge)
    ensures e in EdgesFrom(r.from, r.tos) <==> r.from == e.from && e.to in r.tos
  {
    var first := EdgesFrom(r.from, r.tos);
    if r.from == e.from && e.to in r.tos {
      var k :| 0 <= k < |r.tos| && r.tos[k] == e.to;
      assert first[k] == e;
    }
  }

  lemma LeadsIs(d: Definition, a: string, b: string)
    ensures Edge(a, b) in Edges(d.model) <==> Leads(d, a, b)
  {
    hide Edges;
    EdgesAre(d.model, Edge(a, b));
  }

  lemma WayIs(d: Definition, p: seq<string>)
    ensures Path(Ids(d.screens), Edges(d.model), p) <==> Way(d, p)
  {
    hide Edges, Ids, Declared, Leads;
    forall id ensures id in Ids(d.screens) <==> Declared(d, id) { DeclaredIs(d, id); }
    forall a, b ensures Linked(Edges(d.model), a, b) <==> Leads(d, a, b) || Leads(d, b, a) {
      LeadsIs(d, a, b);
      LeadsIs(d, b, a);
    }
  }

  lemma ReachableIs(d: Definition, a: string, b: string)
    ensures Joined(Ids(d.screens), Edges(d.model), a, b) <==> Reachable(d, a, b)
  {
    hide Path, Way, Edges, Ids;
    forall p ensures Path(Ids(d.screens), Edges(d.model), p) <==> Way(d, p) { WayIs(d, p); }
    WaysNotEmpty(d);
  }

  lemma WaysNotEmpty(d: Definition)
    ensures forall p :: Way(d, p) || Path(Ids(d.screens), Edges(d.model), p) ==> p != []
  {
    hide Edges, Ids;
  }

  lemma InboundIs(d: Definition, id: string)
    ensures HasInbound(Edges(d.model), id) <==> exists r :: r in d.model && id in r.tos
  {
    hide Edges;
    var edges := Edges(d.model);
    if HasInbound(edges, id) {
      var k :| 0 <= k < |edges| && edges[k].to == id;
      EdgesAre(d.model, edges[k]);
      assert edges[k] in edges;
      var i :| 0 <= i < |d.model| && d.model[i].from == edges[k].from && id in d.model[i].tos;
      assert d.model[i] in d.model;
    }
    if r :| r in d.model && id in r.tos {
      EdgesAre(d.model, Edge(r.from, id));
    }
  }

  lemma {:induction false} GoesOnIs(model: seq<Route>, id: string)
    ensures Onward(model, id) != [] <==> GoesOn(model, id)
  {
    if model != [] {
      GoesOnIs(model[1..], id);
      if model[0].from == id {
        assert GoesOn(model, id) <==> model[0].tos != [];
      } else {
        if GoesOn(model[1..], id) {
          var i :| 0 <= i < |model[1..]| && model[1..][i].from == id && model[1..][i].tos != []
                   && forall j :: 0 <= j < i ==> model[1..][j].from != id;
          assert model[i + 1] == model[1..][i];
          forall j | 0 <= j < i + 1 ensures model[j].from != id { if j > 0 { assert model[j] == model[1..][j - 1]; } }
        }
        if GoesOn(model, id) {
          var i :| 0 <= i < |model| && model[i].from == id && model[i].tos != []
                   && forall j :: 0 <= j < i ==> model[j].from != id;
          assert model[1..][i - 1] == model[i];
          forall j | 0 <= j < i - 1 ensures model[1..][j].from != id { assert model[1..][j] == model[j + 1]; }
        }
      }
    }
  }

  lemma EdgesSoundExactly(d: Definition)
    ensures EdgesSound(d) <==> RoutingSound(d)
  {
    var ids, edges := Ids(d.screens), Edges(d.model);
    hide Edges, Ids, Declared, Leads, Reachable, Joined, HasInbound, Onward, GoesOn, Branches;
    forall id ensures id in ids <==> Declared(d, id) { DeclaredIs(d, id); }
    forall a, b ensures Joined(ids, edges, a, b) <==> Reachable(d, a, b) { ReachableIs(d, a, b); }
    forall a, b ensures Edge(a, b) in edges <==> Leads(d, a, b) { LeadsIs(d, a, b); }
    forall id ensures HasInbound(edges, id) <==> exists r :: r in d.model && id in r.tos { InboundIs(d, id); }
    forall id ensures Onward(d.model, id) != [] <==> GoesOn(d.model, id) { GoesOnIs(d.model, id); }
    EdgesAre(d.model, Edge("", ""));
    ForwardEdges(d, edges);
  }

  lemma ForwardEdges(d: Definition, edges: seq<Edge>)
    requires forall a, b :: Edge(a, b) in edges <==> Leads(d, a, b)
    ensures (forall e :: e in edges && e.from != e.to ==> Edge(e.to, e.from) !in edges) <==>
            forall a, b :: a != b && Leads(d, a, b) ==> !Leads(d, b, a)
  {
    hide Leads;
    if forall e :: e in edges && e.from != e.to ==> Edge(e.to, e.from) !in edges {
      forall a, b | a != b && Leads(d, a, b) ensures !Leads(d, b, a) { assert Edge(a, b) in edges; }
    }
    if forall a, b :: a != b && Leads(d, a, b) ==> !Leads(d, b, a) {
      forall e | e in edges && e.from != e.to ensures Edge(e.to, e.from) !in edges { assert e == Edge(e.from, e.to); }
    }
  }

  /** The connectivity fault is absent exactly when every two declared screens are joined. */
  lemma ConnectedExactly(d: Definition)
    ensures (forall islands :: NotConnected(islands) !in Faults(d)) <==>
            forall a, b :: Declared(d, a) && Declared(d, b) ==> Reachable(d, a, b)
  {
    hide Faults, Edges, Ids, Declared, Reachable, Joined;
    ConnectedOnEdges(d);
    forall id ensures id in Ids(d.screens) <==> Declared(d, id) { DeclaredIs(d, id); }
    forall a, b ensures Joined(Ids(d.screens), Edges(d.model), a, b) <==> Reachable(d, a, b) { ReachableIs(d, a, b); }
  }

  /** `model[id] ?? []`: the targets of the screen's first entry, none without one. */
  lemma {:induction false} OnwardExactly(model: seq<Route>, id: string, i: nat)
    requires i <= |model| && (forall j :: 0 <= j < i ==> model[j].from != id) && (i < |model| ==> model[i].from == id)
    ensures Onward(model, id) == if i < |model| then model[i].tos else []
  {
    if i > 0 { OnwardExactly(model[1..], id, i - 1); }
  }

  /** A definition has no fault exactly when its routing is what Meta asks. */
  lemma FaultlessExactly(d: Definition)
    ensures Faults(d) == [] <==> RoutingSound(d)
  {
    hide Faults, EdgesSound, RoutingSound;
    NoFaultsOnEdges(d);
    EdgesSoundExactly(d);
  }

  // ---------- What each fault says ----------

  /** The declared screens, in order, that no way joins to the first. */
  ghost function CutOff(d: Definition, n: nat): seq<string>
    requires n <= |d.screens|
  {
    if n == 0 then []
    else
      CutOff(d, n - 1)
      + if Reachable(d, d.screens[0].id, d.screens[n - 1].id) then [] else [d.screens[n - 1].id]
  }

  /** Why a fault is reported. */
  ghost predicate Deserved(d: Definition, f: Fault) {
    match f
    case NotConnected(islands) => islands == CutOff(d, |d.screens|) && islands != []
    case NoEntryScreen => forall id :: Declared(d, id) ==> exists r :: r in d.model && id in r.tos
    case BackwardRoute(to, from) => KeyLess(from, to) && Leads(d, from, to) && Leads(d, to, from)
    case TooManyBranches(count) => count == Branches(d.model) && count > 10
    case DeadEnd(id) => exists s :: s in d.screens && s.id == id && !s.terminal && !GoesOn(d.model, id)
    case NoFooter(id) => exists s :: s in d.screens && s.id == id && s.terminal && "Footer" !in s.children
    case ReservedId => Declared(d, "SUCCESS")
  }

  lemma {:induction false} IslandsAre(d: Definition, n: nat)
    requires 0 < |d.screens| && n <= |d.screens|
    ensures Islands(Ids(d.screens), Edges(d.model), Ids(d.screens)[0], Ids(d.screens)[..n]) == CutOff(d, n)
  {
    hide Edges, Joined, Reachable;
    var ids, edges := Ids(d.screens), Edges(d.model);
    if n > 0 {
      IslandsAre(d, n - 1);
      assert ids[..n] == ids[..n - 1] + [ids[n - 1]];
      IslandsSnoc(ids, edges, ids[0], ids[..n - 1], ids[n - 1]);
      ReachableIs(d, ids[0], ids[n - 1]);
    }
  }

  lemma {:induction false} BackwardIs(edges: seq<Edge>, rest: seq<Edge>, f: Fault)
    ensures f in BackwardRoutes(edges, rest) <==>
            f.BackwardRoute? && KeyLess(f.from, f.to) && Edge(f.from, f.to) in rest && Edge(f.to, f.from) in edges
  {
    hide KeyLess;
    if rest != [] {
      BackwardIs(edges, rest[1..], f);
      assert rest == [rest[0]] + rest[1..];
      assert f.BackwardRoute? ==> (rest[0] == Edge(f.from, f.to) <==> rest[0].from == f.from && rest[0].to == f.to);
    }
  }

  ghost predicate OfScreen(model: seq<Route>, s: Screen, f: Fault) {
    match f
    case DeadEnd(id) => s.id == id && !s.terminal && !GoesOn(model, id)
    case NoFooter(id) => s.id == id && s.terminal && "Footer" !in s.children
    case ReservedId => s.id == "SUCCESS"
    case _ => false
  }

  lemma OfScreenIs(model: seq<Route>, s: Screen, f: Fault)
    ensures f in ScreenFaults(model, s) <==> OfScreen(model, s, f)
  {
    hide GoesOn, Onward;
    GoesOnIs(model, s.id);
  }

  lemma {:induction false} ScreenFaultIs(model: seq<Route>, screens: seq<Screen>, f: Fault)
    ensures f in AllScreenFaults(model, screens) <==> exists s :: s in screens && OfScreen(model, s, f)
  {
    hide ScreenFaults, OfScreen;
    if screens != [] {
      OfScreenIs(model, screens[0], f);
      ScreenFaultIs(model, screens[1..], f);
      assert screens == [screens[0]] + screens[1..];
    }
  }

  lemma ConnectionIs(d: Definition, f: Fault)
    ensures f in ConnectionFaults(Ids(d.screens), Edges(d.model)) <==> f.NotConnected? && Deserved(d, f)
  {
    hide Islands, Edges, Reachable;
    var ids := Ids(d.screens);
    if d.screens != [] {
      IslandsAre(d, |d.screens|);
      assert ids[..|d.screens|] == ids;
    }
  }

  lemma EntryIs(d: Definition, f: Fault)
    ensures f in EntryFaults(Ids(d.screens), Edges(d.model)) <==> f.NoEntryScreen? && Deserved(d, f)
  {
    hide Edges, Ids, HasInbound, Declared;
    var ids, edges := Ids(d.screens), Edges(d.model);
    forall id ensures id in ids <==> Declared(d, id) { DeclaredIs(d, id); }
    forall id ensures HasInbound(edges, id) <==> exists r :: r in d.model && id in r.tos { InboundIs(d, id); }
    if forall id :: Declared(d, id) ==> exists r :: r in d.model && id in r.tos {
      forall i | 0 <= i < |ids| ensures HasInbound(edges, ids[i]) { assert ids[i] in ids; }
    }
  }

  lemma ReservedIs(d: Definition)
    ensures Declared(d, "SUCCESS") <==> exists s :: s in d.screens && OfScreen(d.model, s, ReservedId)
  {
    if Declared(d, "SUCCESS") {
      var i :| 0 <= i < |d.screens| && d.screens[i].id == "SUCCESS";
      assert d.screens[i] in d.screens && OfScreen(d.model, d.screens[i], ReservedId);
    }
  }

  /** Exactly the faults there are reasons for are reported. */
  lemma FaultsExactly(d: Definition, f: Fault)
    ensures f in Faults(d) <==> Deserved(d, f)
  {
    var ids, edges := Ids(d.screens), Edges(d.model);
    hide Ids, Edges, ConnectionFaults, EntryFaults, BackwardRoutes, AllScreenFaults, KeyLess, Leads, GoesOn, Declared,
         CutOff;
    ConnectionIs(d, f);
    EntryIs(d, f);
    BackwardIs(edges, edges, f);
    ScreenFaultIs(d.model, d.screens, f);
    ReservedIs(d);
    EdgesAre(d.model, Edge("", ""));
    if f.BackwardRoute? {
      LeadsIs(d, f.from, f.to);
      LeadsIs(d, f.to, f.from);
    }
  }

  // ---------- Ten branches hold at most eleven screens together ----------

  ghost function IdSet(ids: seq<string>): set<string> {
    set i | 0 <= i < |ids| :: ids[i]
  }

  /** Edges, by position, that lie inside a set of screens: one fewer than the screens they connect. */
  ghost predicate Tree(ids: seq<string>, edges: seq<Edge>, held: set<string>, used: set<nat>) {
    && held != {} && held <= IdSet(ids)
    && |held| == |used| + 1
    && forall k :: k in used ==> k < |edges| && edges[k].from in held && edges[k].to in held
  }

  /** A path that leaves a set crosses its border somewhere. */
  lemma {:induction false} Crossing(ids: seq<string>, edges: seq<Edge>, held: set<string>, p: seq<string>)
    returns (i: nat)
    requires Path(ids, edges, p) && p[0] in held && p[|p| - 1] !in held
    ensures i + 1 < |p| && p[i] in held && p[i + 1] !in held
  {
    i := 0;
    while p[i + 1] in held
      invariant i + 1 < |p| && p[i] in held
      decreases |p| - i
    {
      i := i + 1;
    }
  }

  lemma {:induction false} TreeGrows(ids: seq<string>, edges: seq<Edge>, held: set<string>, used: set<nat>)
    requires Tree(ids, edges, held, used)
    requires forall a, b :: a in ids && b in ids ==> Joined(ids, edges, a, b)
    ensures |IdSet(ids)| <= |edges| + 1
    decreases IdSet(ids) - held
  {
    if IdSet(ids) <= held {
      assert held == IdSet(ids);
      UsedBound(used, |edges|);
    } else {
      var a :| a in held;
      var b :| b in IdSet(ids) && b !in held;
      assert Joined(ids, edges, a, b);
      var p :| Path(ids, edges, p) && p[0] == a && p[|p| - 1] == b;
      var i := Crossing(ids, edges, held, p);
      assert Linked(edges, p[i], p[i + 1]);
      var e := if Edge(p[i], p[i + 1]) in edges then Edge(p[i], p[i + 1]) else Edge(p[i + 1], p[i]);
      var k: nat :| k < |edges| && edges[k] == e;
      assert p[i + 1] in ids;
      TreeGrows(ids, edges, held + {p[i + 1]}, used + {k});
    }
  }

  lemma {:induction false} UsedBound(used: set<nat>, n: nat)
    requires forall k :: k in used ==> k < n
    ensures |used| <= n
  {
    if n == 0 {
      if k :| k in used { assert false; }
    } else {
      UsedBound(used - {n - 1}, n - 1);
    }
  }

  lemma FewBranches(d: Definition)
    requires Faults(d) == []
    ensures |Edges(d.model)| <= 10
  {
    hide ConnectionFaults, EntryFaults, BackwardRoutes, AllScreenFaults, Edges;
  }

  lemma DeclaredSet(d: Definition)
    ensures IdSet(Ids(d.screens)) == set s | s in d.screens :: s.id
  {
    var ids, names := Ids(d.screens), set s | s in d.screens :: s.id;
    forall id | id in IdSet(ids) ensures id in names {
      var i :| 0 <= i < |ids| && ids[i] == id;
      assert d.screens[i] in d.screens;
    }
    forall id | id in names ensures id in IdSet(ids) {
      var i :| 0 <= i < |d.screens| && d.screens[i].id == id;
      assert ids[i] == id;
    }
  }

  /** No fault means at most eleven screens: ten branches cannot connect more. */
  lemma AtMostElevenScreens(d: Definition)
    requires Faults(d) == []
    ensures |set s | s in d.screens :: s.id| <= 11
  {
    DeclaredSet(d);
    var ids, edges := Ids(d.screens), Edges(d.model);
    ConnectedOnEdges(d);
    FewBranches(d);
    hide Faults, Edges, Joined;
    if ids != [] {
      assert {ids[0]} <= IdSet(ids);
      TreeGrows(ids, edges, {ids[0]}, {});
    }
  }

  // ---------- Forward walks ----------

  /** A walk along the routes, each screen naming the next. */
  ghost predicate Walk(d: Definition, p: seq<string>) {
    && p != [] && p[0] in Ids(d.screens)
    && forall i :: 0 <= i < |p| - 1 ==> p[i + 1] in Onward(d.model, p[i])
  }

  /** Every route targets a declared screen, which `validate` checks beside the routing model. */
  ghost predicate RoutesInside(d: Definition) {
    forall id, to :: id in Ids(d.screens) && to in Onward(d.model, id) ==> to in Ids(d.screens)
  }

  ghost predicate Acyclic(d: Definition) {
    forall p :: Walk(d, p) && |p| > 1 ==> p[0] != p[|p| - 1]
  }

  /** The last screen of the walk has no onward route, is terminal and carries a Footer. */
  ghost predicate Ends(d: Definition, p: seq<string>)
    requires p != []
  {
    && Onward(d.model, p[|p| - 1]) == []
    && forall s :: s in d.screens && s.id == p[|p| - 1] ==> s.terminal && "Footer" in s.children
  }

  lemma {:induction false} ScreensClean(model: seq<Route>, screens: seq<Screen>)
    requires AllScreenFaults(model, screens) == []
    ensures forall s :: s in screens ==> ScreenFaults(model, s) == []
  {
    if screens != [] {
      ScreensClean(model, screens[1..]);
    }
  }

  lemma {:induction false} WalkInside(d: Definition, p: seq<string>, i: nat)
    requires Walk(d, p) && RoutesInside(d) && i < |p|
    ensures p[i] in Ids(d.screens)
  {
    if i > 0 {
      WalkInside(d, p, i - 1);
      assert p[i - 1 + 1] in Onward(d.model, p[i - 1]);
    }
  }

  /** In a faultless definition a walk that cannot go on has reached a terminal screen with a Footer. */
  lemma StuckWalksEnd(d: Definition, p: seq<string>)
    requires Faults(d) == [] && Walk(d, p) && Onward(d.model, p[|p| - 1]) == []
    ensures Ends(d, p)
  {
    ScreensClean(d.model, d.screens);
    forall s | s in d.screens && s.id == p[|p| - 1] ensures s.terminal && "Footer" in s.children {
      assert ScreenFaults(d.model, s) == [];
    }
  }

  lemma SubWalk(d: Definition, p: seq<string>, i: nat, j: nat)
    requires Walk(d, p) && RoutesInside(d) && i < j < |p|
    ensures Walk(d, p[i..j + 1])
  {
    WalkInside(d, p, i);
    var q := p[i..j + 1];
    forall k | 0 <= k < |q| - 1 ensures q[k + 1] in Onward(d.model, q[k]) {
      assert p[i + k + 1] in Onward(d.model, p[i + k]);
    }
  }

  lemma {:induction false} DistinctBound(ids: seq<string>, p: seq<string>)
    requires forall i, j :: 0 <= i < j < |p| ==> p[i] != p[j]
    requires forall i :: 0 <= i < |p| ==> p[i] in ids
    ensures |p| <= |IdSet(ids)|
  {
    DistinctSize(p);
    SubsetSize(IdSet(p), IdSet(ids));
  }

  lemma {:induction false} DistinctSize(p: seq<string>)
    requires forall i, j :: 0 <= i < j < |p| ==> p[i] != p[j]
    ensures |IdSet(p)| == |p|
  {
    if p == [] {
      assert IdSet(p) == {};
    } else {
      var init := p[..|p| - 1];
      DistinctSize(init);
      assert IdSet(p) == IdSet(init) + {p[|p| - 1]} by {
        forall x | x in IdSet(p) ensures x in IdSet(init) + {p[|p| - 1]} {
          var i :| 0 <= i < |p| && p[i] == x;
          if i < |init| { assert init[i] == x; }
        }
        forall x | x in IdSet(init) ensures x in IdSet(p) {
          var i :| 0 <= i < |init| && init[i] == x;
          assert p[i] == x;
        }
      }
      assert p[|p| - 1] !in IdSet(init);
    }
  }

  lemma AcyclicBound(d: Definition, p: seq<string>)
    requires Walk(d, p) && RoutesInside(d) && Acyclic(d)
    ensures |p| <= |IdSet(Ids(d.screens))|
  {
    forall i, j | 0 <= i < j < |p| ensures p[i] != p[j] {
      SubWalk(d, p, i, j);
      var q := p[i..j + 1];
      assert q[0] == p[i] && q[|q| - 1] == p[j];
    }
    forall i | 0 <= i < |p| ensures p[i] in Ids(d.screens) {
      WalkInside(d, p, i);
    }
    DistinctBound(Ids(d.screens), p);
  }

  /** Without cycles, wherever a walk has got to it can be continued to an end, and cannot avoid one. */
  lemma {:induction false} EveryWalkReachesAnEnd(d: Definition, p: seq<string>) returns (q: seq<string>)
    requires Faults(d) == [] && RoutesInside(d) && Acyclic(d) && Walk(d, p)
    ensures Walk(d, q) && p <= q && Ends(d, q)
    decreases |IdSet(Ids(d.screens))| - |p|
  {
    AcyclicBound(d, p);
    var last := p[|p| - 1];
    if Onward(d.model, last) == [] {
      StuckWalksEnd(d, p);
      q := p;
    } else {
      var next := p + [Onward(d.model, last)[0]];
      assert Walk(d, next);
      AcyclicBound(d, next);
      q := EveryWalkReachesAnEnd(d, next);
    }
  }

  ghost function Repeat(c: seq<string>, n: nat): seq<string>
    requires |c| > 1
  {
    if n == 0 then c else c + Repeat(c, n - 1)[1..]
  }

  lemma {:induction false} RepeatWalks(d: Definition, c: seq<string>, n: nat)
    requires Walk(d, c) && |c| > 1 && c[0] == c[|c| - 1]
    ensures Walk(d, Repeat(c, n)) && |Repeat(c, n)| > n + 1 && Repeat(c, n)[0] == c[0]
  {
    if n > 0 {
      RepeatWalks(d, c, n - 1);
      var r := Repeat(c, n - 1);
      var w := c + r[1..];
      forall i | 0 <= i < |w| - 1 ensures w[i + 1] in Onward(d.model, w[i]) {
        if i >= |c| - 1 {
          var k := i - (|c| - 1);
          assert r[k + 1] in Onward(d.model, r[k]);
          assert w[i] == r[k];
        }
      }
    }
  }

  ghost predicate NoWalkLonger(d: Definition, n: nat) {
    forall p :: Walk(d, p) ==> |p| <= n
  }

  /** Every route ends exactly when there is no cycle, of any length. */
  lemma WalksEndExactlyWhenAcyclic(d: Definition)
    requires RoutesInside(d)
    ensures (exists n: nat :: NoWalkLonger(d, n)) <==> Acyclic(d)
  {
    if Acyclic(d) {
      var n := |IdSet(Ids(d.screens))|;
      forall p | Walk(d, p) ensures |p| <= n { AcyclicBound(d, p); }
      assert NoWalkLonger(d, n);
    } else {
      var c :| Walk(d, c) && |c| > 1 && c[0] == c[|c| - 1];
      forall n: nat ensures !NoWalkLonger(d, n) {
        RepeatWalks(d, c, n);
      }
    }
  }

  /** The check passes a cycle of three: E to A, A to B, B to C, C back to A and out to T. */
  function ThreeCycle(): Definition {
    Definition(
      [Screen("E", false, []), Screen("A", false, []), Screen("B", false, []), Screen("C", false, []),
       Screen("T", true, ["Footer"])],
      [Route("E", ["A"]), Route("A", ["B"]), Route("B", ["C"]), Route("C", ["A", "T"]), Route("T", [])])
  }

  lemma ThreeCycleEdges()
    ensures Edges(ThreeCycle().model)
            == [Edge("E", "A"), Edge("A", "B"), Edge("B", "C"), Edge("C", "A"), Edge("C", "T")]
    ensures Ids(ThreeCycle().screens) == ["E", "A", "B", "C", "T"]
  {
    var m := ThreeCycle().model;
    assert m[1..][1..] == m[2..] && m[2..][1..] == m[3..] && m[3..][1..] == m[4..] && m[4..][1..] == [];
    assert Edges(m[4..]) == [];
    assert Edges(m[3..]) == [Edge("C", "A"), Edge("C", "T")];
    assert Edges(m[2..]) == [Edge("B", "C")] + Edges(m[3..]);
    assert Edges(m[1..]) == [Edge("A", "B")] + Edges(m[2..]);
  }

  /** Screens linked each to the next are all joined to the first. */
  lemma ChainJoins(ids: seq<string>, edges: seq<Edge>)
    requires forall i :: 0 < i < |ids| ==> Linked(edges, ids[i - 1], ids[i])
    ensures forall i :: 0 <= i < |ids| ==> Joined(ids, edges, ids[0], ids[i])
  {
    hide Linked;
    forall i | 0 <= i < |ids| ensures Joined(ids, edges, ids[0], ids[i]) {
      var p := ids[..i + 1];
      assert forall k :: 0 < k < |p| ==> Linked(edges, p[k - 1], p[k]);
      assert Path(ids, edges, p) && p[0] == ids[0] && p[|p| - 1] == ids[i];
    }
  }

  lemma ThreeCycleConnected()
    ensures ConnectionFaults(Ids(ThreeCycle().screens), Edges(ThreeCycle().model)) == []
  {
    ThreeCycleEdges();
    var ids, edges := Ids(ThreeCycle().screens), Edges(ThreeCycle().model);
    assert Linked(edges, "E", "A") && Linked(edges, "A", "B") && Linked(edges, "B", "C") && Linked(edges, "C", "T");
    ChainJoins(ids, edges);
    hide Edges, Ids, ThreeCycle, Joined, Linked;
    NoIslands(ids, edges, "E", ids);
  }

  lemma ThreeCycleForward()
    ensures BackwardRoutes(Edges(ThreeCycle().model), Edges(ThreeCycle().model)) == []
  {
    hide Edges, Ids, ThreeCycle, BackwardRoutes;
    ThreeCycleEdges();
    var edges := Edges(ThreeCycle().model);
    forall e | e in edges ensures Edge(e.to, e.from) !in edges {
      assert e.from[0] != e.to[0];
    }
    NoneBackward(edges, edges);
  }

  lemma {:induction false} NoneBackward(edges: seq<Edge>, rest: seq<Edge>)
    requires forall e :: e in rest ==> Edge(e.to, e.from) !in edges
    ensures BackwardRoutes(edges, rest) == []
  {
    if rest != [] {
      assert rest[0] in rest;
      NoneBackward(edges, rest[1..]);
    }
  }

  lemma {:induction false} AllClean(model: seq<Route>, screens: seq<Screen>)
    requires forall i :: 0 <= i < |screens| ==> ScreenFaults(model, screens[i]) == []
    ensures AllScreenFaults(model, screens) == []
  {
    if screens != [] { AllClean(model, screens[1..]); }
  }

  lemma ThreeCycleScreens()
    ensures AllScreenFaults(ThreeCycle().model, ThreeCycle().screens) == []
  {
    var m := ThreeCycle().model;
    assert m[1..][0] == m[1] && m[1..][1..][0] == m[2] && m[1..][1..][1..][0] == m[3]
           && m[1..][1..][1..][1..][0] == m[4];
    assert Onward(m, "E") == ["A"];
    assert Onward(m, "A") == Onward(m[1..], "A") == ["B"];
    assert Onward(m, "B") == Onward(m[1..], "B") == Onward(m[1..][1..], "B") == ["C"];
    assert Onward(m, "C") == Onward(m[1..], "C") == Onward(m[1..][1..], "C") == Onward(m[1..][1..][1..], "C")
           == ["A", "T"];
    AllClean(m, ThreeCycle().screens);
  }

  /** Only two-cycles are rejected: a faultless definition can still walk in circles. */
  lemma ThreeCyclesPass()
    ensures Faults(ThreeCycle()) == [] && !Acyclic(ThreeCycle())
  {
    hide Edges, Ids, ThreeCycle, ConnectionFaults, BackwardRoutes, AllScreenFaults, Walk;
    ThreeCycleEdges();
    ThreeCycleConnected();
    ThreeCycleForward();
    ThreeCycleScreens();
    assert !HasInbound(Edges(ThreeCycle().model), Ids(ThreeCycle().screens)[0]);
    var c := ["A", "B", "C", "A"];
    ThreeCycleWalk(c);
  }

  lemma ThreeCycleWalk(c: seq<string>)
    requires c == ["A", "B", "C", "A"]
    ensures Walk(ThreeCycle(), c)
  {
    var m := ThreeCycle().model;
    ThreeCycleEdges();
    assert m[1..][0] == m[1] && m[1..][1..][0] == m[2] && m[1..][1..][1..][0] == m[3];
    assert Onward(m, "A") == Onward(m[1..], "A") == ["B"];
    assert Onward(m, "B") == Onward(m[1..], "B") == Onward(m[1..][1..], "B") == ["C"];
    assert Onward(m, "C") == Onward(m[1..], "C") == Onward(m[1..][1..], "C") == Onward(m[1..][1..][1..], "C")
           == ["A", "T"];
    assert Ids(ThreeCycle().screens)[1] == "A";
  }
}
