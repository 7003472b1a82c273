/** `validate`: everything a form definition must satisfy before it is sent. */
module FlowValidation {
  import opened Options
  import opened CanonicalJson
  import opened FlowComponents
  import FlowChecker

  datatype DataField = DataField(name: string, hasExample: bool)

  datatype FormScreen = FormScreen(id: string, terminal: bool, data: seq<DataField>, children: seq<Value>)

  datatype Form = Form(screens: seq<FormScreen>, model: seq<FlowChecker.Route>)

  datatype Complaint =
    | Unrouted(id: string)
    | BadRoute(route: FlowChecker.Edge)
    | NoTerminal
    | NoExample(id: string, field: string)
    | Property(gap: Gap)
    | Routing(fault: FlowChecker.Fault)

  /** A component's type, as the search for a Footer compares it. */
  function TypeOf(v: Value): string {
    match Kind(v)
    case Some(s) => s
    case None => ""
  }

  /** What the routing check reads of a definition. */
  function Outline(d: Form): FlowChecker.Definition {
    FlowChecker.Definition(
      seq(|d.screens|, i requires 0 <= i < |d.screens| => OutlineScreen(d.screens[i])), d.model)
  }

  function OutlineScreen(s: FormScreen): FlowChecker.Screen {
    FlowChecker.Screen(s.id, s.terminal,
      seq(|s.children|, k requires 0 <= k < |s.children| => TypeOf(s.children[k])))
  }

  predicate Routed(model: seq<FlowChecker.Route>, id: string) {
    exists i :: 0 <= i < |model| && model[i].from == id
  }

  predicate GoodRoute(ids: seq<string>, e: FlowChecker.Edge) {
    e.to in ids && e.to != e.from
  }

  // ---------- What makes a definition publishable, independent of how it is checked ----------

  ghost predicate CompleteScreen(s: FormScreen) {
    CompleteThroughout(Arr(s.children))
  }

  predicate Exemplified(s: FormScreen) {
    forall f :: f in s.data ==> f.hasExample
  }

  ghost predicate Publishable(d: Form) {
    && (forall s :: s in d.screens ==>
          && (exists r :: r in d.model && r.from == s.id)
          && (forall f :: f in s.data ==> f.hasExample) && CompleteScreen(s))
    && (forall r, to :: r in d.model && to in r.tos ==> to != r.from && exists s :: s in d.screens && s.id == to)
    && (exists s :: s in d.screens && s.terminal)
    && FlowChecker.RoutingSound(Outline(d))
  }

  /** The same, as the check goes about it. */
  ghost predicate Passes(d: Form) {
    var o := Outline(d);
    && (forall s :: s in d.screens ==> Routed(d.model, s.id) && Exemplified(s) && CompleteScreen(s))
    && (forall e :: e in FlowChecker.Edges(d.model) ==> GoodRoute(FlowChecker.Ids(o.screens), e))
    && (exists s :: s in d.screens && s.terminal)
    && FlowChecker.RoutingSound(o)
  }

  // ---------- The complaints in the order they are listed ----------

  function UnroutedOf(screens: seq<FormScreen>, model: seq<FlowChecker.Route>): seq<Complaint> {
    if screens == [] then []
    else (if Routed(model, screens[0].id) then [] else [Unrouted(screens[0].id)]) + UnroutedOf(screens[1..], model)
  }

  function BadRoutesOf(ids: seq<string>, edges: seq<FlowChecker.Edge>): seq<Complaint> {
    if edges == [] then []
    else (if GoodRoute(ids, edges[0]) then [] else [BadRoute(edges[0])]) + BadRoutesOf(ids, edges[1..])
  }

  function NoExamplesIn(id: string, data: seq<DataField>): seq<Complaint> {
    if data == [] then []
    else (if data[0].hasExample then [] else [NoExample(id, data[0].name)]) + NoExamplesIn(id, data[1..])
  }

  function NoExamplesOf(screens: seq<FormScreen>): seq<Complaint> {
    if screens == [] then [] else NoExamplesIn(screens[0].id, screens[0].data) + NoExamplesOf(screens[1..])
  }

  function GapsOf(screens: seq<FormScreen>): seq<Gap> {
    if screens == [] then [] else Gaps(Arr(screens[0].children), [Step.Screen(screens[0].id)]) + GapsOf(screens[1..])
  }

  function Properties(gaps: seq<Gap>): seq<Complaint> {
    seq(|gaps|, i requires 0 <= i < |gaps| => Property(gaps[i]))
  }

  function Routings(faults: seq<FlowChecker.Fault>): seq<Complaint> {
    seq(|faults|, i requires 0 <= i < |faults| => Routing(faults[i]))
  }

  ghost function Complaints(d: Form): seq<Complaint> {
    UnroutedOf(d.screens, d.model)
    + BadRoutesOf(FlowChecker.Ids(Outline(d).screens), FlowChecker.Edges(d.model))
    + (if exists s :: s in d.screens && s.terminal then [] else [NoTerminal])
    + NoExamplesOf(d.screens)
    + Properties(GapsOf(d.screens))
    + Routings(FlowChecker.Faults(Outline(d)))
  }

  // ---------- The check ----------

  method MissingRequiredProperties(d: Form) returns (gaps: seq<Gap>)
    ensures gaps == GapsOf(d.screens)
  {
    hide Gaps;
    var check := new PropertyCheck();
    assert d.screens[0..] == d.screens;
    for i := 0 to |d.screens|
      invariant check.gaps + GapsOf(d.screens[i..]) == GapsOf(d.screens)
    {
      assert d.screens[i..][1..] == d.screens[i + 1..];
      check.Visit(Arr(d.screens[i].children), [Step.Screen(d.screens[i].id)]);
    }
    gaps := check.gaps;
  }

  method ComplaintsAbout(d: Form) returns (faults: seq<Complaint>)
    ensures faults == Complaints(d)
  {
    hide UnroutedOf, BadRoutesOf, NoExamplesOf, GapsOf, FlowChecker.Faults, FlowChecker.Edges;
    faults := UnroutedOf(d.screens, d.model)
              + BadRoutesOf(FlowChecker.Ids(Outline(d).screens), FlowChecker.Edges(d.model));
    if !exists s :: s in d.screens && s.terminal { faults := faults + [NoTerminal]; }
    faults := faults + NoExamplesOf(d.screens);
    var gaps := MissingRequiredProperties(d);
    var routing := FlowChecker.RoutingModelFaults(Outline(d));
    faults := faults + Properties(gaps) + Routings(routing);
  }

  /** Accepts the forms exactly when every one of them is publishable. */
  method Validate(forms: seq<Form>) returns (ok: bool)
    ensures ok <==> forall d :: d in forms ==> Publishable(d)
  {
    hide Publishable, Complaints;
    ok := true;
    for i := 0 to |forms|
      invariant ok <==> forall j :: 0 <= j < i ==> Publishable(forms[j])
    {
      var faults := ComplaintsAbout(forms[i]);
      NoComplaintsExactly(forms[i]);
      if |faults| > 0 { ok := false; }
    }
  }

  // ---------- No complaint exactly when publishable ----------

  lemma {:induction false} RoutedExactly(screens: seq<FormScreen>, model: seq<FlowChecker.Route>)
    ensures UnroutedOf(screens, model) == [] <==> forall s :: s in screens ==> Routed(model, s.id)
  {
    hide Routed;
    if screens != [] {
      RoutedExactly(screens[1..], model);
      assert screens == [screens[0]] + screens[1..];
    }
  }

  lemma {:induction false} RoutesExactly(ids: seq<string>, edges: seq<FlowChecker.Edge>)
    ensures BadRoutesOf(ids, edges) == [] <==> forall e :: e in edges ==> GoodRoute(ids, e)
  {
    hide GoodRoute;
    if edges != [] {
      RoutesExactly(ids, edges[1..]);
      assert edges == [edges[0]] + edges[1..];
    }
  }

  lemma {:induction false} ExamplesInExactly(id: string, data: seq<DataField>)
    ensures NoExamplesIn(id, data) == [] <==> forall f :: f in data ==> f.hasExample
  {
    if data != [] {
      ExamplesInExactly(id, data[1..]);
      assert data == [data[0]] + data[1..];
    }
  }

  lemma ExemplifiedExactly(s: FormScreen)
    ensures NoExamplesIn(s.id, s.data) == [] <==> Exemplified(s)
  {
    ExamplesInExactly(s.id, s.data);
  }

  lemma {:induction false} ExamplesExactly(screens: seq<FormScreen>)
    ensures NoExamplesOf(screens) == [] <==> forall s :: s in screens ==> Exemplified(s)
  {
    hide NoExamplesIn, Exemplified;
    if screens != [] {
      ExemplifiedExactly(screens[0]);
      ExamplesExactly(screens[1..]);
      assert screens == [screens[0]] + screens[1..];
    }
  }

  lemma {:induction false} CompleteExactly(screens: seq<FormScreen>)
    ensures GapsOf(screens) == [] <==> forall s :: s in screens ==> CompleteScreen(s)
  {
    hide Gaps, CompleteThroughout;
    if screens != [] {
      NoGapsExactly(Arr(screens[0].children), [Step.Screen(screens[0].id)]);
      CompleteExactly(screens[1..]);
      assert Gaps(Arr(screens[0].children), [Step.Screen(screens[0].id)]) == [] <==> CompleteScreen(screens[0]);
      assert screens == [screens[0]] + screens[1..];
    }
  }

  lemma RoutedIs(model: seq<FlowChecker.Route>, id: string)
    ensures Routed(model, id) <==> exists r :: r in model && r.from == id
  {
    if r :| r in model && r.from == id {
      var i :| 0 <= i < |model| && model[i] == r;
      assert model[i].from == id;
    }
    if i :| 0 <= i < |model| && model[i].from == id { assert model[i] in model; }
  }

  /** The outline holds each screen's name, whether it is terminal and whether it carries a Footer. */
  lemma OutlineFaithful(d: Form, i: nat)
    requires i < |d.screens|
    ensures var o := Outline(d);
            && o.model == d.model && |o.screens| == |d.screens|
            && o.screens[i].id == d.screens[i].id && (o.screens[i].terminal <==> d.screens[i].terminal)
            && ("Footer" in o.screens[i].children <==>
                  exists c :: c in d.screens[i].children && Kind(c) == Some("Footer"))
  {
    var kinds, children := Outline(d).screens[i].children, d.screens[i].children;
    assert forall k :: 0 <= k < |children| ==> kinds[k] == TypeOf(children[k]);
    if "Footer" in kinds {
      var k :| 0 <= k < |kinds| && kinds[k] == "Footer";
      assert children[k] in children && Kind(children[k]) == Some("Footer");
    }
    if c :| c in children && Kind(c) == Some("Footer") {
      var k :| 0 <= k < |children| && children[k] == c;
      assert kinds[k] == "Footer";
    }
  }

  lemma DeclaredIs(d: Form, id: string)
    ensures id in FlowChecker.Ids(Outline(d).screens) <==> exists s :: s in d.screens && s.id == id
  {
    var ids := FlowChecker.Ids(Outline(d).screens);
    assert |ids| == |d.screens| && forall i :: 0 <= i < |ids| ==> ids[i] == d.screens[i].id;
    if id in ids {
      var i :| 0 <= i < |ids| && ids[i] == id;
      assert d.screens[i] in d.screens;
    }
    if s :| s in d.screens && s.id == id {
      var i :| 0 <= i < |d.screens| && d.screens[i] == s;
      assert ids[i] == id;
    }
  }

  lemma GoodRoutes(d: Form)
    ensures (forall e :: e in FlowChecker.Edges(d.model) ==> GoodRoute(FlowChecker.Ids(Outline(d).screens), e)) <==>
            forall r, to :: r in d.model && to in r.tos ==> to != r.from && exists s :: s in d.screens && s.id == to
  {
    hide FlowChecker.Edges, FlowChecker.Ids, Outline;
    var edges := FlowChecker.Edges(d.model);
    forall e | e in edges ensures exists r :: r in d.model && r.from == e.from && e.to in r.tos {
      FlowChecker.EdgesAre(d.model, e);
      var i :| 0 <= i < |d.model| && d.model[i].from == e.from && e.to in d.model[i].tos;
      assert d.model[i] in d.model;
    }
    forall r, to | r in d.model && to in r.tos ensures FlowChecker.Edge(r.from, to) in edges {
      FlowChecker.EdgesAre(d.model, FlowChecker.Edge(r.from, to));
    }
    forall id ensures id in FlowChecker.Ids(Outline(d).screens) <==> exists s :: s in d.screens && s.id == id {
      DeclaredIs(d, id);
    }
    RoutesBothWays(d, edges, FlowChecker.Ids(Outline(d).screens));
  }

  lemma RoutesBothWays(d: Form, edges: seq<FlowChecker.Edge>, ids: seq<string>)
    requires forall e :: e in edges ==> exists r :: r in d.model && r.from == e.from && e.to in r.tos
    requires forall r, to :: r in d.model && to in r.tos ==> FlowChecker.Edge(r.from, to) in edges
    requires forall id :: id in ids <==> exists s :: s in d.screens && s.id == id
    ensures (forall e :: e in edges ==> GoodRoute(ids, e)) <==>
            forall r, to :: r in d.model && to in r.tos ==> to != r.from && exists s :: s in d.screens && s.id == to
  {
    if forall e :: e in edges ==> GoodRoute(ids, e) {
      forall r, to | r in d.model && to in r.tos
        ensures to != r.from && exists s :: s in d.screens && s.id == to
      {
        assert GoodRoute(ids, FlowChecker.Edge(r.from, to));
      }
    }
  }

  lemma PassesExactly(d: Form)
    ensures Passes(d) <==> Publishable(d)
  {
    hide FlowChecker.RoutingSound, FlowChecker.Edges, FlowChecker.Ids, Outline, Routed, GoodRoute, CompleteScreen;
    GoodRoutes(d);
    forall id ensures Routed(d.model, id) <==> exists r :: r in d.model && r.from == id { RoutedIs(d.model, id); }
  }

  /** Nothing is complained of exactly when the definition is publishable. */
  lemma NoComplaintsExactly(d: Form)
    ensures Complaints(d) == [] <==> Publishable(d)
  {
    hide Complaints, Passes, Publishable;
    NoComplaintsPasses(d);
    PassesExactly(d);
  }

  lemma NoComplaintsPasses(d: Form)
    ensures Complaints(d) == [] <==> Passes(d)
  {
    hide FlowChecker.RoutingSound, FlowChecker.Faults, FlowChecker.Edges, FlowChecker.Ids, Outline, Routed, GoodRoute,
         Exemplified, CompleteScreen, UnroutedOf, BadRoutesOf, NoExamplesOf, GapsOf;
    RoutedExactly(d.screens, d.model);
    RoutesExactly(FlowChecker.Ids(Outline(d).screens), FlowChecker.Edges(d.model));
    ExamplesExactly(d.screens);
    CompleteExactly(d.screens);
    FlowChecker.FaultlessExactly(Outline(d));
  }

  // ---------- What a publishable form promises whoever fills it in ----------

  lemma {:induction false} OnwardIsARoute(model: seq<FlowChecker.Route>, id: string, to: string)
    requires to in FlowChecker.Onward(model, id)
    ensures FlowChecker.Edge(id, to) in FlowChecker.Edges(model)
  {
    if model[0].from == id {
      var i :| 0 <= i < |model[0].tos| && model[0].tos[i] == to;
      assert FlowChecker.EdgesFrom(id, model[0].tos)[i] == FlowChecker.Edge(id, to);
    } else {
      OnwardIsARoute(model[1..], id, to);
    }
  }

  lemma PublishableStaysInside(d: Form)
    requires Publishable(d)
    ensures FlowChecker.RoutesInside(Outline(d))
  {
    PassesExactly(d);
    var o := Outline(d);
    forall id, to | id in FlowChecker.Ids(o.screens) && to in FlowChecker.Onward(d.model, id)
      ensures to in FlowChecker.Ids(o.screens)
    {
      OnwardIsARoute(d.model, id, to);
      assert GoodRoute(FlowChecker.Ids(o.screens), FlowChecker.Edge(id, to));
    }
  }

  /** Through an accepted form without cycles every walk goes on to a terminal screen with a Footer. */
  lemma PublishableFormsEnd(d: Form, p: seq<string>) returns (q: seq<string>)
    requires Publishable(d) && FlowChecker.Acyclic(Outline(d)) && FlowChecker.Walk(Outline(d), p)
    ensures FlowChecker.Walk(Outline(d), q) && p <= q && FlowChecker.Ends(Outline(d), q)
  {
    hide FlowChecker.Walk, FlowChecker.Ends, FlowChecker.Acyclic, FlowChecker.Faults, FlowChecker.RoutingSound;
    PublishableStaysInside(d);
    FlowChecker.FaultlessExactly(Outline(d));
    q := FlowChecker.EveryWalkReachesAnEnd(Outline(d), p);
  }
}
